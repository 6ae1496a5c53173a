/** World collision detection (CheckWorldCollision): whether a sprite's
    bounding box at a position would overlap solid map tiles in a movement
    direction, plus the conveyor belt, ladder and climbable reports and the
    player's stair step. */
module Collision {
  import opened Words
  import opened Tiles

  /** The map as the code reads it: the word at a cell offset from the
      start of the map data. Map reads are uninterpreted; offsets are
      linear cell indices. */
  type MapMemory = int -> word

  datatype MapGeometry = MapGeometry(widthShift: word, width: word, bottom: word)

  /** MD_UP, MD_DOWN, MD_LEFT, MD_RIGHT, MD_PROJECTILE. */
  datatype Direction = Up | Down | Left | Right | Projectile

  /** CR_NONE, CR_COLLISION, CR_CLIMBABLE, CR_LADDER. */
  datatype CollisionResult = NoCollision | Colliding | Climbable | Ladder

  /** CB_NONE, CB_LEFT, CB_RIGHT. */
  datatype Conveyor = NoConveyor | ConveyorLeft | ConveyorRight

  /** The sprite metadata of an actor's frame: bounding box size and the
      offset of the box from the actor's position. */
  datatype SpriteBox = SpriteBox(height: word, width: word, xOffset: word, yOffset: word)

  /** What the collision code reads of the player: the two Duke actor ids,
      the position, whether the player state is PS_NORMAL, and the input. */
  datatype PlayerContext = PlayerContext(
    dukeLeft: word,
    dukeRight: word,
    posX: word,
    posY: word,
    stateNormal: bool,
    moveUp: bool,
    moveLeft: bool,
    moveRight: bool)

  /** The return value, the conveyor result, and the player position, which
      the ladder and stair step cases move. */
  datatype Outcome = Outcome(result: CollisionResult, conveyor: Conveyor, posX: word, posY: word)

  /** The box actually tested: for Duke, the weapon's column is left out on
      the frames where it sticks out; other actors are shifted by their
      frame's offsets. */
  datatype Probe = Probe(x: word, y: word, width: word, height: word, isPlayer: bool)

  function AdjustBox(actorId: word, frame: word, x: word, y: word, box: SpriteBox, p: PlayerContext): (pr: Probe)
    ensures pr.height == box.height
    ensures pr.isPlayer <==> (actorId == p.dukeLeft || actorId == p.dukeRight)
  {
    if actorId == p.dukeLeft then
      if frame == 0 || frame == 37 then Probe(Wrap16(x + 1), y, Wrap16(box.width - 1), box.height, true)
      else Probe(x, y, box.width, box.height, true)
    else if actorId == p.dukeRight then
      Probe(x, y, if frame == 0 then Wrap16(box.width - 1) else box.width, box.height, true)
    else
      Probe(Wrap16(x + box.xOffset), Wrap16(y + box.yOffset), box.width, box.height, false)
  }

  /** `y - height + 1`, stored in a signed 16-bit int. */
  function BoxTop(pr: Probe): sword
  {
    AsSigned(Wrap16(pr.y - pr.height + 1))
  }

  /** Offset of the first cell of map row y: `y << mapWidthShift`. */
  function RowStart(g: MapGeometry, y: word): word
  {
    Wrap16(y * Pow2(g.widthShift))
  }

  /** The cells of the box's top row, left to right. */
  function TopRow(g: MapGeometry, mem: MapMemory, pr: Probe): (cells: seq<word>)
    ensures |cells| == pr.width
  {
    var start := RowStart(g, Wrap16(pr.y - pr.height + 1)) + pr.x;
    seq(pr.width, i => mem(start + i))
  }

  /** The cells of the box's bottom row, left to right. */
  function BottomRow(g: MapGeometry, mem: MapMemory, pr: Probe): (cells: seq<word>)
    ensures |cells| == pr.width
  {
    var start := RowStart(g, pr.y) + pr.x;
    seq(pr.width, i => mem(start + i))
  }

  /** The cells of column `col` of the box, from the bottom row upward. */
  function Column(g: MapGeometry, mem: MapMemory, pr: Probe, col: int): (cells: seq<word>)
    ensures |cells| == pr.height
  {
    var start := RowStart(g, pr.y) + col;
    seq(pr.height, i => mem(start - i * g.width))
  }

  // ---------------------------------------------------------------------
  // Projectile mode

  /** A cell stops a projectile scan: a composite tile lets it through, a
      tile with any solid edge stops it. */
  predicate Decisive(attrs: Attributes, c: word)
  {
    IsComposite(c) || AnySolid(AttributesOf(attrs, c))
  }

  function ScanProjectile(attrs: Attributes, cells: seq<word>): CollisionResult
  {
    if cells == [] then NoCollision
    else if IsComposite(cells[0]) then NoCollision
    else if AnySolid(AttributesOf(attrs, cells[0])) then Colliding
    else ScanProjectile(attrs, cells[1..])
  }

  /** The scan collides exactly when its first decisive cell is solid and
      not composite. */
  lemma {:induction false} ScanProjectileSpec(attrs: Attributes, cells: seq<word>)
    ensures ScanProjectile(attrs, cells) != Climbable && ScanProjectile(attrs, cells) != Ladder
    ensures ScanProjectile(attrs, cells) == Colliding <==>
      exists k :: 0 <= k < |cells| && !IsComposite(cells[k]) && AnySolid(AttributesOf(attrs, cells[k])) &&
        forall j :: 0 <= j < k ==> !Decisive(attrs, cells[j])
  {
    if cells != [] && !Decisive(attrs, cells[0]) {
      ScanProjectileSpec(attrs, cells[1..]);
      var r := ScanProjectile(attrs, cells);
      if r == Colliding {
        var k :| 0 <= k < |cells[1..]| && !IsComposite(cells[1..][k]) && AnySolid(AttributesOf(attrs, cells[1..][k])) &&
          forall j :: 0 <= j < k ==> !Decisive(attrs, cells[1..][j]);
        assert forall j :: 0 <= j < k + 1 ==> !Decisive(attrs, cells[j]) by {
          forall j | 0 <= j < k + 1 ensures !Decisive(attrs, cells[j]) {
            if j > 0 { assert cells[j] == cells[1..][j - 1]; }
          }
        }
        assert cells[k + 1] == cells[1..][k];
      }
      if exists k :: 0 <= k < |cells| && !IsComposite(cells[k]) && AnySolid(AttributesOf(attrs, cells[k])) &&
          forall j :: 0 <= j < k ==> !Decisive(attrs, cells[j]) {
        var k :| 0 <= k < |cells| && !IsComposite(cells[k]) && AnySolid(AttributesOf(attrs, cells[k])) &&
          forall j :: 0 <= j < k ==> !Decisive(attrs, cells[j]);
        assert k != 0;
        assert forall j :: 0 <= j < k - 1 ==> !Decisive(attrs, cells[1..][j]) by {
          forall j | 0 <= j < k - 1 ensures !Decisive(attrs, cells[1..][j]) {
            assert cells[1..][j] == cells[j + 1];
          }
        }
        assert cells[1..][k - 1] == cells[k];
      }
    }
  }

  // ---------------------------------------------------------------------
  // Left and right: solid side edges and the stair step

  /** Scans a side column bottom-up for the given solid-edge attribute.
      When stair stepping applies, a hit in the bottom row (i == 0) only
      marks the stair step; any other hit collides. Returns whether it
      collided and whether the stair step was marked. */
  function ScanSide(attrs: Attributes, cells: seq<word>, attribute: nat, stairs: bool, i: nat, atStairStep: bool)
    : (r: (bool, bool))
    requires i <= |cells|
    decreases |cells| - i
  {
    if i == |cells| then (false, atStairStep)
    else if HasTileAttribute(attrs, cells[i], attribute) then
      if stairs then
        if i != 0 then (true, true) else ScanSide(attrs, cells, attribute, stairs, i + 1, true)
      else (true, atStairStep)
    else ScanSide(attrs, cells, attribute, stairs, i + 1, atStairStep)
  }

  /** Without stair stepping the side collides iff some cell has the
      attribute. With it, the side collides iff a cell above the bottom row
      has it, and a stair step is taken iff only the bottom cell has it. */
  lemma {:induction false} ScanSideSpec(attrs: Attributes, cells: seq<word>, attribute: nat, stairs: bool, i: nat, atStairStep: bool)
    requires i <= |cells|
    requires atStairStep ==> i > 0
    ensures var (hit, step) := ScanSide(attrs, cells, attribute, stairs, i, atStairStep);
      && (!stairs ==> (hit <==> exists k :: i <= k < |cells| && HasTileAttribute(attrs, cells[k], attribute)))
      && (stairs ==> (hit <==> exists k :: i <= k < |cells| && k != 0 && HasTileAttribute(attrs, cells[k], attribute)))
      && (stairs && !hit ==> (step <==> atStairStep || (i == 0 && 0 < |cells| && HasTileAttribute(attrs, cells[0], attribute))))
      && (!stairs ==> step == atStairStep)
    decreases |cells| - i
  {
    if i < |cells| {
      if HasTileAttribute(attrs, cells[i], attribute) {
        if stairs && i == 0 {
          ScanSideSpec(attrs, cells, attribute, stairs, i + 1, true);
        }
      } else {
        ScanSideSpec(attrs, cells, attribute, stairs, i + 1, atStairStep);
      }
    }
  }

  // ---------------------------------------------------------------------
  // Down: solid tops and conveyor belts

  /** Scans the bottom row left to right. A conveyor-left tile reports
      CB_LEFT; a conveyor-right tile reports CB_RIGHT if the row's last
      cell is a conveyor-right tile or has no solid top; a solid top stops
      the scan with a collision, keeping the conveyor result so far. */
  function ScanDown(attrs: Attributes, cells: seq<word>, i: nat, conveyor: Conveyor): (r: (bool, Conveyor))
    requires 0 < |cells| && i <= |cells|
    decreases |cells| - i
  {
    if i == |cells| then (false, conveyor)
    else
      var last := cells[|cells| - 1];
      var c := cells[i];
      var c1 := if HasTileAttribute(attrs, c, TA_CONVEYOR_L) then ConveyorLeft else conveyor;
      var c2 := if HasTileAttribute(attrs, c, TA_CONVEYOR_R) &&
                   (HasTileAttribute(attrs, last, TA_CONVEYOR_R) || !HasTileAttribute(attrs, last, TA_SOLID_TOP))
                then ConveyorRight else c1;
      if HasTileAttribute(attrs, c, TA_SOLID_TOP) then (true, c2)
      else ScanDown(attrs, cells, i + 1, c2)
  }

  /** The conveyor effect of one cell, if any. */
  function ConveyorOf(attrs: Attributes, cells: seq<word>, k: nat): Conveyor
    requires k < |cells|
  {
    var last := cells[|cells| - 1];
    if HasTileAttribute(attrs, cells[k], TA_CONVEYOR_R) &&
       (HasTileAttribute(attrs, last, TA_CONVEYOR_R) || !HasTileAttribute(attrs, last, TA_SOLID_TOP))
    then ConveyorRight
    else if HasTileAttribute(attrs, cells[k], TA_CONVEYOR_L) then ConveyorLeft
    else NoConveyor
  }

  /** Cell k of the bottom row is reached by a scan that starts at i: no
      cell from i up to k has a solid top. */
  predicate ScannedDown(attrs: Attributes, cells: seq<word>, i: nat, k: nat)
  {
    i <= k < |cells| && forall j :: i <= j < k ==> !HasTileAttribute(attrs, cells[j], TA_SOLID_TOP)
  }

  /** Cell k is the last reached cell that has a conveyor effect. */
  predicate LastConveyorCell(attrs: Attributes, cells: seq<word>, i: nat, k: nat)
  {
    && ScannedDown(attrs, cells, i, k) && ConveyorOf(attrs, cells, k) != NoConveyor
    && forall j :: k < j < |cells| && ScannedDown(attrs, cells, i, j) ==> ConveyorOf(attrs, cells, j) == NoConveyor
  }

  /** At most one cell is the last reached conveyor cell. */
  lemma LastConveyorCellUnique(attrs: Attributes, cells: seq<word>, i: nat, k1: nat, k2: nat)
    requires LastConveyorCell(attrs, cells, i, k1) && LastConveyorCell(attrs, cells, i, k2)
    ensures k1 == k2
  {
  }

  /** Past a cell without a solid top, a scan from that cell and a scan
      from the next one reach the same later cells. */
  lemma ScannedDownShift(attrs: Attributes, cells: seq<word>, i: nat)
    requires i < |cells| && !HasTileAttribute(attrs, cells[i], TA_SOLID_TOP)
    ensures forall k :: i < k ==> (ScannedDown(attrs, cells, i, k) <==> ScannedDown(attrs, cells, i + 1, k))
  {
  }

  /** The bottom row collides iff some cell has a solid top. The conveyor
      result is that of the last cell with a conveyor effect among the cells
      scanned, which end at the first solid top; without one, the result
      is the one the scan started with. */
  lemma {:induction false} ScanDownSpec(attrs: Attributes, cells: seq<word>, i: nat, conveyor: Conveyor)
    requires 0 < |cells| && i <= |cells|
    ensures var (hit, c) := ScanDown(attrs, cells, i, conveyor);
      && (hit <==> exists k :: i <= k < |cells| && HasTileAttribute(attrs, cells[k], TA_SOLID_TOP))
      && ((forall k :: ScannedDown(attrs, cells, i, k) ==> ConveyorOf(attrs, cells, k) == NoConveyor) ==> c == conveyor)
      && ((exists k :: ScannedDown(attrs, cells, i, k) && ConveyorOf(attrs, cells, k) != NoConveyor) ==>
            exists k :: LastConveyorCell(attrs, cells, i, k) && c == ConveyorOf(attrs, cells, k))
      && (forall k :: LastConveyorCell(attrs, cells, i, k) ==> c == ConveyorOf(attrs, cells, k))
    decreases |cells| - i
  {
    if i < |cells| {
      var (hit, c) := ScanDown(attrs, cells, i, conveyor);
      var c2 := ConveyorOf(attrs, cells, i);
      var next := if c2 == NoConveyor then conveyor else c2;
      assert ScannedDown(attrs, cells, i, i);
      if !HasTileAttribute(attrs, cells[i], TA_SOLID_TOP) {
        ScanDownSpec(attrs, cells, i + 1, next);
        assert ScanDown(attrs, cells, i, conveyor) == ScanDown(attrs, cells, i + 1, next);
        ScannedDownShift(attrs, cells, i);
        if exists k :: ScannedDown(attrs, cells, i + 1, k) && ConveyorOf(attrs, cells, k) != NoConveyor {
          var k :| LastConveyorCell(attrs, cells, i + 1, k) && c == ConveyorOf(attrs, cells, k);
          assert LastConveyorCell(attrs, cells, i, k);
          forall k' | LastConveyorCell(attrs, cells, i, k') ensures c == ConveyorOf(attrs, cells, k') {
            LastConveyorCellUnique(attrs, cells, i, k, k');
          }
        } else if c2 != NoConveyor {
          assert LastConveyorCell(attrs, cells, i, i);
          forall k' | LastConveyorCell(attrs, cells, i, k') ensures c == ConveyorOf(attrs, cells, k') {
            LastConveyorCellUnique(attrs, cells, i, i, k');
          }
        }
      } else {
        assert c == next;
        assert forall k :: ScannedDown(attrs, cells, i, k) ==> k == i;
      }
    }
  }

  // ---------------------------------------------------------------------
  // Up: solid bottoms, climbables and ladders

  /** Moving up: `first`, `second` and `third` are the top row's first
      three cells. Duke reports a climbable or ladder tile at his second
      column; while pushing only up he is pulled one column sideways onto a
      ladder beside it. */
  function CheckUp(attrs: Attributes, top: seq<word>, p: PlayerContext, isPlayer: bool, second: word, first: word, third: word)
    : (o: Outcome)
    ensures o.conveyor == NoConveyor && o.posY == p.posY
    ensures o.result == Colliding <==>
      !(isPlayer && HasTileAttribute(attrs, second, TA_CLIMBABLE)) &&
      exists i :: 0 <= i < |top| && HasTileAttribute(attrs, top[i], TA_SOLID_BOTTOM)
    ensures o.result in {Climbable, Ladder} ==> isPlayer
    ensures o.result == Climbable <==> isPlayer && HasTileAttribute(attrs, second, TA_CLIMBABLE)
    ensures o.result == Ladder <==>
      && isPlayer && !HasTileAttribute(attrs, second, TA_CLIMBABLE)
      && (forall i :: 0 <= i < |top| ==> !HasTileAttribute(attrs, top[i], TA_SOLID_BOTTOM))
      && (|| HasTileAttribute(attrs, second, TA_LADDER)
          || (!p.moveLeft && !p.moveRight && p.moveUp &&
              (HasTileAttribute(attrs, first, TA_LADDER) || HasTileAttribute(attrs, third, TA_LADDER))))
    ensures o.posX ==
      if o.result == Ladder && !HasTileAttribute(attrs, second, TA_LADDER) then
        (if HasTileAttribute(attrs, first, TA_LADDER) then Wrap16(p.posX - 1) else Wrap16(p.posX + 1))
      else p.posX
    ensures o.posX != p.posX ==>
      o.result == Ladder && p.moveUp && !p.moveLeft && !p.moveRight &&
      !HasTileAttribute(attrs, second, TA_LADDER) &&
      (o.posX == Wrap16(p.posX - 1) <==> HasTileAttribute(attrs, first, TA_LADDER))
  {
    if isPlayer && HasTileAttribute(attrs, second, TA_CLIMBABLE) then Outcome(Climbable, NoConveyor, p.posX, p.posY)
    else if exists i :: 0 <= i < |top| && HasTileAttribute(attrs, top[i], TA_SOLID_BOTTOM) then
      Outcome(Colliding, NoConveyor, p.posX, p.posY)
    else if !isPlayer then Outcome(NoCollision, NoConveyor, p.posX, p.posY)
    else if HasTileAttribute(attrs, second, TA_LADDER) then Outcome(Ladder, NoConveyor, p.posX, p.posY)
    else if p.moveLeft || p.moveRight then Outcome(NoCollision, NoConveyor, p.posX, p.posY)
    else if p.moveUp && HasTileAttribute(attrs, first, TA_LADDER) then
      Outcome(Ladder, NoConveyor, Wrap16(p.posX - 1), p.posY)
    else if p.moveUp && HasTileAttribute(attrs, third, TA_LADDER) then
      Outcome(Ladder, NoConveyor, Wrap16(p.posX + 1), p.posY)
    else Outcome(NoCollision, NoConveyor, p.posX, p.posY)
  }

  /** CheckWorldCollision. `box` is the sprite metadata of (actorId, frame). */
  function CheckWorldCollision(g: MapGeometry, mem: MapMemory, attrs: Attributes, p: PlayerContext,
                               direction: Direction, actorId: word, frame: word, x: word, y: word, box: SpriteBox)
    : (o: Outcome)
    ensures direction != Down ==> o.conveyor == NoConveyor
    ensures direction != Up ==> o.posX == p.posX
    ensures direction !in {Left, Right} ==> o.posY == p.posY
    ensures o.result == Climbable ==> direction == Up
    ensures o.result == Ladder ==> direction in {Up, Down}
  {
    var none := Outcome(NoCollision, NoConveyor, p.posX, p.posY);
    var blocked := Outcome(Colliding, NoConveyor, p.posX, p.posY);
    if actorId == p.dukeLeft && p.posX == 0 && direction == Left then blocked
    else
      var pr := AdjustBox(actorId, frame, x, y, box, p);
      match direction
      case Projectile =>
        if BoxTop(pr) < 0 || pr.y == 0 then none
        else
          var r := ScanProjectile(attrs, TopRow(g, mem, pr) + Column(g, mem, pr, pr.x));
          ScanProjectileSpec(attrs, TopRow(g, mem, pr) + Column(g, mem, pr, pr.x));
          none.(result := r)
      case Up =>
        if BoxTop(pr) < 0 then none
        else
          var start := RowStart(g, Wrap16(pr.y - pr.height + 1)) + pr.x;
          CheckUp(attrs, TopRow(g, mem, pr), p, pr.isPlayer, mem(start + 1), mem(start), mem(start + 2))
      case Down => CheckDown(g, mem, attrs, p, pr)
      case Left => CheckSide(g, mem, attrs, p, pr, true)
      case Right => CheckSide(g, mem, attrs, p, pr, false)
  }

  /** The Down case of CheckWorldCollision for the adjusted box. */
  function CheckDown(g: MapGeometry, mem: MapMemory, attrs: Attributes, p: PlayerContext, pr: Probe): (o: Outcome)
    ensures o.posX == p.posX && o.posY == p.posY && o.result != Climbable
  {
    if pr.y > g.bottom then Outcome(NoCollision, NoConveyor, p.posX, p.posY)
    else
      var start := RowStart(g, pr.y) + pr.x;
      var row := BottomRow(g, mem, pr);
      var (hit, c) := if pr.width == 0 then (false, NoConveyor) else ScanDown(attrs, row, 0, NoConveyor);
      if hit then Outcome(Colliding, c, p.posX, p.posY)
      else if pr.isPlayer && HasTileAttribute(attrs, mem(start + 1), TA_LADDER) then Outcome(Ladder, c, p.posX, p.posY)
      else Outcome(NoCollision, c, p.posX, p.posY)
  }

  /** The Left and Right cases of CheckWorldCollision for the adjusted box:
      the map edge on that side is solid, and otherwise the box's column on
      that side is scanned for the facing solid edge. */
  function CheckSide(g: MapGeometry, mem: MapMemory, attrs: Attributes, p: PlayerContext, pr: Probe, left: bool)
    : (o: Outcome)
    ensures o.conveyor == NoConveyor && o.posX == p.posX && o.result in {NoCollision, Colliding}
  {
    var none := Outcome(NoCollision, NoConveyor, p.posX, p.posY);
    var blocked := Outcome(Colliding, NoConveyor, p.posX, p.posY);
    if BoxTop(pr) < 0 then none
    else if (if left then pr.x > g.width else Wrap16(pr.x + pr.width - 1) >= g.width) then blocked
    else
      var col := if left then pr.x else Wrap16(pr.x + pr.width - 1);
      var attribute := if left then TA_SOLID_RIGHT else TA_SOLID_LEFT;
      var (hit, step) := ScanSide(attrs, Column(g, mem, pr, col), attribute, pr.isPlayer && p.stateNormal, 0, false);
      if hit then blocked
      else if step then none.(posY := Wrap16(p.posY - 1))
      else none
  }

  /** The early exits: Duke facing left at the map's left edge cannot move
      left; a box reaching above the map never collides moving up, left,
      right or as a projectile; a box below the map bottom never collides
      moving down; the map's left and right edges are solid. */
  lemma CollisionEdges(g: MapGeometry, mem: MapMemory, attrs: Attributes, p: PlayerContext,
                       direction: Direction, actorId: word, frame: word, x: word, y: word, box: SpriteBox)
    ensures var o := CheckWorldCollision(g, mem, attrs, p, direction, actorId, frame, x, y, box);
      var pr := AdjustBox(actorId, frame, x, y, box, p);
      && (actorId == p.dukeLeft && p.posX == 0 && direction == Left ==> o.result == Colliding)
      && (!(actorId == p.dukeLeft && p.posX == 0) && direction in {Up, Left, Right, Projectile} && BoxTop(pr) < 0 ==>
            o == Outcome(NoCollision, NoConveyor, p.posX, p.posY))
      && (direction == Projectile && pr.y == 0 ==> o.result == NoCollision)
      && (direction == Down && pr.y > g.bottom ==> o == Outcome(NoCollision, NoConveyor, p.posX, p.posY))
      && (!(actorId == p.dukeLeft && p.posX == 0) && direction == Left && BoxTop(pr) >= 0 && pr.x > g.width ==>
            o.result == Colliding)
      && (direction == Right && BoxTop(pr) >= 0 && Wrap16(pr.x + pr.width - 1) >= g.width ==>
            o.result == Colliding)
  {
  }

  /** Stair steps: for Duke in the normal state, a solid side edge only in
      the bottom row of the box moves him up by one and reports no
      collision; a solid edge in any higher row collides and leaves him in
      place. For any other actor or state, any solid edge collides. */
  lemma StairStep(g: MapGeometry, mem: MapMemory, attrs: Attributes, p: PlayerContext,
                  direction: Direction, actorId: word, frame: word, x: word, y: word, box: SpriteBox)
    requires direction in {Left, Right}
    requires !(actorId == p.dukeLeft && p.posX == 0 && direction == Left)
    ensures var pr := AdjustBox(actorId, frame, x, y, box, p);
      var o := CheckWorldCollision(g, mem, attrs, p, direction, actorId, frame, x, y, box);
      var edgeInMap := BoxTop(pr) >= 0 &&
        (if direction == Left then pr.x <= g.width else Wrap16(pr.x + pr.width - 1) < g.width);
      var col := if direction == Left then pr.x else Wrap16(pr.x + pr.width - 1);
      var cells := Column(g, mem, pr, col);
      var attribute := if direction == Left then TA_SOLID_RIGHT else TA_SOLID_LEFT;
      edgeInMap ==>
        && (pr.isPlayer && p.stateNormal ==>
              && (o.result == Colliding <==>
                    exists k :: 1 <= k < |cells| && HasTileAttribute(attrs, cells[k], attribute))
              && (o.result != Colliding ==>
                    (o.posY == p.posY <==> !(|cells| > 0 && HasTileAttribute(attrs, cells[0], attribute))))
              && (o.result != Colliding && |cells| > 0 && HasTileAttribute(attrs, cells[0], attribute) ==>
                    o.posY == Wrap16(p.posY - 1)))
        && (!(pr.isPlayer && p.stateNormal) ==>
              && (o.result == Colliding <==>
                    exists k :: 0 <= k < |cells| && HasTileAttribute(attrs, cells[k], attribute))
              && o.posY == p.posY)
  {
    var pr := AdjustBox(actorId, frame, x, y, box, p);
    var left := direction == Left;
    assert CheckWorldCollision(g, mem, attrs, p, direction, actorId, frame, x, y, box) == CheckSide(g, mem, attrs, p, pr, left);
    SideScan(g, mem, attrs, p, pr, left);
  }

  /** StairStep for the adjusted box. */
  lemma SideScan(g: MapGeometry, mem: MapMemory, attrs: Attributes, p: PlayerContext, pr: Probe, left: bool)
    ensures var o := CheckSide(g, mem, attrs, p, pr, left);
      var edgeInMap := BoxTop(pr) >= 0 &&
        (if left then pr.x <= g.width else Wrap16(pr.x + pr.width - 1) < g.width);
      var col := if left then pr.x else Wrap16(pr.x + pr.width - 1);
      var cells := Column(g, mem, pr, col);
      var attribute := if left then TA_SOLID_RIGHT else TA_SOLID_LEFT;
      edgeInMap ==>
        && (pr.isPlayer && p.stateNormal ==>
              && (o.result == Colliding <==>
                    exists k :: 1 <= k < |cells| && HasTileAttribute(attrs, cells[k], attribute))
              && (o.result != Colliding ==>
                    (o.posY == p.posY <==> !(|cells| > 0 && HasTileAttribute(attrs, cells[0], attribute))))
              && (o.result != Colliding && |cells| > 0 && HasTileAttribute(attrs, cells[0], attribute) ==>
                    o.posY == Wrap16(p.posY - 1)))
        && (!(pr.isPlayer && p.stateNormal) ==>
              && (o.result == Colliding <==>
                    exists k :: 0 <= k < |cells| && HasTileAttribute(attrs, cells[k], attribute))
              && o.posY == p.posY)
  {
    var col := if left then pr.x else Wrap16(pr.x + pr.width - 1);
    var attribute := if left then TA_SOLID_RIGHT else TA_SOLID_LEFT;
    var cells := Column(g, mem, pr, col);
    ScanSideSpec(attrs, cells, attribute, pr.isPlayer && p.stateNormal, 0, false);
  }

  /** Projectile mode scans the top row left to right, then the left
      column bottom-up, and collides iff the first cell that is composite
      or solid is a solid, non-composite one. */
  lemma ProjectileScan(g: MapGeometry, mem: MapMemory, attrs: Attributes, p: PlayerContext,
                       actorId: word, frame: word, x: word, y: word, box: SpriteBox)
    ensures var pr := AdjustBox(actorId, frame, x, y, box, p);
      var o := CheckWorldCollision(g, mem, attrs, p, Projectile, actorId, frame, x, y, box);
      var cells := TopRow(g, mem, pr) + Column(g, mem, pr, pr.x);
      && (o.result == Colliding <==>
            (BoxTop(pr) >= 0 && pr.y != 0 &&
             exists k :: 0 <= k < |cells| && !IsComposite(cells[k]) && AnySolid(AttributesOf(attrs, cells[k])) &&
               forall j :: 0 <= j < k ==> !Decisive(attrs, cells[j])))
      && (o.result == NoCollision || o.result == Colliding)
  {
    var pr := AdjustBox(actorId, frame, x, y, box, p);
    ScanProjectileSpec(attrs, TopRow(g, mem, pr) + Column(g, mem, pr, pr.x));
  }

  /** Moving down collides iff a bottom-row cell has a solid top; Duke
      reports a ladder under his second column otherwise. */
  lemma DownScan(g: MapGeometry, mem: MapMemory, attrs: Attributes, p: PlayerContext,
                 actorId: word, frame: word, x: word, y: word, box: SpriteBox)
    ensures var pr := AdjustBox(actorId, frame, x, y, box, p);
      var o := CheckWorldCollision(g, mem, attrs, p, Down, actorId, frame, x, y, box);
      var row := BottomRow(g, mem, pr);
      pr.y <= g.bottom ==>
        && (o.result == Colliding <==> exists k :: 0 <= k < |row| && HasTileAttribute(attrs, row[k], TA_SOLID_TOP))
        && (o.result == Ladder <==>
              (o.result != Colliding && pr.isPlayer &&
               HasTileAttribute(attrs, mem(RowStart(g, pr.y) + pr.x + 1), TA_LADDER)))
        && ((forall k :: ScannedDown(attrs, row, 0, k) ==> ConveyorOf(attrs, row, k) == NoConveyor) ==>
              o.conveyor == NoConveyor)
        && ((exists k :: ScannedDown(attrs, row, 0, k) && ConveyorOf(attrs, row, k) != NoConveyor) ==>
              exists k :: LastConveyorCell(attrs, row, 0, k) && o.conveyor == ConveyorOf(attrs, row, k))
        && (forall k :: LastConveyorCell(attrs, row, 0, k) ==> o.conveyor == ConveyorOf(attrs, row, k))
  {
    var pr := AdjustBox(actorId, frame, x, y, box, p);
    assert CheckWorldCollision(g, mem, attrs, p, Down, actorId, frame, x, y, box) == CheckDown(g, mem, attrs, p, pr);
    DownRow(g, mem, attrs, p, pr);
  }

  /** DownScan for the adjusted box. */
  lemma DownRow(g: MapGeometry, mem: MapMemory, attrs: Attributes, p: PlayerContext, pr: Probe)
    ensures var o := CheckDown(g, mem, attrs, p, pr);
      var row := BottomRow(g, mem, pr);
      pr.y <= g.bottom ==>
        && (o.result == Colliding <==> exists k :: 0 <= k < |row| && HasTileAttribute(attrs, row[k], TA_SOLID_TOP))
        && (o.result == Ladder <==>
              (o.result != Colliding && pr.isPlayer &&
               HasTileAttribute(attrs, mem(RowStart(g, pr.y) + pr.x + 1), TA_LADDER)))
        && ((forall k :: ScannedDown(attrs, row, 0, k) ==> ConveyorOf(attrs, row, k) == NoConveyor) ==>
              o.conveyor == NoConveyor)
        && ((exists k :: ScannedDown(attrs, row, 0, k) && ConveyorOf(attrs, row, k) != NoConveyor) ==>
              exists k :: LastConveyorCell(attrs, row, 0, k) && o.conveyor == ConveyorOf(attrs, row, k))
        && (forall k :: LastConveyorCell(attrs, row, 0, k) ==> o.conveyor == ConveyorOf(attrs, row, k))
  {
    var row := BottomRow(g, mem, pr);
    if pr.width != 0 {
      ScanDownSpec(attrs, row, 0, NoConveyor);
    }
  }
}
