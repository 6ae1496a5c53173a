/** One frame of the in-game loop: the tile animation update, the map and
    backdrop drawing pass, and the order in which the other systems draw.
    Blits are recorded as a trace of drawing events. */
module Renderer {
  import opened Words
  import opened Tiles
  import opened Common
  import opened Wrappers

  /** Number of map columns visible in the viewport. */
  const VIEWPORT_WIDTH: nat := 32
  /** EGA byte offset of the first viewport tile: screen pixel (8, 8). */
  const FIRST_DEST_OFFSET: nat := 8 * 40 + 1
  /** EGA bytes between two tile rows on screen. */
  const DEST_ROW_STRIDE: nat := 40 * 8
  /** Words between two rows of the backdrop offset table. */
  const BACKDROP_TABLE_STRIDE: nat := 80
  /** Capacity, in words, of the list of deferred foreground tiles. */
  const FRONT_MASKEDS_CAPACITY: nat := 500

  datatype DrawEvent =
    | FillViewport(color: nat)
    | UpdatePlayer
    | UpdateBackdrop
    | UpdateMovingMapParts
    | BlitSolid(src: word, dest: word)
    | BlitMasked(value: word, dest: word)
    | DrawActors
    | DrawParticles
    | DrawPlayerShots
    | DrawEffects
    | DrawWaterAreas
    | DrawTileDebris

  /** The sprite-like systems that draw between the map pass and the
      foreground tiles. */
  predicate IsSpritePass(e: DrawEvent)
  {
    e.DrawActors? || e.DrawParticles? || e.DrawPlayerShots? || e.DrawEffects? || e.DrawWaterAreas?
  }

  /** What the map pass reads: the map, the camera, and the backdrop
      scrolling state left by UpdateBackdrop. */
  datatype Scene = Scene(
    mapData: seq<word>,
    mapWidth: nat,
    cameraX: nat,
    cameraY: nat,
    viewportHeight: nat,
    extra: seq<byte>,
    attrs: Attributes,
    bdAddress: word,
    bdTable: seq<word>,
    bdTablePtr: nat,
    reactorStep: byte)

  /** The drawing loop is a do-while: it draws at least one row. */
  function Rows(s: Scene): nat
  {
    if s.viewportHeight == 0 then 1 else s.viewportHeight
  }

  /** The camera keeps the viewport inside the map, the extra data covers
      the map, and the backdrop table has a row for every viewport row. */
  predicate ValidScene(s: Scene)
  {
    && s.cameraX + VIEWPORT_WIDTH <= s.mapWidth
    && (s.cameraY + Rows(s)) * s.mapWidth <= |s.mapData|
    && |s.mapData| <= 4 * |s.extra|
    && s.bdTablePtr + Rows(s) * BACKDROP_TABLE_STRIDE <= |s.bdTable|
    && FIRST_DEST_OFFSET + Rows(s) * DEST_ROW_STRIDE < 0x1_0000
  }

  function CellIndex(s: Scene, row: nat, col: nat): nat
  {
    (s.cameraY + row) * s.mapWidth + s.cameraX + col
  }

  lemma CellIndexInMap(s: Scene, row: nat, col: nat)
    requires ValidScene(s) && row < Rows(s) && col < VIEWPORT_WIDTH
    ensures CellIndex(s, row, col) < |s.mapData|
    ensures CellIndex(s, row, col) / 4 < |s.extra|
  {
    assert CellIndex(s, row, col) < (s.cameraY + row) * s.mapWidth + s.mapWidth;
    assert (s.cameraY + row) * s.mapWidth + s.mapWidth == (s.cameraY + row + 1) * s.mapWidth;
    assert s.cameraY + row + 1 <= s.cameraY + Rows(s);
    MulMonotone(s.cameraY + row + 1, s.cameraY + Rows(s), s.mapWidth);
  }

  lemma MulMonotone(a: nat, b: nat, m: nat)
    requires a <= b
    ensures a * m <= b * m
  {
  }

  /** Screen destination of viewport cell (row, col). */
  function Dest(row: nat, col: nat): nat
  {
    FIRST_DEST_OFFSET + row * DEST_ROW_STRIDE + col
  }

  /** Distinct viewport cells are drawn to distinct screen positions, and
      each position is the tile at screen tile column col + 1, row row + 1. */
  lemma DestIsInjective(r1: nat, c1: nat, r2: nat, c2: nat)
    requires c1 < VIEWPORT_WIDTH && c2 < VIEWPORT_WIDTH
    ensures Dest(r1, c1) == Dest(r2, c2) <==> (r1 == r2 && c1 == c2)
    ensures Dest(r1, c1) / DEST_ROW_STRIDE == r1 + 1 && Dest(r1, c1) % DEST_ROW_STRIDE == c1 + 1
  {
    assert Dest(r1, c1) == (r1 + 1) * DEST_ROW_STRIDE + (c1 + 1);
    assert Dest(r2, c2) == (r2 + 1) * DEST_ROW_STRIDE + (c2 + 1);
  }

  function DestWord(s: Scene, row: nat, col: nat): word
    requires ValidScene(s) && row < Rows(s) && col < VIEWPORT_WIDTH
  {
    MulMonotone(row, Rows(s), DEST_ROW_STRIDE);
    Dest(row, col)
  }

  /** The backdrop part behind a cell. While the reactor destruction runs
      (steps 1 to 13), every other frame shows the highest solid tile of the
      level's tileset instead, which makes the backdrop flash. */
  function BackdropBlit(s: Scene, displayPage: bool, row: nat, col: nat): (e: DrawEvent)
    requires ValidScene(s) && row < Rows(s) && col < VIEWPORT_WIDTH
    ensures e.BlitSolid? && e.dest == Dest(row, col)
    ensures (0 < s.reactorStep < 14 && displayPage) ==> e.src == XyToOffset(39, 24)
  {
    if 0 < s.reactorStep < 14 && displayPage then
      BlitSolid(XyToOffset(39, 24), DestWord(s, row, col))
    else
      MulMonotone(row, Rows(s), BACKDROP_TABLE_STRIDE);
      BlitSolid(Wrap16(s.bdAddress + s.bdTable[s.bdTablePtr + row * BACKDROP_TABLE_STRIDE + col]),
        DestWord(s, row, col))
  }

  /** A cell's contribution: blits drawn now, and (value, dest) word pairs
      deferred until after the sprites. */
  datatype Output = Output(events: seq<DrawEvent>, deferred: seq<word>)

  function Join(a: Output, b: Output): Output
  {
    Output(a.events + b.events, a.deferred + b.deferred)
  }

  /** A masked tile is drawn at once unless it is a foreground tile, which
      is deferred so that it appears in front of the sprites. */
  function MaskedTile(attrs: Attributes, value: word, dest: word): (o: Output)
    requires value < 0x8000
    ensures HasTileAttribute(attrs, value, TA_FOREGROUND) ==> o == Output([], [value, dest])
    ensures !HasTileAttribute(attrs, value, TA_FOREGROUND) ==> o == Output([BlitMasked(value, dest)], [])
  {
    if HasBit(attrs[value / 8], TA_FOREGROUND) then Output([], [value, dest])
    else Output([BlitMasked(value, dest)], [])
  }

  /** The masked tile a cell carries, if any: the value itself for a masked
      cell, the decoded foreground for a composite cell. */
  function MaskedPart(s: Scene, row: nat, col: nat): (m: Option<word>)
    requires ValidScene(s) && row < Rows(s) && col < VIEWPORT_WIDTH
    ensures m.Some? ==> 8000 <= m.value < 0x8000
  {
    CellIndexInMap(s, row, col);
    var i := CellIndex(s, row, col);
    var v := s.mapData[i];
    match Classify(v)
    case Masked => Some(v)
    case CompositeTile => Some(CompositeForeground(v, ExtraBits(s.extra, i)))
    case _ => None
  }

  function DrawCell(s: Scene, displayPage: bool, slow: word, fast: word, row: nat, col: nat): (o: Output)
    requires ValidScene(s) && row < Rows(s) && col < VIEWPORT_WIDTH
  {
    CellIndexInMap(s, row, col);
    var i := CellIndex(s, row, col);
    var v := s.mapData[i];
    var dest := DestWord(s, row, col);
    match Classify(v)
    case Backdrop => Output([BackdropBlit(s, displayPage, row, col)], [])
    case CompositeTile =>
      Join(Output([BlitSolid(CompositeBackground(v), dest)], []),
        MaskedTile(s.attrs, CompositeForeground(v, ExtraBits(s.extra, i)), dest))
    case Masked =>
      Join(Output([BackdropBlit(s, displayPage, row, col)], []), MaskedTile(s.attrs, v, dest))
    case Solid =>
      var step := if HasTileAttribute(s.attrs, v, TA_SLOW_ANIMATION) then slow else fast;
      var src := if HasTileAttribute(s.attrs, v, TA_ANIMATED) then Wrap16(v + step) else v;
      Output([BlitSolid(src, dest)], [])
  }

  /** Every cell is painted by exactly one solid blit at its screen
      position, before anything else of that cell, so no stale pixels
      remain; a cell carrying a masked tile yields exactly one masked draw of
      that tile, either right away or deferred, and only foreground tiles
      are deferred. */
  lemma CellPaintsOnce(s: Scene, displayPage: bool, slow: word, fast: word, row: nat, col: nat)
    requires ValidScene(s) && row < Rows(s) && col < VIEWPORT_WIDTH
    ensures var o := DrawCell(s, displayPage, slow, fast, row, col);
      && 1 <= |o.events|
      && o.events[0].BlitSolid? && o.events[0].dest == Dest(row, col)
      && (forall k :: 1 <= k < |o.events| ==> !o.events[k].BlitSolid?)
      && (MaskedPart(s, row, col).None? ==> |o.events| == 1 && o.deferred == [])
      && (MaskedPart(s, row, col).Some? ==>
            var m := MaskedPart(s, row, col).value;
            if HasTileAttribute(s.attrs, m, TA_FOREGROUND)
            then |o.events| == 1 && o.deferred == [m, Dest(row, col)]
            else o.events == [o.events[0], BlitMasked(m, Dest(row, col))] && o.deferred == [])
  {
  }

  /** An animated solid tile is drawn shifted by the slow or fast animation
      step; all other solid tiles are drawn as stored. */
  lemma SolidCellAnimation(s: Scene, displayPage: bool, slow: word, fast: word, row: nat, col: nat)
    requires ValidScene(s) && row < Rows(s) && col < VIEWPORT_WIDTH
    requires slow < 32 && fast < 32
    ensures CellIndex(s, row, col) < |s.mapData|
    ensures var v := s.mapData[CellIndex(s, row, col)];
      0 < v < 8000 ==>
        DrawCell(s, displayPage, slow, fast, row, col).events ==
          [BlitSolid(v + (if !HasTileAttribute(s.attrs, v, TA_ANIMATED) then 0
                          else if HasTileAttribute(s.attrs, v, TA_SLOW_ANIMATION) then slow
                          else fast), Dest(row, col))]
  {
    CellIndexInMap(s, row, col);
  }

  /** Columns col .. 31 of a viewport row. */
  function DrawRow(s: Scene, displayPage: bool, slow: word, fast: word, row: nat, col: nat): Output
    requires ValidScene(s) && row < Rows(s) && col <= VIEWPORT_WIDTH
    decreases VIEWPORT_WIDTH - col
  {
    if col == VIEWPORT_WIDTH then Output([], [])
    else Join(DrawCell(s, displayPage, slow, fast, row, col), DrawRow(s, displayPage, slow, fast, row, col + 1))
  }

  /** Rows row .. Rows(s) - 1 of the viewport. */
  function DrawRows(s: Scene, displayPage: bool, slow: word, fast: word, row: nat): Output
    requires ValidScene(s) && row <= Rows(s)
    decreases Rows(s) - row
  {
    if row == Rows(s) then Output([], [])
    else Join(DrawRow(s, displayPage, slow, fast, row, 0), DrawRows(s, displayPage, slow, fast, row + 1))
  }

  /** A deferred list: (value, dest) pairs of foreground masked tiles. */
  predicate ForegroundPairs(attrs: Attributes, d: seq<word>)
  {
    && |d| % 2 == 0
    && forall k :: 0 <= k < |d| / 2 ==> d[2 * k] < 0x8000 && HasTileAttribute(attrs, d[2 * k], TA_FOREGROUND)
  }

  /** The immediate events of the map pass: solid blits and non-foreground
      masked blits only. */
  predicate BehindSprites(attrs: Attributes, events: seq<DrawEvent>)
  {
    forall k :: 0 <= k < |events| ==>
      (events[k].BlitSolid? || (events[k].BlitMasked? && !HasTileAttribute(attrs, events[k].value, TA_FOREGROUND)))
  }

  /** Number of cells in columns col .. 31 of a row whose masked tile is a
      foreground tile. */
  function ForegroundInRow(s: Scene, row: nat, col: nat): nat
    requires ValidScene(s) && row < Rows(s) && col <= VIEWPORT_WIDTH
    decreases VIEWPORT_WIDTH - col
  {
    if col == VIEWPORT_WIDTH then 0
    else
      var m := MaskedPart(s, row, col);
      (if m.Some? && HasTileAttribute(s.attrs, m.value, TA_FOREGROUND) then 1 else 0) + ForegroundInRow(s, row, col + 1)
  }

  function ForegroundInRows(s: Scene, row: nat): nat
    requires ValidScene(s) && row <= Rows(s)
    decreases Rows(s) - row
  {
    if row == Rows(s) then 0 else ForegroundInRow(s, row, 0) + ForegroundInRows(s, row + 1)
  }

  /** What the map pass promises about an output holding n foreground
      cells. */
  predicate Separated(attrs: Attributes, o: Output, n: nat)
  {
    BehindSprites(attrs, o.events) && ForegroundPairs(attrs, o.deferred) && |o.deferred| == 2 * n
  }

  lemma SeparatedEqual(attrs: Attributes, a: Output, m: nat, b: Output, n: nat)
    requires Separated(attrs, a, m) && a == b && m == n
    ensures Separated(attrs, b, n)
  {
  }

  lemma JoinSeparated(attrs: Attributes, a: Output, m: nat, b: Output, n: nat)
    requires Separated(attrs, a, m) && Separated(attrs, b, n)
    ensures Separated(attrs, Join(a, b), m + n)
  {
    JoinKeeps(attrs, a, b);
  }

  lemma JoinKeeps(attrs: Attributes, a: Output, b: Output)
    requires BehindSprites(attrs, a.events) && ForegroundPairs(attrs, a.deferred)
    requires BehindSprites(attrs, b.events) && ForegroundPairs(attrs, b.deferred)
    ensures BehindSprites(attrs, Join(a, b).events) && ForegroundPairs(attrs, Join(a, b).deferred)
  {
    var d := a.deferred + b.deferred;
    forall k | 0 <= k < |d| / 2
      ensures d[2 * k] < 0x8000 && HasTileAttribute(attrs, d[2 * k], TA_FOREGROUND)
    {
      if 2 * k >= |a.deferred| {
        var j := k - |a.deferred| / 2;
        assert d[2 * k] == b.deferred[2 * j];
      }
    }
    var e := a.events + b.events;
    forall k | 0 <= k < |e|
      ensures e[k].BlitSolid? || (e[k].BlitMasked? && !HasTileAttribute(attrs, e[k].value, TA_FOREGROUND))
    {
      if k >= |a.events| {
        assert e[k] == b.events[k - |a.events|];
      }
    }
  }

  lemma {:induction false} RowSeparatesForeground(s: Scene, displayPage: bool, slow: word, fast: word, row: nat, col: nat)
    requires ValidScene(s) && row < Rows(s) && col <= VIEWPORT_WIDTH
    ensures Separated(s.attrs, DrawRow(s, displayPage, slow, fast, row, col), ForegroundInRow(s, row, col))
    decreases VIEWPORT_WIDTH - col
  {
    if col < VIEWPORT_WIDTH {
      var m := MaskedPart(s, row, col);
      var n := if m.Some? && HasTileAttribute(s.attrs, m.value, TA_FOREGROUND) then 1 else 0;
      CellPaintsOnce(s, displayPage, slow, fast, row, col);
      assert Separated(s.attrs, DrawCell(s, displayPage, slow, fast, row, col), n);
      RowSeparatesForeground(s, displayPage, slow, fast, row, col + 1);
      JoinSeparated(s.attrs, DrawCell(s, displayPage, slow, fast, row, col), n,
        DrawRow(s, displayPage, slow, fast, row, col + 1), ForegroundInRow(s, row, col + 1));
    }
  }

  lemma {:induction false} RowsSeparateForeground(s: Scene, displayPage: bool, slow: word, fast: word, row: nat)
    requires ValidScene(s) && row <= Rows(s)
    ensures Separated(s.attrs, DrawRows(s, displayPage, slow, fast, row), ForegroundInRows(s, row))
    decreases Rows(s) - row
  {
    if row < Rows(s) {
      var next := row + 1;
      RowsSeparateForeground(s, displayPage, slow, fast, next);
      RowsStep(s, displayPage, slow, fast, row, next);
    }
  }

  lemma RowsStep(s: Scene, displayPage: bool, slow: word, fast: word, row: nat, next: nat)
    requires ValidScene(s) && row < Rows(s) && next == row + 1
    requires Separated(s.attrs, DrawRows(s, displayPage, slow, fast, next), ForegroundInRows(s, next))
    ensures Separated(s.attrs, DrawRows(s, displayPage, slow, fast, row), ForegroundInRows(s, row))
  {
    UnfoldRows(s, displayPage, slow, fast, row);
    var head := DrawRow(s, displayPage, slow, fast, row, 0);
    var tail := DrawRows(s, displayPage, slow, fast, row + 1);
    var m := ForegroundInRow(s, row, 0);
    var n := ForegroundInRows(s, row + 1);
    RowSeparatesForeground(s, displayPage, slow, fast, row, 0);
    JoinSeparated(s.attrs, head, m, tail, n);
    SeparatedEqual(s.attrs, Join(head, tail), m + n, DrawRows(s, displayPage, slow, fast, row), ForegroundInRows(s, row));
  }

  lemma UnfoldRows(s: Scene, displayPage: bool, slow: word, fast: word, row: nat)
    requires ValidScene(s) && row < Rows(s)
    ensures DrawRows(s, displayPage, slow, fast, row) ==
      Join(DrawRow(s, displayPage, slow, fast, row, 0), DrawRows(s, displayPage, slow, fast, row + 1))
    ensures ForegroundInRows(s, row) == ForegroundInRow(s, row, 0) + ForegroundInRows(s, row + 1)
  {
  }

  /** Draws the deferred foreground tiles, in the order they were found. */
  function Replay(d: seq<word>): (r: seq<DrawEvent>)
    requires |d| % 2 == 0
    ensures |r| == |d| / 2
    ensures forall k :: 0 <= k < |r| ==> r[k] == BlitMasked(d[2 * k], d[2 * k + 1])
  {
    if d == [] then [] else [BlitMasked(d[0], d[1])] + Replay(d[2..])
  }

  /** The state UpdateAndDrawGame keeps between frames. */
  datatype FrameState = FrameState(
    flashScreen: bool,
    flashColor: nat,
    displayPage: bool,
    animSlow: word,
    animFast: word)

  /** The fast animation step advances every frame, the slow one every
      other frame; both count 0, 8, 16, 24 and start over. */
  function AdvanceAnimation(st: FrameState): (r: FrameState)
    ensures r.flashScreen == st.flashScreen && r.displayPage == st.displayPage
  {
    var slow := if st.displayPage then (if Wrap16(st.animSlow + 8) == 32 then 0 else Wrap16(st.animSlow + 8)) else st.animSlow;
    var fast := if Wrap16(st.animFast + 8) == 32 then 0 else Wrap16(st.animFast + 8);
    st.(animSlow := slow, animFast := fast)
  }

  predicate AnimationStep8(x: word)
  {
    x % 8 == 0 && x < 32
  }

  /** On the steps 0, 8, 16, 24 the animation update is the animation loop
      over four frames, and the slow step holds still on frames where the
      display page is 0. */
  lemma AnimationIsFourFrameLoop(st: FrameState)
    requires AnimationStep8(st.animSlow) && AnimationStep8(st.animFast)
    ensures var r := AdvanceAnimation(st);
      && AnimationStep8(r.animSlow) && AnimationStep8(r.animFast)
      && r.animFast / 8 == AnimationStep(st.animFast / 8, 0, 3)
      && r.animSlow / 8 == (if st.displayPage then AnimationStep(st.animSlow / 8, 0, 3) else st.animSlow / 8)
  {
  }

  /** The passes of a drawn frame, in order. */
  function FrameTrace(grid: Output): seq<DrawEvent>
    requires |grid.deferred| % 2 == 0
  {
    [UpdatePlayer, UpdateBackdrop, UpdateMovingMapParts] + grid.events +
    [DrawActors, DrawParticles, DrawPlayerShots, DrawEffects, DrawWaterAreas] +
    Replay(grid.deferred) + [DrawTileDebris]
  }

  /** Sprite passes come after every solid and background masked blit of a
      separated map pass, and before every foreground masked blit. */
  lemma FrameTraceOrder(attrs: Attributes, grid: Output, n: nat)
    requires Separated(attrs, grid, n)
    ensures var trace := FrameTrace(grid);
      && |trace| == 3 + |grid.events| + 5 + n + 1
      && (forall i, j :: 0 <= i < j < |trace| && IsSpritePass(trace[j]) && trace[i].BlitMasked? ==>
            !HasTileAttribute(attrs, trace[i].value, TA_FOREGROUND))
      && (forall i, j :: 0 <= i < j < |trace| && IsSpritePass(trace[i]) && trace[j].BlitMasked? ==>
            HasTileAttribute(attrs, trace[j].value, TA_FOREGROUND))
      && (forall i, j :: 0 <= i < j < |trace| && IsSpritePass(trace[i]) ==> !trace[j].BlitSolid?)
  {
    var pre := [UpdatePlayer, UpdateBackdrop, UpdateMovingMapParts] + grid.events;
    var sprites := [DrawActors, DrawParticles, DrawPlayerShots, DrawEffects, DrawWaterAreas];
    var post := Replay(grid.deferred) + [DrawTileDebris];
    var trace := FrameTrace(grid);
    assert trace == pre + sprites + post;
    forall k | 0 <= k < |post| && post[k].BlitMasked?
      ensures HasTileAttribute(attrs, post[k].value, TA_FOREGROUND)
    {
      assert k < |grid.deferred| / 2;
    }
    forall i | 0 <= i < |trace|
      ensures IsSpritePass(trace[i]) ==> |pre| <= i < |pre| + 5
      ensures i < |pre| && trace[i].BlitMasked? ==> !HasTileAttribute(attrs, trace[i].value, TA_FOREGROUND)
      ensures i >= |pre| + 5 ==> trace[i] == post[i - |pre| - 5]
    {
      if i >= |pre| + 5 {
        assert trace[i] == post[i - |pre| - 5];
      } else if i >= |pre| {
        assert trace[i] == sprites[i - |pre|];
      } else if i >= 3 {
        assert trace[i] == grid.events[i - 3];
      }
    }
  }

  /** UpdateAndDrawGame: returns the next state and the frame's trace. A
      requested screen flash fills the viewport instead of drawing the
      frame and leaves the animation alone; either way the draw and display
      pages swap. */
  function UpdateAndDrawGame(st: FrameState, s: Scene): (r: (FrameState, seq<DrawEvent>))
    requires ValidScene(s)
    ensures r.0.displayPage == !st.displayPage && !r.0.flashScreen
    ensures st.flashScreen ==> r.1 == [FillViewport(st.flashColor)] && r.0.animFast == st.animFast
  {
    var flipped := !st.displayPage;
    if st.flashScreen then
      (st.(flashScreen := false, displayPage := flipped), [FillViewport(st.flashColor)])
    else
      var a := AdvanceAnimation(st);
      var grid := DrawRows(s, st.displayPage, a.animSlow, a.animFast, 0);
      RowsSeparateForeground(s, st.displayPage, a.animSlow, a.animFast, 0);
      (a.(displayPage := flipped), FrameTrace(grid))
  }

  /** Foreground masked tiles appear in front of every sprite: in a drawn
      frame, each sprite pass comes after every solid and background masked
      blit, and before every foreground masked blit. The number of deferred
      tiles is the number of foreground cells in view, so the fixed-size
      list of FRONT_MASKEDS_CAPACITY words holds them only while that count
      is at most 250. */
  lemma ForegroundDrawnOverSprites(st: FrameState, s: Scene)
    requires ValidScene(s) && !st.flashScreen
    ensures var trace := UpdateAndDrawGame(st, s).1;
      && (forall i, j :: 0 <= i < j < |trace| && IsSpritePass(trace[j]) && trace[i].BlitMasked? ==>
            !HasTileAttribute(s.attrs, trace[i].value, TA_FOREGROUND))
      && (forall i, j :: 0 <= i < j < |trace| && IsSpritePass(trace[i]) && trace[j].BlitMasked? ==>
            HasTileAttribute(s.attrs, trace[j].value, TA_FOREGROUND))
      && (forall i, j :: 0 <= i < j < |trace| && IsSpritePass(trace[i]) ==> !trace[j].BlitSolid?)
    ensures var grid := DrawRows(s, st.displayPage, AdvanceAnimation(st).animSlow, AdvanceAnimation(st).animFast, 0);
      && |grid.deferred| == 2 * ForegroundInRows(s, 0)
      && (|grid.deferred| <= FRONT_MASKEDS_CAPACITY <==> ForegroundInRows(s, 0) <= 250)
  {
    var a := AdvanceAnimation(st);
    var grid := DrawRows(s, st.displayPage, a.animSlow, a.animFast, 0);
    RowsSeparateForeground(s, st.displayPage, a.animSlow, a.animFast, 0);
    FrameTraceOrder(s.attrs, grid, ForegroundInRows(s, 0));
  }
}
