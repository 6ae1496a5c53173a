/** The fixed-capacity effect and player-shot pools of the world engine:
    claiming a slot (SpawnEffect, SpawnBurnEffect, SpawnPlayerShot),
    clearing both pools, the life cycle of a plain effect, and the
    word-layout trick that moves a player shot. */
module Pools {
  import opened Words

  const MAX_NUM_EFFECTS: nat := 18
  const MAX_NUM_PLAYER_SHOTS: nat := 6

  /** Effect movement types. */
  const EM_SCORE_NUMBER: word := 100
  const EM_BURN_FX: word := 99
  const EM_NONE: word := 98
  const EM_RISE_UP: word := 97
  const EM_FLY_RIGHT: word := 0
  const EM_FLY_UPPER_RIGHT: word := 1
  const EM_FLY_UP: word := 2
  const EM_FLY_UPPER_LEFT: word := 3
  const EM_FLY_LEFT: word := 4
  const EM_FLY_DOWN: word := 5
  const EM_BLOW_IN_WIND: word := 6

  /** Shot directions. */
  const SD_UP: word := 7
  const SD_DOWN: word := 8
  const SD_LEFT: word := 9
  const SD_RIGHT: word := 10

  /** One effect slot; `active` is 0 for a free slot, otherwise the current
      animation frame plus one. */
  datatype EffectState = EffectState(
    active: word, id: word, framesToLive: word, x: word, y: word,
    kind: word, movementStep: word, spawnDelay: word)

  /** One player-shot slot, field for field in declaration order. */
  datatype PlayerShot = PlayerShot(
    active: word, id: word, numFrames: word, x: word, y: word, direction: word)

  /** The per-sprite metadata the spawn functions look up (AINFO_*). */
  datatype SpriteInfo = SpriteInfo(numFrames: word, height: word, width: word, xOffset: word, yOffset: word)

  // ---------------------------------------------------------------------
  // Slot search
  // ---------------------------------------------------------------------

  /** The `active` fields of a pool, slot by slot. */
  function EffectActives(pool: seq<EffectState>): (a: seq<word>)
    ensures |a| == |pool| && forall i :: 0 <= i < |pool| ==> a[i] == pool[i].active
  {
    if pool == [] then [] else EffectActives(pool[..|pool| - 1]) + [pool[|pool| - 1].active]
  }

  function ShotActives(pool: seq<PlayerShot>): (a: seq<word>)
    ensures |a| == |pool| && forall i :: 0 <= i < |pool| ==> a[i] == pool[i].active
  {
    if pool == [] then [] else ShotActives(pool[..|pool| - 1]) + [pool[|pool| - 1].active]
  }

  /** The loop `for (i = from; i < MAX; i++) if (active[i] == 0) ...`:
      the index of the first free slot at or after `from`, or |actives|
      when every one of them is busy. */
  function FirstFreeFrom(actives: seq<word>, from: nat): (i: nat)
    requires from <= |actives|
    ensures from <= i <= |actives|
    ensures i < |actives| ==> actives[i] == 0
    ensures forall j :: from <= j < i ==> actives[j] != 0
    decreases |actives| - from
  {
    if from == |actives| then from
    else if actives[from] == 0 then from
    else FirstFreeFrom(actives, from + 1)
  }

  function FirstFree(actives: seq<word>): (i: nat)
    ensures i <= |actives|
  {
    FirstFreeFrom(actives, 0)
  }

  /** i is the lowest-index free slot. */
  predicate LowestFree(actives: seq<word>, i: nat)
  {
    i < |actives| && actives[i] == 0 && forall j :: 0 <= j < i ==> actives[j] != 0
  }

  predicate AllBusy(actives: seq<word>)
  {
    forall j :: 0 <= j < |actives| ==> actives[j] != 0
  }

  /** The search finds exactly the lowest free slot, and reports none only
      when every slot is busy. */
  lemma FirstFreeSpec(actives: seq<word>, i: nat)
    ensures LowestFree(actives, i) <==> i == FirstFree(actives) && i < |actives|
    ensures FirstFree(actives) == |actives| <==> AllBusy(actives)
  {
  }

  // ---------------------------------------------------------------------
  // SpawnEffect
  // ---------------------------------------------------------------------

  /** SpawnEffect(id, x, y, type, spawnDelay). `numFrames` is the sprite's
      frame count; `fireBombId` is ACT_FIRE_BOMB_FIRE and `groundBelow` the
      world-collision answer for the cell below (x, y), which only matters
      for that actor. The result is the new pool and the returned flag. */
  function SpawnEffect(pool: seq<EffectState>, id: word, x: word, y: word, kind: word, spawnDelay: word,
                       numFrames: word, fireBombId: word, groundBelow: bool): (r: (seq<EffectState>, bool))
    ensures |r.0| == |pool|
  {
    var i := FirstFree(EffectActives(pool));
    if i == |pool| then (pool, false)
    else if id == fireBombId && !groundBelow then (pool, true)
    else (pool[i := EffectState(1, id, Wrap16(numFrames + 1), x, y, kind, 0, spawnDelay)], false)
  }

  /** SpawnEffect claims the lowest free slot, gives it a life of one more
      than the sprite's frame count and touches no other slot; it returns
      true only for a fire bomb with nothing below it, and then claims
      nothing; with every slot busy nothing changes. */
  lemma SpawnEffectSpec(pool: seq<EffectState>, id: word, x: word, y: word, kind: word, spawnDelay: word,
                        numFrames: word, fireBombId: word, groundBelow: bool, i: nat)
    requires LowestFree(EffectActives(pool), i)
    ensures id == fireBombId && !groundBelow ==>
              SpawnEffect(pool, id, x, y, kind, spawnDelay, numFrames, fireBombId, groundBelow) == (pool, true)
    ensures !(id == fireBombId && !groundBelow) ==>
              SpawnEffect(pool, id, x, y, kind, spawnDelay, numFrames, fireBombId, groundBelow) ==
                (pool[i := EffectState(1, id, (numFrames + 1) % 0x1_0000, x, y, kind, 0, spawnDelay)], false)
  {
    FirstFreeSpec(EffectActives(pool), i);
  }

  lemma SpawnEffectWhenFull(pool: seq<EffectState>, id: word, x: word, y: word, kind: word, spawnDelay: word,
                            numFrames: word, fireBombId: word, groundBelow: bool)
    requires AllBusy(EffectActives(pool))
    ensures SpawnEffect(pool, id, x, y, kind, spawnDelay, numFrames, fireBombId, groundBelow) == (pool, false)
  {
    FirstFreeSpec(EffectActives(pool), 0);
  }

  /** The number of occupied slots. */
  function ActiveCount(actives: seq<word>): (n: nat)
    ensures n <= |actives|
  {
    if actives == [] then 0 else ActiveCount(actives[..|actives| - 1]) + (if actives[|actives| - 1] != 0 then 1 else 0)
  }

  lemma {:induction false} ActiveCountUpdate(actives: seq<word>, i: nat, v: word)
    requires i < |actives| && actives[i] == 0 && v != 0
    ensures ActiveCount(actives[i := v]) == ActiveCount(actives) + 1
    decreases |actives|
  {
    var n := |actives| - 1;
    if i == n {
      assert actives[i := v][..n] == actives[..n];
    } else {
      assert actives[i := v][..n] == actives[..n][i := v];
      ActiveCountUpdate(actives[..n], i, v);
    }
  }

  /** A successful spawn occupies exactly one more slot, and a spawn never
      frees one. */
  lemma SpawnEffectOccupiesOneSlot(pool: seq<EffectState>, id: word, x: word, y: word, kind: word, spawnDelay: word,
                                   numFrames: word, fireBombId: word, groundBelow: bool)
    ensures var r := SpawnEffect(pool, id, x, y, kind, spawnDelay, numFrames, fireBombId, groundBelow);
      ActiveCount(EffectActives(r.0)) == ActiveCount(EffectActives(pool)) +
        (if r.0 == pool then 0 else 1)
  {
    var actives := EffectActives(pool);
    var i := FirstFree(actives);
    var r := SpawnEffect(pool, id, x, y, kind, spawnDelay, numFrames, fireBombId, groundBelow);
    if r.0 != pool {
      assert i < |pool|;
      var e := EffectState(1, id, Wrap16(numFrames + 1), x, y, kind, 0, spawnDelay);
      assert EffectActives(r.0) == actives[i := 1];
      ActiveCountUpdate(actives, i, 1);
    }
  }

  // ---------------------------------------------------------------------
  // SpawnBurnEffect
  // ---------------------------------------------------------------------

  /** SpawnBurnEffect(effectId, sourceId, x, y): an effect spawner slot with
      active 18, type EM_BURN_FX, the spawned effect id in framesToLive,
      the position moved by the source sprite's offsets and centred by half
      the effect sprite's size, and the source sprite's height and width
      as the random spawn range. */
  function SpawnBurnEffect(pool: seq<EffectState>, effectId: word, sourceId: word, x: word, y: word,
                           source: SpriteInfo, effect: SpriteInfo): (r: seq<EffectState>)
    ensures |r| == |pool|
  {
    var i := FirstFree(EffectActives(pool));
    if i == |pool| then pool
    else
      var x' := Wrap16(x + source.xOffset);
      var y' := Wrap16(y + source.yOffset);
      pool[i := EffectState(18, sourceId, effectId, Wrap16(x' - effect.height / 2), Wrap16(y' + effect.width / 2),
                            EM_BURN_FX, source.height, source.width)]
  }

  lemma SpawnBurnEffectSpec(pool: seq<EffectState>, effectId: word, sourceId: word, x: word, y: word,
                            source: SpriteInfo, effect: SpriteInfo, i: nat)
    requires LowestFree(EffectActives(pool), i)
    ensures SpawnBurnEffect(pool, effectId, sourceId, x, y, source, effect) ==
              pool[i := EffectState(18, sourceId, effectId,
                                    (x + source.xOffset - effect.height / 2) % 0x1_0000,
                                    (y + source.yOffset + effect.width / 2) % 0x1_0000,
                                    EM_BURN_FX, source.height, source.width)]
  {
    FirstFreeSpec(EffectActives(pool), i);
    Wrap16Add(x + source.xOffset, -(effect.height / 2));
    Wrap16Add(y + source.yOffset, effect.width / 2);
  }

  lemma SpawnBurnEffectWhenFull(pool: seq<EffectState>, effectId: word, sourceId: word, x: word, y: word,
                                source: SpriteInfo, effect: SpriteInfo)
    requires AllBusy(EffectActives(pool))
    ensures SpawnBurnEffect(pool, effectId, sourceId, x, y, source, effect) == pool
  {
    FirstFreeSpec(EffectActives(pool), 0);
  }

  // ---------------------------------------------------------------------
  // SpawnPlayerShot
  // ---------------------------------------------------------------------

  /** The actor ids SpawnPlayerShot distinguishes. */
  datatype ShotIds = ShotIds(
    flameUp: word, flameDown: word, flameLeft: word, flameRight: word,
    laserHorizontal: word, laserVertical: word, shipLaser: word,
    regularVertical: word, muzzleFlashUp: word)

  predicate IsFlameShot(ids: ShotIds, id: word)
  {
    id == ids.flameUp || id == ids.flameDown || id == ids.flameLeft || id == ids.flameRight
  }

  /** The spawn position after the flame-thrower and firing-direction
      adjustments. */
  function ShotSpawnPosition(ids: ShotIds, id: word, x: word, y: word, direction: word): (p: (word, word))
  {
    var (x1, y1) :=
      if IsFlameShot(ids, id) then
        (if direction == SD_UP || direction == SD_DOWN then (Wrap16(x - 1), y) else (x, Wrap16(y + 1)))
      else (x, y);
    if id == ids.regularVertical && direction == SD_DOWN then (x1, Wrap16((y1 as int) + 1))
    else if id == ids.laserVertical && direction == SD_DOWN then (x1, Wrap16((y1 as int) + 3))
    else if id == ids.laserHorizontal && direction == SD_LEFT then (Wrap16((x1 as int) - 2), y1)
    else (x1, y1)
  }

  /** The muzzle-flash position: the original position, one higher for the
      ship's laser. */
  function MuzzlePosition(ids: ShotIds, id: word, x: word, y: word): (word, word)
  {
    if id == ids.shipLaser then (x, Wrap16(y - 1)) else (x, y)
  }

  /** SpawnPlayerShot(id, x, y, direction): claims the lowest free shot slot
      and, only then, spawns the muzzle flash for the direction as a plain
      effect. `info` gives each sprite's metadata. */
  function SpawnPlayerShot(shots: seq<PlayerShot>, effects: seq<EffectState>, ids: ShotIds,
                           id: word, x: word, y: word, direction: word,
                           info: word -> SpriteInfo, fireBombId: word, groundBelow: bool)
    : (r: (seq<PlayerShot>, seq<EffectState>))
    ensures |r.0| == |shots| && |r.1| == |effects|
  {
    var i := FirstFree(ShotActives(shots));
    if i == |shots| then (shots, effects)
    else
      var pos := ShotSpawnPosition(ids, id, x, y, direction);
      var muzzle := MuzzlePosition(ids, id, x, y);
      var flashId := Wrap16(direction + ids.muzzleFlashUp - SD_UP);
      var shots' := shots[i := PlayerShot(1, id, Wrap16(info(id).numFrames + 1), pos.0, pos.1, direction)];
      var effects' := SpawnEffect(effects, flashId, muzzle.0, muzzle.1, EM_NONE, 0,
                                  info(flashId).numFrames, fireBombId, groundBelow).0;
      (shots', effects')
  }

  /** A shot goes into the lowest free slot with active 1 and a frame count
      of one more than the sprite's, at the adjusted position, and a muzzle
      flash for its direction is spawned; with every shot slot busy neither
      pool changes. */
  lemma SpawnPlayerShotSpec(shots: seq<PlayerShot>, effects: seq<EffectState>, ids: ShotIds,
                            id: word, x: word, y: word, direction: word,
                            info: word -> SpriteInfo, fireBombId: word, groundBelow: bool, i: nat)
    requires LowestFree(ShotActives(shots), i)
    ensures SpawnPlayerShot(shots, effects, ids, id, x, y, direction, info, fireBombId, groundBelow).0 ==
              shots[i := PlayerShot(1, id, (info(id).numFrames + 1) % 0x1_0000,
                                    ShotSpawnPosition(ids, id, x, y, direction).0,
                                    ShotSpawnPosition(ids, id, x, y, direction).1, direction)]
    ensures var flashId := (direction + ids.muzzleFlashUp - SD_UP) % 0x1_0000;
              SpawnPlayerShot(shots, effects, ids, id, x, y, direction, info, fireBombId, groundBelow).1 ==
              SpawnEffect(effects, flashId, MuzzlePosition(ids, id, x, y).0, MuzzlePosition(ids, id, x, y).1,
                          EM_NONE, 0, info(flashId).numFrames, fireBombId, groundBelow).0
  {
    FirstFreeSpec(ShotActives(shots), i);
  }

  lemma SpawnPlayerShotWhenFull(shots: seq<PlayerShot>, effects: seq<EffectState>, ids: ShotIds,
                                id: word, x: word, y: word, direction: word,
                                info: word -> SpriteInfo, fireBombId: word, groundBelow: bool)
    requires AllBusy(ShotActives(shots))
    ensures SpawnPlayerShot(shots, effects, ids, id, x, y, direction, info, fireBombId, groundBelow) == (shots, effects)
  {
    FirstFreeSpec(ShotActives(shots), 0);
  }

  /** Firing left or right with a horizontal laser, or down with a vertical
      one, moves the spawn point by the sprite's length; the other
      coordinate and every other shot keep the position they were given. */
  lemma ShotSpawnAdjustments(ids: ShotIds, id: word, x: word, y: word, direction: word)
    requires !IsFlameShot(ids, id)
    ensures id == ids.laserHorizontal && direction == SD_LEFT && id != ids.regularVertical && id != ids.laserVertical ==>
              ShotSpawnPosition(ids, id, x, y, direction) == ((x - 2) % 0x1_0000, y)
    ensures id == ids.laserVertical && direction == SD_DOWN && id != ids.regularVertical ==>
              ShotSpawnPosition(ids, id, x, y, direction) == (x, (y + 3) % 0x1_0000)
    ensures id != ids.regularVertical && id != ids.laserVertical && id != ids.laserHorizontal ==>
              ShotSpawnPosition(ids, id, x, y, direction) == (x, y)
  {
  }

  // ---------------------------------------------------------------------
  // ResetEffectsAndPlayerShots
  // ---------------------------------------------------------------------

  /** Frees every slot of both pools; nothing but the `active` fields changes. */
  method ResetEffectsAndPlayerShots(effects: seq<EffectState>, shots: seq<PlayerShot>)
    returns (effects': seq<EffectState>, shots': seq<PlayerShot>)
    requires |effects| == MAX_NUM_EFFECTS && |shots| == MAX_NUM_PLAYER_SHOTS
    ensures |effects'| == |effects| && |shots'| == |shots|
    ensures forall i :: 0 <= i < |effects| ==> effects'[i] == effects[i].(active := 0)
    ensures forall i :: 0 <= i < |shots| ==> shots'[i] == shots[i].(active := 0)
  {
    effects' := effects;
    shots' := shots;
    var i := 0;
    while i < MAX_NUM_EFFECTS
      invariant 0 <= i <= MAX_NUM_EFFECTS
      invariant |effects'| == |effects| && |shots'| == |shots|
      invariant forall j :: 0 <= j < i ==> effects'[j] == effects[j].(active := 0)
      invariant forall j :: i <= j < |effects| ==> effects'[j] == effects[j]
      invariant forall j :: 0 <= j < i && j < MAX_NUM_PLAYER_SHOTS ==> shots'[j] == shots[j].(active := 0)
      invariant forall j :: i <= j < |shots| ==> shots'[j] == shots[j]
    {
      effects' := effects'[i := effects'[i].(active := 0)];
      if i < MAX_NUM_PLAYER_SHOTS {
        shots' := shots'[i := shots'[i].(active := 0)];
      }
      i := i + 1;
    }
  }

  // ---------------------------------------------------------------------
  // Plain effects (EM_NONE and EM_RISE_UP)
  // ---------------------------------------------------------------------

  /** One update of a plain effect. The off-screen test runs first, so an
      effect that has left the screen is freed even while its spawn delay is
      still counting down; a pending delay then only counts down; otherwise
      the frame advances (a rising effect also moves up one tile) and the
      slot is freed once the frame count reaches framesToLive. */
  function UpdatePlainEffect(e: EffectState, onScreen: bool): (e': EffectState)
    requires e.kind == EM_NONE || e.kind == EM_RISE_UP
  {
    if !onScreen then e.(active := 0)
    else if e.spawnDelay > 0 then e.(spawnDelay := e.spawnDelay - 1)
    else
      var active := Wrap16(e.active + 1);
      var y := if e.kind == EM_RISE_UP then Wrap16(e.y - 1) else e.y;
      if active == e.framesToLive then e.(active := 0, y := y) else e.(active := active, y := y)
  }

  /** Off-screen always wins over the spawn delay. */
  lemma OffscreenBeforeDelay(e: EffectState)
    requires e.kind == EM_NONE || e.kind == EM_RISE_UP
    ensures UpdatePlainEffect(e, false).active == 0
    ensures UpdatePlainEffect(e, false).spawnDelay == e.spawnDelay
  {
  }

  /** n on-screen updates of a plain effect. */
  function UpdatePlainEffectN(e: EffectState, n: nat): (e': EffectState)
    requires e.kind == EM_NONE || e.kind == EM_RISE_UP
    ensures e'.kind == e.kind && e'.framesToLive == e.framesToLive
    decreases n
  {
    if n == 0 then e else UpdatePlainEffectN(UpdatePlainEffect(e, true), n - 1)
  }

  /** While it stays on screen, an effect spawned with active 1, a delay d
      and a life of f > 1 frames is still alive after d + f - 2 updates and
      is freed by the next one. */
  lemma {:induction false} PlainEffectLifetime(e: EffectState)
    requires e.kind == EM_NONE || e.kind == EM_RISE_UP
    requires 1 <= e.active < e.framesToLive
    ensures UpdatePlainEffectN(e, e.spawnDelay + e.framesToLive - e.active - 1).active != 0
    ensures UpdatePlainEffectN(e, e.spawnDelay + e.framesToLive - e.active).active == 0
    decreases e.spawnDelay + e.framesToLive - e.active
  {
    var n := e.spawnDelay + e.framesToLive - e.active;
    var e1 := UpdatePlainEffect(e, true);
    if e.spawnDelay > 0 {
      PlainEffectLifetime(e1);
    } else if e.active + 1 == e.framesToLive {
      assert UpdatePlainEffectN(e, n - 1) == e;
    } else {
      assert e1.active == e.active + 1 && e1.spawnDelay == 0;
      PlainEffectLifetime(e1);
    }
  }

  /** The table-driven movers are exactly the types below 9; the other
      movement types are far above. */
  predicate IsTableMover(kind: word)
  {
    kind < 9
  }

  lemma EffectTypesBelowNine()
    ensures forall k :: (k in {EM_FLY_RIGHT, EM_FLY_UPPER_RIGHT, EM_FLY_UP, EM_FLY_UPPER_LEFT,
                               EM_FLY_LEFT, EM_FLY_DOWN, EM_BLOW_IN_WIND}) ==> IsTableMover(k)
    ensures forall k :: k in {EM_SCORE_NUMBER, EM_BURN_FX, EM_NONE, EM_RISE_UP} ==> !IsTableMover(k)
  {
  }

  // ---------------------------------------------------------------------
  // Player-shot movement
  // ---------------------------------------------------------------------

  /** The shot's memory image, one word per field. */
  function ShotWords(s: PlayerShot): (w: seq<word>)
    ensures |w| == 6
  {
    [s.active, s.id, s.numFrames, s.x, s.y, s.direction]
  }

  function ShotFromWords(w: seq<word>): (s: PlayerShot)
    requires |w| == 6
    ensures ShotWords(s) == w
  {
    PlayerShot(w[0], w[1], w[2], w[3], w[4], w[5])
  }

  /** OFFSET_TO_POS_FIELD: the word index moved for each direction. */
  const OFFSET_TO_POS_FIELD: seq<nat> := [4, 4, 3, 3]

  predicate ValidDirection(direction: word)
  {
    SD_UP <= direction <= SD_RIGHT
  }

  /** The speed tables: SLOW, FAST and MEDIUM, negative for up and left. */
  datatype ShotSpeed = Slow | Fast | Medium

  function SpeedMagnitude(speed: ShotSpeed): nat
  {
    match speed
    case Slow => 2
    case Fast => 5
    case Medium => 3
  }

  function MovementTable(speed: ShotSpeed): seq<int>
  {
    var v: int := SpeedMagnitude(speed);
    [-v, v, -v, v]
  }

  /** GET_FIELD(direction) += table[direction - SD_UP], done on the word
      image of the shot. Writing through the image moves y for up/down
      shots and x for left/right shots, by the speed's magnitude towards
      the direction, and leaves every other field alone. */
  function MoveShot(s: PlayerShot, speed: ShotSpeed): (s': PlayerShot)
    requires ValidDirection(s.direction)
    ensures s'.active == s.active && s'.id == s.id && s'.numFrames == s.numFrames && s'.direction == s.direction
    ensures s.direction == SD_UP ==> s'.x == s.x && s'.y == (s.y - SpeedMagnitude(speed)) % 0x1_0000
    ensures s.direction == SD_DOWN ==> s'.x == s.x && s'.y == (s.y + SpeedMagnitude(speed)) % 0x1_0000
    ensures s.direction == SD_LEFT ==> s'.y == s.y && s'.x == (s.x - SpeedMagnitude(speed)) % 0x1_0000
    ensures s.direction == SD_RIGHT ==> s'.y == s.y && s'.x == (s.x + SpeedMagnitude(speed)) % 0x1_0000
  {
    var k := OFFSET_TO_POS_FIELD[s.direction - SD_UP];
    var w := ShotWords(s);
    ShotFromWords(w[k := Wrap16(w[k] + MovementTable(speed)[s.direction - SD_UP])])
  }

  /** Shots grouped by how the update loop moves them. */
  datatype ShotClass =
    | RegularShot     // slow, stops at walls, animated
    | LaserShot       // fast, through walls
    | MediumShot      // reactor fire and the ship's laser: animated, medium, through walls
    | FlameShot       // fast, through walls
    | RocketShot      // slow, stops at walls
    | OtherShot       // drawn only

  /** Advance the animation frame, wrapping to 1 at numFrames. */
  function AnimateShot(s: PlayerShot): PlayerShot
  {
    var a := Wrap16(s.active + 1);
    s.(active := if a == s.numFrames then 1 else a)
  }

  /** One update of an active shot: a shot marked as having hit something
      (bit 15 of `active`, i.e. active >= 0x8000) is drawn once and freed; an off-screen shot is freed; a shot
      that stops at walls and hits one is freed; otherwise it moves. */
  function UpdateShot(s: PlayerShot, cls: ShotClass, onScreen: bool, hitsWall: bool): (s': PlayerShot)
    requires s.active != 0 && ValidDirection(s.direction)
  {
    if s.active >= 0x8000 then s.(active := 0)
    else if !onScreen then s.(active := 0)
    else match cls
      case RegularShot => if hitsWall then s.(active := 0) else AnimateShot(MoveShot(s, Slow))
      case LaserShot => MoveShot(s, Fast)
      case MediumShot => MoveShot(AnimateShot(s), Medium)
      case FlameShot => MoveShot(s, Fast)
      case RocketShot => if hitsWall then s.(active := 0) else MoveShot(s, Slow)
      case OtherShot => s
  }

  /** A live shot that survives an update keeps its id and direction and
      moves only along its own axis; the only ways to die are the hit mark,
      leaving the screen, or a wall for the shots that stop at walls. */
  lemma UpdateShotSurvivors(s: PlayerShot, cls: ShotClass, onScreen: bool, hitsWall: bool)
    requires s.active != 0 && ValidDirection(s.direction)
    ensures var s' := UpdateShot(s, cls, onScreen, hitsWall);
      (s'.active == 0 <==>
         s.active >= 0x8000 || !onScreen || (hitsWall && (cls == RegularShot || cls == RocketShot))) &&
      s'.id == s.id && s'.direction == s.direction &&
      (s.direction in {SD_UP, SD_DOWN} ==> s'.x == s.x) &&
      (s.direction in {SD_LEFT, SD_RIGHT} ==> s'.y == s.y)
  {
  }
}
