/** Backdrop scrolling: the offset table that replaces modulo arithmetic
    when drawing the backdrop, and the per-frame update of the backdrop's
    video memory address and table start (UpdateBackdrop), together with
    the earthquake and reactor destruction effects it drives. */
module Backdrop {
  import opened Words
  import opened CoreUtil
  import Arith

  /** The backdrop image is 40 × 25 tiles. */
  const BACKDROP_WIDTH: nat := 40
  const BACKDROP_HEIGHT: nat := 25
  /** The table is the backdrop repeated twice across and twice down. */
  const TABLE_STRIDE: nat := 80
  const TABLE_SIZE: nat := 4000

  /** Offset of backdrop tile (x, y) in the backdrop image. */
  function TileOffset(x: nat, y: nat): nat
    requires x < BACKDROP_WIDTH && y < BACKDROP_HEIGHT
  {
    (y * BACKDROP_WIDTH + x) * 8
  }

  /** What the table holds at index i: the tile at column i mod 40 and row
      (i div 80) mod 25. */
  function TableEntry(i: nat): nat
  {
    TileOffset(i % BACKDROP_WIDTH, (i / TABLE_STRIDE) % BACKDROP_HEIGHT)
  }

  /** Cells of the first 2000 entries written before row y, or in row y
      before column x of each half. */
  predicate Written(i: nat, y: nat, x: nat)
  {
    i % 2000 < y || (y <= i % 2000 < y + TABLE_STRIDE && i % BACKDROP_WIDTH < x)
  }

  /** The four copies of backdrop tile (x, y / 80) are the table cells of
      row y of each half whose column is x modulo 40. */
  lemma FourCopies(i: nat, y: nat, x: nat)
    requires i < TABLE_SIZE && y % TABLE_STRIDE == 0 && y < 2000 && x < BACKDROP_WIDTH
    ensures (y <= i % 2000 < y + TABLE_STRIDE && i % BACKDROP_WIDTH == x) <==>
      (i == y + x || i == y + x + 40 || i == y + x + 2000 || i == y + x + 2000 + 40)
    ensures (y <= i % 2000 < y + TABLE_STRIDE && i % BACKDROP_WIDTH == x) ==>
      TableEntry(i) == (y / TABLE_STRIDE * BACKDROP_WIDTH + x) * 8
  {
    var r := y / TABLE_STRIDE;
    assert y == TABLE_STRIDE * r && r < 25;
    var j := i % 2000;
    assert i == j || i == j + 2000;
    assert i % BACKDROP_WIDTH == j % BACKDROP_WIDTH;
    if y <= j < y + TABLE_STRIDE && i % BACKDROP_WIDTH == x {
      var q := j / BACKDROP_WIDTH;
      assert j == BACKDROP_WIDTH * q + x;
      assert q == 2 * r || q == 2 * r + 1;
    }
    if i == y + x || i == y + x + 40 || i == y + x + 2000 || i == y + x + 2000 + 40 {
      CopyEntry(r, x, i - y - x);
    }
  }

  /** Each of the four copies holds the tile of row r, column x. */
  lemma CopyEntry(r: nat, x: nat, d: nat)
    requires r < BACKDROP_HEIGHT && x < BACKDROP_WIDTH && d in {0, 40, 2000, 2040}
    ensures var i := TABLE_STRIDE * r + x + d;
      i % 2000 == TABLE_STRIDE * r + x + d % 2000 && i % BACKDROP_WIDTH == x &&
      TableEntry(i) == (r * BACKDROP_WIDTH + x) * 8
  {
    var i := TABLE_STRIDE * r + x + d;
    var e := if d >= 2000 then d - 2000 else d;
    var h := if d >= 2000 then 1 else 0;
    Arith.ModUnique(i, 2000, h, TABLE_STRIDE * r + x + e);
    Arith.DivUnique(i, TABLE_STRIDE, 25 * h + r, x + e);
    Arith.ModUnique(25 * h + r, BACKDROP_HEIGHT, h, r);
    Arith.ModUnique(i, BACKDROP_WIDTH, 50 * h + 2 * r + e / 40, x);
  }

  lemma WrittenStep(i: nat, y: nat, x: nat)
    requires i < TABLE_SIZE && y % TABLE_STRIDE == 0 && y < 2000 && x < BACKDROP_WIDTH
    ensures Written(i, y, x + 1) <==> (Written(i, y, x) ||
      i == y + x || i == y + x + 40 || i == y + x + 2000 || i == y + x + 2000 + 40)
  {
    FourCopies(i, y, x);
  }

  lemma WrittenRow(i: nat, y: nat)
    requires i < TABLE_SIZE && y % TABLE_STRIDE == 0 && y < 2000
    ensures Written(i, y, BACKDROP_WIDTH) <==> Written(i, y + TABLE_STRIDE, 0)
  {
  }

  /** InitBackdropOffsetTable: fills the 80 × 50 table quadrant by quadrant,
      writing each tile offset of the 40 × 25 image to its four copies. */
  method InitBackdropOffsetTable() returns (table: seq<word>)
    ensures |table| == TABLE_SIZE
    ensures forall i :: 0 <= i < TABLE_SIZE ==> table[i] == TableEntry(i)
  {
    table := seq(TABLE_SIZE, i => 0);
    var value: word := 0;
    var y := 0;
    while y < 25 * 80
      invariant y % TABLE_STRIDE == 0 && y <= 25 * 80 && |table| == TABLE_SIZE
      invariant value == y / TABLE_STRIDE * BACKDROP_WIDTH * 8
      invariant forall i :: 0 <= i < TABLE_SIZE && Written(i, y, 0) ==> table[i] == TableEntry(i)
    {
      var x := 0;
      while x < 40
        invariant x <= 40 && |table| == TABLE_SIZE
        invariant value == (y / TABLE_STRIDE * BACKDROP_WIDTH + x) * 8
        invariant forall i :: 0 <= i < TABLE_SIZE && Written(i, y, x) ==> table[i] == TableEntry(i)
      {
        var prev := table;
        table := table[y + x := value][y + x + 40 := value][y + x + 2000 := value][y + x + 2000 + 40 := value];
        forall i | 0 <= i < TABLE_SIZE && Written(i, y, x + 1)
          ensures table[i] == TableEntry(i)
        {
          WrittenStep(i, y, x);
          FourCopies(i, y, x);
          if !Written(i, y, x) {
            assert y <= i % 2000 < y + TABLE_STRIDE && i % BACKDROP_WIDTH == x;
          }
        }
        value := value + 8;
        x := x + 1;
      }
      forall i | 0 <= i < TABLE_SIZE && Written(i, y + TABLE_STRIDE, 0)
        ensures table[i] == TableEntry(i)
      {
        WrittenRow(i, y);
      }
      y := y + 80;
    }
    forall i | 0 <= i < TABLE_SIZE
      ensures table[i] == TableEntry(i)
    {
      assert Written(i, y, 0);
    }
  }

  /** The renderer reads table[ptr + row · 80 + col]. For a start offset of
      py rows and px columns this is the backdrop tile at column px + col and
      row py + row, each wrapped around the image: the table turns the
      modulo into a memory read. */
  lemma TableWrapsBackdrop(table: seq<word>, px: nat, py: nat, col: nat, row: nat)
    requires |table| == TABLE_SIZE
    requires forall i :: 0 <= i < TABLE_SIZE ==> table[i] == TableEntry(i)
    requires px < BACKDROP_WIDTH && py < BACKDROP_HEIGHT
    requires col < BACKDROP_WIDTH && row < BACKDROP_HEIGHT
    ensures py * TABLE_STRIDE + px + row * TABLE_STRIDE + col < TABLE_SIZE
    ensures table[py * TABLE_STRIDE + px + row * TABLE_STRIDE + col] ==
      TileOffset((px + col) % BACKDROP_WIDTH, (py + row) % BACKDROP_HEIGHT)
  {
    var i := (py + row) * TABLE_STRIDE + (px + col);
    assert py * TABLE_STRIDE + px + row * TABLE_STRIDE + col == i;
    assert i / TABLE_STRIDE == py + row;
    assert i % TABLE_STRIDE == px + col;
    assert i % BACKDROP_WIDTH == (px + col) % BACKDROP_WIDTH;
  }

  /** Backdrop scroll modes of a level; several can be set at once. */
  datatype LevelBackdrop = LevelBackdrop(
    hasEarthquake: bool,
    autoScrollX: bool,
    autoScrollY: bool,
    parallaxBoth: bool,
    parallaxHorizontal: bool,
    hasReactorDestructionEvent: bool)

  datatype BackdropState = BackdropState(
    address: word,
    autoScrollStep: word,
    tablePtr: nat,
    addressAdjust: word,
    reactorStep: byte,
    earthquakeCountdown: byte,
    earthquakeThreshold: byte,
    rngIndex: byte)

  /** What UpdateBackdrop asks of other systems. `variant` selects between
      the earthquake sound and the one after it. */
  datatype BackdropEvent =
    | EarthquakeTutorial
    | ShakeScreen(amount: nat)
    | EarthquakeSound(variant: nat)
    | BigExplosionSound
    | ReactorMessage

  /** The earthquake: while the countdown is below the threshold the screen
      shakes by a random amount of 1 to 3, or the earthquake sound plays;
      when the countdown reaches 0 a new countdown and threshold are drawn.
      The countdown then decreases, wrapping from 0 to 255. */
  function Earthquake(st: BackdropState, rng: seq<byte>): (r: (BackdropState, seq<BackdropEvent>))
    requires |rng| == 256
    ensures r.0.address == st.address && r.0.tablePtr == st.tablePtr && r.0.autoScrollStep == st.autoScrollStep
    ensures r.0.earthquakeThreshold < 50 || r.0.earthquakeThreshold == st.earthquakeThreshold
  {
    var (st1, ev) :=
      if st.earthquakeCountdown < st.earthquakeThreshold && st.earthquakeCountdown != 0 then
        var (idx, rn) := Draw(rng, st.rngIndex);
        var random := rn % 4;
        (st.(rngIndex := idx),
         [EarthquakeTutorial] + (if random != 0 then [ShakeScreen(random)]
                                 else [EarthquakeSound(if random > 2 then 1 else 0)]))
      else (st, []);
    var st2 :=
      if st1.earthquakeCountdown == 0 then
        var (i1, countdown) := Draw(rng, st1.rngIndex);
        var (i2, t) := Draw(rng, i1);
        st1.(earthquakeCountdown := countdown, earthquakeThreshold := t % 50, rngIndex := i2)
      else st1;
    (st2.(earthquakeCountdown := Wrap8(st2.earthquakeCountdown - 1)), ev)
  }

  /** The second earthquake sound is never chosen: the sound plays only when
      the random amount is 0. Every shake is by 1 to 3. */
  lemma EarthquakeSoundIsAlwaysTheFirst(st: BackdropState, rng: seq<byte>)
    requires |rng| == 256
    ensures forall e :: e in Earthquake(st, rng).1 && e.EarthquakeSound? ==> e.variant == 0
    ensures forall e :: e in Earthquake(st, rng).1 && e.ShakeScreen? ==> 1 <= e.amount <= 3
    ensures Earthquake(st, rng).1 != [] <==>
      (st.earthquakeCountdown < st.earthquakeThreshold && st.earthquakeCountdown != 0)
  {
  }

  /** Horizontal auto-scrolling: the step counts 0 .. 159; the address
      cycles through the four pre-shifted copies at 0x4000, 0x6000, 0x8000
      and 0xA000; the table start moves one column every four frames. */
  function AutoScrollX(st: BackdropState): (r: BackdropState)
  {
    var step := if Wrap16(st.autoScrollStep + 1) == 4 * 40 then 0 else Wrap16(st.autoScrollStep + 1);
    var address := if Wrap16(st.address + 0x2000) == 0xC000 then 0x4000 else Wrap16(st.address + 0x2000);
    st.(autoScrollStep := step, address := address, tablePtr := st.tablePtr + step / 4)
  }

  predicate PreShiftedCopy(address: word)
  {
    address in {0x4000, 0x6000, 0x8000, 0xA000}
  }

  /** One frame of horizontal auto-scrolling from a valid step and a
      pre-shifted address. */
  lemma AutoScrollXStep(st: BackdropState)
    requires st.autoScrollStep < 160 && PreShiftedCopy(st.address) && st.tablePtr == 0
    ensures var r := AutoScrollX(st);
      && r.autoScrollStep < 160 && r.autoScrollStep == (st.autoScrollStep + 1) % 160
      && PreShiftedCopy(r.address) && r.address == NextCopy(st.address)
      && r.tablePtr == r.autoScrollStep / 4 && r.tablePtr < BACKDROP_WIDTH
  {
    assert Wrap16(st.autoScrollStep + 1) == st.autoScrollStep + 1;
    assert Wrap16(st.address + 0x2000) == st.address + 0x2000;
  }

  /** From a valid step and a pre-shifted address, horizontal
      auto-scrolling stays valid, shifts by one copy per frame and comes
      back to the same copy after four frames. */
  lemma AutoScrollXCycles(st: BackdropState)
    requires st.autoScrollStep < 160 && PreShiftedCopy(st.address) && st.tablePtr == 0
    ensures var r := AutoScrollX(st);
      && r.autoScrollStep < 160 && r.autoScrollStep == (st.autoScrollStep + 1) % 160
      && PreShiftedCopy(r.address) && r.address != st.address
      && r.tablePtr == r.autoScrollStep / 4 && r.tablePtr < BACKDROP_WIDTH
    ensures AutoScrollX(AutoScrollX(AutoScrollX(AutoScrollX(st).(tablePtr := 0)).(tablePtr := 0)).(tablePtr := 0)).address == st.address
  {
    AutoScrollXStep(st);
    var s1 := AutoScrollX(st).(tablePtr := 0);
    AutoScrollXStep(s1);
    var s2 := AutoScrollX(s1).(tablePtr := 0);
    AutoScrollXStep(s2);
    var s3 := AutoScrollX(s2).(tablePtr := 0);
    AutoScrollXStep(s3);
  }

  /** The copy after a pre-shifted one, going round the four. */
  function NextCopy(address: word): (next: word)
    requires PreShiftedCopy(address)
    ensures PreShiftedCopy(next) && next != address
  {
    if address == 0xA000 then 0x4000 else address + 0x2000
  }

  function CameraColumnShift(cameraX: word): nat
  {
    cameraX / 2 % BACKDROP_WIDTH
  }

  /** Vertical auto-scrolling with horizontal parallax. */
  function AutoScrollY(st: BackdropState, cameraX: word): (r: BackdropState)
  {
    var step0 := if st.autoScrollStep == 0 then 2 * 25 else st.autoScrollStep;
    var step := step0 - 1;
    var base: word := if cameraX % 2 == 1 then 0x6000 else 0x4000;
    var address := if step % 2 == 1 then base + 0x4000 else base;
    st.(autoScrollStep := step, address := address,
        tablePtr := st.tablePtr + step / 2 * TABLE_STRIDE + CameraColumnShift(cameraX))
  }

  /** Vertical auto-scrolling counts 49 down to 0 and starts over; the
      backdrop moves up one tile every two frames, half a tile in between
      by way of the vertically shifted copy, and follows the camera at half
      speed horizontally. */
  lemma AutoScrollYCycles(st: BackdropState, cameraX: word)
    requires st.autoScrollStep <= 50 && st.tablePtr == 0
    ensures var r := AutoScrollY(st, cameraX);
      && r.autoScrollStep < 50
      && r.autoScrollStep == (if st.autoScrollStep == 0 then 49 else st.autoScrollStep - 1)
      && r.tablePtr == (r.autoScrollStep / 2) * TABLE_STRIDE + CameraColumnShift(cameraX)
      && r.autoScrollStep / 2 < BACKDROP_HEIGHT
      && (r.address >= 0x8000 <==> r.autoScrollStep % 2 == 1)
      && (r.address % 0x4000 == 0x2000 <==> cameraX % 2 == 1)
  {
  }

  /** Two-axis parallax: the backdrop moves at half the camera's speed. */
  function ParallaxBoth(st: BackdropState, cameraX: word, cameraY: word): (r: BackdropState)
  {
    var base: word := if cameraX % 2 == 1 then 0x6000 else 0x4000;
    var address := if cameraY % 2 == 1 then base + 0x4000 else base;
    st.(address := address,
        tablePtr := st.tablePtr + cameraY / 2 % BACKDROP_HEIGHT * TABLE_STRIDE + CameraColumnShift(cameraX))
  }

  /** Horizontal parallax, which also advances the reactor destruction
      sequence: steps 1 to 14, with an explosion sound on every other frame
      and a message at step 13. */
  function ParallaxHorizontal(st: BackdropState, level: LevelBackdrop, cameraX: word, displayPage: bool)
    : (r: (BackdropState, seq<BackdropEvent>))
  {
    var (st1, ev) :=
      if st.addressAdjust != 0 && level.hasReactorDestructionEvent then
        var (s1, e1) :=
          if st.reactorStep < 14 then
            (st.(reactorStep := st.reactorStep + 1), if displayPage then [BigExplosionSound] else [])
          else (st, []);
        (s1, e1 + (if s1.reactorStep == 13 then [ReactorMessage] else []))
      else (st, []);
    var address := Wrap16((if cameraX % 2 == 1 then 0x6000 else 0x4000) + st1.addressAdjust);
    (st1.(address := address, tablePtr := st1.tablePtr + CameraColumnShift(cameraX)), ev)
  }

  /** The reactor sequence only moves forward, stops at 14, and reaches 13
      exactly once on the way: the message shows on one update while the
      sequence runs, and again on every later update once it sits at 13. */
  lemma ReactorSequence(st: BackdropState, level: LevelBackdrop, cameraX: word, displayPage: bool)
    requires st.reactorStep <= 14
    ensures var (r, ev) := ParallaxHorizontal(st, level, cameraX, displayPage);
      && st.reactorStep <= r.reactorStep <= 14
      && (r.reactorStep != st.reactorStep <==>
            (st.addressAdjust != 0 && level.hasReactorDestructionEvent && st.reactorStep < 14))
      && (ReactorMessage in ev <==>
            (st.addressAdjust != 0 && level.hasReactorDestructionEvent && r.reactorStep == 13))
      && (BigExplosionSound in ev ==> displayPage && r.reactorStep == st.reactorStep + 1)
      && r.tablePtr == st.tablePtr + CameraColumnShift(cameraX)
  {
  }

  /** UpdateBackdrop: resets the table start and applies each enabled mode
      in turn. */
  function UpdateBackdrop(st: BackdropState, level: LevelBackdrop, rng: seq<byte>,
                          cameraX: word, cameraY: word, displayPage: bool)
    : (r: (BackdropState, seq<BackdropEvent>))
    requires |rng| == 256
  {
    var s0 := st.(tablePtr := 0);
    var (s1, e1) := if level.hasEarthquake then Earthquake(s0, rng) else (s0, []);
    var (s5, e5) := ScrollModes(s1, level, cameraX, cameraY, displayPage);
    (s5, e1 + e5)
  }

  /** The scrolling modes UpdateBackdrop applies after the earthquake, in
      the order it tests them. */
  function ScrollModes(s1: BackdropState, level: LevelBackdrop, cameraX: word, cameraY: word, displayPage: bool)
    : (r: (BackdropState, seq<BackdropEvent>))
  {
    var s2 := if level.autoScrollX then AutoScrollX(s1) else s1;
    var s3 := if level.autoScrollY then AutoScrollY(s2, cameraX) else s2;
    var s4 := if level.parallaxBoth then ParallaxBoth(s3, cameraX, cameraY) else s3;
    if level.parallaxHorizontal then ParallaxHorizontal(s4, level, cameraX, displayPage) else (s4, [])
  }

  /** With exactly one scrolling mode set, the table start is py rows and px
      columns into the table with py < 25 and px < 40, so every read the
      renderer makes for the 32 × 20 viewport stays inside the table and
      shows the backdrop wrapped around (TableWrapsBackdrop). The pattern
      follows the camera at half speed in the parallax modes. */
  lemma UpdateBackdropStartsInFirstQuadrant(st: BackdropState, level: LevelBackdrop, rng: seq<byte>,
                                            cameraX: word, cameraY: word, displayPage: bool)
    requires |rng| == 256
    requires st.autoScrollStep < 160
    requires (if level.autoScrollX then 1 else 0) + (if level.autoScrollY then 1 else 0) +
             (if level.parallaxBoth then 1 else 0) + (if level.parallaxHorizontal then 1 else 0) <= 1
    requires level.autoScrollY ==> st.autoScrollStep <= 50
    ensures var r := UpdateBackdrop(st, level, rng, cameraX, cameraY, displayPage).0;
      && r.tablePtr / TABLE_STRIDE < BACKDROP_HEIGHT && r.tablePtr % TABLE_STRIDE < BACKDROP_WIDTH
      && (level.parallaxBoth ==>
            r.tablePtr == (cameraY / 2 % BACKDROP_HEIGHT) * TABLE_STRIDE + cameraX / 2 % BACKDROP_WIDTH)
      && (level.parallaxHorizontal ==> r.tablePtr == cameraX / 2 % BACKDROP_WIDTH)
      && (!level.autoScrollX && !level.autoScrollY && !level.parallaxBoth && !level.parallaxHorizontal ==>
            r.tablePtr == 0)
  {
    var s0 := st.(tablePtr := 0);
    var s1 := if level.hasEarthquake then Earthquake(s0, rng).0 else s0;
    assert s1.tablePtr == 0 && s1.autoScrollStep == st.autoScrollStep;
    ScrollModesStartInFirstQuadrant(s1, level, cameraX, cameraY, displayPage);
  }

  /** A table start py rows and px columns in, with py < 25 and px < 40. */
  predicate InFirstQuadrant(ptr: nat)
  {
    ptr / TABLE_STRIDE < BACKDROP_HEIGHT && ptr % TABLE_STRIDE < BACKDROP_WIDTH
  }

  lemma QuadrantOf(q: nat, p: nat)
    requires q < BACKDROP_HEIGHT && p < BACKDROP_WIDTH
    ensures InFirstQuadrant(q * TABLE_STRIDE + p)
  {
    Arith.DivUnique(q * TABLE_STRIDE + p, TABLE_STRIDE, q, p);
    Arith.ModUnique(q * TABLE_STRIDE + p, TABLE_STRIDE, q, p);
  }

  lemma ScrollModesStartInFirstQuadrant(s1: BackdropState, level: LevelBackdrop,
                                        cameraX: word, cameraY: word, displayPage: bool)
    requires s1.tablePtr == 0 && s1.autoScrollStep < 160
    requires (if level.autoScrollX then 1 else 0) + (if level.autoScrollY then 1 else 0) +
             (if level.parallaxBoth then 1 else 0) + (if level.parallaxHorizontal then 1 else 0) <= 1
    requires level.autoScrollY ==> s1.autoScrollStep <= 50
    ensures var r := ScrollModes(s1, level, cameraX, cameraY, displayPage).0;
      && InFirstQuadrant(r.tablePtr)
      && (level.parallaxBoth ==>
            r.tablePtr == (cameraY / 2 % BACKDROP_HEIGHT) * TABLE_STRIDE + cameraX / 2 % BACKDROP_WIDTH)
      && (level.parallaxHorizontal ==> r.tablePtr == cameraX / 2 % BACKDROP_WIDTH)
      && (!level.autoScrollX && !level.autoScrollY && !level.parallaxBoth && !level.parallaxHorizontal ==>
            r.tablePtr == 0)
  {
    var r := ScrollModes(s1, level, cameraX, cameraY, displayPage).0;
    ScrollModesSingle(s1, level, cameraX, cameraY, displayPage);
    if level.autoScrollX {
      assert r.autoScrollStep < 160 && r.tablePtr == r.autoScrollStep / 4;
      QuadrantOf(0, r.tablePtr);
    } else if level.autoScrollY {
      AutoScrollYCycles(s1, cameraX);
      QuadrantOf(r.autoScrollStep / 2, CameraColumnShift(cameraX));
    } else if level.parallaxBoth {
      QuadrantOf(cameraY / 2 % BACKDROP_HEIGHT, CameraColumnShift(cameraX));
    } else if level.parallaxHorizontal {
      QuadrantOf(0, r.tablePtr);
    } else {
      QuadrantOf(0, 0);
    }
  }

  /** With at most one mode set, ScrollModes applies just that mode. */
  lemma ScrollModesSingle(s1: BackdropState, level: LevelBackdrop,
                          cameraX: word, cameraY: word, displayPage: bool)
    requires (if level.autoScrollX then 1 else 0) + (if level.autoScrollY then 1 else 0) +
             (if level.parallaxBoth then 1 else 0) + (if level.parallaxHorizontal then 1 else 0) <= 1
    ensures ScrollModes(s1, level, cameraX, cameraY, displayPage).0 ==
      if level.autoScrollX then AutoScrollX(s1)
      else if level.autoScrollY then AutoScrollY(s1, cameraX)
      else if level.parallaxBoth then ParallaxBoth(s1, cameraX, cameraY)
      else if level.parallaxHorizontal then ParallaxHorizontal(s1, level, cameraX, displayPage).0
      else s1
  {
  }
}
