/** Map cell values and tile attributes. A map cell holds 0 (no tile: the
    backdrop shows), a solid tile offset below 8000, a masked tile value of
    8000 or more, or, with bit 15 set, a composite of a solid background and
    a masked foreground. Each tile has a word of attribute flags, looked up
    at index value >> 3. */
module Tiles {
  import opened Words

  // Attribute flags, as bit numbers of the attribute word.
  const TA_SOLID_TOP: nat := 0
  const TA_SOLID_BOTTOM: nat := 1
  const TA_SOLID_RIGHT: nat := 2
  const TA_SOLID_LEFT: nat := 3
  const TA_ANIMATED: nat := 4
  const TA_FOREGROUND: nat := 5
  const TA_FLAMMABLE: nat := 6
  const TA_CLIMBABLE: nat := 7
  const TA_CONVEYOR_L: nat := 8
  const TA_CONVEYOR_R: nat := 9
  const TA_SLOW_ANIMATION: nat := 10
  const TA_LADDER: nat := 14

  /** The flag values of the TileAttributes enumeration. */
  lemma AttributeFlagValues()
    ensures Pow2(TA_SOLID_TOP) == 0x1 && Pow2(TA_SOLID_BOTTOM) == 0x2
    ensures Pow2(TA_SOLID_RIGHT) == 0x4 && Pow2(TA_SOLID_LEFT) == 0x8
    ensures Pow2(TA_ANIMATED) == 0x10 && Pow2(TA_FOREGROUND) == 0x20
    ensures Pow2(TA_FLAMMABLE) == 0x40 && Pow2(TA_CLIMBABLE) == 0x80
    ensures Pow2(TA_CONVEYOR_L) == 0x100 && Pow2(TA_CONVEYOR_R) == 0x200
    ensures Pow2(TA_SLOW_ANIMATION) == 0x400 && Pow2(TA_LADDER) == 0x4000
  {
  }

  /** The attribute table covers every tile value without bit 15. */
  type Attributes = a: seq<word> | |a| == 0x1000 witness seq(0x1000, i => 0)

  /** `value & 0x8000`: the composite marker bit. */
  predicate IsComposite(value: word)
  {
    value >= 0x8000
  }

  /** The attribute word of a value without the composite bit. */
  function AttributesOf(attrs: Attributes, value: word): word
    requires !IsComposite(value)
  {
    attrs[value / 8]
  }

  /** HAS_TILE_ATTRIBUTE: never for composite values, otherwise the flag in
      the attribute word at value >> 3. */
  predicate HasTileAttribute(attrs: Attributes, value: word, attribute: nat)
  {
    !IsComposite(value) && HasBit(AttributesOf(attrs, value), attribute)
  }

  /** Any of the four solid-edge flags, i.e. `attributes & 0xF`. */
  predicate AnySolid(a: word)
  {
    a % 16 != 0
  }

  lemma NibbleBits(r: int)
    requires 0 <= r < 16
    ensures r != 0 <==> (r % 2 == 1 || (r / 2) % 2 == 1 || (r / 4) % 2 == 1 || r / 8 == 1)
  {
  }

  lemma NibbleShifts(q: nat, r: nat)
    requires r < 16
    ensures (16 * q + r) % 2 == r % 2
    ensures (16 * q + r) / 2 == 8 * q + r / 2
    ensures (16 * q + r) / 4 == 4 * q + r / 4
    ensures (16 * q + r) / 8 == 2 * q + r / 8
  {
  }

  lemma ParityOfSum(q: nat, r: nat)
    ensures (2 * q + r) % 2 == r % 2
  {
  }

  /** The solid flags are exactly the low nibble: masking with 0xF is
      non-zero exactly when one of SOLID_TOP/BOTTOM/RIGHT/LEFT is set. */
  lemma SolidFlagsAreLowNibble(a: word)
    ensures AnySolid(a) <==> (HasBit(a, TA_SOLID_TOP) || HasBit(a, TA_SOLID_BOTTOM) ||
      HasBit(a, TA_SOLID_RIGHT) || HasBit(a, TA_SOLID_LEFT))
  {
    assert Pow2(0) == 1 && Pow2(1) == 2 && Pow2(2) == 4 && Pow2(3) == 8;
    var r := a % 16;
    var q := a / 16;
    assert a == 16 * q + r;
    NibbleShifts(q, r);
    ParityOfSum(4 * q, r / 2);
    ParityOfSum(2 * q, r / 4);
    ParityOfSum(q, r / 8);
    NibbleBits(r);
  }

  /** How UpdateAndDrawGame draws a cell. */
  datatype CellKind = Backdrop | Solid | Masked | CompositeTile

  function Classify(value: word): (k: CellKind)
    ensures k == Backdrop <==> value == 0
    ensures k == Solid <==> 0 < value < 8000
    ensures k == Masked <==> 8000 <= value < 0x8000
    ensures k == CompositeTile <==> IsComposite(value)
  {
    if value == 0 then Backdrop
    else if value >= 8000 then (if IsComposite(value) then CompositeTile else Masked)
    else Solid
  }

  /** Solid tile offset of a composite's background: `(v & 0x3FF) << 3`. */
  function CompositeBackground(value: word): word
  {
    Field(value, 0, 10) * 8
  }

  /** The two extra foreground bits of map cell `cell`, packed four cells to
      a byte of mapExtraData: `(extra[cell / 4] >> (cell % 4 * 2)) & 3`. */
  function ExtraBits(extra: seq<byte>, cell: nat): nat
    requires cell / 4 < |extra|
  {
    Field(extra[cell / 4], cell % 4 * 2, 2)
  }

  /** Masked tile value of a composite's foreground:
      8000 + ((v >> 10) & 0x1F) * 40 + extraBits * 1280. */
  function CompositeForeground(value: word, extraBits: nat): word
    requires extraBits < 4
  {
    8000 + Field(value, 10, 5) * 40 + extraBits * (32 * 40)
  }

  /** A level editor's encoding of a composite with solid tile index bg and
      masked tile index fg: the cell value and the two extra bits. */
  function EncodeComposite(bg: nat, fg: nat): (r: (word, nat))
    requires bg < 1024 && fg < 128
  {
    (0x8000 + (fg % 32) * 1024 + bg, fg / 32)
  }

  /** Composite decoding inverts the encoding: the background becomes solid
      tile offset 8·bg and the foreground masked tile value 8000 + 40·fg,
      with the foreground's high two bits coming from the extra data. */
  lemma CompositeRoundTrip(bg: nat, fg: nat)
    requires bg < 1024 && fg < 128
    ensures var (v, x) := EncodeComposite(bg, fg);
      IsComposite(v) && x < 4 &&
      CompositeBackground(v) == bg * 8 &&
      CompositeForeground(v, x) == 8000 + fg * 40
  {
    var (v, x) := EncodeComposite(bg, fg);
    assert Pow2(10) == 1024 && Pow2(5) == 32;
    assert v == (32 + fg % 32) * 1024 + bg;
    assert v % 1024 == bg;
    assert v / 1024 == 32 + fg % 32;
    assert (32 + fg % 32) % 32 == fg % 32;
    assert fg == (fg / 32) * 32 + fg % 32;
  }

  /** How a level stores the extra bits of four consecutive cells. */
  function PackExtra(b0: nat, b1: nat, b2: nat, b3: nat): byte
    requires b0 < 4 && b1 < 4 && b2 < 4 && b3 < 4
  {
    b0 + 4 * b1 + 16 * b2 + 64 * b3
  }

  /** The extra bits of cell c sit in byte c / 4 at bit position c % 4 · 2. */
  lemma ExtraBitsUnpack(b0: nat, b1: nat, b2: nat, b3: nat, extra: seq<byte>, cell: nat)
    requires b0 < 4 && b1 < 4 && b2 < 4 && b3 < 4
    requires cell / 4 < |extra| && extra[cell / 4] == PackExtra(b0, b1, b2, b3)
    ensures ExtraBits(extra, cell) == [b0, b1, b2, b3][cell % 4]
  {
    assert Pow2(0) == 1 && Pow2(2) == 4 && Pow2(4) == 16 && Pow2(6) == 64;
    var x := PackExtra(b0, b1, b2, b3);
    assert x / 4 == b1 + 4 * b2 + 16 * b3;
    assert x / 16 == b2 + 4 * b3;
    assert x / 64 == b3;
    var k := cell % 4;
    if k == 0 {
      assert ExtraBits(extra, cell) == (x / 1) % 4;
    } else if k == 1 {
      assert ExtraBits(extra, cell) == (x / 4) % 4;
    } else if k == 2 {
      assert ExtraBits(extra, cell) == (x / 16) % 4;
    } else {
      assert ExtraBits(extra, cell) == (x / 64) % 4;
    }
  }

  /** UPDATE_ANIMATION_LOOP: advance a frame counter, wrapping from `to`
      back to `from` (the incremented counter reaching to + 1 is reset). */
  function AnimationStep(frame: int, from: int, to: int): int
  {
    if frame == to then from else frame + 1
  }

  function AnimationSteps(frame: int, from: int, to: int, n: nat): int
    decreases n
  {
    if n == 0 then frame else AnimationSteps(AnimationStep(frame, from, to), from, to, n - 1)
  }

  lemma {:induction false} AnimationStepsCompose(frame: int, from: int, to: int, m: nat, n: nat)
    ensures AnimationSteps(frame, from, to, m + n) ==
      AnimationSteps(AnimationSteps(frame, from, to, m), from, to, n)
    decreases m
  {
    if m > 0 {
      AnimationStepsCompose(AnimationStep(frame, from, to), from, to, m - 1, n);
    }
  }

  lemma {:induction false} AnimationStepsAdvance(frame: int, from: int, to: int, n: nat)
    requires frame + n <= to
    ensures AnimationSteps(frame, from, to, n) == frame + n
    decreases n
  {
    if n > 0 {
      AnimationStepsAdvance(frame + 1, from, to, n - 1);
    }
  }

  /** Within its range the animation loop stays in range and repeats with
      period to - from + 1. */
  lemma AnimationLoopPeriod(frame: int, from: int, to: int)
    requires from <= frame <= to
    ensures from <= AnimationStep(frame, from, to) <= to
    ensures AnimationSteps(frame, from, to, to - from + 1) == frame
  {
    AnimationStepsAdvance(frame, from, to, to - frame);
    AnimationStepsCompose(frame, from, to, to - frame, 1);
    assert AnimationSteps(to, from, to, 1) == from;
    AnimationStepsAdvance(from, from, to, frame - from);
    AnimationStepsCompose(frame, from, to, to - frame + 1, frame - from);
  }
}
