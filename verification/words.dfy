/** Machine-width integers of the 16-bit DOS target and the bit arithmetic the
    game uses on them. Bytes and words are plain bounded integers; every
    wrap-around is written out with `%`, and bit tests are stated with
    division by powers of two. */
module Words {

  /** An unsigned 8-bit value (`byte` in the source). */
  type byte = x: int | 0 <= x < 0x100

  /** An unsigned 16-bit value (`word` in the source). */
  type word = x: int | 0 <= x < 0x1_0000

  /** An unsigned 32-bit value (`dword` in the source). */
  type dword = x: int | 0 <= x < 0x1_0000_0000

  /** A signed 16-bit value (`int` in the source). */
  type sword = x: int | -0x8000 <= x < 0x8000

  /** A signed 32-bit value (`long` in the source). */
  type slong = x: int | -0x8000_0000 <= x < 0x8000_0000

  /** 2 to the power k. */
  function Pow2(k: nat): (r: nat)
    ensures r >= 1
  {
    if k == 0 then 1 else 2 * Pow2(k - 1)
  }

  /** Truncation of an integer to 16 bits, as an assignment to a `word` does. */
  function Wrap16(x: int): word
  {
    x % 0x1_0000
  }

  /** Truncation of an integer to 32 bits, as an assignment to a `dword` does. */
  function Wrap32(x: int): dword
  {
    x % 0x1_0000_0000
  }

  /** Truncation of an integer to 8 bits, as an assignment to a `byte` does. */
  function Wrap8(x: int): byte
  {
    x % 0x100
  }

  /** Truncating an intermediate sum does not change the truncated total. */
  lemma Wrap16Add(a: int, b: int)
    ensures Wrap16(Wrap16(a) + b) == Wrap16(a + b)
  {
  }

  /** Likewise for a truncated amount taken away. */
  lemma Wrap16Sub(a: int, b: int)
    ensures Wrap16(a - Wrap16(b)) == Wrap16(a - b)
  {
    var q := b / 0x1_0000;
    assert b == q * 0x1_0000 + Wrap16(b);
    assert a - Wrap16(b) == a - b + q * 0x1_0000;
  }

  lemma Wrap32Add(a: int, b: int)
    ensures Wrap32(Wrap32(a) + b) == Wrap32(a + b)
  {
    var q := a / 0x1_0000_0000;
    assert a == q * 0x1_0000_0000 + Wrap32(a);
    assert Wrap32(a) + b == a + b - q * 0x1_0000_0000;
  }

  /** Reinterpretation of a word as a signed 16-bit value (an `(int)` cast). */
  function AsSigned(w: word): sword
  {
    if w < 0x8000 then w else w - 0x1_0000
  }

  /** Two's-complement wrap-around of an integer to a signed 32-bit `long`. */
  function WrapLong(x: int): slong
  {
    (x + 0x8000_0000) % 0x1_0000_0000 - 0x8000_0000
  }

  /** A value that fits in a long is kept as it is. */
  lemma WrapLongSmall(x: int)
    requires -0x8000_0000 <= x < 0x8000_0000
    ensures WrapLong(x) == x
  {
  }

  /** Wrapping after every step of `result = result * radix + digit` gives
      the wrap of the exact total. */
  lemma WrapLongMulAdd(v: int, radix: int, d: int)
    ensures WrapLong(WrapLong(v) * radix + d) == WrapLong(v * radix + d)
  {
    var q := (v + 0x8000_0000) / 0x1_0000_0000;
    assert WrapLong(v) == v - 0x1_0000_0000 * q;
    assert WrapLong(v) * radix == v * radix - 0x1_0000_0000 * (q * radix);
    var m := q * radix;
    var x := v * radix + d;
    assert WrapLong(v) * radix + d == x - 0x1_0000_0000 * m;
  }

  /** A 16-bit amount added to a long, with wrap-around, written without
      the remainder so that proofs about counters stay linear. */
  function AddLong(x: slong, d: sword): (r: slong)
    ensures r == WrapLong(x + d)
  {
    if x + d >= 0x8000_0000 then x + d - 0x1_0000_0000
    else if x + d < -0x8000_0000 then x + d + 0x1_0000_0000
    else x + d
  }

  /** C's `/`, which truncates toward zero. */
  function DivTrunc(a: int, b: int): int
    requires b != 0
  {
    if a >= 0 && b > 0 then a / b
    else if a >= 0 then -(a / -b)
    else if b > 0 then -(-a / b)
    else -a / -b
  }

  /** Bit k of x is set, i.e. `x & (1 << k)` is non-zero. */
  predicate HasBit(x: nat, k: nat)
  {
    (x / Pow2(k)) % 2 == 1
  }

  /** The n-bit field of x starting at bit lo, i.e. `(x >> lo) & ((1 << n) - 1)`. */
  function Field(x: nat, lo: nat, n: nat): nat
  {
    (x / Pow2(lo)) % Pow2(n)
  }

  /** Memory by linear address: a read past the end of a buffer reads
      whatever lies there, so it is modelled as a total function. */
  type Memory = nat -> byte

  /** The little-endian word at address a. */
  function ReadWord(mem: Memory, a: nat): word
  {
    mem(a) + 0x100 * mem(a + 1)
  }

  /** Little-endian split of a word into its two bytes. */
  function LowByte(w: word): byte
  {
    w % 0x100
  }

  function HighByte(w: word): byte
  {
    w / 0x100
  }

  /** Little-endian composition of a word from its two bytes. */
  function MakeWord(lo: byte, hi: byte): word
  {
    lo + 0x100 * hi
  }

  /** The word and byte views of a 16-bit value are inverse to each other. */
  lemma WordBytesRoundTrip(lo: byte, hi: byte, w: word)
    ensures LowByte(MakeWord(lo, hi)) == lo && HighByte(MakeWord(lo, hi)) == hi
    ensures MakeWord(LowByte(w), HighByte(w)) == w
  {
  }
}
