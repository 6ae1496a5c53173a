/** String helpers, the table-driven random number generator and the
    16-colour palette index remap. C strings are modelled as character
    buffers (`seq<char>`) holding a NUL terminator somewhere. */
module CoreUtil {
  import opened Words
  import Arith

  const NUL: char := '\0'

  /** The buffer holds a terminated C string. */
  predicate Terminated(s: seq<char>)
  {
    exists i :: 0 <= i < |s| && s[i] == NUL
  }

  /** DN2_strlen: the number of characters before the first NUL. */
  function Strlen(s: seq<char>): (n: nat)
    requires Terminated(s)
    ensures n < |s| && s[n] == NUL
    ensures forall i :: 0 <= i < n ==> s[i] != NUL
  {
    if s[0] == NUL then 0
    else
      assert Terminated(s[1..]) by {
        var i :| 0 <= i < |s| && s[i] == NUL;
        assert s[1..][i - 1] == NUL;
      }
      1 + Strlen(s[1..])
  }

  /** The string value a terminated buffer holds. */
  function CStr(s: seq<char>): seq<char>
    requires Terminated(s)
  {
    s[..Strlen(s)]
  }

  /** The first NUL of a buffer is unique, so any position that is NUL and
      preceded only by non-NUL characters is the string length. */
  lemma StrlenUnique(s: seq<char>, n: nat)
    requires n < |s| && s[n] == NUL
    requires forall i :: 0 <= i < n ==> s[i] != NUL
    ensures Terminated(s) && Strlen(s) == n
  {
    assert s[n] == NUL;
    var m := Strlen(s);
    assert !(m < n);
    assert !(n < m);
  }

  /** A string without NUL, stored with its terminator, reads back as
      itself. */
  lemma CStrOfStored(s: seq<char>)
    requires forall i :: 0 <= i < |s| ==> s[i] != NUL
    ensures Terminated(s + [NUL]) && CStr(s + [NUL]) == s
  {
    StrlenUnique(s + [NUL], |s|);
    assert (s + [NUL])[..|s|] == s;
  }

  predicate IsLower(c: char)
  {
    'a' <= c <= 'z'
  }

  /** DN2_toupper: ASCII lowercase letters become uppercase. */
  function ToUpper(c: char): char
  {
    if IsLower(c) then (c as int - 'a' as int + 'A' as int) as char else c
  }

  /** ToUpper changes exactly the lowercase letters, never yields one, never
      creates or removes a NUL, and applying it twice changes nothing more. */
  lemma ToUpperProperties(c: char)
    ensures !IsLower(ToUpper(c))
    ensures ToUpper(c) == c <==> !IsLower(c)
    ensures ToUpper(ToUpper(c)) == ToUpper(c)
    ensures ToUpper(c) == NUL <==> c == NUL
    ensures IsLower(c) ==> 'A' <= ToUpper(c) <= 'Z' && ToUpper(c) as int + 32 == c as int
  {
  }

  /** The uppercase image of a string, character by character. */
  function Uppercased(s: seq<char>): (u: seq<char>)
    ensures |u| == |s|
    ensures forall i :: 0 <= i < |s| ==> u[i] == ToUpper(s[i])
  {
    if s == [] then [] else [ToUpper(s[0])] + Uppercased(s[1..])
  }

  /** CopyStringUppercased: writes toupper of every source character up to
      the NUL, then a NUL, into dest; the rest of dest is untouched. */
  method CopyStringUppercased(src: seq<char>, dest: seq<char>) returns (out: seq<char>)
    requires Terminated(src)
    requires Strlen(src) < |dest|
    ensures |out| == |dest|
    ensures Terminated(out) && CStr(out) == Uppercased(CStr(src))
    ensures forall i :: Strlen(src) < i < |dest| ==> out[i] == dest[i]
  {
    var n := Strlen(src);
    out := dest;
    var k := 0;
    while src[k] != NUL
      invariant 0 <= k <= n
      invariant |out| == |dest|
      invariant forall i :: 0 <= i < k ==> out[i] == ToUpper(src[i])
      invariant forall i :: k <= i < |dest| ==> out[i] == dest[i]
      decreases n - k
    {
      out := out[k := ToUpper(src[k])];
      k := k + 1;
    }
    out := out[k := NUL];
    forall i | 0 <= i < n
      ensures out[i] != NUL
    {
      ToUpperProperties(src[i]);
    }
    StrlenUnique(out, n);
  }

  /** The comparison loop of StringStartsWith, positioned at index i. */
  function StartsWithFrom(prefix: seq<char>, s: seq<char>, i: nat): bool
    requires Terminated(prefix) && Terminated(s)
    requires i <= Strlen(prefix) && i <= Strlen(s)
    requires i < Strlen(prefix) || i < Strlen(s)
    decreases Strlen(prefix) - i
  {
    if prefix[i] != s[i] then false
    else if s[i + 1] == NUL || prefix[i + 1] == NUL then true
    else StartsWithFrom(prefix, s, i + 1)
  }

  /** StringStartsWith: advance while both strings agree, succeeding as soon
      as either one ends. Two empty strings would make the loop read past
      both terminators, so they are excluded. */
  function StringStartsWith(prefix: seq<char>, s: seq<char>): bool
    requires Terminated(prefix) && Terminated(s)
    requires Strlen(prefix) > 0 || Strlen(s) > 0
  {
    StartsWithFrom(prefix, s, 0)
  }

  lemma {:induction false} StartsWithFromSpec(prefix: seq<char>, s: seq<char>, i: nat)
    requires Terminated(prefix) && Terminated(s)
    requires i <= Strlen(prefix) && i <= Strlen(s)
    requires i < Strlen(prefix) || i < Strlen(s)
    requires i == 0 || (i < Strlen(prefix) && i < Strlen(s))
    requires prefix[..i] == s[..i]
    ensures var m := if Strlen(prefix) < Strlen(s) then Strlen(prefix) else Strlen(s);
      StartsWithFrom(prefix, s, i) <==> (m > 0 && prefix[..m] == s[..m])
    decreases Strlen(prefix) - i
  {
    var m := if Strlen(prefix) < Strlen(s) then Strlen(prefix) else Strlen(s);
    if prefix[i] != s[i] {
      if i < m {
        assert prefix[..m][i] != s[..m][i];
      }
    } else {
      assert i < Strlen(prefix) && i < Strlen(s);
      assert prefix[..i + 1] == s[..i + 1] by {
        assert prefix[..i + 1] == prefix[..i] + [prefix[i]];
        assert s[..i + 1] == s[..i] + [s[i]];
      }
      if s[i + 1] == NUL || prefix[i + 1] == NUL {
        assert m == i + 1;
      } else {
        StartsWithFromSpec(prefix, s, i + 1);
      }
    }
  }

  /** For buffers that are not both empty, StringStartsWith is true exactly
      when the two strings agree on their first min(|prefix|, |s|)
      characters and that is at least one character; in particular it is
      also true when s is a proper prefix of prefix. */
  lemma StringStartsWithSpec(prefix: seq<char>, s: seq<char>)
    requires Terminated(prefix) && Terminated(s)
    requires Strlen(prefix) > 0 || Strlen(s) > 0
    ensures var m := if Strlen(prefix) < Strlen(s) then Strlen(prefix) else Strlen(s);
      StringStartsWith(prefix, s) <==> (m > 0 && prefix[..m] == s[..m])
  {
    StartsWithFromSpec(prefix, s, 0);
  }

  /** The 256-entry table RandomNumber draws from. */
  const RANDOM_NR_TABLE: seq<byte> := [
      0, 8, 109, 220, 222, 241, 149, 107, 75, 248, 254, 140, 16, 66, 74, 21,
      211, 47, 80, 242, 154, 27, 205, 128, 161, 89, 77, 36, 95, 110, 85, 48,
      212, 140, 211, 249, 22, 79, 200, 50, 28, 188, 52, 140, 202, 120, 68, 145,
      62, 70, 184, 190, 91, 197, 152, 224, 149, 104, 25, 178, 252, 182, 202, 182,
      141, 197, 4, 81, 181, 242, 145, 42, 39, 227, 156, 198, 225, 193, 219, 93,
      122, 175, 249, 0, 175, 143, 70, 239, 46, 246, 163, 53, 163, 109, 168, 135,
      2, 235, 25, 92, 20, 145, 138, 77, 69, 166, 78, 176, 173, 212, 166, 113,
      94, 161, 41, 50, 239, 49, 111, 164, 70, 60, 2, 37, 171, 75, 136, 156,
      11, 56, 42, 146, 138, 229, 73, 146, 77, 61, 98, 196, 135, 106, 63, 197,
      195, 86, 96, 203, 113, 101, 170, 247, 181, 113, 80, 250, 108, 7, 255, 237,
      129, 226, 79, 107, 112, 166, 103, 241, 24, 223, 239, 120, 198, 58, 60, 82,
      128, 3, 184, 66, 143, 224, 145, 224, 81, 206, 163, 45, 63, 90, 168, 114,
      59, 33, 159, 95, 28, 139, 123, 98, 125, 196, 15, 70, 194, 253, 54, 14,
      109, 226, 71, 17, 161, 93, 186, 87, 244, 138, 20, 52, 123, 251, 26, 36,
      17, 46, 52, 231, 232, 76, 31, 221, 84, 37, 216, 165, 212, 106, 197, 242,
      98, 43, 39, 175, 254, 145, 190, 84, 118, 222, 187, 136, 120, 163, 236, 249
  ]

  /** One RandomNumber call against a 256-entry table: pre-increment the
      byte index (wrapping 255 to 0) and return the entry there. Yields the
      new index and the value. */
  function Draw(table: seq<byte>, index: byte): (r: (byte, byte))
    requires |table| == 256
  {
    var next := Wrap8(index + 1);
    (next, table[next])
  }

  /** RandomNumber on the game's table. */
  function RandomNumber(index: byte): (r: (byte, byte))
  {
    Draw(RANDOM_NR_TABLE, index)
  }

  /** The index after n calls. */
  function RngIndexAfter(table: seq<byte>, index: byte, n: nat): byte
    requires |table| == 256
    decreases n
  {
    if n == 0 then index else RngIndexAfter(table, Draw(table, index).0, n - 1)
  }

  /** The values returned by n consecutive calls. */
  function RngOutputs(table: seq<byte>, index: byte, n: nat): (out: seq<byte>)
    requires |table| == 256
    ensures |out| == n
    decreases n
  {
    if n == 0 then [] else [Draw(table, index).1] + RngOutputs(table, Draw(table, index).0, n - 1)
  }

  /** One call advances the index by one modulo 256. */
  lemma RngStep(table: seq<byte>, index: byte, n: nat)
    requires |table| == 256
    requires n > 0
    ensures (Draw(table, index).0 + (n - 1)) % 256 == (index + n) % 256
  {
    if index == 255 {
      assert Draw(table, index).0 == 0;
      assert index + n == (n - 1) + 256;
    } else {
      assert Draw(table, index).0 == index + 1;
    }
  }

  lemma {:induction false} RngIndexAfterIsSum(table: seq<byte>, index: byte, n: nat)
    requires |table| == 256
    ensures RngIndexAfter(table, index, n) == (index + n) % 256
    decreases n
  {
    if n > 0 {
      RngIndexAfterIsSum(table, Draw(table, index).0, n - 1);
      RngStep(table, index, n);
    }
  }

  lemma {:induction false} RngOutputAt(table: seq<byte>, index: byte, n: nat, k: nat)
    requires |table| == 256
    requires k < n
    ensures RngOutputs(table, index, n)[k] == table[(index + k + 1) % 256]
    decreases k
  {
    if k > 0 {
      RngOutputAt(table, Draw(table, index).0, n - 1, k - 1);
      RngStep(table, index, k + 1);
    }
  }

  /** The generator returns to its starting index after 256 calls, and its
      output repeats with period 256, whatever the table holds. */
  lemma RngPeriod(table: seq<byte>, index: byte, n: nat, k: nat)
    requires |table| == 256
    requires k + 256 < n
    ensures RngIndexAfter(table, index, 256) == index
    ensures RngOutputs(table, index, n)[k + 256] == RngOutputs(table, index, n)[k]
  {
    ReturnsHome(table, index);
    OutputsRepeat(table, index, n, k);
  }

  lemma ReturnsHome(table: seq<byte>, index: byte)
    requires |table| == 256
    ensures RngIndexAfter(table, index, 256) == index
  {
    RngIndexAfterIsSum(table, index, 256);
    Arith.ModUnique(index + 256, 256, 1, index as nat);
  }

  lemma OutputsRepeat(table: seq<byte>, index: byte, n: nat, k: nat)
    requires |table| == 256
    requires k + 256 < n
    ensures RngOutputs(table, index, n)[k + 256] == RngOutputs(table, index, n)[k]
  {
    RngOutputAt(table, index, n, k);
    RngOutputAt(table, index, n, k + 256);
    var a := index + k + 1;
    var q, j := a / 256, a % 256;
    Arith.ModUnique(a + 256, 256, q + 1, j);
  }

  /** SetPaletteEntry_16 register index: EGA palette slots 8..15 live at
      VGA DAC indices 16..23. */
  function PaletteRegister(index: word): word
    requires index < 0xFFF8
  {
    if index > 7 then index + 8 else index
  }

  /** On the 16 EGA colours the remap is injective and skips 8..15. */
  lemma PaletteRegisterRemap(a: word, b: word)
    requires a < 16 && b < 16
    ensures PaletteRegister(a) < 8 || 16 <= PaletteRegister(a) < 24
    ensures PaletteRegister(a) == PaletteRegister(b) ==> a == b
    ensures a < 8 <==> PaletteRegister(a) == a
  {
  }
}
