/** The keyboard state kept by the keyboard interrupt handler, and the
    construction of numbered file names. */
module Unit1 {
  import opened Words
  import opened CoreUtil
  import Common

  // ---------------------------------------------------------------------
  // KeyboardHandler
  // ---------------------------------------------------------------------

  /** The prefix byte of the extended (two-byte) scancodes of the PS/2
      keyboard. */
  const SCANCODE_EXTENDED: byte := 0xE0

  /** kbKeyState: one pressed flag per 7-bit scancode. */
  type KeyState = s: seq<bool> | |s| == 128 witness seq(128, _ => false)

  /** KeyboardHandler, for the byte read from the keyboard controller: it
      becomes the last scancode, and unless it is the extended prefix the
      key it names is marked pressed (bit 7 clear) or released (bit 7 set). */
  function KeyboardHandler(keys: KeyState, scancode: byte): (r: (KeyState, byte))
    ensures r.1 == scancode
  {
    if scancode == SCANCODE_EXTENDED then (keys, scancode)
    else (keys[scancode % 0x80 := scancode < 0x80], scancode)
  }

  /** After any key event, the key it names reads as pressed exactly when
      ANY_KEY_PRESSED holds for it, and LAST_SCANCODE names that key; no
      other key changes, and the extended prefix changes none. */
  lemma KeyboardHandlerSpec(keys: KeyState, scancode: byte, k: nat)
    requires k < 128
    ensures var (keys', last) := KeyboardHandler(keys, scancode);
      (scancode != SCANCODE_EXTENDED && k == Common.LastScancode(last) ==>
         keys'[k] == Common.AnyKeyPressed(last)) &&
      (scancode == SCANCODE_EXTENDED || k != Common.LastScancode(last) ==> keys'[k] == keys[k])
  {
    Common.ScancodeSplit(scancode);
  }

  /** A press followed by the release of the same key leaves the key state
      as it was before the press, provided the key was up. */
  lemma PressThenReleaseRestores(keys: KeyState, key: byte)
    requires key < 0x80 && key != SCANCODE_EXTENDED % 0x80 && !keys[key]
    ensures KeyboardHandler(KeyboardHandler(keys, key).0, key + 0x80).0 == keys
  {
    var pressed := KeyboardHandler(keys, key).0;
    assert pressed == keys[key := true];
    assert (key + 0x80) % 0x80 == key;
  }

  // ---------------------------------------------------------------------
  // MakeFilename
  // ---------------------------------------------------------------------

  const TEMP_FILENAME_SIZE: nat := 20

  function DigitChar(d: nat): char
    requires d < 10
  {
    ('0' as int + d) as char
  }

  /** ultoa(n, s, 10): the decimal digits of n, without leading zeros. */
  function Decimal(n: nat): (s: seq<char>)
    ensures 1 <= |s|
    ensures forall i :: 0 <= i < |s| ==> '0' <= s[i] <= '9'
    ensures n < 10 <==> |s| == 1
    decreases n
  {
    if n < 10 then [DigitChar(n)] else Decimal(n / 10) + [DigitChar(n % 10)]
  }

  /** The value of a string of decimal digits. */
  function DecimalValue(s: seq<char>): nat
    requires forall i :: 0 <= i < |s| ==> '0' <= s[i] <= '9'
  {
    if s == [] then 0 else 10 * DecimalValue(s[..|s| - 1]) + (s[|s| - 1] as int - '0' as int)
  }

  /** The digits read back as the number, and the first digit is not a
      leading zero unless the number is 0. */
  lemma {:induction false} DecimalRoundTrip(n: nat)
    ensures DecimalValue(Decimal(n)) == n
    ensures Decimal(n)[0] == '0' <==> n == 0
    decreases n
  {
    if n >= 10 {
      DecimalRoundTrip(n / 10);
      var s := Decimal(n);
      assert s[..|s| - 1] == Decimal(n / 10);
    }
  }

  /** A byte needs at most three digits, so the 4-byte number buffer of
      MakeFilename holds it with its NUL. */
  lemma ByteHasAtMostThreeDigits(n: byte)
    ensures |Decimal(n)| <= 3
  {
    if n >= 10 {
      assert |Decimal(n / 10)| == 1 || |Decimal(n / 10)| == 2;
    }
  }

  /** Write a terminated string uppercased into buf at offset `at`. */
  method CopyUppercasedAt(src: seq<char>, buf: seq<char>, at: nat) returns (out: seq<char>)
    requires Terminated(src) && at + Strlen(src) < |buf|
    ensures |out| == |buf| && out[..at] == buf[..at]
    ensures Terminated(out[at..]) && CStr(out[at..]) == Uppercased(CStr(src))
    ensures forall i :: at + Strlen(src) < i < |buf| ==> out[i] == buf[i]
  {
    var tail := CopyStringUppercased(src, buf[at..]);
    out := buf[..at] + tail;
    assert out[at..] == tail;
  }

  predicate NoNul(s: seq<char>)
  {
    forall i :: 0 <= i < |s| ==> s[i] != NUL
  }

  lemma UppercasedNoNul(s: seq<char>)
    requires NoNul(s)
    ensures NoNul(Uppercased(s))
  {
    forall i | 0 <= i < |s|
      ensures Uppercased(s)[i] != NUL
    {
      ToUpperProperties(s[i]);
    }
  }

  lemma CStrNoNul(s: seq<char>)
    requires Terminated(s)
    ensures NoNul(CStr(s))
  {
  }

  /** A buffer holding the NUL-free text a up to offset |a| and a terminated
      string b from there holds the string a + b. */
  lemma CStrSplice(buf: seq<char>, a: seq<char>, b: seq<char>)
    requires |a| <= |buf| && buf[..|a|] == a && NoNul(a)
    requires Terminated(buf[|a|..]) && CStr(buf[|a|..]) == b
    ensures Terminated(buf) && CStr(buf) == a + b
  {
    var tail := buf[|a|..];
    var m := Strlen(tail);
    assert tail[m] == NUL;
    assert buf[|a| + m] == NUL;
    forall i | 0 <= i < |a| + m
      ensures buf[i] != NUL
    {
      if i < |a| {
        assert buf[i] == a[i];
      } else {
        assert buf[i] == tail[i - |a|];
      }
    }
    StrlenUnique(buf, |a| + m);
    assert buf[..|a| + m] == buf[..|a|] + tail[..m];
  }

  /** Copying src uppercased behind the string a already in the buffer
      holds the string a + uppercased src. */
  method AppendUppercased(a: seq<char>, src: seq<char>, buf: seq<char>) returns (out: seq<char>)
    requires |a| <= |buf| && buf[..|a|] == a && NoNul(a)
    requires Terminated(src) && |a| + Strlen(src) < |buf|
    ensures |out| == |buf| && Terminated(out)
    ensures CStr(out) == a + Uppercased(CStr(src))
  {
    out := CopyUppercasedAt(src, buf, |a|);
    CStrSplice(out, a, Uppercased(CStr(src)));
  }

  /** MakeFilename(prefix, number, postfix): the uppercased prefix, the
      number in decimal and the uppercased postfix, as one string in the
      20-byte tempFilename buffer. */
  method MakeFilename(prefix: seq<char>, number: byte, postfix: seq<char>, buf: seq<char>) returns (out: seq<char>)
    requires Terminated(prefix) && Terminated(postfix) && |buf| == TEMP_FILENAME_SIZE
    requires Strlen(prefix) + 3 + Strlen(postfix) < TEMP_FILENAME_SIZE
    ensures |out| == TEMP_FILENAME_SIZE && Terminated(out)
    ensures CStr(out) == Uppercased(CStr(prefix)) + Decimal(number) + Uppercased(CStr(postfix))
  {
    ByteHasAtMostThreeDigits(number);
    var number' := Decimal(number);
    var digits := number' + [NUL];
    StrlenUnique(digits, |digits| - 1);
    assert CStr(digits) == number';
    assert Uppercased(number') == number';
    var upperPrefix := Uppercased(CStr(prefix));
    CStrNoNul(prefix);
    UppercasedNoNul(CStr(prefix));
    assert NoNul(upperPrefix + number');
    var out0 := AppendUppercased([], prefix, buf);
    assert [] + upperPrefix == upperPrefix;
    var out1 := AppendUppercased(upperPrefix, digits, out0);
    out := AppendUppercased(upperPrefix + number', postfix, out1);
  }
}
