/** The small orange font, the marker-driven DrawText, and the two name
    entry dialogs (saved game names and high score names). Characters are
    taken as unsigned byte values, which the marker comparisons of DrawText
    need. */
module Ui1 {
  import opened Words
  import opened CoreUtil
  import opened Wrappers
  import Common
  import Unit1

  // ---------------------------------------------------------------------
  // DrawSmallTextChar
  // ---------------------------------------------------------------------

  /** The status icon DrawSmallTextChar draws for character c: '_' is drawn
      as character 0x1F, then the font sheet is read from four runs: up to
      '=' from (0, 21), up to 'Z' from (0, 22), up to 'k' from (29, 22) and
      the rest from (17, 23), all 16-bit offset arithmetic. */
  function SmallFontIcon(c: byte): word
  {
    var c' := if c == '_' as int then 0x1F else c;
    if c' <= '=' as int then Wrap16(Common.T2px(Wrap16(c' - 0x16)) + Common.XyToOffset(0, 21))
    else if c' <= 'Z' as int then Wrap16(Common.T2px(Wrap16(c' - '>' as int)) + Common.XyToOffset(0, 22))
    else if c' <= 'k' as int then Wrap16(Common.T2px(Wrap16(c' - 'a' as int)) + Common.XyToOffset(29, 22))
    else Wrap16(Common.T2px(Wrap16(c' - 'l' as int)) + Common.XyToOffset(17, 23))
  }

  /** The characters the font sheet holds: space to 'Z', the underscore and
      the lowercase letters. */
  predicate InSmallFont(c: byte)
  {
    (' ' as int <= c <= 'Z' as int) || c == '_' as int || ('a' as int <= c <= 'z' as int)
  }

  /** Where character c sits in the font sheet, as a (column, row) pair of
      the 40-column status image. */
  function SmallFontTile(c: byte): (t: (nat, nat))
    requires InSmallFont(c)
    ensures t.0 < 40 && 21 <= t.1 <= 23
  {
    if c == '_' as int then (0x1F - 0x16, 21)
    else if c <= '=' as int then (c - 0x16, 21)
    else if c <= 'Z' as int then (c - '>' as int, 22)
    else if c <= 'k' as int then (c - 'a' as int + 29, 22)
    else (c - 'l' as int + 17, 23)
  }

  /** Every character of the font is drawn from its own tile of the sheet,
      and no two of them share one: the four runs tile the sheet without
      overlap. */
  lemma SmallFontLayout(c: byte, d: byte)
    requires InSmallFont(c) && InSmallFont(d)
    ensures SmallFontIcon(c) == Common.XyToOffset(SmallFontTile(c).0, SmallFontTile(c).1)
    ensures c != d ==> SmallFontTile(c) != SmallFontTile(d)
  {
    SmallFontIconAtTile(c);
  }

  /** The icon of a font character is the offset of its tile. */
  lemma SmallFontIconAtTile(c: byte)
    requires InSmallFont(c)
    ensures SmallFontIcon(c) == Common.XyToOffset(SmallFontTile(c).0, SmallFontTile(c).1)
  {
    var t := SmallFontTile(c);
    var c' := if c == '_' as int then 0x1F else c;
    var v := if c' <= '=' as int then c' - 0x16 else if c' <= 'Z' as int then c' - '>' as int
             else if c' <= 'k' as int then c' - 'a' as int else c' - 'l' as int;
    assert 0 <= v < 40;
    assert Common.T2px(Wrap16(v)) == v * 8;
  }

  lemma TilesHaveDistinctOffsets(a: (nat, nat), b: (nat, nat))
    requires a.0 < 40 && b.0 < 40 && a != b
    ensures Common.XyToOffset(a.0, a.1) != Common.XyToOffset(b.0, b.1)
  {
    Common.XyToOffsetDecodes(a.0, a.1);
    Common.XyToOffsetDecodes(b.0, b.1);
  }

  /** The icon offsets decode to the tiles, so distinct font characters are
      drawn from distinct icons. */
  lemma SmallFontIconsDistinct(c: byte, d: byte)
    requires InSmallFont(c) && InSmallFont(d) && c != d
    ensures SmallFontIcon(c) != SmallFontIcon(d)
  {
    SmallFontLayout(c, d);
    SmallFontLayout(d, c);
    TilesHaveDistinctOffsets(SmallFontTile(c), SmallFontTile(d));
  }

  // ---------------------------------------------------------------------
  // DrawText
  // ---------------------------------------------------------------------

  const SPRITE_MARKER: nat := 0xEF
  const COLOR_MARKER: nat := 0xF0

  /** One thing DrawText draws. */
  datatype TextDraw =
    | Sprite(actorId: word, frame: word, x: int, y: int)
    | SmallChar(x: int, y: int, c: char)
    | BigChar(x: int, y: int, c: char, color: nat)

  predicate IsDigit(c: char)
  {
    '0' <= c <= '9'
  }

  /** The longest run of digits at the start of s. */
  function LeadingDigits(s: seq<char>): (d: seq<char>)
    ensures |d| <= |s| && d == s[..|d|]
    ensures forall k :: 0 <= k < |d| ==> IsDigit(d[k])
    ensures |d| < |s| ==> !IsDigit(s[|d|])
  {
    if s == [] || !IsDigit(s[0]) then [] else [s[0]] + LeadingDigits(s[1..])
  }

  lemma {:induction false} LeadingDigitsOfDigits(s: seq<char>)
    requires forall k :: 0 <= k < |s| ==> IsDigit(s[k])
    ensures LeadingDigits(s) == s
  {
    if s != [] {
      LeadingDigitsOfDigits(s[1..]);
    }
  }

  /** The characters C's isspace accepts: space and tab to carriage
      return. */
  predicate IsCSpace(c: char)
  {
    c == ' ' || '\t' <= c <= '\r'
  }

  /** s without its leading white space. */
  function SkipSpaces(s: seq<char>): (t: seq<char>)
    ensures t == [] || !IsCSpace(t[0])
  {
    if s != [] && IsCSpace(s[0]) then SkipSpaces(s[1..]) else s
  }

  /** atoi on the characters copied out of a marker: leading white space
      is skipped, an optional sign is read, then the longest run of digits.
      Anything else (the string's NUL included) ends the number, and no
      digit at all gives 0. */
  function Atoi(s: seq<char>): (n: int)
    ensures var t := SkipSpaces(s);
      (t == [] || (t[0] != '-' && t[0] != '+' && !IsDigit(t[0]))) ==> n == 0
  {
    var t := SkipSpaces(s);
    if t != [] && t[0] == '-' then -(Unit1.DecimalValue(LeadingDigits(t[1..])) as int)
    else if t != [] && t[0] == '+' then Unit1.DecimalValue(LeadingDigits(t[1..]))
    else Unit1.DecimalValue(LeadingDigits(t))
  }

  /** Leading white space does not change the number. */
  lemma AtoiSkipsSpace(c: char, s: seq<char>)
    requires IsCSpace(c)
    ensures Atoi([c] + s) == Atoi(s)
  {
    assert ([c] + s)[1..] == s;
  }

  /** A minus sign in front of an unsigned number negates it. */
  lemma AtoiMinus(s: seq<char>)
    requires s == [] || (!IsCSpace(s[0]) && s[0] != '-' && s[0] != '+')
    ensures Atoi(['-'] + s) == -Atoi(s)
  {
    var t := ['-'] + s;
    assert SkipSpaces(t) == t;
    assert t[1..] == s;
    var v := Unit1.DecimalValue(LeadingDigits(s));
    assert Atoi(t) == -(v as int);
    UnsignedAtoi(s);
  }

  /** A plus sign in front of an unsigned number keeps it. */
  lemma AtoiPlus(s: seq<char>)
    requires s == [] || (!IsCSpace(s[0]) && s[0] != '-' && s[0] != '+')
    ensures Atoi(['+'] + s) == Atoi(s)
  {
    var t := ['+'] + s;
    assert SkipSpaces(t) == t;
    assert t[1..] == s;
    UnsignedAtoi(s);
  }

  /** Without white space or a sign in front, atoi reads the leading
      digits. */
  lemma UnsignedAtoi(s: seq<char>)
    requires s == [] || (!IsCSpace(s[0]) && s[0] != '-' && s[0] != '+')
    ensures Atoi(s) == Unit1.DecimalValue(LeadingDigits(s))
  {
    assert SkipSpaces(s) == s;
  }

  /** A string of digits reads as its decimal value. */
  lemma AtoiOfDigits(s: seq<char>)
    requires forall k :: 0 <= k < |s| ==> '0' <= s[k] <= '9'
    ensures Atoi(s) == Unit1.DecimalValue(s)
  {
    assert s == [] || !IsCSpace(s[0]);
    assert SkipSpaces(s) == s;
    LeadingDigitsOfDigits(s);
  }

  /** The DrawText loop from index i with the current colour (0 for the
      small font, otherwise the colour index plus one). The sprite marker
      reads the five characters after it without looking for the end of the
      string, so a marker near the end reads past it; None is a read beyond
      the buffer. Every character is drawn at x plus its index, markers
      included, so markers take up columns. The actor id and frame are
      atoi results stored in 16-bit words; characters are compared as
      unsigned bytes. */
  function DrawTextFrom(buf: seq<char>, x: word, y: word, i: nat, color: nat): (r: Option<seq<TextDraw>>)
    decreases |buf| - i
  {
    if i >= |buf| then None
    else if buf[i] == NUL then Some([])
    else if buf[i] as int == SPRITE_MARKER then
      if i + 5 >= |buf| then None
      else
        var rest := DrawTextFrom(buf, x, y, i + 6, color);
        if rest.None? then None
        else Some([Sprite(Wrap16(Atoi(buf[i + 1..i + 4])), Wrap16(Atoi(buf[i + 4..i + 6])), x + i + 2, y + 1)] + rest.value)
    else if buf[i] as int >= COLOR_MARKER then
      DrawTextFrom(buf, x, y, i + 1, buf[i] as int - COLOR_MARKER + 1)
    else
      var rest := DrawTextFrom(buf, x, y, i + 1, color);
      if rest.None? then None
      else if color != 0 then Some([BigChar(x + i, y, buf[i], color - 1)] + rest.value)
      else Some([SmallChar(x + i, y, buf[i])] + rest.value)
  }

  /** DrawText(x, y, text). */
  function DrawText(buf: seq<char>, x: word, y: word): Option<seq<TextDraw>>
  {
    DrawTextFrom(buf, x, y, 0, 0)
  }

  /** No marker byte among the first n characters. */
  predicate PlainUpTo(buf: seq<char>, n: nat)
    requires n <= |buf|
  {
    forall k :: 0 <= k < n ==> buf[k] as int < SPRITE_MARKER
  }

  /** What a plain character at index k draws in the given colour. */
  function Glyph(buf: seq<char>, x: word, y: word, k: nat, color: nat): TextDraw
    requires k < |buf|
  {
    if color != 0 then BigChar(x + k, y, buf[k], color - 1) else SmallChar(x + k, y, buf[k])
  }

  /** A string without markers is drawn in the small font, character k at
      column x + k. */
  lemma PlainTextIsSmall(buf: seq<char>, x: word, y: word)
    requires Terminated(buf) && PlainUpTo(buf, Strlen(buf))
    ensures var n := Strlen(buf);
      DrawText(buf, x, y) == Some(seq(n, k requires 0 <= k < n => SmallChar(x + k, y, buf[k])))
  {
    var n := Strlen(buf);
    PlainTextFromOffset(buf, x, y, 0, 0);
    var a := seq(n - 0, k requires 0 <= k < n - 0 => Glyph(buf, x, y, 0 + k, 0));
    var b := seq(n, k requires 0 <= k < n => SmallChar(x + k, y, buf[k]));
    assert |a| == |b|;
    assert forall k :: 0 <= k < n ==> a[k] == b[k];
    assert a == b;
  }

  /** A colour marker switches everything after it to the big font in that
      colour; there is no way back to the small font within the call. */
  lemma ColorMarkerSwitchesFont(buf: seq<char>, x: word, y: word, m: nat)
    requires Terminated(buf) && m < Strlen(buf) && buf[m] as int >= COLOR_MARKER
    requires forall k :: m < k < Strlen(buf) ==> buf[k] as int < SPRITE_MARKER
    ensures var n := Strlen(buf); var color := buf[m] as int - COLOR_MARKER;
      DrawTextFrom(buf, x, y, m, 0) == Some(seq(n - m - 1, k requires 0 <= k < n - m - 1 =>
        BigChar(x + m + 1 + k, y, buf[m + 1 + k], color)))
  {
    var n := Strlen(buf);
    var color := buf[m] as int - COLOR_MARKER + 1;
    PlainTextFromOffset(buf, x, y, m + 1, color);
    var a := seq(n - (m + 1), k requires 0 <= k < n - (m + 1) => Glyph(buf, x, y, m + 1 + k, color));
    var b := seq(n - m - 1, k requires 0 <= k < n - m - 1 => BigChar(x + m + 1 + k, y, buf[m + 1 + k], color - 1));
    assert |a| == |b|;
    forall k | 0 <= k < |a|
      ensures a[k] == b[k]
    {
      assert a[k] == Glyph(buf, x, y, m + 1 + k, color);
    }
    assert a == b;
  }

  /** From index i of a terminated string with no markers from there on,
      each remaining character is drawn once, in order, in the font the
      colour selects and at x plus its index. */
  lemma {:induction false} PlainTextFromOffset(buf: seq<char>, x: word, y: word, i: nat, color: nat)
    requires Terminated(buf) && i <= Strlen(buf)
    requires forall k :: i <= k < Strlen(buf) ==> buf[k] as int < SPRITE_MARKER
    ensures var n := Strlen(buf);
      DrawTextFrom(buf, x, y, i, color) == Some(seq(n - i, k requires 0 <= k < n - i => Glyph(buf, x, y, i + k, color)))
    decreases |buf| - i
  {
    var n := Strlen(buf);
    if i < n {
      PlainTextFromOffset(buf, x, y, i + 1, color);
      var s := seq(n - i, k requires 0 <= k < n - i => Glyph(buf, x, y, i + k, color));
      var s' := seq(n - (i + 1), k requires 0 <= k < n - (i + 1) => Glyph(buf, x, y, i + 1 + k, color));
      assert s == [Glyph(buf, x, y, i, color)] + s';
    } else {
      assert buf[i] == NUL;
    }
  }

  /** The value of a decimal digit. */
  function DigitValue(c: char): (v: nat)
    requires IsDigit(c)
    ensures v < 10 && Unit1.DigitChar(v) == c
  {
    c as int - '0' as int
  }

  /** A sprite marker followed by five digits draws the actor whose id the
      first three spell, in the frame the last two spell, two columns right
      of the marker and one row down. */
  lemma SpriteMarkerFields(buf: seq<char>, x: word, y: word, i: nat, color: nat)
    requires i + 5 < |buf| && buf[i] as int == SPRITE_MARKER
    requires IsDigit(buf[i + 1]) && IsDigit(buf[i + 2]) && IsDigit(buf[i + 3])
    requires IsDigit(buf[i + 4]) && IsDigit(buf[i + 5])
    requires DrawTextFrom(buf, x, y, i, color).Some?
    ensures var d := DrawTextFrom(buf, x, y, i, color).value;
      |d| > 0 &&
      d[0] == Sprite(
        100 * DigitValue(buf[i + 1]) + 10 * DigitValue(buf[i + 2]) + DigitValue(buf[i + 3]),
        10 * DigitValue(buf[i + 4]) + DigitValue(buf[i + 5]),
        x + i + 2, y + 1)
  {
    var id := buf[i + 1..i + 4];
    var fr := buf[i + 4..i + 6];
    AtoiOfDigits(id);
    AtoiOfDigits(fr);
    DigitsValue(id);
    DigitsValue(fr);
  }

  /** The decimal value of two or three digits. */
  lemma DigitsValue(s: seq<char>)
    requires 2 <= |s| <= 3 && forall k :: 0 <= k < |s| ==> '0' <= s[k] <= '9'
    ensures |s| == 2 ==> Unit1.DecimalValue(s) == 10 * DigitValue(s[0]) + DigitValue(s[1])
    ensures |s| == 3 ==> Unit1.DecimalValue(s) == 100 * DigitValue(s[0]) + 10 * DigitValue(s[1]) + DigitValue(s[2])
  {
    assert s[..2][..1] == s[..1];
    assert Unit1.DecimalValue(s[..1]) == DigitValue(s[0]);
    assert Unit1.DecimalValue(s[..2]) == 10 * DigitValue(s[0]) + DigitValue(s[1]);
  }

  /** atoi's sign reaches the sprite: a marker spelling "-01" draws actor
      0xFFFF, the 16-bit word of -1. */
  lemma NegativeSpriteIdWraps(buf: seq<char>, x: word, y: word, i: nat, color: nat)
    requires i + 5 < |buf| && buf[i] as int == SPRITE_MARKER
    requires buf[i + 1..i + 4] == "-01"
    requires DrawTextFrom(buf, x, y, i, color).Some?
    ensures DrawTextFrom(buf, x, y, i, color).value[0].actorId == 0xFFFF
  {
    var id := buf[i + 1..i + 4];
    AtoiMinus("01");
    AtoiOfDigits("01");
    assert Unit1.DecimalValue("01") == 1 by {
      assert "01"[..1] == "0";
    }
    assert id == ['-'] + "01";
  }

  // ---------------------------------------------------------------------
  // Name entry
  // ---------------------------------------------------------------------

  /** Set-1 keyboard scancodes the dialogs react to (the scancode header is
      not part of this model; these are the standard PC values). */
  const SCANCODE_ESC: byte := 0x01
  const SCANCODE_1: byte := 0x02
  const SCANCODE_0: byte := 0x0B
  const SCANCODE_EQUAL: byte := 0x0D
  const SCANCODE_BACKSPACE: byte := 0x0E
  const SCANCODE_Q: byte := 0x10
  const SCANCODE_P: byte := 0x19
  const SCANCODE_ENTER: byte := 0x1C
  const SCANCODE_A: byte := 0x1E
  const SCANCODE_L: byte := 0x26
  const SCANCODE_Z: byte := 0x2C
  const SCANCODE_M: byte := 0x32
  const SCANCODE_COMMA: byte := 0x33
  const SCANCODE_DOT: byte := 0x34
  const SCANCODE_SPACE: byte := 0x39

  /** The first character of KEY_NAMES for scancodes 0 to 0x39, row by
      row of the keyboard. */
  const DIGIT_ROW: seq<char> := "1234567890"
  const KEY_NAME_INITIALS: seq<char> :=
    "NE" + DIGIT_ROW + "-=BT" + "QWERTYUIOP" + "  EC" + "ASDFGHJKL" + ";\"TL " + "ZXCVBNM" + ",.?RPAS"

  /** The two dialogs: saved game names keep the existing name and accept
      letters and digits; high score names start empty and also accept the
      comma and the dot. */
  datatype Dialog = SaveGameName | HighScoreName

  /** One key press as the dialog reads it: the scancode GetTextInput
      returns and whether either shift key was down. */
  datatype KeyPress = KeyPress(scancode: byte, shift: bool)

  predicate IsDigitKey(sc: byte)
  {
    SCANCODE_1 <= sc <= SCANCODE_0
  }

  predicate IsLetterKey(sc: byte)
  {
    (SCANCODE_Q <= sc <= SCANCODE_P) || (SCANCODE_A <= sc <= SCANCODE_L) || (SCANCODE_Z <= sc <= SCANCODE_M)
  }

  /** The scancodes the dialog turns into a character from KEY_NAMES. */
  predicate Accepted(d: Dialog, sc: byte)
  {
    IsDigitKey(sc) || IsLetterKey(sc) ||
    (d == HighScoreName && (sc == SCANCODE_COMMA || sc == SCANCODE_DOT))
  }

  /** The case offset: 0x20 (lowercase) unless shift is held, never for the
      keys from 1 to '=' nor, in the high score dialog, for comma and dot. */
  function CaseOffset(d: Dialog, sc: byte, shift: bool): int
  {
    if SCANCODE_1 <= sc <= SCANCODE_EQUAL then 0
    else if d == HighScoreName && (sc == SCANCODE_COMMA || sc == SCANCODE_DOT) then 0
    else if shift then 0
    else 0x20
  }

  function TypedChar(d: Dialog, sc: byte, shift: bool): char
    requires Accepted(d, sc)
  {
    (KEY_NAME_INITIALS[sc] as int + CaseOffset(d, sc, shift)) as char
  }

  /** KEY_NAMES spells the digit keys 1 to 0 as those digits. */
  lemma DigitKeyInitials(sc: byte)
    requires IsDigitKey(sc)
    ensures IsDigit(KEY_NAME_INITIALS[sc])
  {
    assert KEY_NAME_INITIALS[sc] == DIGIT_ROW[sc - SCANCODE_1];

  }

  /** Letters come out lowercase unless shift is held, and uppercase with
      it; digits come out as themselves either way. */
  lemma TypedCharCase(d: Dialog, sc: byte, shift: bool)
    requires Accepted(d, sc)
    ensures IsLetterKey(sc) && !shift ==> 'a' <= TypedChar(d, sc, shift) <= 'z'
    ensures IsLetterKey(sc) && shift ==> 'A' <= TypedChar(d, sc, shift) <= 'Z'
    ensures IsDigitKey(sc) ==> IsDigit(TypedChar(d, sc, shift)) && TypedChar(d, sc, true) == TypedChar(d, sc, false)
    ensures d == HighScoreName && (sc == SCANCODE_COMMA || sc == SCANCODE_DOT) ==> TypedChar(d, sc, shift) in ",."
  {
    if IsDigitKey(sc) {
      DigitKeyInitials(sc);
    }
  }

  /** The characters a name can be made of. */
  predicate NameChar(d: Dialog, c: char)
  {
    ('a' <= c <= 'z') || ('A' <= c <= 'Z') || IsDigit(c) || c == ' ' || (d == HighScoreName && c in ",.")
  }

  /** The effect of a key other than Enter and Escape on the text typed so
      far: backspace drops the last character if there is one, and while
      the text is shorter than maxLen an accepted key or space appends a
      character; every other key is ignored. */
  function EditText(d: Dialog, text: seq<char>, k: KeyPress, maxLen: nat): seq<char>
  {
    if k.scancode == SCANCODE_BACKSPACE then
      if |text| > 0 then text[..|text| - 1] else text
    else if |text| < maxLen then
      if Accepted(d, k.scancode) then text + [TypedChar(d, k.scancode, k.shift)]
      else if k.scancode == SCANCODE_SPACE then text + [' ']
      else text
    else text
  }

  datatype EntryResult = Entered(text: seq<char>) | Escaped | StillTyping(text: seq<char>)

  /** The dialog as a function of the key presses it reads: Enter confirms
      the text, Escape cancels, and while keys remain every other key edits
      the text. */
  function RunText(d: Dialog, text: seq<char>, keys: seq<KeyPress>, maxLen: nat): EntryResult
    decreases |keys|
  {
    if keys == [] then StillTyping(text)
    else if keys[0].scancode == SCANCODE_ENTER then Entered(text)
    else if keys[0].scancode == SCANCODE_ESC then Escaped
    else RunText(d, EditText(d, text, keys[0], maxLen), keys[1..], maxLen)
  }

  /** A text of at most maxLen allowed characters stays one: the entered
      name never exceeds maxLen and holds only letters, digits and spaces
      (and in the high score dialog commas and dots). */
  lemma {:induction false} RunTextKeepsNamesValid(d: Dialog, text: seq<char>, keys: seq<KeyPress>, maxLen: nat)
    requires |text| <= maxLen && forall k :: 0 <= k < |text| ==> NameChar(d, text[k])
    ensures var r := RunText(d, text, keys, maxLen);
      !r.Escaped? ==> |r.text| <= maxLen && forall k :: 0 <= k < |r.text| ==> NameChar(d, r.text[k])
    decreases |keys|
  {
    if keys != [] && keys[0].scancode != SCANCODE_ENTER && keys[0].scancode != SCANCODE_ESC {
      var t := EditText(d, text, keys[0], maxLen);
      if Accepted(d, keys[0].scancode) {
        TypedCharCase(d, keys[0].scancode, keys[0].shift);
      }
      assert forall k :: 0 <= k < |t| ==> NameChar(d, t[k]);
      RunTextKeepsNamesValid(d, t, keys[1..], maxLen);
    }
  }

  /** The name a finished high score dialog leaves: the text on Enter, the
      empty name on Escape. */
  function EnteredName(r: EntryResult): seq<char>
  {
    if r.Entered? then r.text else []
  }

  datatype Outcome = Confirmed | Cancelled | OutOfInput

  /** The shared loop of both dialogs on the name buffer: each character
      is written at the cursor, backspace moves the cursor back without
      clearing, and Enter writes the terminator at the cursor. What the
      buffer holds before the cursor is always the text RunText builds. */
  method EntryLoop(d: Dialog, buf: seq<char>, cursor: nat, maxLen: nat, keys: seq<KeyPress>)
    returns (outcome: Outcome, buf': seq<char>, cursor': nat)
    requires maxLen < |buf| && cursor < |buf| && Unit1.NoNul(buf[..cursor])
    ensures |buf'| == |buf|
    ensures outcome == Confirmed <==> RunText(d, buf[..cursor], keys, maxLen).Entered?
    ensures outcome == Cancelled <==> RunText(d, buf[..cursor], keys, maxLen).Escaped?
    ensures outcome == Confirmed ==> Terminated(buf') && CStr(buf') == RunText(d, buf[..cursor], keys, maxLen).text
    ensures outcome == OutOfInput ==> cursor' <= |buf'| && RunText(d, buf[..cursor], keys, maxLen) == StillTyping(buf'[..cursor'])
  {
    buf' := buf;
    cursor' := cursor;
    var i := 0;
    while i < |keys|
      invariant 0 <= i <= |keys| && |buf'| == |buf| && cursor' < |buf|
      invariant Unit1.NoNul(buf'[..cursor'])
      invariant RunText(d, buf'[..cursor'], keys[i..], maxLen) == RunText(d, buf[..cursor], keys, maxLen)
      decreases |keys| - i
    {
      var k := keys[i];
      var text := buf'[..cursor'];
      if k.scancode == SCANCODE_ENTER {
        RunTextFirst(d, text, keys, i, maxLen);
        buf' := buf'[cursor' := NUL];
        assert buf'[..cursor'] == text;
        StrlenUnique(buf', cursor');
        outcome := Confirmed;
        return;
      } else if k.scancode == SCANCODE_ESC {
        RunTextFirst(d, text, keys, i, maxLen);
        outcome := Cancelled;
        return;
      }
      RunTextFirst(d, text, keys, i, maxLen);
      buf', cursor' := EditBuffer(d, buf', cursor', k, maxLen);
      i := i + 1;
    }
    outcome := OutOfInput;
  }

  /** One key other than Enter and Escape applied to the name buffer: a
      character is written at the cursor and the cursor moves past it,
      backspace moves the cursor back without clearing. The text before the
      cursor becomes EditText of the text before. */
  method EditBuffer(d: Dialog, buf: seq<char>, cursor: nat, k: KeyPress, maxLen: nat) returns (buf': seq<char>, cursor': nat)
    requires maxLen < |buf| && cursor < |buf| && Unit1.NoNul(buf[..cursor])
    ensures |buf'| == |buf| && cursor' < |buf| && Unit1.NoNul(buf'[..cursor'])
    ensures buf'[..cursor'] == EditText(d, buf[..cursor], k, maxLen)
  {
    buf', cursor' := buf, cursor;
    var text := buf[..cursor];
    if k.scancode == SCANCODE_BACKSPACE {
      if cursor > 0 {
        cursor' := cursor - 1;
        assert buf'[..cursor'] == text[..|text| - 1];
      }
    } else if cursor < maxLen {
      if Accepted(d, k.scancode) {
        var c := TypedChar(d, k.scancode, k.shift);
        TypedCharCase(d, k.scancode, k.shift);
        buf' := buf[cursor := c];
        cursor' := cursor + 1;
        assert buf'[..cursor'] == text + [c];
      } else if k.scancode == SCANCODE_SPACE {
        buf' := buf[cursor := ' '];
        cursor' := cursor + 1;
        assert buf'[..cursor'] == text + [' '];
      }
    }
  }

  /** RunText on the keys from i on, by its first key. */
  lemma RunTextFirst(d: Dialog, text: seq<char>, keys: seq<KeyPress>, i: nat, maxLen: nat)
    requires i < |keys|
    ensures keys[i].scancode == SCANCODE_ENTER ==> RunText(d, text, keys[i..], maxLen) == Entered(text)
    ensures keys[i].scancode == SCANCODE_ESC ==> RunText(d, text, keys[i..], maxLen) == Escaped
    ensures keys[i].scancode != SCANCODE_ENTER && keys[i].scancode != SCANCODE_ESC ==>
      RunText(d, text, keys[i..], maxLen) == RunText(d, EditText(d, text, keys[i], maxLen), keys[i + 1..], maxLen)
  {
    assert keys[i..][1..] == keys[i + 1..];
  }

  /** SaveGameNameEntry_Impl(x, y, nameBuffer, maxLen): editing starts
      at the end of the existing name; true on Enter with the edited name
      in the buffer, false on Escape; None while it is still waiting for
      keys. */
  method SaveGameNameEntry(buf: seq<char>, maxLen: nat, keys: seq<KeyPress>) returns (r: Option<bool>, buf': seq<char>)
    requires Terminated(buf) && maxLen < |buf|
    ensures r == Some(true) <==> RunText(SaveGameName, CStr(buf), keys, maxLen).Entered?
    ensures r == Some(false) <==> RunText(SaveGameName, CStr(buf), keys, maxLen).Escaped?
    ensures r == Some(true) ==> Terminated(buf') && CStr(buf') == RunText(SaveGameName, CStr(buf), keys, maxLen).text
  {
    var cursor := Strlen(buf);
    var outcome, cursor';
    outcome, buf', cursor' := EntryLoop(SaveGameName, buf, cursor, maxLen, keys);
    r := match outcome
      case Confirmed => Some(true)
      case Cancelled => Some(false)
      case OutOfInput => None;
  }

  /** RunHighScoreNameEntry(x, y, nameBuffer, maxLen): always starts from
      an empty name; Enter leaves the typed name in the buffer, Escape
      leaves it empty. */
  method RunHighScoreNameEntry(buf: seq<char>, maxLen: nat, keys: seq<KeyPress>) returns (done: bool, buf': seq<char>)
    requires maxLen < |buf|
    ensures done <==> !RunText(HighScoreName, [], keys, maxLen).StillTyping?
    ensures done ==> Terminated(buf')
    ensures done ==> CStr(buf') == EnteredName(RunText(HighScoreName, [], keys, maxLen))
  {
    var outcome, cursor';
    assert buf[..0] == [];
    outcome, buf', cursor' := EntryLoop(HighScoreName, buf, 0, maxLen, keys);
    if outcome == Cancelled {
      buf' := buf'[0 := NUL];
      StrlenUnique(buf', 0);
    }
    done := outcome != OutOfInput;
  }

  /** The name entered is the keys' text: Enter at once keeps an existing
      save name, and an Enter after typing gives a name no longer than the
      limit, of allowed characters only. */
  lemma NameEntryResults(d: Dialog, name: seq<char>, keys: seq<KeyPress>, maxLen: nat)
    requires |name| <= maxLen && forall k :: 0 <= k < |name| ==> NameChar(d, name[k])
    ensures keys != [] && keys[0].scancode == SCANCODE_ENTER ==> RunText(d, name, keys, maxLen) == Entered(name)
    ensures RunText(d, name, keys, maxLen).Entered? ==>
      |RunText(d, name, keys, maxLen).text| <= maxLen
  {
    RunTextKeepsNamesValid(d, name, keys, maxLen);
  }
}
