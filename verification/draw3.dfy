/** The two large fonts: the sprite font drawn plane by plane in any of
    the 16 palette colours, and the white status-icon font of the bonus
    screen (colour 16), and DrawBigText laying a string out in either. */
module Draw3 {
  import opened Words
  import opened CoreUtil
  import opened Wrappers
  import Common

  /** The drawing primitives the fonts are made of. */
  datatype FontDraw =
    | FontSprite(frame: word, x: word, y: word, plane: nat)
    | StatusIcon2x2(source: word, x: word, y: word)

  /** The blank frame of the sprite font. */
  const BLANK_FRAME: word := 40
  const STATUS_FONT: byte := 16

  // ---------------------------------------------------------------------
  // DrawColorizedChar
  // ---------------------------------------------------------------------

  /** DrawColorizedChar(index, x, y, color): one pass per bit plane 0 to 3,
      drawing the glyph where the colour has that bit set and the blank
      frame elsewhere, one tile up and two tiles right of (x, y). */
  function DrawColorizedChar(index: word, x: word, y: word, color: word): (d: seq<FontDraw>)
    ensures |d| == 4
    ensures forall p :: 0 <= p < 4 ==>
      d[p].FontSprite? && d[p].plane == p && (d[p].frame == index || d[p].frame == BLANK_FRAME)
  {
    seq(4, p requires 0 <= p < 4 =>
      FontSprite(if HasBit(color, p) then index else BLANK_FRAME, Wrap16(x + 2), Wrap16(y - 1), p))
  }

  /** The value the glyph's planes spell: plane p contributes 2^p where the
      glyph is drawn. */
  function PlaneValue(d: seq<FontDraw>): nat
    requires |d| == 4 && forall p :: 0 <= p < 4 ==> d[p].FontSprite?
  {
    (if d[0].frame != BLANK_FRAME then 1 else 0) + (if d[1].frame != BLANK_FRAME then 2 else 0) +
    (if d[2].frame != BLANK_FRAME then 4 else 0) + (if d[3].frame != BLANK_FRAME then 8 else 0)
  }

  /** Each plane is drawn once, in order, and the planes showing the glyph
      spell the colour's low four bits: the character comes out in palette
      colour color % 16. */
  lemma ColorizedCharShowsColor(index: word, x: word, y: word, color: word)
    requires index != BLANK_FRAME
    ensures var d := DrawColorizedChar(index, x, y, color);
      (forall p :: 0 <= p < 4 ==> d[p].plane == p && d[p].x == Wrap16(x + 2) && d[p].y == Wrap16(y - 1)) &&
      PlaneValue(d) == color % 16
  {
    var d := DrawColorizedChar(index, x, y, color);
    PlaneBits(d, index, x, y, color);
    LowNibbleBits(color);
  }

  /** Plane p shows the glyph exactly when bit p of the colour is set. */
  lemma PlaneBits(d: seq<FontDraw>, index: word, x: word, y: word, color: word)
    requires index != BLANK_FRAME && d == DrawColorizedChar(index, x, y, color)
    ensures d[0].frame != BLANK_FRAME <==> color % 2 == 1
    ensures d[1].frame != BLANK_FRAME <==> (color / 2) % 2 == 1
    ensures d[2].frame != BLANK_FRAME <==> (color / 4) % 2 == 1
    ensures d[3].frame != BLANK_FRAME <==> (color / 8) % 2 == 1
  {
    assert Pow2(0) == 1 && Pow2(1) == 2 && Pow2(2) == 4 && Pow2(3) == 8;
  }

  /** The low four bits of a number, bit by bit. */
  lemma LowNibbleBits(n: nat)
    ensures n % 16 == n % 2 + 2 * ((n / 2) % 2) + 4 * ((n / 4) % 2) + 8 * ((n / 8) % 2)
  {
    var a := n / 2;
    var b := a / 2;
    var c := b / 2;
    var e := c / 2;
    assert n == 2 * a + n % 2;
    assert a == 2 * b + a % 2;
    assert b == 2 * c + b % 2;
    assert c == 2 * e + c % 2;
    assert n == 4 * b + 2 * (a % 2) + n % 2;
    assert n / 4 == b;
    assert n == 8 * c + 4 * (b % 2) + 2 * (a % 2) + n % 2;
    assert n / 8 == c;
    assert n == 16 * e + 8 * (c % 2) + 4 * (b % 2) + 2 * (a % 2) + n % 2;
  }

  // ---------------------------------------------------------------------
  // The sprite font
  // ---------------------------------------------------------------------

  predicate IsUpper(c: char) { 'A' <= c <= 'Z' }
  predicate IsLowerLetter(c: char) { 'a' <= c <= 'z' }
  predicate IsDigitChar(c: char) { '0' <= c <= '9' }

  /** The characters the sprite font has a frame for. */
  predicate InSpriteFont(c: char)
  {
    IsUpper(c) || IsLowerLetter(c) || IsDigitChar(c) || c in "?,.!"
  }

  /** The sprite font frame of a character: A to Z are 0 to 25, the digits
      26 to 35, '?', ',', '.', '!' are 36 to 39 and a to z are 41 to 66. */
  function SpriteFontFrame(c: char): (f: word)
    requires InSpriteFont(c)
    ensures f <= 66 && f != BLANK_FRAME
  {
    if IsUpper(c) then c as int - 'A' as int
    else if IsLowerLetter(c) then c as int - 'a' as int + 41
    else if IsDigitChar(c) then c as int - '0' as int + 26
    else if c == '?' then 36
    else if c == ',' then 37
    else if c == '.' then 38
    else 39
  }

  /** The character a sprite font frame shows. */
  function FrameGlyph(f: word): char
    requires f <= 66 && f != BLANK_FRAME
  {
    if f < 26 then ('A' as int + f) as char
    else if f < 36 then ('0' as int + f - 26) as char
    else if f == 36 then '?'
    else if f == 37 then ','
    else if f == 38 then '.'
    else if f == 39 then '!'
    else ('a' as int + f - 41) as char
  }

  /** The frame table is a bijection between the font's characters and the
      frames 0 to 66 other than the blank one. */
  lemma SpriteFontRoundTrip(c: char, f: word)
    requires InSpriteFont(c)
    ensures FrameGlyph(SpriteFontFrame(c)) == c
    ensures f <= 66 && f != BLANK_FRAME ==> InSpriteFont(FrameGlyph(f)) && SpriteFontFrame(FrameGlyph(f)) == f
  {
  }

  // ---------------------------------------------------------------------
  // The status-icon font (colour 16)
  // ---------------------------------------------------------------------

  /** The 2x2 status icon colour 16 draws for a character, if any: the
      punctuation and space have their own icons, characters up to '9'
      count from the digit row, up to 'J' from (20, 0) and up to 'Z' from
      (0, 2), each character two tiles wide. Anything after 'Z' draws
      nothing. */
  function StatusFontIcon(c: char): Option<word>
  {
    if c == '?' then Some(Common.XyToOffset(32, 2))
    else if c == ',' then Some(Common.XyToOffset(34, 2))
    else if c == '.' then Some(Common.XyToOffset(36, 2))
    else if c == '!' then Some(Common.XyToOffset(38, 2))
    else if c == ' ' then Some(Common.XyToOffset(0, 5))
    else if c <= '9' then Some(Wrap16((c as int - '0' as int) * 16 + Common.XyToOffset(0, 0)))
    else if c <= 'J' then Some(Wrap16((c as int - 'A' as int) * 16 + Common.XyToOffset(20, 0)))
    else if c <= 'Z' then Some(Wrap16((c as int - 'K' as int) * 16 + Common.XyToOffset(0, 2)))
    else None
  }

  /** The characters the status font was drawn for. */
  predicate InStatusFont(c: char)
  {
    IsDigitChar(c) || IsUpper(c) || c in "?,.! "
  }

  /** The top-left tile of a status font character. */
  function StatusFontTile(c: char): (t: (nat, nat))
    requires InStatusFont(c)
    ensures t.0 <= 38 && t.0 % 2 == 0
  {
    if c == '?' then (32, 2)
    else if c == ',' then (34, 2)
    else if c == '.' then (36, 2)
    else if c == '!' then (38, 2)
    else if c == ' ' then (0, 5)
    else if IsDigitChar(c) then (2 * (c as int - '0' as int), 0)
    else if c <= 'J' then (20 + 2 * (c as int - 'A' as int), 0)
    else (2 * (c as int - 'K' as int), 2)
  }

  /** The character whose icon sits at tile t. */
  function StatusFontAt(t: (nat, nat)): char
    requires t.0 < 40
  {
    if t.1 == 5 then ' '
    else if t.1 == 0 then
      if t.0 < 20 then ('0' as int + t.0 / 2) as char else ('A' as int + (t.0 - 20) / 2) as char
    else if t.0 < 32 then ('K' as int + t.0 / 2) as char
    else if t.0 == 32 then '?'
    else if t.0 == 34 then ','
    else if t.0 == 36 then '.'
    else '!'
  }

  /** Each status font character is found again from its tile, so no two
      of them share a tile: digits and A to J fill row 0, K to Z and the
      punctuation row 2. */
  lemma StatusFontTileRoundTrip(c: char)
    requires InStatusFont(c)
    ensures StatusFontAt(StatusFontTile(c)) == c
  {
  }

  lemma Wrap16Small(v: int)
    requires 0 <= v < 0x1_0000
    ensures Wrap16(v) == v
  {
  }

  /** Every status font character is drawn from the icon at its tile. */
  lemma StatusFontIconAt(c: char)
    requires InStatusFont(c)
    ensures StatusFontIcon(c) == Some(Common.XyToOffset(StatusFontTile(c).0, StatusFontTile(c).1))
  {
    if IsDigitChar(c) {
      var v := c as int - '0' as int;
      Wrap16Small(v * 16);
    } else if IsUpper(c) && c <= 'J' {
      var v := c as int - 'A' as int;
      Wrap16Small(v * 16 + Common.XyToOffset(20, 0));
    } else if IsUpper(c) {
      var v := c as int - 'K' as int;
      Wrap16Small(v * 16 + Common.XyToOffset(0, 2));
    }
  }

  /** Distinct status font characters use distinct icons. */
  lemma StatusFontIconsDistinct(c: char, d: char)
    requires InStatusFont(c) && InStatusFont(d) && c != d
    ensures StatusFontIcon(c) != StatusFontIcon(d)
  {
    StatusFontIconAt(c);
    StatusFontIconAt(d);
    StatusFontTileRoundTrip(c);
    StatusFontTileRoundTrip(d);
    var tc := StatusFontTile(c);
    var td := StatusFontTile(d);
    Common.XyToOffsetDecodes(tc.0, tc.1);
    Common.XyToOffsetDecodes(td.0, td.1);
  }

  // ---------------------------------------------------------------------
  // DrawBigTextChar and DrawBigText
  // ---------------------------------------------------------------------

  /** DrawBigTextChar(x, y, c, color): colour 16 draws the status icon one
      tile up; any other colour draws the sprite font frame in that colour,
      and nothing for a space. The sprite font reads an uninitialised frame
      for a character it has no frame for, which this model excludes. */
  function DrawBigTextChar(x: word, y: word, c: char, color: byte): (d: seq<FontDraw>)
    requires color == STATUS_FONT || c == ' ' || InSpriteFont(c)
    ensures color == STATUS_FONT ==> (|d| == 1 <==> StatusFontIcon(c).Some?) && |d| <= 1
    ensures color == STATUS_FONT && |d| == 1 ==> d[0].StatusIcon2x2? && d[0].x == x && d[0].y == Wrap16(y - 1)
    ensures color != STATUS_FONT ==> (d == [] <==> c == ' ')
    ensures color != STATUS_FONT && c != ' ' ==>
      |d| == 4 && forall p :: 0 <= p < 4 ==> d[p].FontSprite? && d[p].x == Wrap16(x + 2) && d[p].y == Wrap16(y - 1)
  {
    if color == STATUS_FONT then
      match StatusFontIcon(c)
      case Some(src) => [StatusIcon2x2(src, x, Wrap16(y - 1))]
      case None => []
    else if c == ' ' then []
    else DrawColorizedChar(SpriteFontFrame(c), x, y, color)
  }

  /** Characters shown in the sprite font appear in the requested colour,
      glyph by glyph recoverable from the frame drawn. */
  lemma BigTextCharShowsGlyph(x: word, y: word, c: char, color: byte)
    requires color != STATUS_FONT && InSpriteFont(c)
    ensures var d := DrawBigTextChar(x, y, c, color);
      |d| == 4 && (forall p :: 0 <= p < 4 ==> d[p].FontSprite?) &&
      PlaneValue(d) == color % 16 &&
      (color % 16 != 0 ==> exists p :: 0 <= p < 4 && d[p].frame <= 66 && d[p].frame != BLANK_FRAME && FrameGlyph(d[p].frame) == c)
  {
    var f := SpriteFontFrame(c);
    ColorizedCharShowsColor(f, x, y, color);
    SpriteFontRoundTrip(c, f);
    var d := DrawBigTextChar(x, y, c, color);
    if color % 16 != 0 {
      var p :| 0 <= p < 4 && d[p].frame != BLANK_FRAME;
      assert d[p].frame == f;
    }
  }

  /** One character placed by DrawBigText. */
  datatype CharDraw = CharDraw(x: word, y: word, c: char, color: byte)

  /** Tiles a character advances: 2 in the status font, 1 otherwise. */
  function Advance(color: byte): nat
  {
    if color == STATUS_FONT then 2 else 1
  }

  /** Where DrawBigText puts the characters of s: character k at x plus k
      advances, on the 16-bit position. */
  function BigTextLayout(x: word, y: word, s: seq<char>, color: byte): (r: seq<CharDraw>)
    ensures |r| == |s|
  {
    seq(|s|, k requires 0 <= k < |s| => CharDraw(Wrap16(x + k * Advance(color)), y, s[k], color))
  }

  lemma BigTextLayoutSnoc(x: word, y: word, s: seq<char>, c: char, color: byte)
    ensures BigTextLayout(x, y, s + [c], color) ==
      BigTextLayout(x, y, s, color) + [CharDraw(Wrap16(x + |s| * Advance(color)), y, c, color)]
  {
    var a := BigTextLayout(x, y, s + [c], color);
    var b := BigTextLayout(x, y, s, color) + [CharDraw(Wrap16(x + |s| * Advance(color)), y, c, color)];
    assert forall k :: 0 <= k < |a| ==> a[k] == b[k];
  }

  /** The loop's position arithmetic: drawing at pos + i puts character i
      where the layout does, and the status font's extra step keeps pos at
      x + i on the 16-bit position. */
  lemma BigTextStep(x: word, pos: word, i: nat, color: byte)
    requires pos == if color == STATUS_FONT then Wrap16(x + i) else x
    ensures Wrap16(pos + i) == Wrap16(x + i * Advance(color))
    ensures color == STATUS_FONT ==> Wrap16(pos + 1) == Wrap16(x + (i + 1))
  {
    if color == STATUS_FONT {
      Wrap16Add(x + i, i);
      Wrap16Add(x + i, 1);
      assert i * Advance(color) == i + i;
    } else {
      assert i * Advance(color) == i;
    }
  }

  /** One pass of DrawBigText's loop: the character drawn at pos + i
      extends the layout of the first i characters by one. */
  lemma BigTextLoopStep(x: word, y: word, str: seq<char>, i: nat, pos: word, color: byte)
    requires i < |str|
    requires pos == if color == STATUS_FONT then Wrap16(x + i) else x
    ensures BigTextLayout(x, y, str[..i + 1], color) ==
      BigTextLayout(x, y, str[..i], color) + [CharDraw(Wrap16(pos + i), y, str[i], color)]
    ensures (if color == STATUS_FONT then Wrap16(pos + 1) else pos) ==
      if color == STATUS_FONT then Wrap16(x + (i + 1)) else x
  {
    BigTextStep(x, pos, i, color);
    BigTextLayoutSnoc(x, y, str[..i], str[i], color);
    assert str[..i + 1] == str[..i] + [str[i]];
  }

  /** DrawBigText(x, y, str, color): the loop draws character i at pos + i
      and, in the status font, also moves pos on by one after each. */
  method DrawBigText(x: word, y: word, str: seq<char>, color: byte) returns (r: seq<CharDraw>)
    requires Terminated(str)
    ensures r == BigTextLayout(x, y, CStr(str), color)
  {
    var pos: word := x;
    var i := 0;
    r := [];
    while str[i] != NUL
      invariant 0 <= i <= Strlen(str)
      invariant pos == if color == STATUS_FONT then Wrap16(x + i) else x
      invariant r == BigTextLayout(x, y, str[..i], color)
      decreases Strlen(str) - i
    {
      BigTextLoopStep(x, y, str, i, pos, color);
      r := r + [CharDraw(Wrap16(pos + i), y, str[i], color)];
      if color == STATUS_FONT {
        pos := Wrap16(pos + 1);
      }
      i := i + 1;
    }
    assert str[..i] == CStr(str);
  }

  /** Consecutive characters abut: in the status font each takes two tiles
      and in the sprite font one, so text never overlaps itself within the
      16-bit screen positions. */
  lemma BigTextCellsAbut(x: word, y: word, s: seq<char>, color: byte, k: nat)
    requires k + 1 < |s|
    ensures var r := BigTextLayout(x, y, s, color);
      r[k + 1].x == Wrap16(r[k].x + Advance(color)) && r[k].c == s[k] && r[k].color == color
  {
    var a := Advance(color);
    assert (k + 1) * a == k * a + a;
    Wrap16Add(x + k * a, a);
  }
}
