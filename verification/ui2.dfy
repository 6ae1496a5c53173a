/** Key rebinding, the save slot names and the two big number fonts. */
module Ui2 {
  import opened Words
  import opened CoreUtil
  import opened Wrappers
  import opened Arith
  import Common
  import Unit1
  import Ui1
  import Draw3

  // ---------------------------------------------------------------------
  // Key bindings
  // ---------------------------------------------------------------------

  /** kbBindingFire, Jump, Up, Down, Left and Right: binding i (1 to 6) is
      element i - 1. */
  type Bindings = s: seq<byte> | |s| == 6 witness [0, 0, 0, 0, 0, 0]

  /** The scancode is bound to some action other than binding `index`. */
  predicate InUseElsewhere(b: Bindings, index: byte, scancode: byte)
  {
    exists i :: 0 <= i < 6 && i + 1 != index && b[i] == scancode
  }

  /** IsKeyBindingInUse(index, scancode): checks the six bindings in turn,
      skipping the one at index. */
  method IsKeyBindingInUse(b: Bindings, index: byte, scancode: byte) returns (r: bool)
    ensures r <==> InUseElsewhere(b, index, scancode)
  {
    var i := 0;
    while i < 6
      invariant 0 <= i <= 6
      invariant forall j :: 0 <= j < i && j + 1 != index ==> b[j] != scancode
    {
      if index != i + 1 && b[i] == scancode {
        return true;
      }
      i := i + 1;
    }
    return false;
  }

  /** The bindings with binding `index` set to the scancode; an index
      outside 1 to 6 changes nothing. */
  function Store(b: Bindings, index: byte, scancode: byte): (b': Bindings)
  {
    if 1 <= index <= 6 then b[index - 1 := scancode] else b
  }

  /** Every action has its own key. */
  predicate Distinct(b: Bindings)
  {
    forall i, j :: 0 <= i < j < 6 ==> b[i] != b[j]
  }

  /** The key at position j answers a prompt, is free, and every earlier
      prompt was answered with a key in use. */
  predicate FirstFreeKey(b: Bindings, index: byte, keys: seq<byte>, j: nat)
  {
    j < |keys| && j % 2 == 0 && !InUseElsewhere(b, index, keys[j]) &&
    forall j' :: 0 <= j' < j && j' % 2 == 0 ==> InUseElsewhere(b, index, keys[j'])
  }

  /** RunRebindKeyDialog(index) on the keys the player presses: a key
      already bound elsewhere shows an error, waits for one more key and
      asks again, so the prompts read the keys at even positions; the first
      free key becomes the binding. There is no way to cancel; None means
      the keys ran out while the dialog was still asking. */
  method RunRebindKeyDialog(b: Bindings, index: byte, keys: seq<byte>) returns (r: Option<Bindings>)
    ensures r.None? ==> forall j :: 0 <= j < |keys| && j % 2 == 0 ==> InUseElsewhere(b, index, keys[j])
    ensures r.Some? ==> exists j: nat :: FirstFreeKey(b, index, keys, j) && r.value == Store(b, index, keys[j])
  {
    var j := 0;
    while j < |keys|
      invariant j % 2 == 0
      invariant forall j' :: 0 <= j' < j && j' < |keys| && j' % 2 == 0 ==> InUseElsewhere(b, index, keys[j'])
    {
      var inUse := IsKeyBindingInUse(b, index, keys[j]);
      if !inUse {
        return Some(Store(b, index, keys[j]));
      }
      j := j + 2;
    }
    return None;
  }

  /** Rebinding never creates a clash: distinct bindings stay distinct, and
      only the binding being changed changes. */
  lemma RebindKeepsBindingsDistinct(b: Bindings, index: byte, scancode: byte)
    requires Distinct(b) && !InUseElsewhere(b, index, scancode)
    ensures Distinct(Store(b, index, scancode))
    ensures forall i :: 0 <= i < 6 && i + 1 != index ==> Store(b, index, scancode)[i] == b[i]
  {
  }

  // ---------------------------------------------------------------------
  // Save slots
  // ---------------------------------------------------------------------

  const NUM_SAVE_SLOTS: nat := 8
  const SAVE_SLOT_NAME_MAX_LEN: nat := 18

  /** saveSlotNames: eight buffers of SAVE_SLOT_NAME_MAX_LEN + 1 characters. */
  predicate ValidSlots(names: seq<seq<char>>)
  {
    |names| == NUM_SAVE_SLOTS &&
    forall i :: 0 <= i < |names| ==> |names[i]| == SAVE_SLOT_NAME_MAX_LEN + 1 && Terminated(names[i])
  }

  /** IsSaveSlotEmpty(index): the slot's name starts with the terminator. */
  function IsSaveSlotEmpty(names: seq<seq<char>>, index: byte): (r: bool)
    requires ValidSlots(names) && index < NUM_SAVE_SLOTS
    ensures r <==> CStr(names[index]) == []
  {
    names[index][0] == NUL
  }

  /** A call to DrawBigText. */
  datatype BigTextCall = BigTextCall(x: word, y: word, text: seq<char>, color: byte)

  /** DrawSaveSlotNames(selectedIndex): each slot's name, or "Empty" for an
      empty slot, on its own row, in colour 3 when selected and 2 otherwise. */
  function DrawSaveSlotNames(names: seq<seq<char>>, selected: word): (r: seq<BigTextCall>)
    requires ValidSlots(names)
  {
    seq(NUM_SAVE_SLOTS, i requires 0 <= i < NUM_SAVE_SLOTS =>
      BigTextCall(13, i * 2 + 6, if names[i][0] != NUL then CStr(names[i]) else "Empty", if i == selected then 3 else 2))
  }

  /** Every slot is labelled on its own row; a slot reads "Empty" exactly
      when it is empty (a saved name can itself be "Empty"), and only the
      selected slot is highlighted. */
  lemma SaveSlotLabels(names: seq<seq<char>>, selected: word, i: nat, j: nat)
    requires ValidSlots(names) && i < NUM_SAVE_SLOTS && j < NUM_SAVE_SLOTS
    ensures var r := DrawSaveSlotNames(names, selected);
      (i != j ==> r[i].y != r[j].y) &&
      (IsSaveSlotEmpty(names, i) ==> r[i].text == "Empty") &&
      (!IsSaveSlotEmpty(names, i) ==> r[i].text == CStr(names[i])) &&
      (r[i].color == 3 <==> i == selected)
  {
  }

  /** RunSaveGameNameEntry(index): the name entry dialog on the slot's
      buffer with SAVE_SLOT_NAME_MAX_LEN; the other slots keep their names. */
  method RunSaveGameNameEntry(names: seq<seq<char>>, index: nat, keys: seq<Ui1.KeyPress>)
    returns (r: Option<bool>, names': seq<seq<char>>)
    requires ValidSlots(names) && index < NUM_SAVE_SLOTS
    ensures |names'| == |names| && forall i :: 0 <= i < |names| && i != index ==> names'[i] == names[i]
    ensures var run := Ui1.RunText(Ui1.SaveGameName, CStr(names[index]), keys, SAVE_SLOT_NAME_MAX_LEN);
      (r == Some(true) <==> run.Entered?) && (r == Some(false) <==> run.Escaped?) &&
      (r == Some(true) ==> Terminated(names'[index]) && CStr(names'[index]) == run.text)
  {
    var buf';
    r, buf' := Ui1.SaveGameNameEntry(names[index], SAVE_SLOT_NAME_MAX_LEN, keys);
    names' := names[index := buf'];
  }

  // ---------------------------------------------------------------------
  // Big numbers
  // ---------------------------------------------------------------------

  function Pow10(k: nat): (r: nat)
    ensures r >= 1
  {
    if k == 0 then 1 else 10 * Pow10(k - 1)
  }

  lemma DivDiv10(n: nat, m: nat)
    requires m >= 1
    ensures n / 10 / m == n / (10 * m)
  {
    var p := n / 10;
    var q := p / m;
    var r2 := p % m;
    assert n == 10 * p + n % 10;
    assert p == m * q + r2;
    assert 10 * (m * q) == (10 * m) * q;
    DivUnique(n, 10 * m, q, 10 * r2 + n % 10);
  }

  /** The decimal digit of n worth 10^k. */
  function DigitOf(n: nat, k: nat): (d: nat)
    ensures d < 10
  {
    (n / Pow10(k)) % 10
  }

  lemma DigitOfShift(n: nat, k: nat)
    requires k >= 1
    ensures DigitOf(n, k) == DigitOf(n / 10, k - 1)
  {
    DivDiv10(n, Pow10(k - 1));
  }

  /** Digit k from the right of the decimal form of n is (n / 10^k) % 10. */
  lemma {:induction false} DecimalDigit(n: nat, k: nat)
    requires k < |Unit1.Decimal(n)|
    ensures Unit1.Decimal(n)[|Unit1.Decimal(n)| - 1 - k] == Unit1.DigitChar(DigitOf(n, k))
    decreases n
  {
    if k > 0 {
      var d := Unit1.Decimal(n / 10);
      assert Unit1.Decimal(n) == d + [Unit1.DigitChar(n % 10)];
      DecimalDigit(n / 10, k - 1);
      DigitOfShift(n, k);
    }
  }

  /** The icon offset DrawBigNumberBlue computes for a digit is the tile
      pair at column 2d of row 7. */
  lemma BlueDigitIcon(d: nat)
    requires d < 10
    ensures Wrap16(d * 16 + Common.XyToOffset(0, 7)) == Common.XyToOffset(2 * d, 7)
  {
  }

  /** A number below 10^k has at most k digits. */
  lemma {:induction false} DecimalLength(n: nat, k: nat)
    requires 1 <= k && n < Pow10(k)
    ensures |Unit1.Decimal(n)| <= k
    decreases k
  {
    if n >= 10 {
      assert 10 <= n < 10 * Pow10(k - 1);
      DecimalLength(n / 10, k - 1);
    }
  }

  /** A 32-bit number has at most ten decimal digits. */
  lemma DwordDigits(num: dword)
    ensures |Unit1.Decimal(num)| <= 10
  {
    assert Pow10(10) == 10000000000;
    DecimalLength(num, 10);
  }

  /** DrawBigNumberBlue(x, y, num): the digits of num as 2x2 status icons,
      the icon for digit d being XY_TO_OFFSET(2d, 7); the digit i places
      from the right is drawn at x - 2i, so the number is right-aligned at
      x. */
  method DrawBigNumberBlue(x: word, y: word, num: dword) returns (r: seq<Draw3.FontDraw>)
    ensures |r| == |Unit1.Decimal(num)|
    ensures forall k :: 0 <= k < |r| ==>
      r[|r| - 1 - k] == Draw3.StatusIcon2x2(Common.XyToOffset(2 * (DigitOf(num, k)), 7), Wrap16(x - 2 * k), y)
  {
    var numStr := Unit1.Decimal(num);
    DwordDigits(num);
    var len := |numStr|;
    r := [];
    var i := len - 1;
    while i >= 0
      invariant -1 <= i < len
      invariant |r| == len - 1 - i
      invariant forall k :: i < k < len ==>
        r[len - 1 - k] == Draw3.StatusIcon2x2(Common.XyToOffset(2 * (DigitOf(num, k)), 7), Wrap16(x - 2 * k), y)
    {
      var digit := numStr[len - 1 - i] as int - '0' as int;
      DecimalDigit(num, i);
      assert digit == DigitOf(num, i);
      BlueDigitIcon(digit);
      r := r + [Draw3.StatusIcon2x2(Wrap16(digit * 16 + Common.XyToOffset(0, 7)), Wrap16(x - i * 2), y)];
      i := i - 1;
    }
  }

  /** DrawBigNumberGrey(x, y, num): a blank and then the digits of num in
      the status font, starting 2 * len tiles left of x. */
  method DrawBigNumberGrey(x: word, y: word, num: dword) returns (r: seq<Draw3.CharDraw>)
    ensures GreyNumber(x, y, num, r)
  {
    var numStr := Unit1.Decimal(num);
    DwordDigits(num);
    var n := |numStr|;
    var len: word := Wrap16(n * 2);
    var buf := numStr + [NUL];
    DecimalStored(num);
    var blank := Draw3.DrawBigText(Wrap16(x - len - 2), y, " " + [NUL], Draw3.STATUS_FONT);
    var digits := Draw3.DrawBigText(Wrap16(x - len), y, buf, Draw3.STATUS_FONT);
    GreyLayout(x, y, num, blank, digits);
    r := blank + digits;
  }

  /** A blank 2 * n + 2 tiles left of x, then the n digits of num, the
      digit k places from the right 2 * k + 2 tiles left of x, all in the
      status font on the 16-bit position. */
  predicate GreyNumber(x: word, y: word, num: nat, r: seq<Draw3.CharDraw>)
  {
    var n := |Unit1.Decimal(num)|;
    |r| == n + 1 &&
    r[0] == Draw3.CharDraw(Wrap16(x - 2 * n - 2), y, ' ', Draw3.STATUS_FONT) &&
    forall k :: 0 <= k < n ==>
      r[n - k] == Draw3.CharDraw(Wrap16(x - 2 * k - 2), y, Unit1.DigitChar(DigitOf(num, k)), Draw3.STATUS_FONT)
  }

  /** The blank and the digits of a number stored as C strings read back
      as themselves. */
  lemma DecimalStored(num: nat)
    ensures Terminated(" " + [NUL]) && CStr(" " + [NUL]) == " "
    ensures Terminated(Unit1.Decimal(num) + [NUL]) && CStr(Unit1.Decimal(num) + [NUL]) == Unit1.Decimal(num)
  {
    CStrOfStored(" ");
    CStrOfStored(Unit1.Decimal(num));
  }

  /** The blank and the digits as DrawBigNumberGrey lays them out: the
      blank 2 * n + 2 tiles left of x and the digit k places from the right
      2 * k + 2 tiles left of x, on the 16-bit position. */
  lemma GreyLayout(x: word, y: word, num: nat, blank: seq<Draw3.CharDraw>, digits: seq<Draw3.CharDraw>)
    requires var numStr := Unit1.Decimal(num);
      blank == Draw3.BigTextLayout(Wrap16(x - Wrap16(|numStr| * 2) - 2), y, " ", Draw3.STATUS_FONT) &&
      digits == Draw3.BigTextLayout(Wrap16(x - Wrap16(|numStr| * 2)), y, numStr, Draw3.STATUS_FONT)
    ensures GreyNumber(x, y, num, blank + digits)
  {
    var numStr := Unit1.Decimal(num);
    var n := |numStr|;
    GreyPositions(x, y, numStr, blank, digits);
    forall k | 0 <= k < n
      ensures numStr[n - 1 - k] == Unit1.DigitChar(DigitOf(num, k))
    {
      DecimalDigit(num, k);
    }
  }

  /** The layout of DrawBigNumberGrey for any digit string. */
  lemma GreyPositions(x: word, y: word, numStr: seq<char>, blank: seq<Draw3.CharDraw>, digits: seq<Draw3.CharDraw>)
    requires blank == Draw3.BigTextLayout(Wrap16(x - Wrap16(|numStr| * 2) - 2), y, " ", Draw3.STATUS_FONT)
    requires digits == Draw3.BigTextLayout(Wrap16(x - Wrap16(|numStr| * 2)), y, numStr, Draw3.STATUS_FONT)
    ensures var n := |numStr|;
      |blank + digits| == n + 1 &&
      (blank + digits)[0] == Draw3.CharDraw(Wrap16(x - 2 * n - 2), y, ' ', Draw3.STATUS_FONT) &&
      forall k :: 0 <= k < n ==>
        (blank + digits)[n - k] == Draw3.CharDraw(Wrap16(x - 2 * k - 2), y, numStr[n - 1 - k], Draw3.STATUS_FONT)
  {
    var n := |numStr|;
    var w := Wrap16(n * 2);
    Wrap16Sub(x - 2, n * 2);
    assert blank[0] == Draw3.CharDraw(Wrap16(Wrap16(x - w - 2) + 0 * Draw3.Advance(Draw3.STATUS_FONT)), y, ' ', Draw3.STATUS_FONT);
    forall k | 0 <= k < n
      ensures (blank + digits)[n - k] == Draw3.CharDraw(Wrap16(x - 2 * k - 2), y, numStr[n - 1 - k], Draw3.STATUS_FONT)
    {
      var i := n - 1 - k;
      assert i * Draw3.Advance(Draw3.STATUS_FONT) == 2 * i;
      Wrap16Add(x - w, 2 * i);
      Wrap16Sub(x + 2 * i, n * 2);
      assert digits[i] == Draw3.CharDraw(Wrap16(Wrap16(x - w) + i * Draw3.Advance(Draw3.STATUS_FONT)), y, numStr[i], Draw3.STATUS_FONT);
    }
  }
}
