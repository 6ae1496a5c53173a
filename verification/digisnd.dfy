/** The Sound Blaster library: the BLASTER environment string parser and
    its number reader, the DSP time constant, the split of a sample into
    DMA transfers, the Creative Voice (VOC) section walker with its repeat
    stack, and the order in which the card's base port is probed. The
    hardware itself (DSP commands, DMA and interrupt controller ports) is
    not modelled; a probe of a port is a parameter. */
module DigiSnd {
  import opened Words
  import opened Wrappers
  import Arith

  // ---------------------------------------------------------------------
  // SNDLIB_strtol
  // ---------------------------------------------------------------------

  /** SNDLIB_isspace: only space and tab count as blanks. */
  predicate IsBlank(c: char)
  {
    c == ' ' || c == '\t'
  }

  /** The value SNDLIB_strtol gives a character: 0-9, a-f and A-F are
      digits whatever the radix; every other character ends the number. */
  function DigitValue(c: char): (v: Option<nat>)
    ensures v.Some? <==> ('0' <= c <= '9' || 'a' <= c <= 'f' || 'A' <= c <= 'F')
    ensures v.Some? ==> v.value < 16
  {
    if '0' <= c <= '9' then Some(c as int - '0' as int)
    else if 'a' <= c <= 'f' then Some(c as int - 'a' as int + 10)
    else if 'A' <= c <= 'F' then Some(c as int - 'A' as int + 10)
    else None
  }

  predicate IsDigitChar(c: char)
  {
    DigitValue(c).Some?
  }

  predicate AllDigits(s: seq<char>)
  {
    forall k :: 0 <= k < |s| ==> IsDigitChar(s[k])
  }

  /** The number a run of digit characters stands for in the given radix,
      most significant first, each digit taken at face value even when it
      is not below the radix. */
  function DigitsValue(digits: seq<char>, radix: int): int
    requires AllDigits(digits)
  {
    if digits == [] then 0
    else DigitsValue(digits[..|digits| - 1], radix) * radix + DigitValue(digits[|digits| - 1]).value
  }

  /** Where the number that starts at i ends: the first non-digit or the end
      of the string. */
  function DigitRunEnd(s: seq<char>, i: nat): (e: nat)
    requires i <= |s|
    ensures i <= e <= |s| && AllDigits(s[i..e]) && (e == |s| || !IsDigitChar(s[e]))
    decreases |s| - i
  {
    if i == |s| || !IsDigitChar(s[i]) then i
    else
      var e := DigitRunEnd(s, i + 1);
      assert forall k :: 0 <= k < e - i ==> s[i..e][k] == s[i + k];
      e
  }

  /** One more digit at the end. */
  lemma DigitsValueSnoc(digits: seq<char>, c: char, radix: int)
    requires AllDigits(digits) && IsDigitChar(c)
    ensures AllDigits(digits + [c])
    ensures DigitsValue(digits + [c], radix) == DigitsValue(digits, radix) * radix + DigitValue(c).value
  {
    assert (digits + [c])[..|digits|] == digits;
  }

  /** The digit at j extends the run from i. */
  lemma RunExtends(s: seq<char>, i: nat, j: nat, radix: int)
    requires i <= j < |s| && AllDigits(s[i..j]) && IsDigitChar(s[j])
    ensures AllDigits(s[i..j + 1])
    ensures DigitsValue(s[i..j + 1], radix) == DigitsValue(s[i..j], radix) * radix + DigitValue(s[j]).value
    ensures DigitRunEnd(s, j) == DigitRunEnd(s, j + 1)
  {
    DigitsValueSnoc(s[i..j], s[j], radix);
    assert s[i..j] + [s[j]] == s[i..j + 1];
  }

  /** SNDLIB_strtol(s + start, &end, radix) on the string s (the text before
      its terminating NUL): the value of the digit run at start, as the
      32-bit `long result` keeps it, and the position just past the run. */
  method Strtol(s: seq<char>, start: nat, radix: int) returns (value: slong, end: nat)
    requires start <= |s|
    ensures end == DigitRunEnd(s, start)
    ensures value == WrapLong(DigitsValue(s[start..end], radix))
  {
    value := 0;
    end := start;
    while end < |s| && IsDigitChar(s[end])
      invariant start <= end <= |s| && AllDigits(s[start..end])
      invariant DigitRunEnd(s, start) == DigitRunEnd(s, end)
      invariant value == WrapLong(DigitsValue(s[start..end], radix))
      decreases |s| - end
    {
      RunExtends(s, start, end, radix);
      WrapLongMulAdd(DigitsValue(s[start..end], radix), radix, DigitValue(s[end]).value);
      value := WrapLong(value * radix + DigitValue(s[end]).value);
      end := end + 1;
    }
  }

  /** The digit character for d < 16, in lower case. */
  function DigitChar(d: nat): (c: char)
    requires d < 16
    ensures DigitValue(c) == Some(d)
  {
    if d < 10 then ('0' as int + d) as char else ('a' as int + d - 10) as char
  }

  /** Splitting v into its last digit and the rest. */
  lemma DivStep(v: nat, radix: nat)
    requires 2 <= radix
    ensures v % radix < radix && v == (v / radix) * radix + v % radix
    ensures v >= radix ==> 1 <= v / radix < v
    ensures v < radix ==> v % radix == v
  {
    var q, r := v / radix, v % radix;
    if v < radix {
      Arith.ModUnique(v, radix, 0, v);
    } else {
      Arith.MulMonoIf(radix, q, 0);
      Arith.MulMono(q, 2, radix);
    }
  }

  /** The shortest digit string for v in the given radix. */
  function ToDigits(v: nat, radix: nat): (s: seq<char>)
    requires 2 <= radix <= 16
    ensures |s| >= 1 && AllDigits(s)
    decreases v
  {
    DivStep(v, radix);
    var last := [DigitChar(v % radix)];
    if v < radix then last else ToDigits(v / radix, radix) + last
  }

  /** Reading the digits back gives the number. */
  lemma {:induction false} ToDigitsRoundTrip(v: nat, radix: nat)
    requires 2 <= radix <= 16
    ensures DigitsValue(ToDigits(v, radix), radix) == v
    decreases v
  {
    DivStep(v, radix);
    var q, r := v / radix, v % radix;
    var s := ToDigits(v, radix);
    var last := DigitChar(r);
    if v < radix {
      assert s == [last];
      assert DigitsValue(s, radix) == 0 * radix + r;
    } else {
      var front := ToDigits(q, radix);
      ToDigitsRoundTrip(q, radix);
      assert s == front + [last];
      assert s[..|s| - 1] == front;
      assert DigitsValue(front, radix) == q;
      assert DigitsValue(s, radix) == q * radix + r;
    }
  }

  /** A digit run followed by a blank or by the end of the string is read up
      to the blank. */
  lemma {:induction false} DigitRunEndAfter(s: seq<char>, i: nat, digits: seq<char>)
    requires AllDigits(digits) && i + |digits| <= |s| && s[i..i + |digits|] == digits
    requires i + |digits| == |s| || IsBlank(s[i + |digits|])
    ensures DigitRunEnd(s, i) == i + |digits|
    decreases |digits|
  {
    if digits != [] {
      assert s[i] == digits[0];
      assert s[i + 1..i + |digits|] == digits[1..];
      DigitRunEndAfter(s, i + 1, digits[1..]);
    }
  }

  // ---------------------------------------------------------------------
  // ParseBlasterConfig
  // ---------------------------------------------------------------------

  /** The interrupt vector for each IRQ number; -1 marks the IRQs a Sound
      Blaster cannot use. */
  const INTERRUPT_VECTORS: seq<int> := [-1, -1, 0xa, 0xb, -1, 0xd, -1, 0xf, -1, -1, 0x72]

  /** The settings the parser writes: the base port index it returns, the
      IRQ with its vector, and the DMA channel. */
  datatype BlasterConfig = BlasterConfig(portIndex: int, interrupt: int, intVec: int, dmaChannel: int)

  datatype BlasterError = UnsupportedAddress | UnsupportedInterrupt | UnsupportedDma

  datatype ParseResult = Parsed(config: BlasterConfig) | ParseError(error: BlasterError)

  /** The library's settings before parsing: no port, IRQ 7, DMA channel 1. */
  const DEFAULT_CONFIG: BlasterConfig := BlasterConfig(-1, 7, 0xf, 1)

  function ToUpper(c: char): (u: char)
    ensures 'a' <= c <= 'z' ==> u as int == c as int - 32
    ensures !('a' <= c <= 'z') ==> u == c
  {
    if 'a' <= c <= 'z' then (c as int - 'a' as int + 'A' as int) as char else c
  }

  /** The blanks at i are skipped. */
  function SkipBlanks(s: seq<char>, i: nat): (j: nat)
    requires i <= |s|
    ensures i <= j <= |s| && (j == |s| || !IsBlank(s[j]))
    ensures forall k :: i <= k < j ==> IsBlank(s[k])
    decreases |s| - i
  {
    if i < |s| && IsBlank(s[i]) then SkipBlanks(s, i + 1) else i
  }

  /** An unrecognised setting is skipped up to the next blank. */
  function SkipSetting(s: seq<char>, i: nat): (j: nat)
    requires i <= |s|
    ensures i <= j <= |s| && (j == |s| || IsBlank(s[j]))
    ensures forall k :: i <= k < j ==> !IsBlank(s[k])
    decreases |s| - i
  {
    if i < |s| && !IsBlank(s[i]) then SkipSetting(s, i + 1) else i
  }

  /** The validity tests of the three settings. */
  predicate ValidAddress(v: int)
  {
    0x210 <= v <= 0x260 && v % 16 == 0
  }

  predicate ValidInterrupt(v: int)
  {
    0 <= v <= 10 && INTERRUPT_VECTORS[v] != -1
  }

  predicate ValidDma(v: int)
  {
    v == 0 || v == 1 || v == 3
  }

  predicate IsSettingLetter(c: char)
  {
    c == 'A' || c == 'I' || c == 'D'
  }

  /** The address is hexadecimal, the IRQ and DMA channel decimal. */
  function Radix(letter: char): int
  {
    if letter == 'A' then 16 else 10
  }

  /** Taking in the value v of setting `letter`: an address gives the port
      index (0x210 is 1, 0x260 is 6), an IRQ its vector, and a value the
      card cannot use is an error. */
  function ApplySetting(letter: char, v: int, cfg: BlasterConfig): (r: ParseResult)
    requires IsSettingLetter(letter)
    ensures r.Parsed? <==> (letter == 'A' && ValidAddress(v)) || (letter == 'I' && ValidInterrupt(v))
                           || (letter == 'D' && ValidDma(v))
    ensures r.Parsed? && letter == 'A' ==>
      1 <= r.config.portIndex <= 6 && r.config == cfg.(portIndex := r.config.portIndex)
      && 0x200 + 16 * r.config.portIndex == v
    ensures r.Parsed? && letter == 'I' ==> r.config == cfg.(interrupt := v, intVec := INTERRUPT_VECTORS[v])
    ensures r.Parsed? && letter == 'D' ==> r.config == cfg.(dmaChannel := v)
  {
    if letter == 'A' then
      if ValidAddress(v) then Parsed(cfg.(portIndex := (v - 0x200) / 16)) else ParseError(UnsupportedAddress)
    else if letter == 'I' then
      if ValidInterrupt(v) then Parsed(cfg.(interrupt := v, intVec := INTERRUPT_VECTORS[v]))
      else ParseError(UnsupportedInterrupt)
    else
      if ValidDma(v) then Parsed(cfg.(dmaChannel := v)) else ParseError(UnsupportedDma)
  }

  /** What one pass of the parser's loop does: it ends the parse (the end
      of the string or an error), or it moves on with the settings so far. */
  datatype ParseStepResult = Finished(result: ParseResult) | Next(pos: nat, cfg: BlasterConfig)

  /** The number after the setting letter at j, in the letter's radix and
      wrapped to a `long` as SNDLIB_strtol leaves it, and where it ends. */
  function SettingValue(s: seq<char>, j: nat): (r: (int, nat))
    requires j < |s|
    ensures j < r.1 <= |s|
  {
    var e := DigitRunEnd(s, j + 1);
    (WrapLong(DigitsValue(s[j + 1..e], Radix(ToUpper(s[j])))), e)
  }

  /** One pass of the parser's loop from position i of the string (the text
      before its NUL): blanks are skipped and the letter there is compared
      upper-cased; A, I and D read a number right after the letter, and any
      other setting is skipped up to the next blank. */
  function ParseStep(s: seq<char>, i: nat, cfg: BlasterConfig): (r: ParseStepResult)
    requires i <= |s|
    ensures r.Next? ==> i < r.pos <= |s|
    ensures r.Finished? && r.result.Parsed? ==> r.result.config == cfg
  {
    var j := SkipBlanks(s, i);
    if j == |s| then Finished(Parsed(cfg))
    else SettingStep(ToUpper(s[j]), SettingValue(s, j), SkipSetting(s, j), cfg)
  }

  /** The pass over a setting whose letter, upper-cased, is `letter`: its
      number and where the number ends, or, for a letter the parser does
      not know, where the setting ends. */
  function SettingStep(letter: char, value: (int, nat), skipped: nat, cfg: BlasterConfig): ParseStepResult
  {
    if IsSettingLetter(letter) then
      match ApplySetting(letter, value.0, cfg)
      case Parsed(next) => Next(value.1, next)
      case failed => Finished(failed)
    else Next(skipped, cfg)
  }

  /** The parser's loop from position i with the settings so far. */
  function ParseFrom(s: seq<char>, i: nat, cfg: BlasterConfig): ParseResult
    requires i <= |s|
    decreases |s| - i
  {
    match ParseStep(s, i, cfg)
    case Finished(r) => r
    case Next(j, next) => ParseFrom(s, j, next)
  }

  /** A pass keeps the port index unless it read an A setting, and a port
      index it sets is 1 to 6. */
  lemma StepPortIndex(s: seq<char>, i: nat, cfg: BlasterConfig)
    requires i <= |s|
    ensures var r := ParseStep(s, i, cfg);
      r.Next? ==> r.cfg.portIndex == cfg.portIndex || 1 <= r.cfg.portIndex <= 6
    ensures var r := ParseStep(s, i, cfg);
      r.Next? && r.cfg.portIndex != cfg.portIndex ==> exists k :: i <= k < r.pos && ToUpper(s[k]) == 'A'
  {
    var j := SkipBlanks(s, i);
    if j < |s| && IsSettingLetter(ToUpper(s[j])) {
      assert ToUpper(s[j]) != 'A' ==> ParseStep(s, i, cfg).Next? ==> ParseStep(s, i, cfg).cfg.portIndex == cfg.portIndex;
    }
  }

  /** ParseBlasterConfig(env): on success the port index it returns is the
      portIndex of the settings. */
  function ParseBlasterConfig(env: seq<char>): ParseResult
  {
    ParseFrom(env, 0, DEFAULT_CONFIG)
  }

  /** A parsed port index is 1 to 6 (base ports 0x210 to 0x260), or the
      starting one when no address was given. */
  lemma {:induction false} ParsedPortIndex(s: seq<char>, i: nat, cfg: BlasterConfig)
    requires i <= |s|
    ensures ParseFrom(s, i, cfg).Parsed? ==>
      var p := ParseFrom(s, i, cfg).config.portIndex;
      p == cfg.portIndex || 1 <= p <= 6
    decreases |s| - i
  {
    StepPortIndex(s, i, cfg);
    var r := ParseStep(s, i, cfg);
    if r.Next? {
      ParsedPortIndex(s, r.pos, r.cfg);
    }
  }

  /** Without an A setting the port index stays what it was: -1 from the
      defaults, which makes the detection probe every port. */
  lemma {:induction false} NoAddressKeepsPort(s: seq<char>, i: nat, cfg: BlasterConfig)
    requires i <= |s|
    requires forall k :: i <= k < |s| ==> ToUpper(s[k]) != 'A'
    ensures ParseFrom(s, i, cfg).Parsed? ==> ParseFrom(s, i, cfg).config.portIndex == cfg.portIndex
    decreases |s| - i
  {
    StepPortIndex(s, i, cfg);
    var r := ParseStep(s, i, cfg);
    if r.Next? {
      NoAddressKeepsPort(s, r.pos, r.cfg);
    }
  }

  function UpperString(s: seq<char>): (u: seq<char>)
    ensures |u| == |s| && forall k :: 0 <= k < |s| ==> u[k] == ToUpper(s[k])
  {
    if s == [] then [] else [ToUpper(s[0])] + UpperString(s[1..])
  }

  /** Upper-casing changes neither blanks nor digit values. */
  lemma UpperKeepsChars(c: char)
    ensures IsBlank(ToUpper(c)) == IsBlank(c)
    ensures DigitValue(ToUpper(c)) == DigitValue(c)
    ensures ToUpper(ToUpper(c)) == ToUpper(c)
  {
  }

  lemma {:induction false} UpperDigitsValue(s: seq<char>, u: seq<char>, radix: int)
    requires |u| == |s| && forall k :: 0 <= k < |s| ==> u[k] == ToUpper(s[k])
    requires AllDigits(s)
    ensures AllDigits(u) && DigitsValue(u, radix) == DigitsValue(s, radix)
    decreases |s|
  {
    forall k | 0 <= k < |s| ensures IsDigitChar(u[k]) {
      UpperKeepsChars(s[k]);
    }
    if s != [] {
      UpperDigitsValue(s[..|s| - 1], u[..|u| - 1], radix);
      UpperKeepsChars(s[|s| - 1]);
    }
  }

  lemma {:induction false} UpperSkips(s: seq<char>, u: seq<char>, i: nat)
    requires |u| == |s| && forall k :: 0 <= k < |s| ==> u[k] == ToUpper(s[k])
    requires i <= |s|
    ensures SkipBlanks(u, i) == SkipBlanks(s, i)
    ensures SkipSetting(u, i) == SkipSetting(s, i)
    ensures DigitRunEnd(u, i) == DigitRunEnd(s, i)
    decreases |s| - i
  {
    if i < |s| {
      UpperKeepsChars(s[i]);
      UpperSkips(s, u, i + 1);
    }
  }

  /** Upper-casing does not change the number after a setting letter. */
  lemma UpperSettingValue(s: seq<char>, u: seq<char>, j: nat)
    requires |u| == |s| && forall k :: 0 <= k < |s| ==> u[k] == ToUpper(s[k])
    requires j < |s|
    ensures SettingValue(u, j) == SettingValue(s, j)
  {
    UpperKeepsChars(s[j]);
    UpperSkips(s, u, j + 1);
    var e := DigitRunEnd(s, j + 1);
    UpperDigitsValue(s[j + 1..e], u[j + 1..e], Radix(ToUpper(s[j])));
  }

  /** A pass over the upper-cased string does what it does over the
      string itself. */
  lemma UpperStep(s: seq<char>, i: nat, cfg: BlasterConfig)
    requires i <= |s|
    ensures ParseStep(UpperString(s), i, cfg) == ParseStep(s, i, cfg)
  {
    var u := UpperString(s);
    UpperSkips(s, u, i);
    var j := SkipBlanks(s, i);
    if j < |s| {
      UpperKeepsChars(s[j]);
      assert ToUpper(u[j]) == ToUpper(s[j]);
      UpperSettingValue(s, u, j);
      UpperSkips(s, u, j);
    }
  }

  /** Setting letters and digits are read case-insensitively: upper-casing
      the whole string does not change the outcome. */
  lemma {:induction false} ParseCaseInsensitive(s: seq<char>, i: nat, cfg: BlasterConfig)
    requires i <= |s|
    ensures ParseFrom(UpperString(s), i, cfg) == ParseFrom(s, i, cfg)
    decreases |s| - i
  {
    UpperStep(s, i, cfg);
    var r := ParseStep(s, i, cfg);
    if r.Next? {
      ParseCaseInsensitive(s, r.pos, r.cfg);
    }
  }

  /** One setting `L<digits>` at j, after the blanks from i, and followed by
      a blank or the end of the string, is read as the number the digits
      stand for. */
  lemma {:induction false} SettingRead(s: seq<char>, i: nat, j: nat, digits: seq<char>, cfg: BlasterConfig)
    requires i <= j && j + 1 + |digits| <= |s| && SkipBlanks(s, i) == j && IsSettingLetter(s[j])
    requires AllDigits(digits) && s[j + 1..j + 1 + |digits|] == digits
    requires j + 1 + |digits| == |s| || IsBlank(s[j + 1 + |digits|])
    ensures ParseStep(s, i, cfg) ==
      match ApplySetting(s[j], WrapLong(DigitsValue(digits, Radix(s[j]))), cfg)
      case Parsed(next) => Next(j + 1 + |digits|, next)
      case failed => Finished(failed)
  {
    DigitRunEndAfter(s, j + 1, digits);
    assert s[j + 1..DigitRunEnd(s, j + 1)] == digits;
    assert ToUpper(s[j]) == s[j];
    assert SettingValue(s, j) == (WrapLong(DigitsValue(digits, Radix(s[j]))), j + 1 + |digits|);
  }

  /** The BLASTER string a setup program writes: `A<a> I<irq> D<d>`. */
  function BlasterString(a: seq<char>, irq: seq<char>, d: seq<char>): seq<char>
  {
    ['A'] + a + [' ', 'I'] + irq + [' ', 'D'] + d
  }

  /** The BLASTER string for a port index, IRQ and DMA channel, with the
      address in hexadecimal and the others in decimal. */
  function FormatBlaster(portIndex: nat, interrupt: nat, dma: nat): seq<char>
  {
    BlasterString(ToDigits(0x200 + 16 * portIndex, 16), ToDigits(interrupt, 10), ToDigits(dma, 10))
  }

  /** Where the three settings of a BLASTER string with digits a, irq and d
      sit: each letter, then its digits, then a blank or the end. */
  predicate Layout(s: seq<char>, a: seq<char>, irq: seq<char>, d: seq<char>)
  {
    var p1 := 1 + |a|;
    var p2 := p1 + 2 + |irq|;
    && |s| == p2 + 2 + |d|
    && s[0] == 'A' && s[1..p1] == a && s[p1] == ' '
    && s[p1 + 1] == 'I' && s[p1 + 2..p2] == irq && s[p2] == ' '
    && s[p2 + 1] == 'D' && s[p2 + 2..] == d
  }

  lemma BlasterLayout(a: seq<char>, irq: seq<char>, d: seq<char>)
    ensures Layout(BlasterString(a, irq, d), a, irq, d)
  {
    var x := ['A'] + a;
    var y := [' ', 'I'] + irq;
    var z := [' ', 'D'] + d;
    var s := BlasterString(a, irq, d);
    assert s == x + y + z;
    assert (x + y + z)[..|x|] == x;
    assert (x + y + z)[|x|..|x| + |y|] == y;
    assert (x + y + z)[|x| + |y|..] == z;
  }

  /** The settings after each of the first two settings. */
  function AfterAddress(portIndex: nat): BlasterConfig
  {
    DEFAULT_CONFIG.(portIndex := portIndex)
  }

  function AfterInterrupt(portIndex: nat, interrupt: nat): BlasterConfig
    requires ValidInterrupt(interrupt)
  {
    AfterAddress(portIndex).(interrupt := interrupt, intVec := INTERRUPT_VECTORS[interrupt])
  }

  lemma ReadsAddress(s: seq<char>, a: seq<char>, irq: seq<char>, d: seq<char>, portIndex: nat)
    requires Layout(s, a, irq, d)
    requires 1 <= portIndex <= 6 && AllDigits(a) && DigitsValue(a, 16) == 0x200 + 16 * portIndex
    ensures ParseFrom(s, 0, DEFAULT_CONFIG) == ParseFrom(s, 1 + |a|, AfterAddress(portIndex))
  {
    var address := 0x200 + 16 * portIndex;
    WrapLongSmall(address);
    Arith.ModUnique(address, 16, 0x20 + portIndex, 0);
    assert ApplySetting('A', address, DEFAULT_CONFIG) == Parsed(AfterAddress(portIndex));
    assert SkipBlanks(s, 0) == 0;
    SettingRead(s, 0, 0, a, DEFAULT_CONFIG);
    assert ParseStep(s, 0, DEFAULT_CONFIG) == Next(1 + |a|, AfterAddress(portIndex));
  }

  lemma ReadsInterrupt(s: seq<char>, a: seq<char>, irq: seq<char>, d: seq<char>, portIndex: nat, interrupt: nat)
    requires Layout(s, a, irq, d)
    requires ValidInterrupt(interrupt) && AllDigits(irq) && DigitsValue(irq, 10) == interrupt
    ensures ParseFrom(s, 1 + |a|, AfterAddress(portIndex))
            == ParseFrom(s, 1 + |a| + 2 + |irq|, AfterInterrupt(portIndex, interrupt))
  {
    var p1 := 1 + |a|;
    WrapLongSmall(interrupt);
    assert ApplySetting('I', interrupt, AfterAddress(portIndex)) == Parsed(AfterInterrupt(portIndex, interrupt));
    assert SkipBlanks(s, p1) == p1 + 1;
    SettingRead(s, p1, p1 + 1, irq, AfterAddress(portIndex));
    assert ParseStep(s, p1, AfterAddress(portIndex)) == Next(p1 + 2 + |irq|, AfterInterrupt(portIndex, interrupt));
  }

  lemma ReadsDma(s: seq<char>, a: seq<char>, irq: seq<char>, d: seq<char>, c2: BlasterConfig, dma: nat)
    requires Layout(s, a, irq, d)
    requires ValidDma(dma) && AllDigits(d) && DigitsValue(d, 10) == dma
    ensures ParseFrom(s, 1 + |a| + 2 + |irq|, c2) == Parsed(c2.(dmaChannel := dma))
  {
    var p2 := 1 + |a| + 2 + |irq|;
    WrapLongSmall(dma);
    assert ApplySetting('D', dma, c2) == Parsed(c2.(dmaChannel := dma));
    assert SkipBlanks(s, p2) == p2 + 1;
    SettingRead(s, p2, p2 + 1, d, c2);
    assert ParseStep(s, p2, c2) == Next(|s|, c2.(dmaChannel := dma));
    assert ParseStep(s, |s|, c2.(dmaChannel := dma)) == Finished(Parsed(c2.(dmaChannel := dma)));
  }

  /** A BLASTER string whose digits stand for a valid port, IRQ and DMA
      channel parses to those settings. */
  lemma LayoutParses(s: seq<char>, a: seq<char>, irq: seq<char>, d: seq<char>, portIndex: nat, interrupt: nat, dma: nat)
    requires Layout(s, a, irq, d)
    requires 1 <= portIndex <= 6 && ValidInterrupt(interrupt) && ValidDma(dma)
    requires AllDigits(a) && DigitsValue(a, 16) == 0x200 + 16 * portIndex
    requires AllDigits(irq) && DigitsValue(irq, 10) == interrupt
    requires AllDigits(d) && DigitsValue(d, 10) == dma
    ensures ParseFrom(s, 0, DEFAULT_CONFIG) == Parsed(BlasterConfig(portIndex, interrupt, INTERRUPT_VECTORS[interrupt], dma))
  {
    ReadsAddress(s, a, irq, d, portIndex);
    ReadsInterrupt(s, a, irq, d, portIndex, interrupt);
    ReadsDma(s, a, irq, d, AfterInterrupt(portIndex, interrupt), dma);
  }

  /** The string FormatBlaster writes parses back to the same settings. */
  lemma FormatBlasterParses(portIndex: nat, interrupt: nat, dma: nat)
    requires 1 <= portIndex <= 6 && ValidInterrupt(interrupt) && ValidDma(dma)
    ensures ParseBlasterConfig(FormatBlaster(portIndex, interrupt, dma))
            == Parsed(BlasterConfig(portIndex, interrupt, INTERRUPT_VECTORS[interrupt], dma))
  {
    ToDigitsRoundTrip(0x200 + 16 * portIndex, 16);
    ToDigitsRoundTrip(interrupt, 10);
    ToDigitsRoundTrip(dma, 10);
    var a, irq, d := ToDigits(0x200 + 16 * portIndex, 16), ToDigits(interrupt, 10), ToDigits(dma, 10);
    BlasterLayout(a, irq, d);
    LayoutParses(BlasterString(a, irq, d), a, irq, d, portIndex, interrupt, dma);
  }
  /** The value of the digits in "A100000220", one digit at a time. */
  lemma HexDigitsWrap()
    ensures AllDigits("100000220") && DigitsValue("100000220", 16) == 0x1_0000_0220
  {
    var d1: seq<char> := ['1'];
    assert AllDigits(d1) && DigitsValue(d1, 16) == 1;
    DigitsValueSnoc(d1, '0', 16);
    var d2 := d1 + ['0'];
    DigitsValueSnoc(d2, '0', 16);
    var d3 := d2 + ['0'];
    DigitsValueSnoc(d3, '0', 16);
    var d4 := d3 + ['0'];
    DigitsValueSnoc(d4, '0', 16);
    var d5 := d4 + ['0'];
    DigitsValueSnoc(d5, '0', 16);
    var d6 := d5 + ['0'];
    DigitsValueSnoc(d6, '2', 16);
    var d7 := d6 + ['2'];
    DigitsValueSnoc(d7, '2', 16);
    var d8 := d7 + ['2'];
    DigitsValueSnoc(d8, '0', 16);
    var d9 := d8 + ['0'];
    assert DigitsValue(d9, 16) == 0x1_0000_0220;
    assert d9 == "100000220";
  }

  /** The address goes through the 32-bit `long` of SNDLIB_strtol, so a
      hexadecimal number beyond 32 bits wraps: "A100000220" is read as
      0x220 and selects port index 2. */
  lemma WrappedAddressSelectsPort()
    ensures ParseBlasterConfig("A100000220") == Parsed(DEFAULT_CONFIG.(portIndex := 2))
  {
    var s := "A100000220";
    var digits := s[1..];
    assert digits == "100000220";
    HexDigitsWrap();
    assert s[0] == 'A' && !IsBlank(s[0]);
    assert WrapLong(0x1_0000_0220) == 0x220;
    assert SkipBlanks(s, 0) == 0;
    SettingRead(s, 0, 0, digits, DEFAULT_CONFIG);
    Arith.ModUnique(0x220, 16, 0x22, 0);
    assert ApplySetting('A', 0x220, DEFAULT_CONFIG) == Parsed(DEFAULT_CONFIG.(portIndex := 2));
    assert ParseStep(s, 0, DEFAULT_CONFIG) == Next(10, DEFAULT_CONFIG.(portIndex := 2));
    assert ParseStep(s, 10, DEFAULT_CONFIG.(portIndex := 2)) == Finished(Parsed(DEFAULT_CONFIG.(portIndex := 2)));
  }


  // ---------------------------------------------------------------------
  // ComputeTimeValue
  // ---------------------------------------------------------------------

  /** ComputeTimeValue(sampleRate): 256 - 1000000 / sampleRate stored in a
      byte. A rate of 0 divides by zero. */
  function ComputeTimeValue(sampleRate: int): byte
    requires sampleRate != 0
  {
    Wrap8(256 - DivTrunc(1000000, sampleRate))
  }

  /** For the rates the DSP supports (above 3906 Hz) the time constant is
      256 - d with d microseconds per sample, truncated: d samples at the
      requested rate fit in a second and d + 1 do not. */
  lemma TimeValueMatchesRate(rate: int)
    requires 3907 <= rate <= 1000000
    ensures var t := ComputeTimeValue(rate);
      var d := 256 - t;
      1 <= d <= 255 && d * rate <= 1000000 < (d + 1) * rate
  {
    var q := 1000000 / rate;
    var r := 1000000 % rate;
    assert 1000000 == q * rate + r && 0 <= r < rate;
    assert (q + 1) * rate == q * rate + rate;
    Arith.MulMonoIf(rate, 256, q);
    Arith.MulMonoIf(rate, q + 1, 1);
    assert ComputeTimeValue(rate) == 256 - q;
  }

  // ---------------------------------------------------------------------
  // SubmitSampleChunk and the transfers of one sample
  // ---------------------------------------------------------------------

  /** One DMA transfer: the page register value, the 16-bit address within
      the page and the number of bytes. */
  datatype Chunk = Chunk(page: nat, offset: nat, count: dword)

  function ChunkStart(c: Chunk): nat
  {
    c.page * 0x10000 + c.offset
  }

  /** The DMA page and 16-bit address of the far pointer seg:off: the page
      is the top four bits of the segment and the address the rest of the
      segment shifted plus the offset, moved into the next page when that sum
      reaches 0x10000. Either way they locate the same byte. */
  function DmaAddress(seg: nat, off: word): (r: (nat, nat))
    ensures r.0 * 0x10000 + r.1 == seg * 16 + off && r.1 < 0x10000
  {
    var page := seg / 0x1000;
    var offset := (seg % 0x1000) * 16 + off;
    if offset >= 0x10000 then (page + 1, offset - 0x10000) else (page, offset)
  }

  /** The number of bytes one transfer from `offset` can take: the length,
      clamped to the end of the 64 KiB page. The DMA controller is given
      one less than that and the count is returned after adding the one
      back, both in 32 bits. */
  function TransferCount(offset: nat, length: dword): (count: dword)
    requires offset < 0x10000
    ensures length == 0 ==> count == 0
    ensures length >= 1 ==> count == if length <= 0x10000 - offset then length else 0x10000 - offset
  {
    var toPlay := if offset + length > 0x10000 then 0x10000 - offset else length;
    var dmaLength := Wrap32(toPlay - 1);
    Wrap32(dmaLength + 1)
  }

  /** SubmitSampleChunk(data, length) for the pointer seg:off: the transfer
      it programs. */
  function SubmitSampleChunk(seg: nat, off: word, length: dword): (c: Chunk)
    ensures ChunkStart(c) == seg * 16 + off && c.offset < 0x10000
    ensures length == 0 ==> c.count == 0
    ensures length >= 1 ==> c.count == if length <= 0x10000 - c.offset then length else 0x10000 - c.offset
  {
    var (page, offset) := DmaAddress(seg, off);
    Chunk(page, offset, TransferCount(offset, length))
  }

  /** SubmitSampleChunk for the huge pointer to linear address `address`,
      which Borland C keeps normalised: its offset is below 16. */
  function Submit(address: nat, length: dword): (c: Chunk)
    ensures ChunkStart(c) == address && c.offset < 0x10000
    ensures length == 0 ==> c.count == 0
    ensures length >= 1 ==> c.count == if length <= 0x10000 - c.offset then length else 0x10000 - c.offset
    ensures WithinPage(c) && c.count <= length && (length >= 1 ==> c.count >= 1)
  {
    SubmitSampleChunk(address / 16, address % 16, length)
  }

  /** The transfers PlaySample_Private starts and SBService continues: each
      submits the next chunk and advances by the count it returns, until the
      count covers what is left. */
  function Transfers(address: nat, length: dword): (ts: seq<Chunk>)
    ensures |ts| >= 1
    decreases length
  {
    var c := Submit(address, length);
    if length <= c.count then [c]
    else [c] + Transfers(address + c.count, length - c.count)
  }

  /** A transfer that does not cross a 64 KiB boundary. */
  predicate WithinPage(c: Chunk)
  {
    c.offset + c.count <= 0x10000
  }

  /** Transfer b starts where transfer a ends. */
  predicate Follows(a: Chunk, b: Chunk)
  {
    ChunkStart(b) == ChunkStart(a) + a.count
  }

  function TotalCount(ts: seq<Chunk>): nat
  {
    if ts == [] then 0 else ts[0].count + TotalCount(ts[1..])
  }

  lemma TotalCountCons(c: Chunk, rest: seq<Chunk>)
    ensures TotalCount([c] + rest) == c.count + TotalCount(rest)
  {
    assert ([c] + rest)[1..] == rest;
  }

  /** The transfers add up to the sample's length. */
  lemma {:induction false} TransfersTotal(address: nat, length: dword)
    ensures TotalCount(Transfers(address, length)) == length
    decreases length
  {
    var c := Submit(address, length);
    var ts := Transfers(address, length);
    if length > c.count {
      var a2: nat, l2: dword := address + c.count, length - c.count;
      var rest := Transfers(a2, l2);
      assert ts == [c] + rest;
      TransfersTotal(a2, l2);
      TotalCountCons(c, rest);
    } else {
      assert ts == [c] && c.count == length;
      TotalCountCons(c, []);
      assert [c] + [] == [c];
    }
  }

  /** No transfer crosses a 64 KiB boundary. */
  lemma {:induction false} TransfersWithinPage(address: nat, length: dword)
    ensures forall k :: 0 <= k < |Transfers(address, length)| ==> WithinPage(Transfers(address, length)[k])
    decreases length
  {
    var c := Submit(address, length);
    var ts := Transfers(address, length);
    assert ts[0] == c;
    if length > c.count {
      var a2: nat, l2: dword := address + c.count, length - c.count;
      var rest := Transfers(a2, l2);
      TransfersWithinPage(a2, l2);
      assert ts == [c] + rest;
      forall k | 1 <= k < |ts|
        ensures WithinPage(ts[k])
      {
        assert ts[k] == rest[k - 1];
      }
    }
  }

  /** The first transfer starts at the sample and each one starts where the
      previous one ended. */
  lemma {:induction false} TransfersContiguous(address: nat, length: dword)
    ensures ChunkStart(Transfers(address, length)[0]) == address
    ensures forall k :: 0 <= k < |Transfers(address, length)| - 1 ==>
      Follows(Transfers(address, length)[k], Transfers(address, length)[k + 1])
    decreases length
  {
    var c := Submit(address, length);
    var ts := Transfers(address, length);
    if length > c.count {
      var a2: nat, l2: dword := address + c.count, length - c.count;
      var rest := Transfers(a2, l2);
      TransfersContiguous(a2, l2);
      assert ts == [c] + rest;
      forall k | 0 <= k < |ts| - 1
        ensures Follows(ts[k], ts[k + 1])
      {
        if k > 0 {
          assert ts[k] == rest[k - 1] && ts[k + 1] == rest[k];
        }
      }
    }
  }

  /** The transfers play the sample exactly: they add up to its length, each
      starts where the previous one ended and none crosses a 64 KiB
      boundary. */
  lemma TransfersCoverSample(address: nat, length: dword)
    ensures var ts := Transfers(address, length);
      && TotalCount(ts) == length
      && ChunkStart(ts[0]) == address
      && (forall k :: 0 <= k < |ts| ==> WithinPage(ts[k]))
      && (forall k :: 0 <= k < |ts| - 1 ==> Follows(ts[k], ts[k + 1]))
  {
    TransfersTotal(address, length);
    TransfersWithinPage(address, length);
    TransfersContiguous(address, length);
  }

  // ---------------------------------------------------------------------
  // PlayNextVocSection
  // ---------------------------------------------------------------------

  const MAX_NESTED_VOC_REPEATS: nat := 8

  const VOC_TERMINATOR: byte := 0
  const VOC_SOUND_TYPED: byte := 1
  const VOC_SOUND_UNTYPED: byte := 2
  const VOC_SILENCE: byte := 3
  const VOC_REPEAT_START: byte := 6
  const VOC_REPEAT_END: byte := 7

  /** The walker's variables: the read position, the repeat nesting level
      (sbVocRepeatIndex), the jump targets and remaining counts of the
      outermost eight repeats, and the time constant and codec of the last
      typed section. */
  datatype VocState = VocState(pos: nat, depth: nat, toRepeat: seq<nat>, counts: seq<word>,
                               timeValue: byte, codec: byte)

  predicate ValidVocState(st: VocState)
  {
    |st.toRepeat| == MAX_NESTED_VOC_REPEATS && |st.counts| == MAX_NESTED_VOC_REPEATS
  }

  /** What a section makes the card do. */
  datatype VocEvent =
    | PlaySample(start: nat, timeValue: byte, codec: byte, hasRefByte: bool, length: dword)
    | PlaySilence(silenceTime: byte, duration: word)
    | Stopped   // the terminator: playback stops
    | Halted    // a repeat end outside any repeat: parsing stops, nothing more plays

  /** One pass of the walker's do-while loop. */
  datatype VocStepResult = Continue(next: VocState) | Done(event: VocEvent, after: VocState)

  /** The 24-bit little-endian section length. The source reads a dword
      and masks off the top byte, so the byte after the length is read but
      does not matter. */
  function SectionLength(mem: Memory, a: nat): nat
  {
    mem(a) + 0x100 * mem(a + 1) + 0x1_0000 * mem(a + 2)
  }

  /** A repeat start whose count is `count` and whose body starts at
      `next`: below the nesting limit the jump target and the count are
      recorded; the level is counted either way. */
  function RepeatStart(st: VocState, count: word, next: nat): (r: VocState)
    requires ValidVocState(st)
    ensures ValidVocState(r) && r.depth == st.depth + 1 && r.pos == next
    ensures st.depth < MAX_NESTED_VOC_REPEATS ==> r.toRepeat[st.depth] == next && r.counts[st.depth] == count
    ensures forall k :: 0 <= k < MAX_NESTED_VOC_REPEATS && k != st.depth ==>
      r.toRepeat[k] == st.toRepeat[k] && r.counts[k] == st.counts[k]
  {
    var stored := if st.depth < MAX_NESTED_VOC_REPEATS
                  then st.(toRepeat := st.toRepeat[st.depth := next], counts := st.counts[st.depth := count])
                  else st;
    stored.(depth := st.depth + 1, pos := next)
  }

  /** A repeat end inside a repeat, with `next` the section after it. The
      count of the level it closes is decremented (wrapping below 0); if it
      was not yet 0 the walker jumps back to the body and stays at that
      level. */
  function RepeatEnd(st: VocState, next: nat): (r: VocState)
    requires ValidVocState(st) && st.depth >= 1
    ensures ValidVocState(r)
    ensures var d := st.depth - 1;
      if d < MAX_NESTED_VOC_REPEATS && st.counts[d] != 0
      then r.pos == st.toRepeat[d] && r.depth == st.depth && r.counts[d] == st.counts[d] - 1
      else r.pos == next && r.depth == d
  {
    var d := st.depth - 1;
    if d < MAX_NESTED_VOC_REPEATS then
      var left := st.counts[d];
      var counts := st.counts[d := Wrap16(left as int - 1)];
      if left != 0 then st.(counts := counts, pos := st.toRepeat[d], depth := d + 1)
      else st.(counts := counts, depth := d, pos := next)
    else st.(depth := d, pos := next)
  }

  /** One pass of the loop over the section at st.pos. */
  function VocStep(mem: Memory, st: VocState): (r: VocStepResult)
    requires ValidVocState(st)
    ensures r.Continue? ==> ValidVocState(r.next)
    ensures r.Done? ==> ValidVocState(r.after)
  {
    var kind := mem(st.pos);
    if kind == VOC_TERMINATOR then Done(Stopped, st.(pos := st.pos + 1, depth := 0))
    else
      var length := SectionLength(mem, st.pos + 1);
      var data := st.pos + 4;
      var next := data + length;
      if kind == VOC_SOUND_TYPED then
        Done(PlaySample(data + 2, mem(data), mem(data + 1), true, Wrap32(length - 2)),
             st.(pos := next, timeValue := mem(data), codec := mem(data + 1)))
      else if kind == VOC_SOUND_UNTYPED then
        Done(PlaySample(data, st.timeValue, st.codec, false, length), st.(pos := next))
      else if kind == VOC_SILENCE then
        Done(PlaySilence(mem(data + 2), ReadWord(mem, data)), st.(pos := next, timeValue := mem(data + 2)))
      else if kind == VOC_REPEAT_START then Continue(RepeatStart(st, ReadWord(mem, data), next))
      else if kind == VOC_REPEAT_END then
        if st.depth == 0 then Done(Halted, st.(pos := next)) else Continue(RepeatEnd(st, next))
      else Continue(st.(pos := next))
  }

  /** PlayNextVocSection: passes of the loop until a section plays, stops or
      halts. `fuel` bounds the passes; None means it ran out. */
  function PlayNextVocSection(mem: Memory, st: VocState, fuel: nat): (r: Option<(VocEvent, VocState)>)
    requires ValidVocState(st)
    ensures r.Some? ==> ValidVocState(r.value.1)
    decreases fuel
  {
    if fuel == 0 then None
    else match VocStep(mem, st)
      case Done(e, st') => Some((e, st'))
      case Continue(st') => PlayNextVocSection(mem, st', fuel - 1)
  }

  /** SB_PlayVoc: with a file header, the sections start at the offset
      stored at byte 20; the repeat level starts at 0. */
  function StartVoc(mem: Memory, data: nat, includesHeader: bool, timeValue: byte, codec: byte): (st: VocState)
    ensures ValidVocState(st) && st.depth == 0
  {
    var start := if includesHeader then data + ReadWord(mem, data + 20) else data;
    VocState(start, 0, seq(MAX_NESTED_VOC_REPEATS, _ => 0), seq(MAX_NESTED_VOC_REPEATS, _ => 0), timeValue, codec)
  }

  /** A typed sound section plays the bytes after its two header bytes, with
      the time constant and codec those bytes hold, and the walker moves to
      the next section. */
  lemma TypedSectionPlays(mem: Memory, st: VocState)
    requires ValidVocState(st) && mem(st.pos) == VOC_SOUND_TYPED
    ensures var length := SectionLength(mem, st.pos + 1);
      var data := st.pos + 4;
      PlayNextVocSection(mem, st, 1) ==
        Some((PlaySample(data + 2, mem(data), mem(data + 1), true, Wrap32(length - 2)),
              st.(pos := data + length, timeValue := mem(data), codec := mem(data + 1))))
  {
  }

  /** The layout of one repeated sound: at p a repeat start holding `count`,
      then a typed sound section of `length` bytes, then a repeat end. */
  predicate RepeatLayout(mem: Memory, p: nat, length: nat)
  {
    && mem(p) == VOC_REPEAT_START && SectionLength(mem, p + 1) == 2
    && mem(p + 6) == VOC_SOUND_TYPED && SectionLength(mem, p + 7) == length
    && mem(p + 10 + length) == VOC_REPEAT_END && SectionLength(mem, p + 11 + length) == 0
  }

  /** The sample the repeated section plays. */
  function RepeatedSample(mem: Memory, p: nat, length: nat): VocEvent
  {
    PlaySample(p + 12, mem(p + 10), mem(p + 11), true, Wrap32(length - 2))
  }

  /** The walker's state while the body of the repeat at nesting level d is
      playing, with `left` more passes to go. */
  predicate InRepeat(st: VocState, p: nat, length: nat, d: nat, left: word)
  {
    ValidVocState(st) && d < MAX_NESTED_VOC_REPEATS && st.depth == d + 1 && st.pos == p + 10 + length
    && st.toRepeat[d] == p + 6 && st.counts[d] == left
  }

  /** The body of the repeat plays the typed section once, leaving the
      walker at the repeat end. */
  lemma BodyPlays(mem: Memory, st: VocState, p: nat, length: nat)
    requires RepeatLayout(mem, p, length) && ValidVocState(st) && st.pos == p + 6
    ensures VocStep(mem, st) == Done(RepeatedSample(mem, p, length),
                                     st.(pos := p + 10 + length, timeValue := mem(p + 10), codec := mem(p + 11)))
  {
  }

  /** The pass over the repeat start at p. */
  lemma RepeatStartStep(mem: Memory, st: VocState, p: nat, length: nat)
    requires ValidVocState(st) && st.pos == p && RepeatLayout(mem, p, length)
    ensures VocStep(mem, st) == Continue(RepeatStart(st, ReadWord(mem, p + 4), p + 6))
  {
  }

  /** Entering the repeat plays the body the first time. */
  lemma RepeatEnter(mem: Memory, st: VocState, p: nat, length: nat)
    requires ValidVocState(st) && st.pos == p && st.depth < MAX_NESTED_VOC_REPEATS && RepeatLayout(mem, p, length)
    ensures var r := PlayNextVocSection(mem, st, 2);
      r.Some? && r.value.0 == RepeatedSample(mem, p, length)
      && InRepeat(r.value.1, p, length, st.depth, ReadWord(mem, p + 4))
  {
    var s1 := RepeatStart(st, ReadWord(mem, p + 4), p + 6);
    RepeatStartStep(mem, st, p, length);
    BodyPlays(mem, s1, p, length);
  }

  /** At the repeat end with passes left the walker jumps back and plays the
      body again, with one pass fewer. */
  lemma RepeatAgain(mem: Memory, st: VocState, p: nat, length: nat, d: nat, left: word)
    requires RepeatLayout(mem, p, length) && InRepeat(st, p, length, d, left) && left != 0
    ensures var r := PlayNextVocSection(mem, st, 2);
      r.Some? && r.value.0 == RepeatedSample(mem, p, length)
      && InRepeat(r.value.1, p, length, d, left - 1)
  {
    var s1 := RepeatEnd(st, p + 14 + length);
    var s2 := s1.(pos := p + 10 + length, timeValue := mem(p + 10), codec := mem(p + 11));
    assert VocStep(mem, st) == Continue(s1);
    BodyPlays(mem, s1, p, length);
    assert PlayNextVocSection(mem, st, 2) == Some((RepeatedSample(mem, p, length), s2));
  }

  /** With no passes left the walker steps past the repeat end, back to the
      enclosing nesting level. */
  lemma RepeatLeave(mem: Memory, st: VocState, p: nat, length: nat, d: nat)
    requires RepeatLayout(mem, p, length) && InRepeat(st, p, length, d, 0)
    ensures VocStep(mem, st).Continue?
    ensures VocStep(mem, st).next.pos == p + 14 + length && VocStep(mem, st).next.depth == d
  {
    assert VocStep(mem, st) == Continue(RepeatEnd(st, p + 14 + length));
  }

  /** The samples of n successive calls, each made when the previous sample
      has finished, with fuel 2 per call. */
  function Calls(mem: Memory, st: VocState, n: nat): (r: (seq<VocEvent>, VocState))
    requires ValidVocState(st)
    ensures ValidVocState(r.1)
    decreases n
  {
    if n == 0 then ([], st)
    else match PlayNextVocSection(mem, st, 2)
      case None => ([], st)
      case Some((e, st')) =>
        var rest := Calls(mem, st', n - 1);
        ([e] + rest.0, rest.1)
  }

  lemma {:induction false} RepeatPasses(mem: Memory, st: VocState, p: nat, length: nat, d: nat, left: word)
    requires RepeatLayout(mem, p, length) && InRepeat(st, p, length, d, left)
    ensures var r := Calls(mem, st, left);
      r.0 == seq(left, _ => RepeatedSample(mem, p, length)) && InRepeat(r.1, p, length, d, 0)
    decreases left
  {
    if left > 0 {
      RepeatAgain(mem, st, p, length, d, left);
      var st' := PlayNextVocSection(mem, st, 2).value.1;
      RepeatPasses(mem, st', p, length, d, left - 1);
    }
  }

  /** One more call in front of n calls. */
  lemma CallsCons(mem: Memory, st: VocState, n: nat, e: VocEvent, st': VocState)
    requires ValidVocState(st) && ValidVocState(st') && PlayNextVocSection(mem, st, 2) == Some((e, st'))
    ensures Calls(mem, st, n + 1) == ([e] + Calls(mem, st', n).0, Calls(mem, st', n).1)
  {
  }

  /** A repeat block with count c plays its body c + 1 times and is then at
      its repeat end with no passes left, from where (RepeatLeave) it moves
      past the block at the nesting level it started from. */
  lemma RepeatPlaysCountPlusOne(mem: Memory, st: VocState, p: nat, length: nat)
    requires ValidVocState(st) && st.pos == p && st.depth < MAX_NESTED_VOC_REPEATS && RepeatLayout(mem, p, length)
    ensures var c := ReadWord(mem, p + 4);
      var r := Calls(mem, st, c + 1);
      r.0 == seq(c + 1, _ => RepeatedSample(mem, p, length)) && InRepeat(r.1, p, length, st.depth, 0)
  {
    var c := ReadWord(mem, p + 4);
    var e := RepeatedSample(mem, p, length);
    RepeatEnter(mem, st, p, length);
    var st1 := PlayNextVocSection(mem, st, 2).value.1;
    RepeatPasses(mem, st1, p, length, st.depth, c);
    CallsCons(mem, st, c, e, st1);
    assert [e] + seq(c, _ => e) == seq(c + 1, _ => e);
  }

  /** Beyond eight nested repeats a repeat start records nothing and its
      end never jumps back: the inner block plays once, and the level is
      still counted. */
  lemma DeepRepeatsPlayOnce(mem: Memory, st: VocState)
    requires ValidVocState(st) && st.depth >= MAX_NESTED_VOC_REPEATS
    ensures mem(st.pos) == VOC_REPEAT_START ==>
      VocStep(mem, st) == Continue(st.(depth := st.depth + 1, pos := st.pos + 4 + SectionLength(mem, st.pos + 1)))
    ensures mem(st.pos) == VOC_REPEAT_END && st.depth > MAX_NESTED_VOC_REPEATS ==>
      VocStep(mem, st) == Continue(st.(depth := st.depth - 1, pos := st.pos + 4 + SectionLength(mem, st.pos + 1)))
  {
  }

  /** A repeat end outside any repeat halts parsing, and the terminator
      stops playback and resets the nesting level. */
  lemma VocEndings(mem: Memory, st: VocState)
    requires ValidVocState(st)
    ensures mem(st.pos) == VOC_REPEAT_END && st.depth == 0 ==> VocStep(mem, st).Done? && VocStep(mem, st).event == Halted
    ensures mem(st.pos) == VOC_TERMINATOR ==> VocStep(mem, st) == Done(Stopped, st.(pos := st.pos + 1, depth := 0))
  {
  }

  // ---------------------------------------------------------------------
  // DetectSoundBlaster and SB_Init
  // ---------------------------------------------------------------------

  /** The order in which the ports are tried when none is configured:
      0x220, 0x240, then 0x210, 0x230, 0x250 and 0x260. */
  const PROBE_ORDER: seq<int> := [2, 4, 1, 3, 5, 6]

  /** The ports DetectSoundBlaster(portIndex) may try, in order. */
  function Candidates(portIndex: int): (cs: seq<int>)
    ensures |cs| >= 1
  {
    if portIndex == -1 then PROBE_ORDER else if portIndex == 0 then [2] else [portIndex]
  }

  /** How many ports the loop has tried before reaching i. */
  function TriedBefore(i: int): nat
  {
    if i <= 1 then 2 else if i <= 3 then 3 else if i <= 5 then 4 else if i == 6 then 5 else 6
  }

  /** DetectSoundBlaster(portIndex) with `works` standing for TryInitSB: the
      ports tried, and whether one of them answered. */
  method DetectSoundBlaster(portIndex: int, works: int -> bool) returns (found: bool, tried: seq<int>)
    ensures var cs := Candidates(portIndex);
      && 1 <= |tried| <= |cs| && tried == cs[..|tried|]
      && (forall k :: 0 <= k < |tried| - 1 ==> !works(tried[k]))
      && (found <==> works(tried[|tried| - 1]))
      && (!found ==> tried == cs)
  {
    var p := if portIndex == 0 then 2 else portIndex;
    if p != -1 {
      return works(p), [p];
    }
    tried := [2];
    if works(2) {
      return true, tried;
    }
    tried := tried + [4];
    if works(4) {
      return true, tried;
    }
    var i := 1;
    while i <= 6
      invariant 1 <= i <= 7
      invariant tried == PROBE_ORDER[..TriedBefore(i)]
      invariant forall k :: 0 <= k < |tried| ==> !works(tried[k])
    {
      if i != 2 && i != 4 {
        tried := tried + [i];
        if works(i) {
          return true, tried;
        }
      }
      i := i + 1;
    }
    found := false;
  }

  /** SB_Init(blasterEnvVar) with the AdLib detection result and the port
      probe as parameters: a parse error is returned before any probing;
      otherwise the configured port (or every port) is probed, and a Sound
      Blaster implies an AdLib. */
  method SbInit(env: Option<seq<char>>, adLibDetected: bool, works: int -> bool)
    returns (error: Option<BlasterError>, soundBlasterPresent: bool, adLibPresent: bool)
    ensures env.Some? && ParseBlasterConfig(env.value).ParseError? ==>
      error == Some(ParseBlasterConfig(env.value).error) && !soundBlasterPresent && adLibPresent == adLibDetected
    ensures error.None? ==> adLibPresent == (adLibDetected || soundBlasterPresent)
    ensures env.None? ==> error.None? && (soundBlasterPresent <==> exists k :: 0 <= k < |PROBE_ORDER| && works(PROBE_ORDER[k]))
  {
    var portIndex := -1;
    if env.Some? {
      var r := ParseBlasterConfig(env.value);
      if r.ParseError? {
        return Some(r.error), false, adLibDetected;
      }
      portIndex := r.config.portIndex;
    }
    var tried;
    soundBlasterPresent, tried := DetectSoundBlaster(portIndex, works);
    if env.None? {
      if soundBlasterPresent {
        assert works(tried[|tried| - 1]);
      } else {
        assert tried == PROBE_ORDER;
      }
    }
    error := None;
    adLibPresent := adLibDetected || soundBlasterPresent;
  }
}
