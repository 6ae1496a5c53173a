/** Pieces of the script interpreter that carry decisions: the option
    checkboxes of the options menu, locating a named script, the SETKEYS
    parameter and the key match of WAIT, and the parameter-read helper. */
module ScriptCommands {
  import opened Words
  import opened CoreUtil
  import opened ScriptTokens
  import opened Wrappers

  /** The settings the checkbox options read and write. */
  datatype Options = Options(
    debugSelectedFunction: byte,
    sndUseSbSounds: bool,
    sndUseAdLibSounds: bool,
    sndUsePcSpeakerSounds: bool,
    sndMusicEnabled: bool)

  /** Which sound hardware was detected at start-up. */
  datatype Hardware = Hardware(soundBlasterPresent: bool, adLibPresent: bool)

  /** The debug-function digit options '1'..'4' select functions 0..3. */
  predicate IsDebugOption(optionId: char)
  {
    '1' <= optionId <= '4'
  }

  /** QueryOrToggleOption: optionally toggle the setting behind a checkbox,
      then report whether it is checked. Yields the report and the settings. */
  function QueryOrToggleOption(toggle: bool, optionId: char, o: Options, hw: Hardware)
    : (r: (bool, Options))
    ensures !IsDebugOption(optionId) && optionId !in {'S', 'L', 'P', 'M'} ==> r == (false, o)
    ensures !toggle ==> r.1.debugSelectedFunction == o.debugSelectedFunction
    ensures optionId == 'S' ==> r.0 == r.1.sndUseSbSounds
    ensures optionId == 'L' ==> r.0 == r.1.sndUseAdLibSounds
    ensures optionId == 'P' ==> r.0 == r.1.sndUsePcSpeakerSounds
  {
    if IsDebugOption(optionId) then
      var n := optionId as int - '1' as int;
      var o' := if toggle then o.(debugSelectedFunction := n) else o;
      (o'.debugSelectedFunction == n, o')
    else if optionId == 'S' then
      var sb := (if toggle then !o.sndUseSbSounds else o.sndUseSbSounds) && hw.soundBlasterPresent;
      (sb, o.(sndUseSbSounds := sb, sndUsePcSpeakerSounds := o.sndUsePcSpeakerSounds && !sb))
    else if optionId == 'L' then
      var al := (if toggle then !o.sndUseAdLibSounds else o.sndUseAdLibSounds) && hw.adLibPresent;
      (al, o.(sndUseAdLibSounds := al, sndUsePcSpeakerSounds := o.sndUsePcSpeakerSounds && !al))
    else if optionId == 'P' then
      var pc := if toggle then !o.sndUsePcSpeakerSounds else o.sndUsePcSpeakerSounds;
      (pc, o.(sndUsePcSpeakerSounds := pc,
              sndUseAdLibSounds := o.sndUseAdLibSounds && !pc,
              sndUseSbSounds := o.sndUseSbSounds && !pc))
    else if optionId == 'M' then
      var music := if toggle then !o.sndMusicEnabled else o.sndMusicEnabled;
      (music, o.(sndMusicEnabled := music && hw.adLibPresent))
    else
      (false, o)
  }

  /** The debug digits behave as radio buttons: after toggling digit d,
      querying digit e reports true exactly when e is d. */
  lemma DebugOptionsAreRadioButtons(d: char, e: char, o: Options, hw: Hardware)
    requires IsDebugOption(d) && IsDebugOption(e)
    ensures var o' := QueryOrToggleOption(true, d, o, hw).1;
      QueryOrToggleOption(false, e, o', hw).0 <==> d == e
  {
  }

  /** The PC speaker is never enabled together with a Sound Blaster or AdLib. */
  predicate SpeakerExclusive(o: Options)
  {
    o.sndUsePcSpeakerSounds ==> !o.sndUseSbSounds && !o.sndUseAdLibSounds
  }

  /** Every query or toggle keeps the PC speaker exclusive, and a Sound
      Blaster or AdLib that is not present is never left enabled by its own
      option. */
  lemma OptionsKeepSpeakerExclusive(toggle: bool, optionId: char, o: Options, hw: Hardware)
    requires SpeakerExclusive(o)
    ensures var r := QueryOrToggleOption(toggle, optionId, o, hw);
      SpeakerExclusive(r.1) &&
      (optionId == 'S' ==> (r.1.sndUseSbSounds ==> hw.soundBlasterPresent)) &&
      (optionId == 'L' ==> (r.1.sndUseAdLibSounds ==> hw.adLibPresent)) &&
      (optionId == 'M' ==> (r.1.sndMusicEnabled ==> hw.adLibPresent))
  {
  }

  /** Querying (without toggling) reaches a fixed point after one call. */
  lemma QueryIsIdempotent(optionId: char, o: Options, hw: Hardware)
    ensures var r := QueryOrToggleOption(false, optionId, o, hw);
      var r' := QueryOrToggleOption(false, optionId, r.1, hw);
      r'.1 == r.1 && (optionId != 'M' ==> r'.0 == r.0)
  {
  }

  /** 'M' reports the music flag before clamping it to the AdLib's presence:
      toggling music on without an AdLib reports it checked although the
      stored setting is off. */
  lemma MusicReportsPreClampValue(o: Options, hw: Hardware)
    requires !hw.adLibPresent && !o.sndMusicEnabled
    ensures var r := QueryOrToggleOption(true, 'M', o, hw);
      r.0 && !r.1.sndMusicEnabled
  {
  }

  /** The slot of the option id of checkbox `index` (1-based) in the
      checkbox data, after the byte decrement of the index: index 0 wraps
      round to 255. */
  function CheckboxSlot(index: byte): nat
  {
    Wrap8(index - 1) * 2 + 1
  }

  /** The effect toggling an option has on the settings: the option's own
      flag flips (and is cleared without its hardware), the flags it
      excludes are cleared, and nothing else changes. */
  predicate ToggleEffect(optionId: char, o: Options, hw: Hardware, o': Options)
  {
    if IsDebugOption(optionId) then
      o' == o.(debugSelectedFunction := optionId as int - '1' as int)
    else if optionId == 'S' then
      o'.sndUseSbSounds == (!o.sndUseSbSounds && hw.soundBlasterPresent) &&
      o'.sndUsePcSpeakerSounds == (o.sndUsePcSpeakerSounds && !o'.sndUseSbSounds) &&
      o'.sndUseAdLibSounds == o.sndUseAdLibSounds && o'.sndMusicEnabled == o.sndMusicEnabled &&
      o'.debugSelectedFunction == o.debugSelectedFunction
    else if optionId == 'L' then
      o'.sndUseAdLibSounds == (!o.sndUseAdLibSounds && hw.adLibPresent) &&
      o'.sndUsePcSpeakerSounds == (o.sndUsePcSpeakerSounds && !o'.sndUseAdLibSounds) &&
      o'.sndUseSbSounds == o.sndUseSbSounds && o'.sndMusicEnabled == o.sndMusicEnabled &&
      o'.debugSelectedFunction == o.debugSelectedFunction
    else if optionId == 'P' then
      o'.sndUsePcSpeakerSounds == !o.sndUsePcSpeakerSounds &&
      o'.sndUseAdLibSounds == (o.sndUseAdLibSounds && !o'.sndUsePcSpeakerSounds) &&
      o'.sndUseSbSounds == (o.sndUseSbSounds && !o'.sndUsePcSpeakerSounds) &&
      o'.sndMusicEnabled == o.sndMusicEnabled && o'.debugSelectedFunction == o.debugSelectedFunction
    else if optionId == 'M' then
      o' == o.(sndMusicEnabled := !o.sndMusicEnabled && hw.adLibPresent)
    else
      o' == o
  }

  /** ToggleCheckbox: checkbox data holds (row, option id) byte pairs; the
      1-based index selects the pair whose option is toggled. An index whose
      pair lies outside the data (index 0 wraps round to pair 255) reads
      past it: None. */
  function ToggleCheckbox(index: byte, checkboxData: seq<char>, o: Options, hw: Hardware)
    : (r: Option<Options>)
    ensures r.None? <==> CheckboxSlot(index) >= |checkboxData|
    ensures r.Some? ==> ToggleEffect(checkboxData[CheckboxSlot(index)], o, hw, r.value)
  {
    var slot := CheckboxSlot(index);
    if slot >= |checkboxData| then None
    else Some(QueryOrToggleOption(true, checkboxData[slot], o, hw).1)
  }

  /** Toggling the same checkbox twice restores every setting whenever the
      hardware behind it is present (the PC speaker and music aside, whose
      exclusions and AdLib check can clear other flags for good). */
  lemma ToggleTwiceRestores(index: byte, checkboxData: seq<char>, o: Options, hw: Hardware)
    requires CheckboxSlot(index) < |checkboxData|
    requires var c := checkboxData[CheckboxSlot(index)];
      (c == 'S' && hw.soundBlasterPresent && !o.sndUsePcSpeakerSounds) ||
      (c == 'L' && hw.adLibPresent && !o.sndUsePcSpeakerSounds) ||
      (c == 'M' && hw.adLibPresent) ||
      (!IsDebugOption(c) && c !in {'S', 'L', 'P', 'M'})
    ensures ToggleCheckbox(index, checkboxData, ToggleCheckbox(index, checkboxData, o, hw).value, hw) == Some(o)
  {
  }

  /** SetUpParameterRead: step to the next token and NUL-terminate it at the
      following space or carriage return. Yields the new position and the
      split buffer. */
  function SetUpParameterRead(text: seq<char>, pos: nat): (r: (nat, Split))
    requires exists k :: pos <= k < |text| && text[k] in SEPARATORS
    requires exists k :: pos + FindNextToken(text, pos) <= k < |text| && text[k] in {' ', '\r'}
    ensures r.0 == pos + FindNextToken(text, pos) && r.0 > pos
    ensures |r.1.buffer| == |text|
    ensures r.0 < |r.1.buffer| && Terminated(r.1.buffer[r.0..])
    ensures forall k :: r.0 <= k < r.0 + Strlen(r.1.buffer[r.0..]) ==>
      r.1.buffer[k] == text[k] && text[k] != ' ' && text[k] != '\r'
  {
    var p := pos + FindNextToken(text, pos);
    var t := TerminateStrAfterToken(text, p);
    var j := FirstOf(text, p, {' ', '\r'});
    assert t.buffer[p..][j - p] == NUL;
    var n := Strlen(t.buffer[p..]);
    assert n <= j - p;
    assert forall k :: p <= k < p + n ==> k < j && t.buffer[k] == text[k];
    (p, t)
  }

  /** SCANCODE_D, which a script writes as '_' (0x5F) since 0x20 is a space. */
  const SCANCODE_D: byte := 0x20
  const SETKEYS_ESCAPE: char := '_'

  /** The SETKEYS parameter: every character is a scancode, except that '_'
      stands for SCANCODE_D. The keyCodes array holds 20 entries. */
  function SetKeys(param: seq<char>): (keyCodes: seq<byte>)
    requires forall i :: 0 <= i < |param| ==> param[i] as int < 0x100
    ensures |keyCodes| == |param|
    ensures forall i :: 0 <= i < |param| ==>
      keyCodes[i] == (if param[i] == SETKEYS_ESCAPE then SCANCODE_D else param[i] as int)
  {
    if param == [] then []
    else [if param[0] == SETKEYS_ESCAPE then SCANCODE_D else param[0] as int] + SetKeys(param[1..])
  }

  /** How a script author writes a list of scancodes as a SETKEYS parameter. */
  function EncodeSetKeys(codes: seq<byte>): (param: seq<char>)
    ensures |param| == |codes|
    ensures forall i :: 0 <= i < |codes| ==>
      param[i] == (if codes[i] == SCANCODE_D then SETKEYS_ESCAPE else codes[i] as char)
  {
    if codes == [] then [] else
      [if codes[0] == SCANCODE_D then SETKEYS_ESCAPE else codes[0] as char] + EncodeSetKeys(codes[1..])
  }

  /** Decoding a parameter written for a list of scancodes recovers the list,
      unless the list itself contains 0x5F, which reads back as SCANCODE_D. */
  lemma SetKeysRoundTrip(codes: seq<byte>)
    requires forall i :: 0 <= i < |codes| ==> codes[i] != SETKEYS_ESCAPE as int
    ensures forall i :: 0 <= i < |codes| ==> EncodeSetKeys(codes)[i] as int < 0x100
    ensures SetKeys(EncodeSetKeys(codes)) == codes
  {
  }

  /** The WAIT key match: the first key code equal to the scancode selects
      menu entry (page) j + 1; none matching yields None. */
  function WaitKeyMatch(scancode: byte, keyCodes: seq<byte>): (page: Option<nat>)
    ensures page.Some? <==> scancode in keyCodes
    ensures page.Some? ==> (1 <= page.value <= |keyCodes| &&
      keyCodes[page.value - 1] == scancode &&
      forall j :: 0 <= j < page.value - 1 ==> keyCodes[j] != scancode)
  {
    if keyCodes == [] then None
    else if keyCodes[0] == scancode then Some(1)
    else match WaitKeyMatch(scancode, keyCodes[1..])
      case None => None
      case Some(p) => Some(p + 1)
  }

  /** The positions the search of FindScriptByName stops at when it
      starts at pos: pos itself and every position right after a space or
      line feed, since each hop lands just behind the next separator. */
  predicate WalkStop(text: seq<char>, pos: nat, q: nat)
  {
    pos <= q < |text| && (q == pos || text[q - 1] in SEPARATORS)
  }

  /** Some separator lies at or after q, so a hop from q stays inside the
      text. */
  predicate SeparatorFrom(text: seq<char>, q: nat)
  {
    exists k :: q <= k < |text| && text[k] in SEPARATORS
  }

  /** The text from q on starts with the script name. */
  predicate NameAt(name: seq<char>, text: seq<char>, q: nat)
    requires ScriptBuffer(text) && Terminated(name) && Strlen(name) > 0 && q < |text|
  {
    SuffixTerminated(text, q);
    StringStartsWith(name, text[q..])
  }

  /** FindScriptByName: hop from token start to token start until the script
      name matches, then step over the name with one more FindNextToken.
      Yields the start of the script and the position where the name
      matched. Where the source would read past the end of the text (no
      separator left, so no further hop) the model yields None. */
  function FindScriptByName(name: seq<char>, text: seq<char>, pos: nat): (r: Option<(nat, nat)>)
    requires ScriptBuffer(text) && Terminated(name) && Strlen(name) > 0
    requires pos < |text|
    ensures r.Some? ==> WalkStop(text, pos, r.value.1) && SeparatorFrom(text, r.value.1)
    ensures r.Some? ==> NameAt(name, text, r.value.1) && r.value.0 == r.value.1 + FindNextToken(text, r.value.1)
    ensures r.Some? ==> forall q: nat :: WalkStop(text, pos, q) && q < r.value.1 ==> !NameAt(name, text, q)
    ensures r.None? <==> !exists q: nat :: WalkStop(text, pos, q) && SeparatorFrom(text, q) && NameAt(name, text, q)
    decreases |text| - pos
  {
    SuffixTerminated(text, pos);
    if !SeparatorFrom(text, pos) then
      assert forall q: nat :: WalkStop(text, pos, q) ==> !SeparatorFrom(text, q);
      None
    else
      var d := FindNextToken(text, pos);
      assert text[|text| - 1] !in SEPARATORS;
      if StringStartsWith(name, text[pos..]) then Some((pos + d, pos))
      else
        WalkStopsAfterHop(text, pos, d);
        FindScriptByName(name, text, pos + d)
  }

  /** After the hop from pos to pos + d, the stops still ahead are those
      of a search starting at pos + d. */
  lemma WalkStopsAfterHop(text: seq<char>, pos: nat, d: nat)
    requires SeparatorFrom(text, pos) && d == FindNextToken(text, pos) && pos + d < |text|
    ensures forall q: nat :: WalkStop(text, pos, q) && q != pos <==> WalkStop(text, pos + d, q)
  {
    forall q: nat | WalkStop(text, pos, q) && q != pos
      ensures pos + d <= q
    {
      assert text[q - 1] in SEPARATORS;
    }
  }
}
