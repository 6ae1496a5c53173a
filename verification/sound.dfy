/** The sound facade: PlaySound decides, from the chosen options, the
    hardware present, the sound's priority and what is playing, which of
    the Sound Blaster, the AdLib and the PC speaker play an effect. The
    decision is modelled as a list of requests; PlayBasicSound, which
    carries out an AdLib or PC speaker request, is modelled on top of the
    players of BasicSnd. The loaders are modelled as the list of files
    they load. */
module Sound {
  import opened Words
  import opened Wrappers
  import opened BasicSnd
  import Unit1

  /** The sound ids the facade needs: the ids that have no digitised
      version, the number of AdLib/PC speaker effects, the index of the
      first AdLib effect in the audio package, and the last id that may
      have a digitised version. Their values live in a header that is not
      part of this model, so they are parameters. */
  datatype SoundIds = SoundIds(adLibOnly: set<byte>, numSounds: int, startAdLibSounds: word, lastDigitized: word)

  /** The sound options and the hardware found at start-up. */
  datatype Options = Options(
    soundEnabled: bool,
    useSbSounds: bool,
    sbPresent: bool,
    useAdLibSounds: bool,
    usePcSpeakerSounds: bool,
    adLibPresent: bool)

  /** sndCurrentPriority and sndCurrentPriorityFallback. */
  datatype Priorities = Priorities(current: byte, fallback: byte)

  /** What is playing when PlaySound is called. */
  datatype Busy = Busy(sample: bool, adLib: bool, pcSpeaker: bool)

  /** A request PlaySound makes: a digitised sound on the Sound Blaster, or
      a basic sound on the AdLib or the PC speaker. */
  datatype Request = PlayVoc(id: int) | PlayBasic(useAdLib: bool, id: int)

  /** IsAdLibOnlySound: the id has no digitised version. */
  predicate IsAdLibOnlySound(ids: SoundIds, id: byte)
  {
    id in ids.adLibOnly
  }

  /** The digitised path is taken. */
  predicate SbActive(opts: Options)
  {
    opts.soundEnabled && opts.useSbSounds && opts.sbPresent
  }

  /** A priority is forgotten once its sound has finished. */
  function Held(p: byte, playing: bool): byte
  {
    if playing then p else 0
  }

  /** The Sound Blaster part of PlaySound. The flag says whether the AdLib
      and PC speaker part runs as well. */
  function SbRoute(ids: SoundIds, pr: Priorities, busy: Busy, prio: byte, id: int): (r: (Priorities, seq<Request>, bool))
    ensures r.2 ==> r.0.fallback == Held(pr.fallback, busy.adLib)
    ensures r.2 <==> !IsAdLibOnlySound(ids, Wrap8(id)) && id <= 40
  {
    var current := Held(pr.current, busy.sample);
    var fallback := Held(pr.fallback, busy.adLib);
    if IsAdLibOnlySound(ids, Wrap8(id)) then
      if prio < fallback then (Priorities(current, fallback), [], false)
      else (Priorities(current, prio), [PlayBasic(true, id)], false)
    else if id > 40 then
      (Priorities(current, fallback), [PlayVoc(id)], false)
    else if prio >= current then
      (Priorities(prio, fallback), [PlayVoc(id)], true)
    else
      (Priorities(current, fallback), [], true)
  }

  /** The AdLib and PC speaker part of PlaySound. */
  function BasicRoute(ids: SoundIds, opts: Options, pr: Priorities, busy: Busy, prio: byte, id: int): (r: (Priorities, seq<Request>))
    ensures r.0.fallback == pr.fallback && |r.1| <= 1
  {
    if !(id < ids.numSounds && (opts.useAdLibSounds || opts.usePcSpeakerSounds)) then (pr, [])
    else
      var current := Held(pr.current, busy.adLib);
      if opts.useAdLibSounds then
        if opts.adLibPresent && prio >= current then (pr.(current := prio), [PlayBasic(true, id)])
        else (pr.(current := current), [])
      else
        var current' := Held(current, busy.pcSpeaker);
        if opts.usePcSpeakerSounds && prio >= current' then (pr.(current := prio), [PlayBasic(false, id)])
        else (pr.(current := current'), [])
  }

  /** PlaySound(id), with `prio` the sound's entry in the priority table. */
  function PlaySound(ids: SoundIds, opts: Options, pr: Priorities, busy: Busy, prio: byte, id: int): (r: (Priorities, seq<Request>))
    ensures !opts.soundEnabled ==> r == (pr, [])
    ensures |r.1| <= 2
    ensures forall q :: q in r.1 ==> q.id == id
  {
    if !opts.soundEnabled then (pr, [])
    else if opts.useSbSounds && opts.sbPresent then
      var sb := SbRoute(ids, pr, busy, prio, id);
      if !sb.2 then (sb.0, sb.1)
      else
        var basic := BasicRoute(ids, opts, sb.0, busy, prio, id);
        (basic.0, sb.1 + basic.1)
    else
      BasicRoute(ids, opts, pr, busy, prio, id)
  }

  // ---------------------------------------------------------------------
  // What PlaySound promises, stated per device
  // ---------------------------------------------------------------------

  /** The priority the AdLib and PC speaker part compares against: on the
      digitised path it is the one the Sound Blaster part left. */
  function BasicCurrent(opts: Options, pr: Priorities, busy: Busy, prio: byte): byte
  {
    var sbCurrent := Held(pr.current, busy.sample);
    var before := if SbActive(opts) then (if prio >= sbCurrent then prio else sbCurrent) else pr.current;
    Held(before, busy.adLib)
  }

  /** The AdLib and PC speaker part runs: the digitised path did not return
      early, the id is a basic effect and one of the two devices is chosen. */
  predicate BasicRuns(ids: SoundIds, opts: Options, id: int)
  {
    opts.soundEnabled &&
    (SbActive(opts) ==> !IsAdLibOnlySound(ids, Wrap8(id)) && id <= 40) &&
    id < ids.numSounds && (opts.useAdLibSounds || opts.usePcSpeakerSounds)
  }

  /** When the Sound Blaster plays an effect: a digitised effect on the
      digitised path, the intro sounds always, the others by priority. */
  predicate PlaysDigitised(ids: SoundIds, opts: Options, pr: Priorities, busy: Busy, prio: byte, id: int)
  {
    SbActive(opts) && !IsAdLibOnlySound(ids, Wrap8(id)) &&
    (id > 40 || prio >= Held(pr.current, busy.sample))
  }

  /** When the AdLib plays an effect: an AdLib-only effect on the digitised
      path by the fallback priority, otherwise as the AdLib device when it
      is chosen and present, by priority. */
  predicate PlaysOnAdLib(ids: SoundIds, opts: Options, pr: Priorities, busy: Busy, prio: byte, id: int)
  {
    (SbActive(opts) && IsAdLibOnlySound(ids, Wrap8(id)) && prio >= Held(pr.fallback, busy.adLib)) ||
    (BasicRuns(ids, opts, id) && opts.useAdLibSounds && opts.adLibPresent &&
     prio >= BasicCurrent(opts, pr, busy, prio))
  }

  /** When the PC speaker plays an effect: only when the AdLib is not the
      chosen device, by priority, with the priority of a finished speaker
      sound forgotten. */
  predicate PlaysOnPcSpeaker(ids: SoundIds, opts: Options, pr: Priorities, busy: Busy, prio: byte, id: int)
  {
    BasicRuns(ids, opts, id) && !opts.useAdLibSounds && opts.usePcSpeakerSounds &&
    prio >= Held(BasicCurrent(opts, pr, busy, prio), busy.pcSpeaker)
  }

  /** PlaySound requests a device exactly when the rules for that device
      say it plays, and a digitised request comes before a basic one. */
  lemma PlaySoundDevices(ids: SoundIds, opts: Options, pr: Priorities, busy: Busy, prio: byte, id: int)
    ensures var r := PlaySound(ids, opts, pr, busy, prio, id);
      (PlayVoc(id) in r.1 <==> PlaysDigitised(ids, opts, pr, busy, prio, id)) &&
      (PlayBasic(true, id) in r.1 <==> PlaysOnAdLib(ids, opts, pr, busy, prio, id)) &&
      (PlayBasic(false, id) in r.1 <==> PlaysOnPcSpeaker(ids, opts, pr, busy, prio, id)) &&
      (|r.1| == 2 ==> r.1[0] == PlayVoc(id) && r.1[1].PlayBasic?)
  {
  }

  /** An effect without a digitised version is never sent to the Sound
      Blaster, and the AdLib and the PC speaker never both get one. */
  lemma PlaySoundExclusions(ids: SoundIds, opts: Options, pr: Priorities, busy: Busy, prio: byte, id: int)
    ensures var r := PlaySound(ids, opts, pr, busy, prio, id);
      (IsAdLibOnlySound(ids, Wrap8(id)) ==> PlayVoc(id) !in r.1) &&
      !(PlayBasic(true, id) in r.1 && PlayBasic(false, id) in r.1) &&
      (PlayBasic(false, id) in r.1 ==> !opts.useAdLibSounds)
  {
    PlaySoundDevices(ids, opts, pr, busy, prio, id);
  }

  /** On the digitised path an effect without a digitised version goes to
      the AdLib alone, by the fallback priority, which it then holds. */
  lemma AdLibOnlyFallsBack(ids: SoundIds, opts: Options, pr: Priorities, busy: Busy, prio: byte, id: int)
    requires SbActive(opts) && IsAdLibOnlySound(ids, Wrap8(id))
    ensures var r := PlaySound(ids, opts, pr, busy, prio, id);
      (prio >= Held(pr.fallback, busy.adLib) ==> r.1 == [PlayBasic(true, id)] && r.0.fallback == prio) &&
      (prio < Held(pr.fallback, busy.adLib) ==> r.1 == []) &&
      r.0.current == Held(pr.current, busy.sample)
  {
  }

  /** The intro sounds (ids above 40) play on the Sound Blaster whatever
      their priority, and on nothing else. */
  lemma IntroSoundsIgnorePriority(ids: SoundIds, opts: Options, pr: Priorities, busy: Busy, prio: byte, id: int)
    requires SbActive(opts) && !IsAdLibOnlySound(ids, Wrap8(id)) && id > 40
    ensures PlaySound(ids, opts, pr, busy, prio, id).1 == [PlayVoc(id)]
  {
  }

  /** A digitised effect the Sound Blaster accepts also plays on the AdLib
      when that is chosen and present: its priority has just been adopted,
      so the AdLib gate lets it through. */
  lemma DigitisedAlsoOnAdLib(ids: SoundIds, opts: Options, pr: Priorities, busy: Busy, prio: byte, id: int)
    requires SbActive(opts) && !IsAdLibOnlySound(ids, Wrap8(id)) && id <= 40
    requires prio >= Held(pr.current, busy.sample)
    requires id < ids.numSounds && opts.useAdLibSounds && opts.adLibPresent
    ensures PlaySound(ids, opts, pr, busy, prio, id) == (Priorities(prio, Held(pr.fallback, busy.adLib)), [PlayVoc(id), PlayBasic(true, id)])
  {
    var sb := SbRoute(ids, pr, busy, prio, id);
    assert sb == (Priorities(prio, Held(pr.fallback, busy.adLib)), [PlayVoc(id)], true);
    assert BasicRoute(ids, opts, sb.0, busy, prio, id) == (sb.0, [PlayBasic(true, id)]);
    assert [PlayVoc(id)] + [PlayBasic(true, id)] == [PlayVoc(id), PlayBasic(true, id)];
  }

  /** With the PC speaker as the only device and the AdLib silent, the
      priority compared against has just been reset to 0, so every basic
      effect plays: the priority check on this path never rejects. */
  lemma PcSpeakerOnlyIgnoresPriority(ids: SoundIds, opts: Options, pr: Priorities, busy: Busy, prio: byte, id: int)
    requires opts.soundEnabled && !SbActive(opts) && !opts.useAdLibSounds && opts.usePcSpeakerSounds
    requires !busy.adLib && id < ids.numSounds
    ensures PlaySound(ids, opts, pr, busy, prio, id) == (pr.(current := prio), [PlayBasic(false, id)])
  {
  }

  // ---------------------------------------------------------------------
  // PlayBasicSound
  // ---------------------------------------------------------------------

  /** The AdLib and PC speaker players. */
  datatype Players = Players(al: AlState, pc: PcState)

  /** The little-endian dword at address a. */
  function ReadDword(mem: Memory, a: nat): dword
  {
    ReadWord(mem, a) + 0x1_0000 * ReadWord(mem, a + 2)
  }

  /** The index of an effect in the audio package: AdLib effects follow
      the PC speaker ones, and the index is a `word`. */
  function PackageIndex(ids: SoundIds, useAdLib: bool, id: word): word
  {
    if useAdLib then Wrap16(id + ids.startAdLibSounds) else id
  }

  /** Where an effect's data starts: its size as a dword, then the sound. */
  function SoundData(ids: SoundIds, header: nat -> dword, audio: nat, useAdLib: bool, id: word): nat
  {
    audio + header(PackageIndex(ids, useAdLib, id))
  }

  /** The stored size with the header size added back, as the dword sum
      converted to the `long` the players take. */
  function AdjustedSize(size: dword, headerSize: nat): slong
  {
    WrapLong(Wrap32(size + headerSize))
  }

  /** PlayBasicSound: the AdLib effect playing is stopped first, then the
      effect is handed to the chosen player with its header size added to
      the stored size. */
  function PlayBasicSound(ids: SoundIds, header: nat -> dword, audio: nat, mem: Memory, dev: Players, useAdLib: bool, id: word)
    : (r: (Players, seq<Output>))
    requires ValidPc(dev.pc)
    ensures ValidPc(r.0.pc)
    ensures |r.1| >= 1 && r.1[0] == AdLibWrite(AL_FREQ_H, 0)
  {
    var data := SoundData(ids, header, audio, useAdLib, id);
    var size := ReadDword(mem, data);
    var stopped := StopAl(dev.al);
    if useAdLib then
      var played := PlayAl(stopped.0, mem, data + 4, AdjustedSize(size, AL_SOUND_HEADER));
      (Players(played.0, dev.pc), stopped.1 + played.1)
    else
      var played := PlayPc(dev.pc, mem, data + 4, AdjustedSize(size, PC_SOUND_HEADER));
      (Players(stopped.0, played.0), stopped.1 + played.1)
  }

  /** Adding the header size and taking it off again gives back the stored
      size as a `long`. */
  lemma AdjustCancels(size: dword, headerSize: nat)
    requires headerSize < 0x8000
    ensures AddLong(AdjustedSize(size, headerSize), -(headerSize as int)) == WrapLong(size)
  {
    var t := Wrap32(size + headerSize);
    assert t == size + headerSize || t == size + headerSize - 0x1_0000_0000;
  }

  /** An AdLib effect: since the AdLib player has just been stopped, its
      priority is 0 and the effect plays exactly when its own priority word
      is not negative; it then plays the stored number of samples. */
  lemma BasicAdLibPlays(ids: SoundIds, header: nat -> dword, audio: nat, mem: Memory, dev: Players, id: word)
    requires ValidPc(dev.pc)
    ensures var data := SoundData(ids, header, audio, true, id);
      var r := PlayBasicSound(ids, header, audio, mem, dev, true, id);
      r.0.pc == dev.pc &&
      (r.0.al.data.Some? <==> AsSigned(ReadWord(mem, data + 4)) >= 0) &&
      (AsSigned(ReadWord(mem, data + 4)) >= 0 ==>
        r.0.al.data == Some(data + 4 + AL_SOUND_HEADER) &&
        r.0.al.lengthLeft == WrapLong(ReadDword(mem, data)))
  {
    var data := SoundData(ids, header, audio, true, id);
    AdjustCancels(ReadDword(mem, data), AL_SOUND_HEADER);
  }

  /** A PC speaker effect: the AdLib is silenced and forgotten either way,
      and the speaker plays the effect by its own priority gate, with the
      stored byte count. */
  lemma BasicPcPlays(ids: SoundIds, header: nat -> dword, audio: nat, mem: Memory, dev: Players, id: word)
    requires ValidPc(dev.pc)
    ensures var data := SoundData(ids, header, audio, false, id);
      var r := PlayBasicSound(ids, header, audio, mem, dev, false, id);
      r.0.al == StopAl(dev.al).0 && !IsAdLibPlaying(r.0.al) &&
      (AsSigned(ReadWord(mem, data + 4)) < dev.pc.priority ==> r.0.pc == dev.pc) &&
      (AsSigned(ReadWord(mem, data + 4)) >= dev.pc.priority ==> r.0.pc.data == Some(data + 4 + PC_SOUND_HEADER)) &&
      (AsSigned(ReadWord(mem, data + 4)) >= dev.pc.priority && ReadDword(mem, data) < 0x8000_0000 ==>
        r.0.pc.lengthLeft == ReadDword(mem, data) / SampleBytes(dev.pc.useLookup))
  {
    var data := SoundData(ids, header, audio, false, id);
    var size := ReadDword(mem, data);
    AdjustCancels(size, PC_SOUND_HEADER);
  }

  /** PlaySound with its requests carried out: the Sound Blaster requests
      are returned (digitised playback is modelled on its own), the basic
      ones go to PlayBasicSound with the id as a `word`. */
  function PlaySoundOn(ids: SoundIds, opts: Options, pr: Priorities, sbPlaying: bool, dev: Players,
                       header: nat -> dword, audio: nat, mem: Memory, prio: byte, id: int)
    : (r: (Priorities, Players, seq<Request>, seq<Output>))
    requires ValidPc(dev.pc)
    ensures ValidPc(r.1.pc)
    ensures var d := PlaySound(ids, opts, pr, Busy(sbPlaying, IsAdLibPlaying(dev.al), IsPcSpeakerPlaying(dev.pc)), prio, id);
      r.0 == d.0 && (forall q :: q in r.2 ==> q in d.1 && q.PlayVoc?) &&
      (PlayVoc(id) in d.1 ==> r.2 == [PlayVoc(id)])
    ensures r.3 != [] ==> exists q :: q in PlaySound(ids, opts, pr, Busy(sbPlaying, IsAdLibPlaying(dev.al), IsPcSpeakerPlaying(dev.pc)), prio, id).1 && q.PlayBasic?
  {
    var busy := Busy(sbPlaying, IsAdLibPlaying(dev.al), IsPcSpeakerPlaying(dev.pc));
    var d := PlaySound(ids, opts, pr, busy, prio, id);
    var voc := if PlayVoc(id) in d.1 then [PlayVoc(id)] else [];
    if PlayBasic(true, id) in d.1 then
      var played := PlayBasicSound(ids, header, audio, mem, dev, true, Wrap16(id));
      (d.0, played.0, voc, played.1)
    else if PlayBasic(false, id) in d.1 then
      var played := PlayBasicSound(ids, header, audio, mem, dev, false, Wrap16(id));
      (d.0, played.0, voc, played.1)
    else
      (d.0, dev, voc, [])
  }

  /** StopAllSound: both basic players are stopped (the Sound Blaster is
      stopped by its own driver). */
  function StopAllSound(dev: Players): (r: (Players, seq<Output>))
    ensures !IsAdLibPlaying(r.0.al) && !IsPcSpeakerPlaying(r.0.pc)
    ensures r.0.al.data == None && r.0.pc.data == None
    ensures r.1 == [AdLibWrite(AL_FREQ_H, 0), SpeakerOff]
  {
    (Players(StopAl(dev.al).0, StopPc(dev.pc).0), StopAl(dev.al).1 + StopPc(dev.pc).1)
  }

  // ---------------------------------------------------------------------
  // Loading the digitised effects
  // ---------------------------------------------------------------------

  /** A file loaded into the slot of a digitised effect. */
  datatype Load = Load(id: nat, file: seq<char>)

  /** The file of digitised effect `id`: files are numbered from 1. The
      number is passed to MakeFilename as a byte. */
  function SbFileName(id: nat): seq<char>
  {
    "SB_" + Unit1.Decimal(Wrap8(id + 1)) + ".MNI"
  }

  /** The loads of LoadSoundEffects from id `from` on. */
  predicate LoadsFrom(ids: SoundIds, loads: seq<Load>, from: nat, upto: nat)
  {
    (forall k :: 0 <= k < |loads| ==>
      from <= loads[k].id < upto && !IsAdLibOnlySound(ids, Wrap8(loads[k].id)) && loads[k].file == SbFileName(loads[k].id)) &&
    (forall k, m :: 0 <= k < m < |loads| ==> loads[k].id < loads[m].id) &&
    (forall i :: from <= i < upto && !IsAdLibOnlySound(ids, Wrap8(i)) ==> exists k :: 0 <= k < |loads| && loads[k].id == i)
  }

  /** One turn of the loading loop: the file of id i is loaded unless the
      id has no digitised version. */
  function LoadStep(ids: SoundIds, loads: seq<Load>, i: nat): seq<Load>
  {
    if IsAdLibOnlySound(ids, Wrap8(i)) then loads else loads + [Load(i, SbFileName(i))]
  }

  /** A turn extends the loads by exactly id i's file when it has one. */
  lemma LoadStepExtends(ids: SoundIds, loads: seq<Load>, i: nat)
    requires LoadsFrom(ids, loads, 0, i)
    ensures LoadsFrom(ids, LoadStep(ids, loads, i), 0, i + 1)
  {
    var next := LoadStep(ids, loads, i);
    if !IsAdLibOnlySound(ids, Wrap8(i)) {
      assert next[|loads|].id == i;
      forall j | 0 <= j < i + 1 && !IsAdLibOnlySound(ids, Wrap8(j))
        ensures exists k :: 0 <= k < |next| && next[k].id == j
      {
        if j < i {
          var k :| 0 <= k < |loads| && loads[k].id == j;
          assert next[k].id == j;
        }
      }
    }
  }

  /** LoadSoundEffects: sets up the speaker's lookup mode with factor 60
      and loads, in increasing order, the file of every id up to the last
      digitised one that has a digitised version, and no other. */
  method LoadSoundEffects(ids: SoundIds, pc: PcState) returns (pc': PcState, out: seq<Output>, loads: seq<Load>)
    requires ValidPc(pc)
    ensures ValidPc(pc') && pc'.useLookup && pc'.lookup == LookupTable(60) && out == [SpeakerOff]
    ensures LoadsFrom(ids, loads, 0, ids.lastDigitized + 1)
  {
    pc', out := InitPcSpeaker(pc, true, 60);
    loads := [];
    var i: nat := 0;
    while i < ids.lastDigitized + 1
      invariant i <= ids.lastDigitized + 1
      invariant LoadsFrom(ids, loads, 0, i)
    {
      LoadStepExtends(ids, loads, i);
      loads := LoadStep(ids, loads, i);
      i := i + 1;
    }
  }

  /** The ids and file numbers of the intro sounds: ids 42 to 48 are the
      files numbered 3 to 9. */
  const FIRST_INTRO_SOUND: nat := 42
  const INTRO_SOUND_COUNT: nat := 7

  /** LoadIntroSoundEffects: only with a Sound Blaster, the intro files. */
  function LoadIntroSoundEffects(sbPresent: bool): (r: seq<Load>)
    ensures !sbPresent <==> r == []
    ensures sbPresent ==> |r| == INTRO_SOUND_COUNT
    ensures forall k :: 0 <= k < |r| ==> 42 <= r[k].id <= 48 && r[k].file == "INTRO" + Unit1.Decimal(r[k].id - 39) + ".MNI"
  {
    if !sbPresent then [] else IntroLoads()
  }

  /** The seven intro loads in order. */
  function IntroLoads(): (r: seq<Load>)
    ensures |r| == INTRO_SOUND_COUNT
  {
    seq(INTRO_SOUND_COUNT, k requires 0 <= k < INTRO_SOUND_COUNT =>
      Load(FIRST_INTRO_SOUND + k, "INTRO" + Unit1.Decimal(FIRST_INTRO_SOUND + k - 39) + ".MNI"))
  }

  /** The intro sounds have ids no regular effect loader touches (they lie
      above 40, where PlaySound sends everything to the Sound Blaster), and
      each has its own file, numbered from 3. */
  lemma IntroSoundsAreDistinct(k: nat, m: nat)
    requires k < m < INTRO_SOUND_COUNT
    ensures var r := LoadIntroSoundEffects(true);
      r[k].id > 40 && r[k].id != r[m].id && r[k].file != r[m].file && r[0].file == "INTRO3.MNI"
  {
    var r := LoadIntroSoundEffects(true);
    Unit1.DecimalRoundTrip(r[k].id - 39);
    Unit1.DecimalRoundTrip(r[m].id - 39);
    assert Unit1.Decimal(3) == "3";
    var dk := Unit1.Decimal(r[k].id - 39);
    var dm := Unit1.Decimal(r[m].id - 39);
    assert |dk| == 1 && |dm| == 1;
    assert r[k].file[5] == dk[0] && r[m].file[5] == dm[0];
    assert dk == [dk[0]] && dm == [dm[0]];
  }
}
