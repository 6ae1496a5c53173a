/** Sound effect playback on the PC speaker and on the AdLib card. Both
    players keep a pointer into the sound data and a count of samples left;
    a start routine with a priority gate sets them up, and a service
    routine run by the timer interrupt plays one sample per call. What the
    routines send to the hardware is modelled as a list of outputs; the
    port protocol and the busy waits of the register writes are not. */
module BasicSnd {
  import opened Words
  import opened Wrappers

  /** An effect on the sound hardware. */
  datatype Output =
    | SpeakerOff                        // speaker gate cleared
    | SpeakerTone(counter: word)        // PIT channel 2 loaded with counter, speaker enabled
    | AdLibWrite(reg: byte, val: byte)  // one AdLib register write

  // ---------------------------------------------------------------------
  // PC speaker
  // ---------------------------------------------------------------------

  /** The PC speaker player: priority of the sound playing, whether samples
      are bytes looked up in the multiplication table or words stored
      directly, the table, the last sample sent, the data pointer (None
      when idle) and the number of samples left. */
  datatype PcState = PcState(
    priority: sword,
    useLookup: bool,
    lookup: seq<word>,
    lastSample: word,
    data: Option<nat>,
    lengthLeft: slong)

  /** The lookup table is a static array of 256 words. */
  predicate ValidPc(st: PcState)
  {
    |st.lookup| == 256
  }

  /** Size of the PCSound header that precedes the samples. */
  const PC_SOUND_HEADER: nat := 2

  /** Bytes per sample: one table index, or one word. */
  function SampleBytes(useLookup: bool): nat
  {
    if useLookup then 1 else 2
  }

  /** IsPcSpeakerPlaying: some samples are left. */
  predicate IsPcSpeakerPlaying(st: PcState)
  {
    st.lengthLeft != 0
  }

  /** StopPcSpeakerSound: silences the speaker and forgets the sound. */
  function StopPc(st: PcState): (r: (PcState, seq<Output>))
    ensures r.1 == [SpeakerOff]
    ensures !IsPcSpeakerPlaying(r.0) && r.0.data == None
    ensures r.0.priority == 0 && r.0.lastSample == 0
    ensures r.0.useLookup == st.useLookup && r.0.lookup == st.lookup
  {
    (st.(data := None, lengthLeft := 0, priority := 0, lastSample := 0), [SpeakerOff])
  }

  /** The multiplication table the lookup mode uses: entry i is i * factor
      in 16 bits. */
  function LookupTable(factor: word): (t: seq<word>)
    ensures |t| == 256
  {
    seq(256, i requires 0 <= i < 256 => Wrap16(i * factor))
  }

  /** InitPcSpeaker: stops playback, selects the sample format and, for the
      byte format, fills the table by repeated addition. */
  method InitPcSpeaker(st: PcState, useLookup: bool, factor: word) returns (r: PcState, out: seq<Output>)
    requires ValidPc(st)
    ensures ValidPc(r) && out == [SpeakerOff]
    ensures r.useLookup == useLookup && r.data == None && !IsPcSpeakerPlaying(r)
    ensures r.priority == 0 && r.lastSample == 0
    ensures useLookup ==> r.lookup == LookupTable(factor)
    ensures !useLookup ==> r.lookup == st.lookup
  {
    var stopped := StopPc(st);
    r, out := stopped.0.(useLookup := useLookup), stopped.1;
    if useLookup {
      var table := st.lookup;
      var value: word := 0;
      var i := 0;
      while i < 256
        invariant 0 <= i <= 256 && |table| == 256
        invariant value == Wrap16(i * factor)
        invariant forall k :: 0 <= k < i ==> table[k] == Wrap16(k * factor)
      {
        table := table[i := value];
        assert (i + 1) * factor == i * factor + factor;
        Wrap16Add(i * factor, factor);
        value := Wrap16(value + factor);
        i := i + 1;
      }
      r := r.(lookup := table);
    }
  }

  /** The sample stored at address a, in the player's format. */
  function SampleAt(useLookup: bool, lookup: seq<word>, mem: Memory, a: nat): word
    requires |lookup| == 256
  {
    if useLookup then lookup[mem(a)] else ReadWord(mem, a)
  }

  /** What sending a sample does: nothing when it equals the last one,
      otherwise a tone, or silence for a zero sample. */
  function SpeakerChange(sample: word, last: word): seq<Output>
  {
    if sample == last then [] else if sample != 0 then [SpeakerTone(sample)] else [SpeakerOff]
  }

  /** PcSpeakerService: reads the next sample, sends it to the speaker if it
      differs from the last one, and stops when the count reaches zero. The
      count is a `long` and is decremented with wrap-around. */
  function PcService(st: PcState, mem: Memory): (r: (PcState, seq<Output>))
    requires ValidPc(st)
    ensures r.0.useLookup == st.useLookup && r.0.lookup == st.lookup
    ensures st.data == None ==> r == (st, [])
  {
    match st.data
    case None => (st, [])
    case Some(a) =>
      var sample := SampleAt(st.useLookup, st.lookup, mem, a);
      var out := SpeakerChange(sample, st.lastSample);
      var left := AddLong(st.lengthLeft, -1);
      if left == 0 then
        var stopped := StopPc(st);
        (stopped.0, out + stopped.1)
      else
        (st.(data := Some(a + SampleBytes(st.useLookup)), lastSample := sample, lengthLeft := left), out)
  }

  /** PlayPcSpeakerSound: a sound whose priority (the signed word at its
      start) is at least that of the sound playing replaces it. The byte
      count passed in includes the header; in the word format it is halved
      with C's truncating division. */
  function PlayPc(st: PcState, mem: Memory, sound: nat, length: slong): (r: (PcState, seq<Output>))
    ensures r.0.useLookup == st.useLookup && r.0.lookup == st.lookup
    ensures AsSigned(ReadWord(mem, sound)) < st.priority ==> r == (st, [])
    ensures AsSigned(ReadWord(mem, sound)) >= st.priority ==>
      r.1 == [SpeakerOff] && r.0.priority == AsSigned(ReadWord(mem, sound)) &&
      r.0.data == Some(sound + PC_SOUND_HEADER) && r.0.lastSample == 0 &&
      (length >= PC_SOUND_HEADER ==>
        r.0.lengthLeft == (length - PC_SOUND_HEADER) / SampleBytes(st.useLookup))
  {
    var priority := AsSigned(ReadWord(mem, sound));
    if priority >= st.priority then
      var stopped := StopPc(st);
      var bytes := AddLong(length, -(PC_SOUND_HEADER as int));
      var left: slong := if st.useLookup then bytes else Halve(bytes);
      (stopped.0.(priority := priority, data := Some(sound + PC_SOUND_HEADER), lengthLeft := left),
       stopped.1)
    else
      (st, [])
  }

  /** `x /= 2` on a long. */
  function Halve(x: slong): (r: slong)
    ensures r == DivTrunc(x, 2)
  {
    DivTrunc(x, 2)
  }

  /** k service calls in a row, with everything they output. */
  function PcServices(st: PcState, mem: Memory, k: nat): (r: (PcState, seq<Output>))
    requires ValidPc(st)
    ensures ValidPc(r.0)
    decreases k
  {
    if k == 0 then (st, [])
    else
      var first := PcService(st, mem);
      var rest := PcServices(first.0, mem, k - 1);
      (rest.0, first.1 + rest.1)
  }

  /** The k samples stored from address a on. */
  function SampleRun(useLookup: bool, lookup: seq<word>, mem: Memory, a: nat, k: nat): (s: seq<word>)
    requires |lookup| == 256
    ensures |s| == k
    decreases k
  {
    if k == 0 then []
    else [SampleAt(useLookup, lookup, mem, a)] + SampleRun(useLookup, lookup, mem, a + SampleBytes(useLookup), k - 1)
  }

  /** What the speaker does over a run of samples, starting from `last`. */
  function SpeakerChanges(samples: seq<word>, last: word): seq<Output>
  {
    if samples == [] then [] else SpeakerChange(samples[0], last) + SpeakerChanges(samples[1..], samples[0])
  }

  /** The bytes k samples take up. */
  function Stride(useLookup: bool, k: nat): (n: nat)
    ensures n == k * SampleBytes(useLookup)
  {
    if useLookup then k else 2 * k
  }

  /** The player k samples into a sound it will not yet have finished. */
  function PcAdvanced(st: PcState, mem: Memory, a: nat, k: nat): PcState
    requires ValidPc(st) && k < st.lengthLeft
  {
    st.(data := Some(a + Stride(st.useLookup, k)),
        lastSample := if k == 0 then st.lastSample else SampleAt(st.useLookup, st.lookup, mem, a + Stride(st.useLookup, k - 1)),
        lengthLeft := st.lengthLeft - k)
  }

  /** The player one sample further into a sound with more to come. */
  function PcNext(st: PcState, mem: Memory, a: nat): PcState
    requires ValidPc(st) && st.lengthLeft >= 2
  {
    st.(data := Some(a + SampleBytes(st.useLookup)),
        lastSample := SampleAt(st.useLookup, st.lookup, mem, a),
        lengthLeft := st.lengthLeft - 1)
  }

  /** k >= 1 service calls with more than one sample left: the first plays
      a sample and moves on, the rest continue from there. */
  lemma PcServicesCons(st: PcState, mem: Memory, a: nat, k: nat)
    requires ValidPc(st) && st.data == Some(a) && st.lengthLeft >= 2 && k >= 1
    ensures PcService(st, mem).0 == PcNext(st, mem, a)
    ensures PcServices(st, mem, k) ==
      (PcServices(PcNext(st, mem, a), mem, k - 1).0,
       SpeakerChange(SampleAt(st.useLookup, st.lookup, mem, a), st.lastSample) +
       PcServices(PcNext(st, mem, a), mem, k - 1).1)
  {
  }

  /** The call that plays the last sample also stops the player. */
  lemma PcServicesLast(st: PcState, mem: Memory, a: nat)
    requires ValidPc(st) && st.data == Some(a) && st.lengthLeft == 1
    ensures PcServices(st, mem, 1) ==
      (StopPc(st).0, SpeakerChange(SampleAt(st.useLookup, st.lookup, mem, a), st.lastSample) + [SpeakerOff])
  {
    assert PcService(st, mem) ==
      (StopPc(st).0, SpeakerChange(SampleAt(st.useLookup, st.lookup, mem, a), st.lastSample) + [SpeakerOff]);
    var out := PcService(st, mem).1;
    assert PcServices(StopPc(st).0, mem, 0) == (StopPc(st).0, []);
    assert PcServices(st, mem, 1) == (StopPc(st).0, out + []);
    assert out + [] == out;
  }

  /** The outputs of k service calls from a player with samples left. */
  predicate PcPlays(st: PcState, mem: Memory, k: nat)
    requires ValidPc(st) && st.data.Some?
  {
    PcServices(st, mem, k).1 ==
      SpeakerChanges(SampleRun(st.useLookup, st.lookup, mem, st.data.value, k), st.lastSample) +
      (if k == st.lengthLeft then [SpeakerOff] else [])
  }

  /** Where the player is after k service calls. */
  predicate PcReaches(st: PcState, mem: Memory, k: nat)
    requires ValidPc(st) && st.data.Some? && k <= st.lengthLeft
  {
    (k < st.lengthLeft ==> PcServices(st, mem, k).0 == PcAdvanced(st, mem, st.data.value, k)) &&
    (k == st.lengthLeft ==> PcServices(st, mem, k).0 == StopPc(st).0)
  }

  /** The inductive step of PcServicesState. */
  lemma PcReachesStep(st: PcState, mem: Memory, a: nat, k: nat)
    requires ValidPc(st) && st.data == Some(a) && 2 <= st.lengthLeft && 1 <= k <= st.lengthLeft
    requires PcReaches(PcNext(st, mem, a), mem, k - 1)
    ensures PcReaches(st, mem, k)
  {
    PcServicesCons(st, mem, a, k);
  }

  /** With n samples left, the player is k samples further on after k < n
      service calls, and stopped after the n-th. */
  lemma {:induction false} PcServicesState(st: PcState, mem: Memory, k: nat)
    requires ValidPc(st) && st.data.Some? && 1 <= st.lengthLeft && k <= st.lengthLeft
    ensures PcReaches(st, mem, k)
    decreases k
  {
    if k > 0 {
      var a := st.data.value;
      if st.lengthLeft == 1 {
        PcServicesLast(st, mem, a);
      } else {
        PcServicesState(PcNext(st, mem, a), mem, k - 1);
        PcReachesStep(st, mem, a, k);
      }
    }
  }

  /** The speaker's response to a run of samples, split after the first. */
  lemma SpeakerChangesCons(useLookup: bool, lookup: seq<word>, mem: Memory, a: nat, k: nat, last: word)
    requires |lookup| == 256 && k >= 1
    ensures var sample := SampleAt(useLookup, lookup, mem, a);
      SpeakerChanges(SampleRun(useLookup, lookup, mem, a, k), last) ==
      SpeakerChange(sample, last) + SpeakerChanges(SampleRun(useLookup, lookup, mem, a + SampleBytes(useLookup), k - 1), sample)
  {
    var samples := SampleRun(useLookup, lookup, mem, a, k);
    assert samples[1..] == SampleRun(useLookup, lookup, mem, a + SampleBytes(useLookup), k - 1);
  }

  /** The inductive step of PcServicesPlay. */
  lemma PcPlaysStep(st: PcState, mem: Memory, a: nat, k: nat)
    requires ValidPc(st) && st.data == Some(a) && 2 <= st.lengthLeft && 1 <= k <= st.lengthLeft
    requires PcPlays(PcNext(st, mem, a), mem, k - 1)
    ensures PcPlays(st, mem, k)
  {
    var sample := SampleAt(st.useLookup, st.lookup, mem, a);
    var change := SpeakerChange(sample, st.lastSample);
    var rest := SampleRun(st.useLookup, st.lookup, mem, a + SampleBytes(st.useLookup), k - 1);
    var next := PcNext(st, mem, a);
    assert next.data.value == a + SampleBytes(st.useLookup) && next.lastSample == sample;
    assert next.useLookup == st.useLookup && next.lookup == st.lookup;
    assert (k - 1 == next.lengthLeft) == (k == st.lengthLeft);
    SpeakerChangesCons(st.useLookup, st.lookup, mem, a, k, st.lastSample);
    PcServicesCons(st, mem, a, k);
    var after := PcServices(next, mem, k - 1).1;
    var tail: seq<Output> := if k == st.lengthLeft then [SpeakerOff] else [];
    JoinOutputs(PcServices(st, mem, k).1, change, after,
      SpeakerChanges(SampleRun(st.useLookup, st.lookup, mem, a, k), st.lastSample), SpeakerChanges(rest, sample), tail);
  }

  /** The output of a first call followed by the rest, regrouped. */
  lemma JoinOutputs(all: seq<Output>, first: seq<Output>, after: seq<Output>,
                    changes: seq<Output>, restChanges: seq<Output>, tail: seq<Output>)
    requires all == first + after && after == restChanges + tail && changes == first + restChanges
    ensures all == changes + tail
  {
  }

  /** With n samples left, the next k <= n service calls play the next k
      stored samples in order, touching the speaker only when the sample
      changes, and the n-th call also silences it. */
  lemma {:induction false} PcServicesPlay(st: PcState, mem: Memory, k: nat)
    requires ValidPc(st) && st.data.Some? && 1 <= st.lengthLeft && k <= st.lengthLeft
    ensures PcPlays(st, mem, k)
    decreases k
  {
    if k > 0 {
      var a := st.data.value;
      if st.lengthLeft == 1 {
        PcServicesLast(st, mem, a);
        assert SampleRun(st.useLookup, st.lookup, mem, a, k) == [SampleAt(st.useLookup, st.lookup, mem, a)];
      } else {
        PcServicesPlay(PcNext(st, mem, a), mem, k - 1);
        PcPlaysStep(st, mem, a, k);
      }
    }
  }

  /** An accepted sound of n >= 1 samples is played sample by sample from
      the byte after its header: the speaker follows the sample changes,
      starting from silence, and the n-th service call stops the player and
      silences the speaker. */
  lemma PcSoundPlaysThrough(st: PcState, mem: Memory, sound: nat, length: slong)
    requires ValidPc(st) && AsSigned(ReadWord(mem, sound)) >= st.priority
    requires length >= PC_SOUND_HEADER + SampleBytes(st.useLookup)
    ensures var started := PlayPc(st, mem, sound, length).0;
      var n := (length - PC_SOUND_HEADER) / SampleBytes(st.useLookup);
      n >= 1 && started.lengthLeft == n && IsPcSpeakerPlaying(started) &&
      PcServices(started, mem, n).1 ==
        SpeakerChanges(SampleRun(st.useLookup, st.lookup, mem, sound + PC_SOUND_HEADER, n), 0) + [SpeakerOff] &&
      !IsPcSpeakerPlaying(PcServices(started, mem, n).0) &&
      PcServices(started, mem, n).0.data == None
  {
    var started := PlayPc(st, mem, sound, length).0;
    PcServicesPlay(started, mem, started.lengthLeft as nat);
    PcServicesState(started, mem, started.lengthLeft as nat);
  }

  /** A sound with no samples after its header sets the count to zero but
      leaves the data pointer set: the player reports itself idle, yet the
      service keeps reading, and its first call wraps the count to -1
      instead of stopping. */
  lemma EmptyPcSoundRunsOn(st: PcState, mem: Memory, sound: nat)
    requires ValidPc(st) && AsSigned(ReadWord(mem, sound)) >= st.priority
    ensures var started := PlayPc(st, mem, sound, PC_SOUND_HEADER as slong).0;
      !IsPcSpeakerPlaying(started) && started.data.Some? &&
      PcService(started, mem).0.lengthLeft == -1 && PcService(started, mem).0.data.Some?
  {
  }

  // ---------------------------------------------------------------------
  // AdLib
  // ---------------------------------------------------------------------

  /** The instrument settings at the start of an AdLib sound: modulator and
      carrier register values and the connection byte. */
  datatype Instrument = Instrument(
    mChar: byte, cChar: byte, mScale: byte, cScale: byte,
    mAttack: byte, cAttack: byte, mSus: byte, cSus: byte,
    mWave: byte, cWave: byte, nConn: byte)

  /** The AdLibSound header: priority word, 16-byte instrument (11 used
      bytes and 5 spare), block byte; the samples follow it. */
  const AL_INSTRUMENT_OFFSET: nat := 2
  const AL_BLOCK_OFFSET: nat := 18
  const AL_SOUND_HEADER: nat := 19

  /** AdLib register banks, channel 0 of each. */
  const AL_CHAR: byte := 0x20
  const AL_SCALE: byte := 0x40
  const AL_ATTACK: byte := 0x60
  const AL_SUSTAIN: byte := 0x80
  const AL_WAVE: byte := 0xE0
  const AL_FREQ_L: byte := 0xA0
  const AL_FREQ_H: byte := 0xB0
  const AL_FEED_CON: byte := 0xC0

  function ReadInstrument(mem: Memory, a: nat): Instrument
  {
    Instrument(mem(a), mem(a + 1), mem(a + 2), mem(a + 3), mem(a + 4), mem(a + 5),
               mem(a + 6), mem(a + 7), mem(a + 8), mem(a + 9), mem(a + 10))
  }

  /** The register set-up PlayAdLibSound performs: modulator operator of
      channel 0, then its carrier operator (3 registers further on), then
      frequency modulation with no feedback. */
  function InstrumentWrites(inst: Instrument): seq<Output>
  {
    [AdLibWrite(AL_CHAR, inst.mChar), AdLibWrite(AL_SCALE, inst.mScale),
     AdLibWrite(AL_ATTACK, inst.mAttack), AdLibWrite(AL_SUSTAIN, inst.mSus),
     AdLibWrite(AL_WAVE, inst.mWave),
     AdLibWrite(AL_CHAR + 3, inst.cChar), AdLibWrite(AL_SCALE + 3, inst.cScale),
     AdLibWrite(AL_ATTACK + 3, inst.cAttack), AdLibWrite(AL_SUSTAIN + 3, inst.cSus),
     AdLibWrite(AL_WAVE + 3, inst.cWave),
     AdLibWrite(AL_FEED_CON, 0)]
  }

  /** Every output is an AdLib write and no register is written twice, so
      each written register ends up holding the one value written to it. */
  predicate WritesEachOnce(outs: seq<Output>)
  {
    (forall i :: 0 <= i < |outs| ==> outs[i].AdLibWrite?) &&
    (forall i, j :: 0 <= i < j < |outs| ==> outs[i].reg != outs[j].reg)
  }

  /** The registers of the first AdLib channel, which sound effects own;
      music uses the other channels. */
  predicate ChannelZeroRegister(reg: byte)
  {
    reg in {AL_CHAR, AL_SCALE, AL_ATTACK, AL_SUSTAIN, AL_WAVE,
            AL_CHAR + 3, AL_SCALE + 3, AL_ATTACK + 3, AL_SUSTAIN + 3, AL_WAVE + 3,
            AL_FREQ_L, AL_FREQ_H, AL_FEED_CON}
  }

  /** The set-up writes each register of channel 0 at most once, and no
      register of another channel, so music on the other channels is not
      disturbed. */
  lemma InstrumentOwnsChannelZero(inst: Instrument)
    ensures WritesEachOnce(InstrumentWrites(inst))
    ensures forall o :: o in InstrumentWrites(inst) ==> ChannelZeroRegister(o.reg)
  {
    var w := InstrumentWrites(inst);
    var regs := [0x20, 0x40, 0x60, 0x80, 0xE0, 0x23, 0x43, 0x63, 0x83, 0xE3, 0xC0];
    assert |w| == 11 && forall i :: 0 <= i < 11 ==> w[i].AdLibWrite? && w[i].reg == regs[i];
  }

  /** Each operator register of channel 0 receives the instrument's value
      for it, and the connection register is cleared. */
  lemma InstrumentSetUp(inst: Instrument)
    ensures AdLibWrite(0x20, inst.mChar) in InstrumentWrites(inst)
    ensures AdLibWrite(0x23, inst.cChar) in InstrumentWrites(inst)
    ensures AdLibWrite(0x40, inst.mScale) in InstrumentWrites(inst)
    ensures AdLibWrite(0x43, inst.cScale) in InstrumentWrites(inst)
    ensures AdLibWrite(0x60, inst.mAttack) in InstrumentWrites(inst)
    ensures AdLibWrite(0x63, inst.cAttack) in InstrumentWrites(inst)
    ensures AdLibWrite(0x80, inst.mSus) in InstrumentWrites(inst)
    ensures AdLibWrite(0x83, inst.cSus) in InstrumentWrites(inst)
    ensures AdLibWrite(0xE0, inst.mWave) in InstrumentWrites(inst)
    ensures AdLibWrite(0xE3, inst.cWave) in InstrumentWrites(inst)
    ensures AdLibWrite(0xC0, 0) in InstrumentWrites(inst)
  {
  }

  /** The AdLib player: priority, data pointer, the value written to the
      frequency-high register for a note, and the samples left. */
  datatype AlState = AlState(priority: sword, data: Option<nat>, block: byte, lengthLeft: slong)

  /** IsAdLibPlaying: some samples are left. */
  predicate IsAdLibPlaying(st: AlState)
  {
    st.lengthLeft != 0
  }

  /** The frequency-high value for a sound's block byte: the octave in bits
      2-4 and the key-on bit 5, so writing it starts a note. */
  function BlockValue(block: byte): (r: byte)
    ensures Field(r, 2, 3) == block % 8 && HasBit(r, 5)
    ensures r < 0x40 && r % 4 == 0
  {
    (block % 8) * 4 + 0x20
  }

  /** StopAdLibSound: key-off on channel 0, and the sound is forgotten. */
  function StopAl(st: AlState): (r: (AlState, seq<Output>))
    ensures r.1 == [AdLibWrite(AL_FREQ_H, 0)]
    ensures !IsAdLibPlaying(r.0) && r.0.data == None && r.0.priority == 0 && r.0.block == st.block
  {
    (st.(data := None, lengthLeft := 0, priority := 0), [AdLibWrite(AL_FREQ_H, 0)])
  }

  /** What one AdLib sample does: a non-zero byte is the low frequency of a
      note keyed on with the block value, zero keys the note off. */
  function NoteWrites(sample: byte, block: byte): seq<Output>
  {
    if sample != 0 then [AdLibWrite(AL_FREQ_L, sample), AdLibWrite(AL_FREQ_H, block)]
    else [AdLibWrite(AL_FREQ_H, 0)]
  }

  /** AdLibSoundService: plays the next sample byte and stops when the count
      reaches zero (with the same wrap-around as the speaker's count). */
  function AlService(st: AlState, mem: Memory): (r: (AlState, seq<Output>))
    ensures r.0.block == st.block
    ensures st.data == None ==> r == (st, [])
  {
    match st.data
    case None => (st, [])
    case Some(a) =>
      var out := NoteWrites(mem(a), st.block);
      var left := AddLong(st.lengthLeft, -1);
      if left == 0 then
        var stopped := StopAl(st);
        (stopped.0, out + stopped.1)
      else
        (st.(data := Some(a + 1), lengthLeft := left), out)
  }

  /** PlayAdLibSound: the priority gate of the speaker player; an accepted
      sound keys off the note playing, loads its instrument into channel 0
      and leaves its samples to the service. */
  function PlayAl(st: AlState, mem: Memory, sound: nat, size: slong): (r: (AlState, seq<Output>))
    ensures AsSigned(ReadWord(mem, sound)) < st.priority ==> r == (st, [])
    ensures AsSigned(ReadWord(mem, sound)) >= st.priority ==>
      r.1 == [AdLibWrite(AL_FREQ_H, 0)] + InstrumentWrites(ReadInstrument(mem, sound + AL_INSTRUMENT_OFFSET)) &&
      r.0.priority == AsSigned(ReadWord(mem, sound)) && r.0.data == Some(sound + AL_SOUND_HEADER) &&
      Field(r.0.block, 2, 3) == mem(sound + AL_BLOCK_OFFSET) % 8 && HasBit(r.0.block, 5) &&
      (size >= AL_SOUND_HEADER ==> r.0.lengthLeft == size - AL_SOUND_HEADER)
  {
    var priority := AsSigned(ReadWord(mem, sound));
    if priority >= st.priority then
      var stopped := StopAl(st);
      (AlState(priority, Some(sound + AL_SOUND_HEADER), BlockValue(mem(sound + AL_BLOCK_OFFSET)),
               AddLong(size, -(AL_SOUND_HEADER as int))),
       stopped.1 + InstrumentWrites(ReadInstrument(mem, sound + AL_INSTRUMENT_OFFSET)))
    else
      (st, [])
  }

  /** k AdLib service calls in a row. */
  function AlServices(st: AlState, mem: Memory, k: nat): (r: (AlState, seq<Output>))
    decreases k
  {
    if k == 0 then (st, [])
    else
      var first := AlService(st, mem);
      var rest := AlServices(first.0, mem, k - 1);
      (rest.0, first.1 + rest.1)
  }

  /** The notes of the k sample bytes from address a on. */
  function Notes(mem: Memory, a: nat, k: nat, block: byte): seq<Output>
    decreases k
  {
    if k == 0 then [] else NoteWrites(mem(a), block) + Notes(mem, a + 1, k - 1, block)
  }

  lemma AlStepContinues(st: AlState, mem: Memory, a: nat)
    requires st.data == Some(a) && st.lengthLeft >= 2
    ensures AlService(st, mem) ==
      (st.(data := Some(a + 1), lengthLeft := st.lengthLeft - 1), NoteWrites(mem(a), st.block))
  {
  }

  lemma AlStepStops(st: AlState, mem: Memory, a: nat)
    requires st.data == Some(a) && st.lengthLeft == 1
    ensures AlService(st, mem) == (StopAl(st).0, NoteWrites(mem(a), st.block) + [AdLibWrite(AL_FREQ_H, 0)])
  {
  }

  /** The outputs of k service calls and where they leave the player. */
  predicate AlPlays(st: AlState, mem: Memory, k: nat)
    requires st.data.Some?
  {
    AlServices(st, mem, k).1 ==
      Notes(mem, st.data.value, k, st.block) + (if k == st.lengthLeft then [AdLibWrite(AL_FREQ_H, 0)] else []) &&
    (k < st.lengthLeft ==>
      AlServices(st, mem, k).0 == st.(data := Some(st.data.value + k), lengthLeft := st.lengthLeft - k)) &&
    (k == st.lengthLeft ==> AlServices(st, mem, k).0 == StopAl(st).0)
  }

  /** The inductive step of AlServicesPlay. */
  lemma AlPlaysStep(st: AlState, mem: Memory, k: nat)
    requires st.data.Some? && 2 <= st.lengthLeft && 1 <= k <= st.lengthLeft
    requires var s1 := AlService(st, mem).0; s1.data.Some? && AlPlays(s1, mem, k - 1)
    ensures AlPlays(st, mem, k)
  {
    var a := st.data.value;
    var note := NoteWrites(mem(a), st.block);
    AlStepContinues(st, mem, a);
    var first := AlService(st, mem);
    var after := AlServices(first.0, mem, k - 1);
    assert AlServices(st, mem, k) == (after.0, first.1 + after.1);
    assert Notes(mem, a, k, st.block) == note + Notes(mem, a + 1, k - 1, st.block);
    var tail: seq<Output> := if k == st.lengthLeft then [AdLibWrite(AL_FREQ_H, 0)] else [];
    assert after.1 == Notes(mem, a + 1, k - 1, st.block) + tail;
    assert first.1 + after.1 == note + (Notes(mem, a + 1, k - 1, st.block) + tail);
  }

  /** With n samples left, k <= n service calls play the next k bytes as
      notes, and the n-th call keys off and stops the player. */
  lemma {:induction false} AlServicesPlay(st: AlState, mem: Memory, k: nat)
    requires st.data.Some? && 1 <= st.lengthLeft && k <= st.lengthLeft
    ensures AlPlays(st, mem, k)
    decreases k
  {
    if k > 0 {
      var a := st.data.value;
      if st.lengthLeft == 1 {
        AlStepStops(st, mem, a);
        var first := AlService(st, mem);
        assert AlServices(st, mem, k) == (AlServices(first.0, mem, 0).0, first.1 + AlServices(first.0, mem, 0).1);
        assert Notes(mem, a, k, st.block) == NoteWrites(mem(a), st.block);
      } else {
        AlStepContinues(st, mem, a);
        AlServicesPlay(AlService(st, mem).0, mem, k - 1);
        AlPlaysStep(st, mem, k);
      }
    }
  }

  /** An accepted AdLib sound of n >= 1 samples plays its n bytes as notes
      in its own octave and then keys off. */
  lemma AlSoundPlaysThrough(st: AlState, mem: Memory, sound: nat, size: slong)
    requires AsSigned(ReadWord(mem, sound)) >= st.priority && size > AL_SOUND_HEADER
    ensures var started := PlayAl(st, mem, sound, size).0;
      var n := size - AL_SOUND_HEADER;
      IsAdLibPlaying(started) &&
      AlServices(started, mem, n).1 ==
        Notes(mem, sound + AL_SOUND_HEADER, n, BlockValue(mem(sound + AL_BLOCK_OFFSET))) + [AdLibWrite(AL_FREQ_H, 0)] &&
      !IsAdLibPlaying(AlServices(started, mem, n).0) && AlServices(started, mem, n).0.data == None
  {
    var started := PlayAl(st, mem, sound, size).0;
    AlServicesPlay(started, mem, started.lengthLeft as nat);
  }
}
