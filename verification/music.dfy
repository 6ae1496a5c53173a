/** AdLib music playback. A song is a stream of four-byte events, each an
    AdLib register write followed by the delay in timer ticks until the
    next event; the music service, run from the timer interrupt, writes
    every event that is due, counts the tick, and loops back to the start
    of the song when the data runs out. */
module Music {
  import opened Words
  import opened BasicSnd

  /** Where the song is: the address of the next event, the bytes left
      (an `int`) and the tick at which the next event is due (a `long`). */
  datatype Cursor = Cursor(data: nat, dataLeft: sword, next: slong)

  /** The player: whether a song plays, where it starts, its size (an
      `int`), the cursor, the ticks elapsed (a `long`), and the flag that
      ends the Apogee logo movie. */
  datatype MusicState = MusicState(
    playing: bool,
    start: nat,
    size: sword,
    at: Cursor,
    ticks: slong,
    hackStopApogeeLogo: bool)

  /** `-= 4` on an `int`, with 16-bit wrap-around. */
  function SubFour(x: sword): (r: sword)
    ensures r == AsSigned(Wrap16(x - 4))
  {
    if x < -0x8000 + 4 then x - 4 + 0x1_0000 else x - 4
  }

  /** The unsigned view of a count of bytes left. */
  function Unsigned(x: sword): (r: word)
    ensures r == Wrap16(x)
  {
    if x < 0 then x + 0x1_0000 else x
  }

  /** The most events one service call can consume: the loop ends when the
      16-bit count of bytes left reaches zero, which a count that is a
      multiple of 4 does after a quarter of its unsigned value in events. */
  function EventBudget(c: Cursor): nat
  {
    Unsigned(c.dataLeft) / 4 + 1
  }

  /** The register write of the event at address a: the low byte of its
      first word is the register, the high byte the value. */
  function EventWrite(mem: Memory, a: nat): Output
  {
    AdLibWrite(LowByte(ReadWord(mem, a)), HighByte(ReadWord(mem, a)))
  }

  /** The signed delay after the event at address a. */
  function Delay(mem: Memory, a: nat): sword
  {
    AsSigned(ReadWord(mem, a + 2))
  }

  /** The register writes of n consecutive events from address a. */
  function EventWrites(mem: Memory, a: nat, n: nat): (w: seq<Output>)
    ensures |w| == n
    decreases n
  {
    if n == 0 then [] else [EventWrite(mem, a)] + EventWrites(mem, a + 4, n - 1)
  }

  /** Some event is due: data is left and its time has come. */
  predicate EventDue(c: Cursor, ticks: slong)
  {
    c.dataLeft != 0 && c.next <= ticks
  }

  /** One event: it is written out, the next one is scheduled `delay`
      ticks after the current tick, and 4 bytes are taken off the count. */
  function EventStep(mem: Memory, c: Cursor, ticks: slong): Cursor
  {
    Cursor(c.data + 4, SubFour(c.dataLeft), AddLong(ticks, Delay(mem, c.data)))
  }

  /** The event loop of MusicService, allowed at most `fuel` events. */
  function PlayDueEvents(mem: Memory, c: Cursor, ticks: slong, fuel: nat): (r: (Cursor, seq<Output>))
    ensures |r.1| <= fuel
    ensures r.0.data == c.data + 4 * |r.1|
    ensures |r.1| < fuel ==> !EventDue(r.0, ticks)
    ensures !EventDue(c, ticks) ==> |r.1| == 0
    ensures |r.1| == 0 ==> r.0 == c
    decreases fuel
  {
    if fuel == 0 || !EventDue(c, ticks) then (c, [])
    else
      var rest := PlayDueEvents(mem, EventStep(mem, c, ticks), ticks, fuel - 1);
      (rest.0, [EventWrite(mem, c.data)] + rest.1)
  }

  /** The loop writes out the events it consumes, in the order they are
      stored. */
  lemma {:induction false} DueEventsWritten(mem: Memory, c: Cursor, ticks: slong, fuel: nat)
    ensures var r := PlayDueEvents(mem, c, ticks, fuel); r.1 == EventWrites(mem, c.data, |r.1|)
    decreases fuel
  {
    if fuel > 0 && EventDue(c, ticks) {
      DueEventsWritten(mem, EventStep(mem, c, ticks), ticks, fuel - 1);
    }
  }

  /** The rest of MusicService after the event loop: the tick is counted,
      the logo flag is raised when at most 40 bytes are left, and a song
      that has run out starts over. */
  function AfterEvents(st: MusicState): (r: MusicState)
    ensures r.hackStopApogeeLogo <==> st.at.dataLeft <= 40
    ensures st.at.dataLeft == 0 ==>
      r == st.(at := Cursor(st.start, st.size, 0), ticks := 0, hackStopApogeeLogo := true)
    ensures st.at.dataLeft != 0 ==>
      r == st.(ticks := AddLong(st.ticks, 1), hackStopApogeeLogo := st.at.dataLeft <= 40)
  {
    var counted := st.(ticks := AddLong(st.ticks, 1), hackStopApogeeLogo := !(st.at.dataLeft > 40));
    if counted.at.dataLeft == 0 then
      counted.(at := Cursor(counted.start, counted.size, 0), ticks := 0)
    else
      counted
  }

  /** MusicService: nothing while no song plays. */
  function MusicService(mem: Memory, st: MusicState): (r: (MusicState, seq<Output>))
    ensures !st.playing ==> r == (st, [])
    ensures r.0.playing == st.playing && r.0.start == st.start && r.0.size == st.size
  {
    if !st.playing then (st, [])
    else
      var events := PlayDueEvents(mem, st.at, st.ticks, EventBudget(st.at));
      (AfterEvents(st.(at := events.0)), events.1)
  }

  /** Taking 4 off a count keeps its residue modulo 4 and, for a non-zero
      multiple of 4, lowers its unsigned view by 4. */
  lemma StepResidue(x: sword)
    ensures Unsigned(SubFour(x)) % 4 == Unsigned(x) % 4
    ensures Unsigned(x) % 4 == 0 && x != 0 ==> Unsigned(SubFour(x)) == Unsigned(x) - 4
  {
  }

  /** When the count of bytes left is a multiple of 4 the loop bound is
      never what ends the loop: it stops because the data ran out or the
      next event is not yet due. */
  lemma {:induction false} EventLoopEnds(mem: Memory, c: Cursor, ticks: slong, fuel: nat)
    requires Unsigned(c.dataLeft) % 4 == 0 && Unsigned(c.dataLeft) / 4 < fuel
    ensures !EventDue(PlayDueEvents(mem, c, ticks, fuel).0, ticks)
    decreases fuel
  {
    if EventDue(c, ticks) {
      StepResidue(c.dataLeft);
      EventLoopEnds(mem, EventStep(mem, c, ticks), ticks, fuel - 1);
    }
  }

  /** A service call of a playing song whose byte count is a multiple of 4
      leaves no event due, so every due event has been written. */
  lemma ServicePlaysAllDue(mem: Memory, st: MusicState)
    requires st.playing && Unsigned(st.at.dataLeft) % 4 == 0
    ensures var events := PlayDueEvents(mem, st.at, st.ticks, EventBudget(st.at));
      !EventDue(events.0, st.ticks) && MusicService(mem, st) == (AfterEvents(st.(at := events.0)), events.1)
  {
    EventLoopEnds(mem, st.at, st.ticks, EventBudget(st.at));
  }

  /** The delay after the i-th event from address a. */
  function EventDelay(mem: Memory, a: nat, i: nat): sword
  {
    Delay(mem, a + 4 * i)
  }

  /** One event more in front moves every event one place back. */
  lemma EventDelayShift(mem: Memory, a: nat, i: nat)
    ensures EventDelay(mem, a, i + 1) == EventDelay(mem, a + 4, i)
  {
    assert a + 4 * (i + 1) == (a + 4) + 4 * i;
  }

  /** One event of the loop: the next cursor and what the rest adds. */
  lemma DueEventsCons(mem: Memory, c: Cursor, ticks: slong, fuel: nat)
    requires fuel > 0 && EventDue(c, ticks)
    ensures EventStep(mem, c, ticks).data == c.data + 4
    ensures 0 <= ticks < 0x7FFF_8000 ==> EventStep(mem, c, ticks).next == ticks + EventDelay(mem, c.data, 0)
    ensures PlayDueEvents(mem, c, ticks, fuel).0 == PlayDueEvents(mem, EventStep(mem, c, ticks), ticks, fuel - 1).0
    ensures |PlayDueEvents(mem, c, ticks, fuel).1| == |PlayDueEvents(mem, EventStep(mem, c, ticks), ticks, fuel - 1).1| + 1
  {
  }

  /** Every event but the last that the loop writes from cursor c has a
      delay of zero or less. */
  predicate NoDelayBefore(mem: Memory, c: Cursor, ticks: slong, fuel: nat)
  {
    var n := |PlayDueEvents(mem, c, ticks, fuel).1|;
    forall i :: 0 <= i < n - 1 ==> EventDelay(mem, c.data, i) <= 0
  }

  /** The loop from c stops at a cursor whose next event is due the delay
      of the last event written after the current tick. */
  predicate ScheduledByLast(mem: Memory, c: Cursor, ticks: slong, fuel: nat)
  {
    var r := PlayDueEvents(mem, c, ticks, fuel);
    |r.1| >= 1 ==> r.0.next == ticks + EventDelay(mem, c.data, |r.1| - 1)
  }

  /** An event written while the one after it is still due has a delay of
      zero or less. */
  lemma FirstDelay(mem: Memory, c: Cursor, ticks: slong)
    requires 0 <= ticks < 0x7FFF_8000
    requires EventDue(EventStep(mem, c, ticks), ticks)
    ensures EventDelay(mem, c.data, 0) <= 0
  {
  }

  /** Delays of zero or less from the second event on, and for the first,
      give delays of zero or less from the first event on. */
  lemma DelaysShift(mem: Memory, a: nat, b: nat, m: nat)
    requires b == a + 4
    requires forall i :: 0 <= i < m ==> EventDelay(mem, b, i) <= 0
    requires EventDelay(mem, a, 0) <= 0
    ensures forall i :: 0 <= i < m + 1 ==> EventDelay(mem, a, i) <= 0
  {
    forall i | 1 <= i < m + 1
      ensures EventDelay(mem, a, i) <= 0
    {
      EventDelayShift(mem, a, i - 1);
    }
  }

  /** One event in front of a run with no delays keeps it without delays. */
  lemma NoDelayStep(mem: Memory, c: Cursor, ticks: slong, fuel: nat)
    requires 0 <= ticks < 0x7FFF_8000
    requires fuel > 0 && EventDue(c, ticks)
    requires NoDelayBefore(mem, EventStep(mem, c, ticks), ticks, fuel - 1)
    ensures NoDelayBefore(mem, c, ticks, fuel)
  {
    var c1 := EventStep(mem, c, ticks);
    DueEventsCons(mem, c, ticks, fuel);
    var n := |PlayDueEvents(mem, c1, ticks, fuel - 1).1|;
    if n >= 1 {
      FirstDelay(mem, c, ticks);
      DelaysShift(mem, c.data, c1.data, n - 1);
    }
  }

  /** The events a service call writes follow each other without a break:
      every event but the last it writes has a delay of zero or less. Tick
      counts are assumed to stay clear of the `long` range's end. */
  lemma {:induction false} DueEventsHaveNoDelay(mem: Memory, c: Cursor, ticks: slong, fuel: nat)
    requires 0 <= ticks < 0x7FFF_8000
    ensures NoDelayBefore(mem, c, ticks, fuel)
    decreases fuel
  {
    if fuel > 0 && EventDue(c, ticks) {
      DueEventsHaveNoDelay(mem, EventStep(mem, c, ticks), ticks, fuel - 1);
      NoDelayStep(mem, c, ticks, fuel);
    }
  }

  /** One event in front of a run keeps the last event's schedule. */
  lemma ScheduleStep(mem: Memory, c: Cursor, ticks: slong, fuel: nat)
    requires 0 <= ticks < 0x7FFF_8000
    requires fuel > 0 && EventDue(c, ticks)
    requires ScheduledByLast(mem, EventStep(mem, c, ticks), ticks, fuel - 1)
    ensures ScheduledByLast(mem, c, ticks, fuel)
  {
    var c1 := EventStep(mem, c, ticks);
    DueEventsCons(mem, c, ticks, fuel);
    var n := |PlayDueEvents(mem, c1, ticks, fuel - 1).1|;
    if n >= 1 {
      EventDelayShift(mem, c.data, n - 1);
    }
  }

  /** The last event a service call writes schedules the next one after
      its own delay. */
  lemma {:induction false} DueEventsSchedule(mem: Memory, c: Cursor, ticks: slong, fuel: nat)
    requires 0 <= ticks < 0x7FFF_8000
    ensures ScheduledByLast(mem, c, ticks, fuel)
    decreases fuel
  {
    if fuel > 0 && EventDue(c, ticks) {
      DueEventsSchedule(mem, EventStep(mem, c, ticks), ticks, fuel - 1);
      ScheduleStep(mem, c, ticks, fuel);
    }
  }

  /** The event loop keeps the count of bytes left congruent modulo 4. */
  lemma {:induction false} EventsKeepResidue(mem: Memory, c: Cursor, ticks: slong, fuel: nat)
    ensures Unsigned(PlayDueEvents(mem, c, ticks, fuel).0.dataLeft) % 4 == Unsigned(c.dataLeft) % 4
    decreases fuel
  {
    if fuel > 0 && EventDue(c, ticks) {
      StepResidue(c.dataLeft);
      EventsKeepResidue(mem, EventStep(mem, c, ticks), ticks, fuel - 1);
    }
  }

  /** So the count stays congruent to the song size modulo 4 across service
      calls. */
  lemma ServiceKeepsCountResidue(mem: Memory, st: MusicState)
    requires Unsigned(st.at.dataLeft) % 4 == Unsigned(st.size) % 4
    ensures Unsigned(MusicService(mem, st).0.at.dataLeft) % 4 == Unsigned(st.size) % 4
  {
    EventsKeepResidue(mem, st.at, st.ticks, EventBudget(st.at));
  }

  /** A count that is not a multiple of 4 is never used up by the loop. */
  lemma EventsNeverExhaustOddCount(mem: Memory, c: Cursor, ticks: slong, fuel: nat)
    requires Unsigned(c.dataLeft) % 4 != 0
    ensures PlayDueEvents(mem, c, ticks, fuel).0.dataLeft != 0
  {
    EventsKeepResidue(mem, c, ticks, fuel);
    var left := PlayDueEvents(mem, c, ticks, fuel).0.dataLeft;
    assert Unsigned(left) != 0;
  }

  /** And a song whose size is not a multiple of 4 never runs out: the
      count of bytes left is never zero, the song never starts over, and
      the player reads on past its end. */
  lemma OddSizedSongNeverRewinds(mem: Memory, st: MusicState)
    requires st.playing && Unsigned(st.at.dataLeft) % 4 == Unsigned(st.size) % 4 && Unsigned(st.size) % 4 != 0
    ensures MusicService(mem, st).0.at.dataLeft != 0
    ensures MusicService(mem, st).0.ticks == AddLong(st.ticks, 1)
  {
    EventsNeverExhaustOddCount(mem, st.at, st.ticks, EventBudget(st.at));
  }

  // ---------------------------------------------------------------------
  // Starting and stopping
  // ---------------------------------------------------------------------

  /** ResetAdLibMusicChannels as written: rhythm mode off, then key-off for
      "channels" 1 to 10 at registers 0xB1 to 0xBA. */
  function ResetChannelsAsWritten(): (w: seq<Output>)
    ensures |w| == 11
  {
    [AdLibWrite(0xBD, 0)] + seq(10, i requires 0 <= i < 10 => AdLibWrite(0xB1 + i, 0))
  }

  /** The AdLib has nine channels, 0 to 8, whose key-on registers are 0xB0
      to 0xB8: the reset writes two registers that belong to no channel. */
  lemma ResetWritesPastLastChannel()
    ensures AdLibWrite(0xB9, 0) in ResetChannelsAsWritten()
    ensures AdLibWrite(0xBA, 0) in ResetChannelsAsWritten()
  {
    assert ResetChannelsAsWritten()[9] == AdLibWrite(0xB9, 0);
    assert ResetChannelsAsWritten()[10] == AdLibWrite(0xBA, 0);
  }

  /** A key-on register of one of the nine channels. */
  predicate KeyOnRegister(reg: byte)
  {
    0xB0 <= reg <= 0xB8
  }

  /** The reset as intended: rhythm mode off, then key-off for the music
      channels 1 to 8. */
  function ResetChannels(): (w: seq<Output>)
    ensures |w| == 9
  {
    [AdLibWrite(0xBD, 0)] + seq(8, i requires 0 <= i < 8 => AdLibWrite(0xB1 + i, 0))
  }

  /** The intended reset keys off every music channel, leaves channel 0 to
      the sound effects and writes no register outside rhythm mode and the
      key-on bank. */
  lemma ResetSilencesMusicChannels()
    ensures forall c :: 1 <= c <= 8 ==> ResetChannels()[c] == AdLibWrite(0xB0 + c, 0)
    ensures AdLibWrite(0xB0, 0) !in ResetChannels()
    ensures forall o :: o in ResetChannels() ==> o.AdLibWrite? && (o.reg == 0xBD || (KeyOnRegister(o.reg) && o.reg != 0xB0))
  {
  }

  /** StopMusic_Internal: the music channels are silenced and the song is
      paused where it is. */
  function StopMusicInternal(st: MusicState): (r: (MusicState, seq<Output>))
    ensures !r.0.playing && r.1 == ResetChannels()
    ensures r.0.(playing := st.playing) == st
  {
    (st.(playing := false), ResetChannels())
  }

  /** StartMusicPlayback: the song at `data`, whose size is the current
      music file size (a `word`, stored in an `int`), plays from its start
      at tick 0. */
  function StartMusicPlayback(st: MusicState, data: nat, fileSize: word): (r: (MusicState, seq<Output>))
    ensures r.1 == ResetChannels()
    ensures r.0.playing && r.0.start == data && r.0.at.data == data
    ensures r.0.size == AsSigned(fileSize) && r.0.at.dataLeft == r.0.size
    ensures r.0.at.next == 0 && r.0.ticks == 0
    ensures r.0.hackStopApogeeLogo == st.hackStopApogeeLogo
  {
    var stopped := StopMusicInternal(st);
    (stopped.0.(start := data, size := AsSigned(fileSize), at := Cursor(data, AsSigned(fileSize), 0),
                ticks := 0, playing := true),
     stopped.1)
  }

  /** When a song runs out, the service call leaves the player exactly as
      StartMusicPlayback left it, with the logo flag raised. */
  lemma SongLoops(mem: Memory, st: MusicState, fileSize: word)
    requires st.playing && st.size == AsSigned(fileSize)
    requires PlayDueEvents(mem, st.at, st.ticks, EventBudget(st.at)).0.dataLeft == 0
    ensures MusicService(mem, st).0 ==
      StartMusicPlayback(st, st.start, fileSize).0.(hackStopApogeeLogo := true)
  {
  }

  /** PlayMusic: without an AdLib nothing happens. Otherwise the file is
      loaded into `buffer` (its size is a parameter: file reading is not
      modelled) and its size recorded; it starts playing only outside the
      boss levels, which start their music later. */
  function PlayMusic(st: MusicState, adLibPresent: bool, currentLevel: int, buffer: nat, fileSize: word, recordedSize: word)
    : (r: (MusicState, word, seq<Output>))
    ensures !adLibPresent ==> r == (st, recordedSize, [])
    ensures adLibPresent ==> r.1 == fileSize
    ensures adLibPresent && currentLevel < 7 ==>
      (r.0, r.2) == StartMusicPlayback(st, buffer, fileSize) && r.0.playing && r.0.start == buffer
    ensures adLibPresent && currentLevel >= 7 ==> r.0 == st && r.2 == []
  {
    if !adLibPresent then (st, recordedSize, [])
    else if currentLevel < 7 then
      var started := StartMusicPlayback(st, buffer, fileSize);
      (started.0, fileSize, started.1)
    else
      (st, fileSize, [])
  }

  /** StopMusic: only with an AdLib present. */
  function StopMusic(st: MusicState, adLibPresent: bool): (r: (MusicState, seq<Output>))
    ensures !adLibPresent ==> r == (st, [])
    ensures adLibPresent ==> !r.0.playing && r.1 == ResetChannels()
  {
    if !adLibPresent then (st, []) else StopMusicInternal(st)
  }
}
