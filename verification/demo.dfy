/** Demo recording and playback. Each frame of input is one byte in the
    demo data file: the six input flags in bits 0 to 5, bit 7 when the
    level ends after this frame, and 0xFF after the last frame. The bytes
    pass through a buffer that is read and written in chunks of 128. */
module Demo {
  import opened Words

  const DEMO_DATA_CHUNK_SIZE: nat := 128
  /** demoData's declared size. */
  const DEMO_DATA_SIZE: nat := 134
  const END_OF_DEMO: bv8 := 0xFF
  const NEXT_LEVEL_FLAG: bv8 := 0x80

  /** inputMoveUp, inputMoveDown, inputMoveLeft, inputMoveRight, inputJump,
      inputFire; each is 0 or 1 in the game. */
  datatype Input = Input(moveUp: bool, moveDown: bool, moveLeft: bool, moveRight: bool, jump: bool, fire: bool)

  /** One recorded frame: the input, and whether space was held to move on
      to the next level. */
  datatype Frame = Frame(input: Input, nextLevel: bool)

  function FlagBit(f: bool): bv8
  {
    if f then 1 else 0
  }

  /** The packing RecordDemoInput does: flag k goes to bit k. */
  function EncodeInput(i: Input): (b: bv8)
  {
    FlagBit(i.moveUp) | (FlagBit(i.moveDown) << 1) | (FlagBit(i.moveLeft) << 2) |
    (FlagBit(i.moveRight) << 3) | (FlagBit(i.jump) << 4) | (FlagBit(i.fire) << 5)
  }

  /** The unpacking ReadDemoInput does: `(frameData & (1 << k)) >> k` for
      k = 0 to 5; bits 6 and 7 are not looked at. */
  function DecodeInput(b: bv8): (i: Input)
  {
    Input(b & 0x1 != 0, (b & 0x2) >> 1 != 0, (b & 0x4) >> 2 != 0,
          (b & 0x8) >> 3 != 0, (b & 0x10) >> 4 != 0, (b & 0x20) >> 5 != 0)
  }

  /** The byte RecordDemoInput stores for a frame: the packed input, with
      bit 7 or-ed in when space is held. */
  function Packet(f: Frame): (b: bv8)
  {
    var bits := EncodeInput(f.input);
    if f.nextLevel then bits | NEXT_LEVEL_FLAG else bits
  }

  /** What ReadDemoInput makes of a byte other than END_OF_DEMO. */
  function DecodeFrame(b: bv8): (f: Frame)
  {
    Frame(DecodeInput(b), b & NEXT_LEVEL_FLAG != 0)
  }

  /** Reading gives back what recording stored, and a recorded byte never
      has bit 6 set, so it is never mistaken for the end marker. */
  lemma PacketRoundTrip(f: Frame)
    ensures DecodeFrame(Packet(f)) == f
    ensures Packet(f) & 0x40 == 0 && Packet(f) != END_OF_DEMO
  {
  }

  /** Bits 0 to 5 survive a decode and re-encode, so the six flags lose
      nothing either way. */
  lemma InputBitsRoundTrip(b: bv8)
    ensures EncodeInput(DecodeInput(b)) == b & 0x3F
  {
  }

  // ---------------------------------------------------------------------
  // Recording
  // ---------------------------------------------------------------------

  /** demoIsRecording, the demo file written so far, demoData and
      demoFramesProcessed. */
  datatype Recorder = Recorder(isRecording: bool, file: seq<bv8>, data: seq<bv8>, framesProcessed: nat)

  predicate RecorderValid(r: Recorder)
  {
    |r.data| == DEMO_DATA_SIZE && r.framesProcessed <= DEMO_DATA_CHUNK_SIZE
  }

  /** Everything recorded so far: the flushed chunks and the buffered
      frames. */
  function Recorded(r: Recorder): seq<bv8>
    requires RecorderValid(r)
  {
    r.file + r.data[..r.framesProcessed]
  }

  /** InitDemoRecording: when recording, an empty buffer and a new, empty
      file. */
  function InitDemoRecording(r: Recorder): (r': Recorder)
    requires RecorderValid(r)
    ensures RecorderValid(r')
    ensures r.isRecording ==> Recorded(r') == [] && r'.isRecording
    ensures !r.isRecording ==> r' == r
  {
    if !r.isRecording then r else r.(file := [], framesProcessed := 0)
  }

  /** RecordDemoInput: flush a full buffer, store the frame's byte, and
      report whether space was held; a no-op returning false when not
      recording. */
  function RecordDemoInput(r: Recorder, f: Frame): (res: (Recorder, bool))
    requires RecorderValid(r)
    ensures RecorderValid(res.0)
  {
    if !r.isRecording then (r, false)
    else
      var r1 := if r.framesProcessed == DEMO_DATA_CHUNK_SIZE
        then r.(file := r.file + r.data[..DEMO_DATA_CHUNK_SIZE], framesProcessed := 0)
        else r;
      var r2 := r1.(data := r1.data[r1.framesProcessed := EncodeInput(f.input)], framesProcessed := r1.framesProcessed + 1);
      if f.nextLevel then
        (r2.(data := r2.data[r2.framesProcessed - 1 := r2.data[r2.framesProcessed - 1] | NEXT_LEVEL_FLAG]), true)
      else (r2, false)
  }

  /** A recorded frame appends exactly its packet to the recording, and
      the call reports the frame's next-level flag. */
  lemma RecordDemoInputAppends(r: Recorder, f: Frame)
    requires RecorderValid(r) && r.isRecording
    ensures var (r', nextLevel) := RecordDemoInput(r, f);
      Recorded(r') == Recorded(r) + [Packet(f)] && nextLevel == f.nextLevel &&
      r'.isRecording && r'.framesProcessed >= 1
  {
    var r1 := if r.framesProcessed == DEMO_DATA_CHUNK_SIZE
      then r.(file := r.file + r.data[..DEMO_DATA_CHUNK_SIZE], framesProcessed := 0)
      else r;
    assert Recorded(r1) == Recorded(r);
    var (r', _) := RecordDemoInput(r, f);
    assert r'.data[..r'.framesProcessed] == r1.data[..r1.framesProcessed] + [Packet(f)];
  }

  /** FinishDemoRecording: store the end marker after the buffered frames,
      write them and the marker, and stop recording. */
  function FinishDemoRecording(r: Recorder): (r': Recorder)
    requires RecorderValid(r)
    ensures RecorderValid(r') && !r'.isRecording
    ensures r.isRecording ==> r'.file == Recorded(r) + [END_OF_DEMO]
    ensures !r.isRecording ==> r' == r
  {
    if !r.isRecording then r
    else
      var data := r.data[r.framesProcessed := END_OF_DEMO];
      assert data[..r.framesProcessed + 1] == r.data[..r.framesProcessed] + [END_OF_DEMO];
      r.(data := data, file := r.file + data[..r.framesProcessed + 1], isRecording := false)
  }

  /** Recording a sequence of frames. */
  function RecordFrames(r: Recorder, frames: seq<Frame>): (r': Recorder)
    requires RecorderValid(r)
    ensures RecorderValid(r')
    decreases |frames|
  {
    if frames == [] then r else RecordFrames(RecordDemoInput(r, frames[0]).0, frames[1..])
  }

  /** The packets of a sequence of frames. */
  function Packets(frames: seq<Frame>): (s: seq<bv8>)
    ensures |s| == |frames|
    ensures forall k :: 0 <= k < |s| ==> s[k] == Packet(frames[k])
  {
    seq(|frames|, k requires 0 <= k < |frames| => Packet(frames[k]))
  }

  lemma {:induction false} RecordFramesAppends(r: Recorder, frames: seq<Frame>)
    requires RecorderValid(r) && r.isRecording
    ensures Recorded(RecordFrames(r, frames)) == Recorded(r) + Packets(frames)
    ensures RecordFrames(r, frames).isRecording
    decreases |frames|
  {
    if frames != [] {
      var r1 := RecordDemoInput(r, frames[0]).0;
      RecordDemoInputAppends(r, frames[0]);
      RecordFramesAppends(r1, frames[1..]);
      assert Packets(frames) == [Packet(frames[0])] + Packets(frames[1..]);
    }
  }

  /** The file a recording session writes: one byte per frame, then the
      end marker, however the frames fell into chunks. */
  lemma RecordedDemoFile(r: Recorder, frames: seq<Frame>)
    requires RecorderValid(r) && r.isRecording
    ensures FinishDemoRecording(RecordFrames(InitDemoRecording(r), frames)).file == Packets(frames) + [END_OF_DEMO]
  {
    RecordFramesAppends(InitDemoRecording(r), frames);
  }

  // ---------------------------------------------------------------------
  // Playback
  // ---------------------------------------------------------------------

  /** The demo file and the read position in it, demoData, how many bytes
      the last read delivered (the return value of _read, which the game
      ignores), demoFramesProcessed, the input variables and whether the
      game state was set to GS_QUIT. */
  datatype Playback = Playback(
    file: seq<bv8>, filePos: nat, data: seq<bv8>, loaded: nat,
    framesProcessed: nat, input: Input, quit: bool)

  predicate PlaybackValid(s: Playback)
  {
    |s.data| == DEMO_DATA_SIZE && s.framesProcessed <= DEMO_DATA_CHUNK_SIZE &&
    s.filePos <= |s.file| && s.loaded <= DEMO_DATA_CHUNK_SIZE &&
    (s.loaded < DEMO_DATA_CHUNK_SIZE ==> s.filePos == |s.file|)
  }

  /** InitDemoPlayback: open the file at its start; framesProcessed 0
      makes the first read fill the buffer. */
  function InitDemoPlayback(file: seq<bv8>, data: seq<bv8>, input: Input): (s: Playback)
    requires |data| == DEMO_DATA_SIZE
    ensures PlaybackValid(s)
  {
    Playback(file, 0, data, DEMO_DATA_CHUNK_SIZE, 0, input, false)
  }

  /** The _read of the next chunk: up to 128 bytes from the file into the
      start of the buffer; bytes beyond a short read keep their old
      contents. */
  function Refill(s: Playback): (s': Playback)
    requires PlaybackValid(s)
    ensures PlaybackValid(s') && s'.framesProcessed == 0
  {
    var n := if |s.file| - s.filePos >= DEMO_DATA_CHUNK_SIZE then DEMO_DATA_CHUNK_SIZE else |s.file| - s.filePos;
    s.(data := s.file[s.filePos..s.filePos + n] + s.data[n..], filePos := s.filePos + n,
       loaded := n, framesProcessed := 0)
  }

  /** ReadDemoInput: refill the buffer when it is used up (or was never
      filled), then decode the next byte; END_OF_DEMO sets GS_QUIT and
      leaves the input alone. The result tells whether to load the next
      level. */
  function ReadDemoInput(s: Playback): (res: (Playback, bool))
    requires PlaybackValid(s)
    ensures PlaybackValid(res.0)
  {
    var s1 := if s.framesProcessed == 0 || s.framesProcessed == DEMO_DATA_CHUNK_SIZE then Refill(s) else s;
    var b := s1.data[s1.framesProcessed];
    if b == END_OF_DEMO then (s1.(quit := true), false)
    else
      (s1.(input := DecodeInput(b), framesProcessed := s1.framesProcessed + 1), b & NEXT_LEVEL_FLAG != 0)
  }

  /** The bytes the coming calls will read, as far as they came from the
      file. */
  function Pending(s: Playback): seq<bv8>
    requires PlaybackValid(s)
  {
    if s.framesProcessed == 0 || s.framesProcessed == DEMO_DATA_CHUNK_SIZE then s.file[s.filePos..]
    else if s.framesProcessed <= s.loaded then s.data[s.framesProcessed..s.loaded] + s.file[s.filePos..]
    else []
  }

  lemma RefillPending(s: Playback)
    requires PlaybackValid(s) && s.filePos < |s.file|
    ensures var s1 := Refill(s);
      s1.loaded >= 1 && s1.data[0] == s.file[s.filePos] &&
      s1.data[1..s1.loaded] + s1.file[s1.filePos..] == s.file[s.filePos + 1..]
  {
    var s1 := Refill(s);
    var n := s1.loaded;
    assert s1.data[1..n] == s.file[s.filePos + 1..s.filePos + n];
    assert s.file[s.filePos + 1..] == s.file[s.filePos + 1..s.filePos + n] + s.file[s.filePos + n..];
  }

  /** Each call consumes exactly the next pending byte: a frame byte sets
      the six input flags from bits 0 to 5 and reports bit 7; the end
      marker sets GS_QUIT, returns false and changes no input. */
  lemma ReadDemoInputConsumes(s: Playback, b: bv8, rest: seq<bv8>)
    requires PlaybackValid(s) && Pending(s) == [b] + rest
    ensures var (s', nextLevel) := ReadDemoInput(s);
      (b == END_OF_DEMO ==> s'.quit && !nextLevel && s'.input == s.input) &&
      (b != END_OF_DEMO ==> s'.input == DecodeInput(b) && nextLevel == (b & NEXT_LEVEL_FLAG != 0) &&
                            s'.quit == s.quit && Pending(s') == rest)
  {
    if s.framesProcessed == 0 || s.framesProcessed == DEMO_DATA_CHUNK_SIZE {
      RefilledFirst(s, b, rest);
    } else {
      BufferedFirst(s, b, rest);
    }
  }

  /** When the buffer is used up, the refill brings the next file byte to
      the start of the buffer, and after reading it the rest stays pending. */
  lemma RefilledFirst(s: Playback, b: bv8, rest: seq<bv8>)
    requires PlaybackValid(s) && s.file[s.filePos..] == [b] + rest
    ensures Refill(s).data[0] == b
    ensures b != END_OF_DEMO ==> Pending(Refill(s).(input := DecodeInput(b), framesProcessed := 1)) == rest
  {
    assert s.filePos < |s.file| && s.file[s.filePos] == b;
    assert s.file[s.filePos + 1..] == rest by {
      assert s.file[s.filePos + 1..] == s.file[s.filePos..][1..];
    }
    RefillPending(s);
    if b != END_OF_DEMO {
      RefilledRest(Refill(s), rest);
    }
  }

  /** After a refill the byte at the start of the buffer is read, and the
      rest of the buffer and the file are what stays pending. */
  lemma RefilledRest(s1: Playback, rest: seq<bv8>)
    requires PlaybackValid(s1) && s1.loaded >= 1 && s1.data[0] != END_OF_DEMO
    requires s1.data[1..s1.loaded] + s1.file[s1.filePos..] == rest
    ensures Pending(s1.(input := DecodeInput(s1.data[0]), framesProcessed := 1)) == rest
  {
  }

  /** Without a refill the byte at framesProcessed is read, and the bytes
      after it stay pending. */
  lemma BufferedFirst(s: Playback, b: bv8, rest: seq<bv8>)
    requires PlaybackValid(s) && Pending(s) == [b] + rest
    requires s.framesProcessed != 0 && s.framesProcessed != DEMO_DATA_CHUNK_SIZE
    ensures s.framesProcessed < s.loaded && s.data[s.framesProcessed] == b
    ensures b != END_OF_DEMO ==> Pending(s.(input := DecodeInput(b), framesProcessed := s.framesProcessed + 1)) == rest
  {
    assert s.framesProcessed < s.loaded;
    var x := s.data[s.framesProcessed..s.loaded];
    var y := s.file[s.filePos..];
    assert (x + y)[0] == b;
    assert (x + y)[1..] == x[1..] + y;
    assert x[1..] == s.data[s.framesProcessed + 1..s.loaded];
    assert ([b] + rest)[1..] == rest;
  }

  /** n calls of ReadDemoInput, collecting the frames they decode. */
  function PlayFrames(s: Playback, n: nat): (r: (Playback, seq<Frame>))
    requires PlaybackValid(s)
    ensures PlaybackValid(r.0)
    decreases n
  {
    if n == 0 then (s, [])
    else
      var (s1, nextLevel) := ReadDemoInput(s);
      var (s2, frames) := PlayFrames(s1, n - 1);
      (s2, [Frame(s1.input, nextLevel)] + frames)
  }

  lemma PlayFramesFirst(s: Playback, n: nat)
    requires PlaybackValid(s) && n >= 1
    ensures var (s1, nextLevel) := ReadDemoInput(s);
      PlayFrames(s, n) == (PlayFrames(s1, n - 1).0, [Frame(s1.input, nextLevel)] + PlayFrames(s1, n - 1).1)
  {
  }

  lemma SplitFirst(packets: seq<bv8>, rest: seq<bv8>)
    requires packets != []
    ensures packets + rest == [packets[0]] + (packets[1..] + rest)
  {
  }

  /** Playing back pending frame bytes yields their frames, in order,
      leaving the rest pending and the game running. */
  lemma {:induction false} PlayFramesDecodes(s: Playback, packets: seq<bv8>, rest: seq<bv8>)
    requires PlaybackValid(s) && Pending(s) == packets + rest && !s.quit
    requires forall k :: 0 <= k < |packets| ==> packets[k] != END_OF_DEMO
    ensures var (s', frames) := PlayFrames(s, |packets|);
      Pending(s') == rest && !s'.quit &&
      |frames| == |packets| && forall k :: 0 <= k < |packets| ==> frames[k] == DecodeFrame(packets[k])
    decreases |packets|
  {
    if packets != [] {
      var (s1, nextLevel) := ReadDemoInput(s);
      SplitFirst(packets, rest);
      ReadDemoInputConsumes(s, packets[0], packets[1..] + rest);
      PlayFramesDecodes(s1, packets[1..], rest);
      PlayFramesFirst(s, |packets|);
    }
  }

  /** A recorded demo plays back as recorded: the frames come back in
      order with their inputs and next-level flags, and the read after the
      last frame ends the demo. */
  lemma DemoRoundTrip(r: Recorder, frames: seq<Frame>, data: seq<bv8>, input: Input)
    requires RecorderValid(r) && r.isRecording && |data| == DEMO_DATA_SIZE
    ensures var file := FinishDemoRecording(RecordFrames(InitDemoRecording(r), frames)).file;
      var (s, played) := PlayFrames(InitDemoPlayback(file, data, input), |frames|);
      played == frames && ReadDemoInput(s).0.quit && !ReadDemoInput(s).1
  {
    var file := FinishDemoRecording(RecordFrames(InitDemoRecording(r), frames)).file;
    RecordedDemoFile(r, frames);
    var p := InitDemoPlayback(file, data, input);
    var packets := Packets(frames);
    forall k | 0 <= k < |packets|
      ensures packets[k] != END_OF_DEMO && DecodeFrame(packets[k]) == frames[k]
    {
      PacketRoundTrip(frames[k]);
    }
    PlayFramesDecodes(p, packets, [END_OF_DEMO]);
    var (s, played) := PlayFrames(p, |frames|);
    ReadDemoInputConsumes(s, END_OF_DEMO, []);
  }
}
