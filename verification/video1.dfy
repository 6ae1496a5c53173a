/** The intro videos' timing and sound cues: after each frame the game
    picks the delay before the next one and possibly a sound, by video and
    frame number, ignoring the speed stored in the video files. */
module Video1 {
  import opened Words
  import opened Wrappers

  const TIMER_FREQUENCY: nat := 280

  /** The VideoType ids. */
  const VT_NEO_LA: word := 0
  const VT_UNUSED_1: word := 2
  const VT_UNUSED_2: word := 3
  const VT_RANGE_1: word := 4
  const VT_RANGE_2: word := 5
  const VT_RANGE_3: word := 6
  const VT_APOGEE_LOGO: word := 8

  /** The sound effects the intro videos trigger. */
  datatype IntroSound =
    | IntroGunshot1 | IntroGunshot2 | IntroShellsClatter | IntroReelInTarget
    | IntroTargetStops | IntroDukeSpeaks1 | IntroDukeSpeaks2 | BigExplosion

  /** flicNextDelay after the switch in OnNewVideoFrame: a positive d means
      1/d of a second, a negative d means -d seconds; frames without a case
      keep the previous value. */
  function NextDelay(videoType: word, frame: sword, prev: sword): sword
  {
    if videoType == VT_APOGEE_LOGO then 8
    else if videoType == VT_NEO_LA then 4
    else if videoType == VT_UNUSED_1 || videoType == VT_RANGE_1 then
      (if frame == 0 then 20 else prev)
    else if videoType == VT_UNUSED_2 || videoType == VT_RANGE_2 then
      (if frame == 0 || frame == 3 || frame == 6 then 12 else prev)
    else if videoType == VT_RANGE_3 then
      match frame
      case 0 => 6
      case 7 => 6
      case 17 => 6
      case 23 => -2
      case 24 => 6
      case 31 => -2
      case 32 => -1
      case 33 => 5
      case 39 => -1
      case 40 => 17
      case 49 => -1
      case 50 => 17
      case 55 => -4
      case _ => prev
    else prev
  }

  /** The sound OnNewVideoFrame plays for the frame, if any. */
  function FrameSound(videoType: word, frame: sword): Option<IntroSound>
  {
    if videoType == VT_UNUSED_1 || videoType == VT_RANGE_1 then
      (if frame == 0 then Some(IntroGunshot1) else None)
    else if videoType == VT_UNUSED_2 || videoType == VT_RANGE_2 then
      (if frame == 0 || frame == 3 || frame == 6 then Some(IntroGunshot2) else None)
    else if videoType == VT_RANGE_3 then
      match frame
      case 0 => Some(IntroShellsClatter)
      case 7 => Some(IntroReelInTarget)
      case 31 => Some(IntroTargetStops)
      case 33 => Some(IntroDukeSpeaks1)
      case 37 => Some(IntroDukeSpeaks2)
      case 49 => Some(BigExplosion)
      case 55 => Some(BigExplosion)
      case _ => None
    else None
  }

  /** DN2_abs on a 16-bit `int`: the negation wraps, so -32768 stays
      -32768. */
  function Abs16(x: sword): (r: sword)
    ensures x != -0x8000 ==> r >= 0 && (r == x || r == -x)
    ensures x == -0x8000 ==> r == x
  {
    AsSigned(Wrap16(if x < 0 then -(x as int) else x as int))
  }

  /** Reading a wrapped value back as signed keeps it modulo 2^16, and so
      does its negation. */
  lemma SignedKeepsResidue(y: int)
    ensures Wrap16(AsSigned(Wrap16(y))) == Wrap16(y)
    ensures Wrap16(-(AsSigned(Wrap16(y)) as int)) == Wrap16(-y)
  {
    var q := y / 0x1_0000;
    var s := AsSigned(Wrap16(y));
    assert y == q * 0x1_0000 + Wrap16(y);
    assert s == y - q * 0x1_0000 || s == y - q * 0x1_0000 - 0x1_0000;
    Wrap16Sub(0, y);
    assert -(s as int) == -y + q * 0x1_0000 || -(s as int) == -y + (q + 1) * 0x1_0000;
  }

  /** The negative branch of FrameDelayTicks. */
  lemma NegativeDelay(d: sword)
    requires d < 0
    ensures var t := Abs16(AsSigned(Wrap16(d as int * TIMER_FREQUENCY)));
      && (-117 <= d ==> t == -(d as int) * TIMER_FREQUENCY)
      && (t >= 0 || t == -0x8000)
      && (Wrap16(t) == Wrap16(-(d as int) * TIMER_FREQUENCY) || Wrap16(t) == Wrap16((d as int) * TIMER_FREQUENCY))
  {
    var p := d as int * 280;
    var s := AsSigned(Wrap16(p));
    SignedKeepsResidue(p);
    if -117 <= d {
      assert -32760 <= p <= -280;
      assert Wrap16(p) == p + 0x1_0000;
      assert s == p;
    }
  }

  /** flicFrameDelay in timer ticks: DN2_abs(d * TIMER_FREQUENCY) for a
      negative d, TIMER_FREQUENCY / d otherwise. The product is an `int`
      multiplication and wraps at 16 bits below d = -117. A d of 0 would
      divide by zero, which the game never reaches: every video sets a
      delay on its first frame. */
  function FrameDelayTicks(d: sword): (ticks: sword)
    requires d != 0
    ensures -117 <= d < 0 ==> ticks == -(d as int) * TIMER_FREQUENCY
    ensures d < 0 ==> ticks >= 0 || ticks == -0x8000
    ensures d < 0 ==> Wrap16(ticks) == Wrap16(-(d as int) * TIMER_FREQUENCY) ||
                      Wrap16(ticks) == Wrap16((d as int) * TIMER_FREQUENCY)
    ensures d > 0 ==> 0 <= ticks && ticks * d <= TIMER_FREQUENCY < (ticks + 1) * d
  {
    if d < 0 then
      NegativeDelay(d);
      Abs16(AsSigned(Wrap16(d as int * TIMER_FREQUENCY)))
    else
      PositiveDelay(d);
      TIMER_FREQUENCY / d
  }

  /** The positive branch of FrameDelayTicks: the truncated quotient. */
  lemma PositiveDelay(d: sword)
    requires d > 0
    ensures var t := TIMER_FREQUENCY / d;
      0 <= t <= TIMER_FREQUENCY && t * d <= TIMER_FREQUENCY < (t + 1) * d
  {
  }

  /** Below -117 the 16-bit product wraps: -118 seconds become 32496 ticks
      rather than 33040. */
  lemma FrameDelayWraps()
    ensures FrameDelayTicks(-118) == 32496 != 118 * TIMER_FREQUENCY
  {
    assert Wrap16(-118 * 280) == 32496;
  }

  datatype FrameResult = FrameResult(nextDelay: sword, frameDelay: sword, sound: Option<IntroSound>)

  /** OnNewVideoFrame(videoType, frame) with flicNextDelay = prev. */
  function OnNewVideoFrame(videoType: word, frame: sword, prev: sword): (r: FrameResult)
    requires NextDelay(videoType, frame, prev) != 0
  {
    var d := NextDelay(videoType, frame, prev);
    FrameResult(d, FrameDelayTicks(d), FrameSound(videoType, frame))
  }

  /** The delays the switch ever sets. */
  predicate KnownDelay(d: sword)
  {
    d in {8, 4, 20, 12, 6, -2, -1, 5, 17, -4}
  }

  /** Once a known delay is in place every later frame keeps one, so the
      division by zero never happens; the logo and NEO LA videos always run
      at 35 and 70 ticks per frame. */
  lemma DelaysStayKnown(videoType: word, frame: sword, prev: sword)
    requires KnownDelay(prev)
    ensures KnownDelay(NextDelay(videoType, frame, prev))
    ensures NextDelay(videoType, frame, prev) != 0
    ensures videoType == VT_APOGEE_LOGO ==> OnNewVideoFrame(videoType, frame, prev).frameDelay == 35
    ensures videoType == VT_NEO_LA ==> OnNewVideoFrame(videoType, frame, prev).frameDelay == 70
  {
  }

  /** Every video with a delay table sets a known delay on frame 0, so the
      first frame is safe whatever was left over. */
  lemma FirstFrameSetsDelay(videoType: word, prev: sword)
    requires videoType in {VT_NEO_LA, VT_UNUSED_1, VT_UNUSED_2, VT_RANGE_1, VT_RANGE_2, VT_RANGE_3, VT_APOGEE_LOGO}
    ensures KnownDelay(NextDelay(videoType, 0, prev))
  {
  }

  /** The delays in ticks: d seconds for -d, and for the fractions the
      truncated 280 / d. */
  lemma KnownDelayTicks(d: sword)
    requires KnownDelay(d)
    ensures FrameDelayTicks(d) ==
      match d
      case 8 => 35
      case 4 => 70
      case 20 => 14
      case 12 => 23
      case 6 => 46
      case 5 => 56
      case 17 => 16
      case _ => -(d as int) * 280
  {
  }

  /** Frame 7 of the third range video falls through to frame 17's case: it
      plays the reel-in sound and also sets frame 17's delay. */
  lemma Range3Frame7FallsThrough(prev: sword)
    ensures NextDelay(VT_RANGE_3, 7, prev) == NextDelay(VT_RANGE_3, 17, prev) == 6
    ensures FrameSound(VT_RANGE_3, 7) == Some(IntroReelInTarget)
    ensures FrameSound(VT_RANGE_3, 17) == None
  {
  }

  /** A frame without a case in the switch keeps the running delay: for
      the third range video that is every frame but the thirteen listed
      ones (frame 37 has a case too, but it only plays a sound). */
  lemma UnlistedFramesKeepDelay(videoType: word, frame: sword, prev: sword)
    requires videoType == VT_RANGE_3
    requires frame !in {0, 7, 17, 23, 24, 31, 32, 33, 39, 40, 49, 50, 55}
    ensures NextDelay(videoType, frame, prev) == prev
  {
  }
}
