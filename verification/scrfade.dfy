/** Palette fades. A fade keeps a 16-bit accumulator per palette component,
    adds (fade-in) or subtracts (fade-out) the target palette once per
    step, and hands the accumulator divided by 16 to the hardware; the
    game's palettes use the range 0 to 68 so that 15/16 of them lands in
    the VGA range 0 to 63. */
module ScrFade {
  import opened Words

  const PALETTE_SIZE: nat := 48
  const FADE_IN_STEPS: nat := 15
  const FADE_OUT_STEPS: nat := 16

  /** 16 colours of red, green and blue. */
  type Palette = s: seq<byte> | |s| == PALETTE_SIZE witness seq(PALETTE_SIZE, _ => 0)

  /** gfxPaletteForFade. */
  type Accumulator = s: seq<word> | |s| == PALETTE_SIZE witness seq(PALETTE_SIZE, _ => 0)

  /** The range the game's 16-colour palettes are stored in. */
  type FadeValue = x: int | 0 <= x <= 68

  const INGAME_PALETTE: seq<FadeValue> := [
    0x0, 0x0, 0x0, 0x10, 0x10, 0x10, 0x20, 0x20, 0x20, 0x30, 0x30,
    0x30, 0x20, 0x0, 0x0, 0x30, 0x0, 0x0, 0x40, 0x1C, 0x10, 0x40, 0x40,
    0x0, 0x0, 0x10, 0x0, 0x0, 0x0, 0x20, 0x0, 0x0, 0x30, 0x0, 0x0, 0x40, 0x0, 0x20,
    0x0, 0x0, 0x30, 0x0, 0x20, 0x10, 0x0, 0x40, 0x40, 0x40]

  const DUKE3D_TEASER_PALETTE: seq<FadeValue> := [
    0x0, 0x0, 0x0, 0x1A, 0x0, 0x0, 0x1D, 0x0, 0x0, 0x1F, 0x0, 0x0, 0x22, 0x0, 0x0,
    0x25, 0x0, 0x0, 0x28, 0x0, 0x0, 0x2B, 0x0, 0x0, 0x2E, 0x0, 0x0, 0x32, 0x0,
    0x0, 0x34, 0x0, 0x0, 0x37, 0x0, 0x0, 0x3A, 0x0, 0x0, 0x3D, 0x0, 0x0, 0x40,
    0x0, 0x0, 0x39, 0x0, 0x0]

  /** The colours shown k sixteenths of the way from black to p: the
      reference every fade step is measured against. */
  function FadeLevel(p: Palette, k: nat): (f: seq<byte>)
    requires k <= 16
  {
    seq(PALETTE_SIZE, c requires 0 <= c < PALETTE_SIZE => k * p[c] / 16)
  }

  /** What SetPaletteEntry_16 receives for the accumulator: each component
      shifted right by 4 and passed as a byte. */
  function Submitted(acc: Accumulator): (f: seq<byte>)
  {
    seq(PALETTE_SIZE, c requires 0 <= c < PALETTE_SIZE => Wrap8(acc[c] / 16))
  }

  /** One pass of FadeInToPalette's inner loop: each of the 16 entries has
      the palette added to its three components and is submitted. */
  method FadeInStep(p: Palette, acc: Accumulator) returns (acc': Accumulator, frame: seq<byte>)
    requires forall c :: 0 <= c < PALETTE_SIZE ==> acc[c] + p[c] < 0x1_0000
    ensures forall c :: 0 <= c < PALETTE_SIZE ==> acc'[c] == acc[c] + p[c]
    ensures frame == Submitted(acc')
  {
    acc' := acc;
    frame := [];
    var j := 0;
    while j < 16
      invariant 0 <= j <= 16
      invariant |frame| == 3 * j
      invariant forall c :: 0 <= c < 3 * j ==> acc'[c] == acc[c] + p[c] && frame[c] == Wrap8(acc'[c] / 16)
      invariant forall c :: 3 * j <= c < PALETTE_SIZE ==> acc'[c] == acc[c]
    {
      var src := 3 * j;
      acc' := acc'[src := acc'[src] + p[src]];
      acc' := acc'[src + 1 := acc'[src + 1] + p[src + 1]];
      acc' := acc'[src + 2 := acc'[src + 2] + p[src + 2]];
      frame := frame + [Wrap8(acc'[src] / 16), Wrap8(acc'[src + 1] / 16), Wrap8(acc'[src + 2] / 16)];
      j := j + 1;
    }
  }

  /** One pass of FadeOutFromPalette's inner loop: the palette is
      subtracted from each entry's components before submitting them. */
  method FadeOutStep(p: Palette, acc: Accumulator) returns (acc': Accumulator, frame: seq<byte>)
    requires forall c :: 0 <= c < PALETTE_SIZE ==> p[c] <= acc[c]
    ensures forall c :: 0 <= c < PALETTE_SIZE ==> acc'[c] == acc[c] - p[c]
    ensures frame == Submitted(acc')
  {
    acc' := acc;
    frame := [];
    var j := 0;
    while j < 16
      invariant 0 <= j <= 16
      invariant |frame| == 3 * j
      invariant forall c :: 0 <= c < 3 * j ==> acc'[c] == acc[c] - p[c] && frame[c] == Wrap8(acc'[c] / 16)
      invariant forall c :: 3 * j <= c < PALETTE_SIZE ==> acc'[c] == acc[c]
    {
      var src := 3 * j;
      acc' := acc'[src := acc'[src] - p[src]];
      acc' := acc'[src + 1 := acc'[src + 1] - p[src + 1]];
      acc' := acc'[src + 2 := acc'[src + 2] - p[src + 2]];
      frame := frame + [Wrap8(acc'[src] / 16), Wrap8(acc'[src + 1] / 16), Wrap8(acc'[src + 2] / 16)];
      j := j + 1;
    }
  }

  /** An accumulator holding k times the palette, k at most 16, shows
      FadeLevel(p, k). */
  lemma SubmittedLevel(p: Palette, acc: Accumulator, k: nat)
    requires k <= 16
    requires forall c :: 0 <= c < PALETTE_SIZE ==> acc[c] == k * p[c]
    ensures Submitted(acc) == FadeLevel(p, k)
  {
    forall c | 0 <= c < PALETTE_SIZE
      ensures Submitted(acc)[c] == FadeLevel(p, k)[c]
    {
      assert k * p[c] <= 16 * 255 by {
        MulBound(k, 16, p[c]);
      }
    }
  }

  lemma MulBound(k: nat, m: nat, v: byte)
    requires k <= m
    ensures k * v <= m * 255
  {
    assert k * v <= m * v;
    assert m * v <= m * 255;
  }

  /** FadeInToPalette(palette): 15 steps; step k (from 1) shows k/16 of the
      palette, the accumulator ending at 15 times the palette. */
  method FadeInToPalette(p: Palette) returns (acc: Accumulator, frames: seq<seq<byte>>)
    ensures |frames| == FADE_IN_STEPS
    ensures forall k :: 0 <= k < FADE_IN_STEPS ==> frames[k] == FadeLevel(p, k + 1)
    ensures forall c :: 0 <= c < PALETTE_SIZE ==> acc[c] == FADE_IN_STEPS * p[c]
  {
    acc := seq(PALETTE_SIZE, _ => 0);
    frames := [];
    var i := 0;
    while i < 15
      invariant 0 <= i <= FADE_IN_STEPS
      invariant |frames| == i
      invariant forall k :: 0 <= k < i ==> frames[k] == FadeLevel(p, k + 1)
      invariant forall c :: 0 <= c < PALETTE_SIZE ==> acc[c] == i * p[c]
    {
      MulBound(i, 14, 0);
      forall c | 0 <= c < PALETTE_SIZE
        ensures acc[c] + p[c] == (i + 1) * p[c] < 0x1_0000
      {
        MulBound(i + 1, 15, p[c]);
      }
      var frame;
      acc, frame := FadeInStep(p, acc);
      SubmittedLevel(p, acc, i + 1);
      frames := frames + [frame];
      i := i + 1;
    }
  }

  /** How FadeOutFromPalette clears the screen afterwards: the border tiles
      of both pages during the episodes, the whole of both pages for the
      demo episode. */
  datatype ScreenClear = BorderOnly | WholeScreen

  /** The state a fade-out touches besides the hardware palette. */
  datatype FadeState = FadeState(
    currentPalette: Palette, currentEpisode: word,
    hudMessageCharsPrinted: word, hudMessageDelay: word, hudShowingHintMachineMsg: bool)

  lemma FadeOutStepArithmetic(p: Palette, acc: Accumulator, i: nat)
    requires i < FADE_OUT_STEPS
    requires forall c :: 0 <= c < PALETTE_SIZE ==> acc[c] == (16 - i) * p[c]
    ensures forall c :: 0 <= c < PALETTE_SIZE ==> p[c] <= acc[c] && acc[c] - p[c] == (15 - i) * p[c]
  {
    forall c | 0 <= c < PALETTE_SIZE
      ensures p[c] <= acc[c] && acc[c] - p[c] == (15 - i) * p[c]
    {
      assert (16 - i) * p[c] == (15 - i) * p[c] + p[c];
    }
  }

  /** FadeOutFromPalette(palette): 16 steps down from 16 times the
      palette, the first showing 15/16 of it and the last black. */
  method FadeOutFromPalette(p: Palette) returns (frames: seq<seq<byte>>)
    ensures |frames| == FADE_OUT_STEPS
    ensures forall k :: 0 <= k < FADE_OUT_STEPS ==> frames[k] == FadeLevel(p, 15 - k)
  {
    var acc: Accumulator := seq(PALETTE_SIZE, c requires 0 <= c < PALETTE_SIZE => p[c] as int * 16);
    frames := [];
    var i := 0;
    while i < 16
      invariant 0 <= i <= FADE_OUT_STEPS
      invariant |frames| == i
      invariant forall k :: 0 <= k < i ==> frames[k] == FadeLevel(p, 15 - k)
      invariant forall c :: 0 <= c < PALETTE_SIZE ==> acc[c] == (16 - i) * p[c]
    {
      FadeOutStepArithmetic(p, acc, i);
      var frame;
      acc, frame := FadeOutStep(p, acc);
      SubmittedLevel(p, acc, 15 - i);
      frames := frames + [frame];
      i := i + 1;
    }
  }

  /** FadeOutScreen: the fade-out from the current palette; then the
      screen is cleared, any HUD message is cancelled and the in-game
      palette becomes current again. */
  method FadeOutScreen(s: FadeState) returns (s': FadeState, frames: seq<seq<byte>>, clear: ScreenClear)
    ensures |frames| == FADE_OUT_STEPS
    ensures forall k :: 0 <= k < FADE_OUT_STEPS ==> frames[k] == FadeLevel(s.currentPalette, 15 - k)
    ensures clear == BorderOnly <==> s.currentEpisode < 4
    ensures s'.currentPalette == INGAME_PALETTE && s'.currentEpisode == s.currentEpisode
    ensures s'.hudMessageCharsPrinted == 0 && s'.hudMessageDelay == 0 && !s'.hudShowingHintMachineMsg
  {
    frames := FadeOutFromPalette(s.currentPalette);
    clear := if s.currentEpisode < 4 then BorderOnly else WholeScreen;
    s' := s.(currentPalette := INGAME_PALETTE, hudMessageCharsPrinted := 0,
             hudMessageDelay := 0, hudShowingHintMachineMsg := false);
  }

  /** The levels only grow with k: a fade-in brightens every component
      step by step and a fade-out darkens it. */
  lemma FadeLevelMonotone(p: Palette, a: nat, b: nat, c: nat)
    requires a <= b <= 16 && c < PALETTE_SIZE
    ensures FadeLevel(p, a)[c] <= FadeLevel(p, b)[c]
  {
    assert a * p[c] <= b * p[c];
  }

  /** The fade levels end at black (level 0), and the fully faded-in
      palette (level 15, the last frame of FadeInToPalette and the first of
      FadeOutFromPalette) is 15/16 of the stored one, which puts the game's
      0 to 68 palette values into the VGA range 0 to 63. */
  lemma FadeEnds(p: Palette, c: nat)
    requires c < PALETTE_SIZE
    ensures FadeLevel(p, 0)[c] == 0
    ensures FadeLevel(p, FADE_IN_STEPS)[c] == FADE_IN_STEPS * p[c] / 16
    ensures p[c] <= 68 ==> FadeLevel(p, FADE_IN_STEPS)[c] <= 63
  {
  }

  /** The built-in palettes stay within 0 to 68, so their faded-in
      form is a valid VGA colour. */
  lemma BuiltInPalettesInRange(c: nat)
    requires c < PALETTE_SIZE
    ensures FadeLevel(INGAME_PALETTE, FADE_IN_STEPS)[c] <= 63
    ensures FadeLevel(DUKE3D_TEASER_PALETTE, FADE_IN_STEPS)[c] <= 63
  {
    FadeEnds(INGAME_PALETTE, c);
    FadeEnds(DUKE3D_TEASER_PALETTE, c);
  }

  /** Duke3dTeaserFadeIn(step): one fade-in step of the teaser palette;
      step 0 first zeroes the accumulator. The word accumulator wraps; the
      step shows Submitted of the new accumulator. */
  function Duke3dTeaserFadeIn(acc: Accumulator, step: byte): (acc': Accumulator)
    ensures forall c :: 0 <= c < PALETTE_SIZE ==>
      acc'[c] == Wrap16((if step == 0 then 0 else acc[c]) + DUKE3D_TEASER_PALETTE[c])
  {
    seq(PALETTE_SIZE, c requires 0 <= c < PALETTE_SIZE =>
      Wrap16((if step == 0 then 0 else acc[c]) + DUKE3D_TEASER_PALETTE[c]))
  }

  /** The accumulator after the calls with steps 0, 1, ..., n - 1. */
  function TeaserSteps(acc: Accumulator, n: nat): Accumulator
    requires n <= 256
  {
    if n == 0 then acc else Duke3dTeaserFadeIn(TeaserSteps(acc, n - 1), (n - 1) as byte)
  }

  lemma {:induction false} TeaserStepsComponent(acc: Accumulator, n: nat, c: nat)
    requires 1 <= n <= 256 && c < PALETTE_SIZE
    ensures TeaserSteps(acc, n)[c] == Wrap16(n * DUKE3D_TEASER_PALETTE[c])
  {
    var t := DUKE3D_TEASER_PALETTE[c];
    if n > 1 {
      TeaserStepsComponent(acc, n - 1, c);
      Wrap16Add((n - 1) * t, t);
      assert (n - 1) * t + t == n * t;
    }
  }

  /** Whatever the accumulator held before, calling the teaser step with 0,
      1, ..., n - 1 leaves n times the teaser palette in it, modulo 16 bits. */
  lemma TeaserStepsAccumulate(acc: Accumulator, n: nat)
    requires 1 <= n <= 256
    ensures forall c :: 0 <= c < PALETTE_SIZE ==> TeaserSteps(acc, n)[c] == Wrap16(n * DUKE3D_TEASER_PALETTE[c])
  {
    forall c | 0 <= c < PALETTE_SIZE
      ensures TeaserSteps(acc, n)[c] == Wrap16(n * DUKE3D_TEASER_PALETTE[c])
    {
      TeaserStepsComponent(acc, n, c);
    }
  }

  /** For the first 15 steps the teaser shows the same levels as a
      regular fade-in to its palette. */
  lemma TeaserFadeMatchesFadeIn(acc: Accumulator, n: nat)
    requires 1 <= n <= FADE_IN_STEPS
    ensures Submitted(TeaserSteps(acc, n)) == FadeLevel(DUKE3D_TEASER_PALETTE, n)
  {
    var a := TeaserSteps(acc, n);
    TeaserStepsAccumulate(acc, n);
    NoWrapWithinFadeIn(DUKE3D_TEASER_PALETTE, a, n);
    SubmittedLevel(DUKE3D_TEASER_PALETTE, a, n);
  }

  /** Within the 15 fade-in steps n times a palette component fits in 16
      bits, so the wrap-around never happens. */
  lemma NoWrapWithinFadeIn(p: Palette, a: Accumulator, n: nat)
    requires n <= FADE_IN_STEPS
    requires forall c :: 0 <= c < PALETTE_SIZE ==> a[c] == Wrap16(n * p[c])
    ensures forall c :: 0 <= c < PALETTE_SIZE ==> a[c] == n * p[c]
  {
    forall c | 0 <= c < PALETTE_SIZE
      ensures a[c] == n * p[c]
    {
      MulBound(n, 15, p[c]);
    }
  }
}
