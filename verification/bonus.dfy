/** The bonus screen between levels: which of the seven secret bonuses the
    level's statistics earn, and the counting of 100000 points per bonus
    into the score. */
module Bonus {
  import opened Words

  /** The level statistics the bonus screen reads. */
  datatype LevelStats = LevelStats(
    camerasDestroyed: word, camerasInLevel: word,
    playerTookDamage: bool,
    weaponsCollected: word, weaponsInLevel: word,
    merchCollected: word, merchInLevel: word,
    turretsDestroyed: word, turretsInLevel: word,
    bombBoxesLeft: word, orbsLeft: word)

  /** A "collect or destroy them all" bonus: every one done, and there was
      at least one. */
  predicate AllOf(done: word, total: word)
  {
    done == total && done != 0
  }

  /** Whether bonus n (1 to 7) applies, in the screen's own order. */
  predicate Earned(s: LevelStats, n: nat)
  {
    match n
    case 1 => AllOf(s.camerasDestroyed, s.camerasInLevel)
    case 2 => !s.playerTookDamage
    case 3 => AllOf(s.weaponsCollected, s.weaponsInLevel)
    case 4 => AllOf(s.merchCollected, s.merchInLevel)
    case 5 => AllOf(s.turretsDestroyed, s.turretsInLevel)
    case 6 => s.bombBoxesLeft == 0
    case 7 => s.orbsLeft == 0
    case _ => false
  }

  /** The bonuses from n to 7 that apply, in increasing order. */
  function EarnedFrom(s: LevelStats, n: nat): (b: seq<nat>)
    requires 1 <= n <= 8
    ensures forall k :: 0 <= k < |b| ==> n <= b[k] <= 7 && Earned(s, b[k])
    ensures forall k :: 0 <= k < |b| - 1 ==> b[k] < b[k + 1]
    decreases 8 - n
  {
    if n == 8 then []
    else if Earned(s, n) then [n] + EarnedFrom(s, n + 1)
    else EarnedFrom(s, n + 1)
  }

  /** The sequence of ApplyBonus calls ShowBonusScreen makes: the earned
      bonuses in order, or the single "no bonus" animation 0. */
  function BonusSequence(s: LevelStats): (b: seq<nat>)
  {
    var earned := EarnedFrom(s, 1);
    if earned == [] then [0] else earned
  }

  /** A bonus is granted exactly when its condition holds. */
  lemma {:induction false} EarnedFromIff(s: LevelStats, n: nat, m: nat)
    requires 1 <= n <= 8
    ensures m in EarnedFrom(s, n) <==> n <= m <= 7 && Earned(s, m)
    decreases 8 - n
  {
    if n < 8 {
      EarnedFromIff(s, n + 1, m);
    }
  }

  /** Bonuses 1, 3, 4 and 5 need the whole category done and non-empty, 2
      needs no damage taken, 6 and 7 only need nothing left, so a level
      without any bomb boxes or orbs grants them. */
  lemma BonusConditions(s: LevelStats)
    ensures 1 in BonusSequence(s) <==> s.camerasDestroyed == s.camerasInLevel && s.camerasInLevel != 0
    ensures 2 in BonusSequence(s) <==> !s.playerTookDamage
    ensures 3 in BonusSequence(s) <==> s.weaponsCollected == s.weaponsInLevel && s.weaponsInLevel != 0
    ensures 4 in BonusSequence(s) <==> s.merchCollected == s.merchInLevel && s.merchInLevel != 0
    ensures 5 in BonusSequence(s) <==> s.turretsDestroyed == s.turretsInLevel && s.turretsInLevel != 0
    ensures 6 in BonusSequence(s) <==> s.bombBoxesLeft == 0
    ensures 7 in BonusSequence(s) <==> s.orbsLeft == 0
  {
    EarnedFromIff(s, 1, 1);
    EarnedFromIff(s, 1, 2);
    EarnedFromIff(s, 1, 3);
    EarnedFromIff(s, 1, 4);
    EarnedFromIff(s, 1, 5);
    EarnedFromIff(s, 1, 6);
    EarnedFromIff(s, 1, 7);
  }

  /** The "no bonus" animation plays exactly when nothing applies, and never
      together with a bonus. */
  lemma NoBonusAlone(s: LevelStats)
    ensures 0 in BonusSequence(s) <==> BonusSequence(s) == [0]
    ensures BonusSequence(s) == [0] <==> forall n :: 1 <= n <= 7 ==> !Earned(s, n)
  {
    var b := EarnedFrom(s, 1);
    forall n | 1 <= n <= 7
      ensures Earned(s, n) <==> n in b
    {
      EarnedFromIff(s, 1, n);
    }
    EarnedFromIff(s, 1, 0);
    if b != [] {
      assert b[0] in b;
    }
  }

  const BONUS_POINTS: nat := 100000
  const BONUS_STEP: nat := 1000
  const BONUS_STEPS: nat := 100

  /** One frame of the counting animation: the score shown, and the points
      shown as still to come. */
  datatype CountFrame = CountFrame(score: dword, remaining: int)

  /** ApplyBonus(bonusNum) on the score: for a bonus, 100 steps of +1000
      (with the dword's wrap-around), each showing the new score and the
      points still to add; the "no bonus" animation leaves the score alone. */
  method ApplyBonus(score: dword, bonusNum: byte) returns (score': dword, frames: seq<CountFrame>)
    ensures bonusNum == 0 ==> score' == score && frames == []
    ensures bonusNum != 0 ==> score' == Wrap32(score + BONUS_POINTS) && |frames| == BONUS_STEPS
    ensures forall k :: 0 <= k < |frames| ==>
      frames[k].score == Wrap32(score + BONUS_POINTS - frames[k].remaining) &&
      frames[k].remaining == BONUS_POINTS - BONUS_STEP * (k + 1)
  {
    score' := score;
    frames := [];
    if bonusNum != 0 {
      var i := 0;
      while i < BONUS_STEPS
        invariant 0 <= i <= BONUS_STEPS
        invariant score' == Wrap32(score + BONUS_STEP * i)
        invariant |frames| == i
        invariant forall k :: 0 <= k < i ==>
          frames[k].score == Wrap32(score + BONUS_POINTS - frames[k].remaining) &&
          frames[k].remaining == BONUS_POINTS - BONUS_STEP * (k + 1)
      {
        score' := Wrap32(score' + BONUS_STEP);
        frames := frames + [CountFrame(score', 99000 - i * 1000)];
        i := i + 1;
      }
    }
  }

  /** The score after applying a sequence of bonus animations. */
  function ScoreAfter(score: dword, bonuses: seq<nat>): dword
    decreases |bonuses|
  {
    if bonuses == [] then score
    else ScoreAfter(if bonuses[0] == 0 then score else Wrap32(score + BONUS_POINTS), bonuses[1..])
  }

  /** ShowBonusScreen adds 100000 points per bonus earned, modulo the
      dword's range, and nothing when none is. */
  lemma {:induction false} ScoreAfterCountsBonuses(score: dword, bonuses: seq<nat>)
    requires forall k :: 0 <= k < |bonuses| ==> bonuses[k] != 0
    ensures ScoreAfter(score, bonuses) == Wrap32(score + BONUS_POINTS * |bonuses|)
    decreases |bonuses|
  {
    if bonuses != [] {
      var n := |bonuses| - 1;
      ScoreAfterCountsBonuses(Wrap32(score + BONUS_POINTS), bonuses[1..]);
      Wrap32Add(score + BONUS_POINTS, BONUS_POINTS * n);
      assert BONUS_POINTS * |bonuses| == BONUS_POINTS + BONUS_POINTS * n;
    }
  }

  /** The score after the bonus sequence built from a list of earned
      bonuses. */
  lemma ScoreOfEarned(score: dword, b: seq<nat>, r: seq<nat>)
    requires forall k :: 0 <= k < |b| ==> b[k] != 0
    requires r == if b == [] then [0] else b
    ensures ScoreAfter(score, r) == Wrap32(score + BONUS_POINTS * |b|)
  {
    if b == [] {
      assert ScoreAfter(score, [0]) == ScoreAfter(score, []);
    } else {
      ScoreAfterCountsBonuses(score, b);
    }
  }

  /** The bonus screen's effect on the score: 100000 per bonus that applies. */
  lemma ShowBonusScreenScore(s: LevelStats, score: dword)
    ensures ScoreAfter(score, BonusSequence(s)) == Wrap32(score + BONUS_POINTS * |EarnedFrom(s, 1)|)
  {
    ScoreOfEarned(score, EarnedFrom(s, 1), BonusSequence(s));
  }
}
