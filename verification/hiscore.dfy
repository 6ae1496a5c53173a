/** The per-episode high score list: ten score and name pairs, highest first,
    and the insertion of the player's score into it. Names are modelled as
    the string values of their buffers. */
module HiScore {
  import opened Words
  import opened CoreUtil
  import opened Wrappers

  const NUM_HIGH_SCORE_ENTRIES: nat := 10
  const HIGH_SCORE_NAME_MAX_LEN: nat := 15

  datatype Entry = Entry(score: dword, name: seq<char>)

  /** gmHighScoreList together with gmHighScoreNames. */
  type Table = t: seq<Entry> | |t| == NUM_HIGH_SCORE_ENTRIES witness seq(NUM_HIGH_SCORE_ENTRIES, _ => Entry(0, []))

  function Scores(t: seq<Entry>): (s: seq<dword>)
    ensures |s| == |t|
    ensures forall k :: 0 <= k < |t| ==> s[k] == t[k].score
  {
    seq(|t|, k requires 0 <= k < |t| => t[k].score)
  }

  /** Highest score first; equal scores may follow each other. */
  predicate Descending(t: seq<Entry>)
  {
    forall i, j :: 0 <= i < j < |t| ==> t[i].score >= t[j].score
  }

  /** ReadHighScoreList when the episode has no list file yet: every score is
      0 and every name is empty. */
  function EmptyHighScoreList(): (t: Table)
  {
    seq(NUM_HIGH_SCORE_ENTRIES, _ => Entry(0, []))
  }

  /** The fresh list is ordered, and any positive score takes its top entry
      while a score of 0 enters nowhere. */
  lemma EmptyListAcceptsAnyPositiveScore(score: dword)
    ensures Descending(EmptyHighScoreList())
    ensures score > 0 <==> score > EmptyHighScoreList()[0].score
    ensures forall k :: 0 <= k < NUM_HIGH_SCORE_ENTRIES ==> EmptyHighScoreList()[k].name == []
  {
  }

  /** The entry a shifted name moves into: CopyStringUppercased from the
      entry above. */
  function Shifted(e: Entry): Entry
  {
    Entry(e.score, Uppercased(e.name))
  }

  /** TryAddHighScore for the player's score: the first entry the score is
      strictly greater than takes the score with an empty name (which the
      name entry dialog then fills in), the entries from there on move down
      by one with their names uppercased, and the last one drops off. A score
      no entry is below leaves the list alone. The slot handed to the name
      entry is returned. */
  method TryAddHighScore(t: Table, score: dword) returns (t': Table, slot: Option<nat>)
    ensures slot.None? <==> forall k :: 0 <= k < NUM_HIGH_SCORE_ENTRIES ==> score <= t[k].score
    ensures slot.None? ==> t' == t
    ensures slot.Some? ==>
      var i := slot.value;
      i < NUM_HIGH_SCORE_ENTRIES && score > t[i].score &&
      (forall k :: 0 <= k < i ==> score <= t[k].score) &&
      t'[..i] == t[..i] && t'[i] == Entry(score, []) &&
      forall k :: i < k < NUM_HIGH_SCORE_ENTRIES ==> t'[k] == Shifted(t[k - 1])
  {
    var i := 0;
    while i < NUM_HIGH_SCORE_ENTRIES
      invariant 0 <= i <= NUM_HIGH_SCORE_ENTRIES
      invariant forall k :: 0 <= k < i ==> score <= t[k].score
    {
      if score > t[i].score {
        var u := t;
        var j := NUM_HIGH_SCORE_ENTRIES - 1;
        while j > i
          invariant i <= j < NUM_HIGH_SCORE_ENTRIES
          invariant |u| == NUM_HIGH_SCORE_ENTRIES
          invariant forall k :: 0 <= k <= j ==> u[k] == t[k]
          invariant forall k :: j < k < NUM_HIGH_SCORE_ENTRIES ==> u[k] == Shifted(t[k - 1])
        {
          u := u[j := Shifted(u[j - 1])];
          j := j - 1;
        }
        u := u[i := Entry(score, [])];
        t' := u;
        slot := Some(i);
        return;
      }
      i := i + 1;
    }
    t' := t;
    slot := None;
  }

  /** The list after an insertion at slot i, as one sequence expression. */
  lemma InsertedScores(t: Table, t': Table, score: dword, i: nat)
    requires i < NUM_HIGH_SCORE_ENTRIES
    requires t'[..i] == t[..i] && t'[i] == Entry(score, [])
    requires forall k :: i < k < NUM_HIGH_SCORE_ENTRIES ==> t'[k] == Shifted(t[k - 1])
    ensures Scores(t') == Scores(t)[..i] + [score] + Scores(t)[i..NUM_HIGH_SCORE_ENTRIES - 1]
  {
    var s := Scores(t)[..i] + [score] + Scores(t)[i..NUM_HIGH_SCORE_ENTRIES - 1];
    assert |s| == NUM_HIGH_SCORE_ENTRIES;
    forall k | 0 <= k < NUM_HIGH_SCORE_ENTRIES
      ensures Scores(t')[k] == s[k]
    {
      if k < i {
        assert t'[k] == t'[..i][k];
      } else if i < k {
        assert s[k] == Scores(t)[i..NUM_HIGH_SCORE_ENTRIES - 1][k - i - 1];
      }
    }
  }

  /** An insertion keeps a descending list descending, puts the new score
      below every entry of at least its value and above every lower one, and
      as a multiset of scores replaces the old last score by the new one:
      nothing but the lowest entry is lost. */
  lemma TryAddHighScoreKeepsOrder(t: Table, t': Table, score: dword, i: nat)
    requires Descending(t)
    requires i < NUM_HIGH_SCORE_ENTRIES && score > t[i].score
    requires forall k :: 0 <= k < i ==> score <= t[k].score
    requires t'[..i] == t[..i] && t'[i] == Entry(score, [])
    requires forall k :: i < k < NUM_HIGH_SCORE_ENTRIES ==> t'[k] == Shifted(t[k - 1])
    ensures Descending(t')
    ensures forall k :: i <= k < NUM_HIGH_SCORE_ENTRIES ==> t[k].score < score
    ensures multiset(Scores(t')) ==
      multiset(Scores(t)) - multiset{t[NUM_HIGH_SCORE_ENTRIES - 1].score} + multiset{score}
  {
    InsertionDescending(t, t', score, i);
    InsertionMultiset(t, t', score, i);
  }

  lemma InsertionDescending(t: Table, t': Table, score: dword, i: nat)
    requires Descending(t)
    requires i < NUM_HIGH_SCORE_ENTRIES && score > t[i].score
    requires forall k :: 0 <= k < i ==> score <= t[k].score
    requires t'[..i] == t[..i] && t'[i] == Entry(score, [])
    requires forall k :: i < k < NUM_HIGH_SCORE_ENTRIES ==> t'[k] == Shifted(t[k - 1])
    ensures Descending(t')
  {
    forall a, b | 0 <= a < b < NUM_HIGH_SCORE_ENTRIES
      ensures t'[a].score >= t'[b].score
    {
      var sa := if a < i then t[a].score else if a == i then score else t[a - 1].score;
      var sb := if b < i then t[b].score else if b == i then score else t[b - 1].score;
      if a < i {
        assert t'[a] == t'[..i][a];
      }
      if b < i {
        assert t'[b] == t'[..i][b];
      }
      assert t'[a].score == sa && t'[b].score == sb;
      if b > i {
        assert t[i].score >= t[b - 1].score;
        if a != i {
          var a' := if a < i then a else a - 1;
          assert t[a'].score >= t[b - 1].score;
        }
      } else if b < i {
        assert t[a].score >= t[b].score;
      }
    }
  }

  lemma InsertionMultiset(t: Table, t': Table, score: dword, i: nat)
    requires i < NUM_HIGH_SCORE_ENTRIES
    requires t'[..i] == t[..i] && t'[i] == Entry(score, [])
    requires forall k :: i < k < NUM_HIGH_SCORE_ENTRIES ==> t'[k] == Shifted(t[k - 1])
    ensures multiset(Scores(t')) ==
      multiset(Scores(t)) - multiset{t[NUM_HIGH_SCORE_ENTRIES - 1].score} + multiset{score}
  {
    InsertedScores(t, t', score, i);
    var s := Scores(t);
    var last := s[NUM_HIGH_SCORE_ENTRIES - 1];
    assert s == s[..i] + s[i..NUM_HIGH_SCORE_ENTRIES - 1] + [last];
    assert multiset(s) == multiset(s[..i]) + multiset(s[i..NUM_HIGH_SCORE_ENTRIES - 1]) + multiset{last};
    assert multiset(Scores(t')) == multiset(s[..i]) + multiset{score} + multiset(s[i..NUM_HIGH_SCORE_ENTRIES - 1]);
  }

  /** DrawHighScoreList: the text row of entry i; a blank row separates the
      top entry from the others. */
  function HighScoreRow(i: nat): (y: nat)
    requires i < NUM_HIGH_SCORE_ENTRIES
  {
    i + (if i >= 1 then 1 else 0) + 6
  }

  /** The rows run top to bottom in list order from row 6 to row 16, with
      row 7 left empty. */
  lemma HighScoreRowsOrdered(i: nat, j: nat)
    requires i < j < NUM_HIGH_SCORE_ENTRIES
    ensures HighScoreRow(i) < HighScoreRow(j)
    ensures HighScoreRow(0) == 6 && HighScoreRow(NUM_HIGH_SCORE_ENTRIES - 1) == 16
    ensures HighScoreRow(i) != 7 && HighScoreRow(j) != 7
  {
  }
}
