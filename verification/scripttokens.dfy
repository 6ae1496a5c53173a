/** Token navigation over the in-memory script text: distances to the next
    separator or to a token searched backwards/forwards, and the trick of
    temporarily NUL-terminating a token or line in place. Positions are
    indices into the text buffer; none of these routines checks bounds, so
    each requires that what it scans for exists. */
module ScriptTokens {
  import opened Words
  import opened CoreUtil

  /** Index of the first character at or after pos that is in stops. */
  function FirstOf(text: seq<char>, pos: nat, stops: set<char>): (j: nat)
    requires exists k :: pos <= k < |text| && text[k] in stops
    ensures pos <= j < |text| && text[j] in stops
    ensures forall k :: pos <= k < j ==> text[k] !in stops
    decreases |text| - pos
  {
    if text[pos] in stops then pos
    else
      assert exists k :: pos + 1 <= k < |text| && text[k] in stops by {
        var k :| pos <= k < |text| && text[k] in stops;
        assert k != pos;
      }
      FirstOf(text, pos + 1, stops)
  }

  /** Characters that separate tokens when navigating. */
  const SEPARATORS: set<char> := {' ', '\n'}

  /** FindNextToken: 1 + the distance to the first space or line feed, i.e.
      the step from the start of the current token to the start of the next. */
  function FindNextToken(text: seq<char>, pos: nat): (d: nat)
    requires exists k :: pos <= k < |text| && text[k] in SEPARATORS
    ensures d >= 1
    ensures pos + d - 1 < |text| && text[pos + d - 1] in SEPARATORS
    ensures forall k :: pos <= k < pos + d - 1 ==> text[k] !in SEPARATORS
  {
    FirstOf(text, pos, SEPARATORS) - pos + 1
  }

  /** A script buffer ends in a NUL, so every suffix is a terminated string. */
  predicate ScriptBuffer(text: seq<char>)
  {
    |text| >= 1 && text[|text| - 1] == NUL
  }

  lemma SuffixTerminated(text: seq<char>, q: nat)
    requires ScriptBuffer(text) && q < |text|
    ensures Terminated(text[q..])
  {
    assert text[q..][|text| - 1 - q] == NUL;
  }

  /** The token starts right after the separator at q. */
  predicate TokenAt(token: seq<char>, text: seq<char>, q: nat)
    requires ScriptBuffer(text) && Terminated(token) && Strlen(token) > 0
  {
    q + 1 < |text| && text[q] in SEPARATORS &&
    (SuffixTerminated(text, q + 1); StringStartsWith(token, text[q + 1..]))
  }

  /** Scan downwards from q for a separator followed by the token. */
  function MatchBackwards(token: seq<char>, text: seq<char>, q: nat): (m: nat)
    requires ScriptBuffer(text) && Terminated(token) && Strlen(token) > 0
    requires q < |text|
    requires exists k :: 0 <= k <= q && TokenAt(token, text, k)
    ensures m <= q && TokenAt(token, text, m)
    ensures forall k :: m < k <= q ==> !TokenAt(token, text, k)
    decreases q
  {
    if TokenAt(token, text, q) then q
    else
      assert q > 0;
      MatchBackwards(token, text, q - 1)
  }

  /** FindTokenBackwards: the smallest d such that the character d - 1
      places before pos is a separator followed by the token. */
  function FindTokenBackwards(token: seq<char>, text: seq<char>, pos: nat): (d: nat)
    requires ScriptBuffer(text) && Terminated(token) && Strlen(token) > 0
    requires pos < |text|
    requires exists k :: 0 <= k <= pos && TokenAt(token, text, k)
    ensures 1 <= d <= pos + 1 && TokenAt(token, text, pos - (d - 1))
    ensures forall k :: pos - (d - 1) < k <= pos ==> !TokenAt(token, text, k)
  {
    pos - MatchBackwards(token, text, pos) + 1
  }

  /** The page marker that FindTokenForwards counts. */
  const PAGE_MARKER: seq<char> := "//APAGE" + [NUL]

  lemma PageMarkerTerminated()
    ensures Terminated(PAGE_MARKER) && Strlen(PAGE_MARKER) == 7
  {
    StrlenUnique(PAGE_MARKER, 7);
  }

  /** A non-target page marker passed while scanning forwards. */
  predicate PageAt(token: seq<char>, text: seq<char>, q: nat)
    requires ScriptBuffer(text) && Terminated(token) && Strlen(token) > 0
  {
    !TokenAt(token, text, q) && (PageMarkerTerminated(); TokenAt(PAGE_MARKER, text, q))
  }

  /** Number of page markers at positions lo..hi-1. */
  function PagesBetween(token: seq<char>, text: seq<char>, lo: nat, hi: nat): nat
    requires ScriptBuffer(text) && Terminated(token) && Strlen(token) > 0
    requires lo <= hi
    decreases hi - lo
  {
    if lo == hi then 0
    else (if PageAt(token, text, lo) then 1 else 0) + PagesBetween(token, text, lo + 1, hi)
  }

  /** The forward scan: position of the match and page markers passed. */
  function MatchForwards(token: seq<char>, text: seq<char>, q: nat): (r: (nat, nat))
    requires ScriptBuffer(text) && Terminated(token) && Strlen(token) > 0
    requires exists k :: q <= k < |text| && TokenAt(token, text, k)
    ensures q <= r.0 < |text| && TokenAt(token, text, r.0)
    ensures forall k :: q <= k < r.0 ==> !TokenAt(token, text, k)
    ensures r.1 == PagesBetween(token, text, q, r.0)
    decreases |text| - q
  {
    if TokenAt(token, text, q) then (q, 0)
    else
      assert exists k :: q + 1 <= k < |text| && TokenAt(token, text, k) by {
        var k :| q <= k < |text| && TokenAt(token, text, k);
        assert k != q;
      }
      var rest := MatchForwards(token, text, q + 1);
      (rest.0, (if PageAt(token, text, q) then 1 else 0) + rest.1)
  }

  /** FindTokenForwards: the distance to the first separator followed by the
      token, and the script page index advanced (as a byte) once for every
      other "//APAGE" passed on the way. */
  function FindTokenForwards(token: seq<char>, text: seq<char>, pos: nat, pageIndex: byte)
    : (r: (nat, byte))
    requires ScriptBuffer(text) && Terminated(token) && Strlen(token) > 0
    requires exists k :: pos <= k < |text| && TokenAt(token, text, k)
    ensures r.0 >= 1 && TokenAt(token, text, pos + r.0 - 1)
    ensures forall k :: pos <= k < pos + r.0 - 1 ==> !TokenAt(token, text, k)
    ensures r.1 == Wrap8(pageIndex + PagesBetween(token, text, pos, pos + r.0 - 1))
  {
    var m := MatchForwards(token, text, pos);
    (m.0 - pos + 1, Wrap8(pageIndex + m.1))
  }

  /** The text after a terminate call and the character it replaced. */
  datatype Split = Split(buffer: seq<char>, originalEnd: char)

  /** Replace the first character in stops, at or after pos, by a NUL. */
  function TerminateAtFirst(text: seq<char>, pos: nat, stops: set<char>): (t: Split)
    requires exists k :: pos <= k < |text| && text[k] in stops
    ensures |t.buffer| == |text| && t.originalEnd in stops
    ensures var j := FirstOf(text, pos, stops);
      t.buffer[j] == NUL && t.originalEnd == text[j] &&
      forall k :: 0 <= k < |text| && k != j ==> t.buffer[k] == text[k]
  {
    var j := FirstOf(text, pos, stops);
    Split(text[j := NUL], text[j])
  }

  /** TerminateStrAfterToken: ends the string at the first space or
      carriage return. */
  function TerminateStrAfterToken(text: seq<char>, pos: nat): (t: Split)
    requires exists k :: pos <= k < |text| && text[k] in {' ', '\r'}
    ensures t.originalEnd == ' ' || t.originalEnd == '\r'
    ensures var j := FirstOf(text, pos, {' ', '\r'});
      t.buffer == text[j := NUL] && t.originalEnd == text[j]
  {
    TerminateAtFirst(text, pos, {' ', '\r'})
  }

  /** TerminateStrAtEOL: ends the string at the first carriage return. */
  function TerminateStrAtEOL(text: seq<char>, pos: nat): (t: Split)
    requires exists k :: pos <= k < |text| && text[k] in {'\r'}
    ensures t.originalEnd == '\r'
    ensures var j := FirstOf(text, pos, {'\r'});
      t.buffer == text[j := NUL] && t.originalEnd == text[j]
  {
    TerminateAtFirst(text, pos, {'\r'})
  }

  /** UnterminateStr: overwrite the first NUL at or after pos with newEnd. */
  function UnterminateStr(text: seq<char>, pos: nat, newEnd: char): (u: seq<char>)
    requires exists k :: pos <= k < |text| && text[k] == NUL
    ensures |u| == |text|
    ensures exists k :: pos <= k < |text| && text[k] in {NUL}
    ensures var j := FirstOf(text, pos, {NUL});
      && text[j] == NUL && (forall k :: pos <= k < j ==> text[k] != NUL)
      && u[j] == newEnd && (forall k :: 0 <= k < |text| && k != j ==> u[k] == text[k])
  {
    assert exists k :: pos <= k < |text| && text[k] in {NUL};
    text[FirstOf(text, pos, {NUL}) := newEnd]
  }

  /** Terminating at the first stop character and then unterminating with the
      returned character restores the buffer, provided no NUL lies between
      pos and that stop character. */
  lemma TerminateRoundTrip(text: seq<char>, pos: nat, stops: set<char>)
    requires exists k :: pos <= k < |text| && text[k] in stops
    requires forall k :: pos <= k < FirstOf(text, pos, stops) ==> text[k] != NUL
    ensures var t := TerminateAtFirst(text, pos, stops);
      (exists k :: pos <= k < |t.buffer| && t.buffer[k] == NUL) &&
      UnterminateStr(t.buffer, pos, t.originalEnd) == text
  {
    var j := FirstOf(text, pos, stops);
    var t := TerminateAtFirst(text, pos, stops);
    assert t.buffer[j] == NUL;
    assert exists k :: pos <= k < |t.buffer| && t.buffer[k] in {NUL};
    var z := FirstOf(t.buffer, pos, {NUL});
    assert forall k :: pos <= k < j ==> t.buffer[k] != NUL;
    assert !(z < j);
    assert !(j < z);
    assert t.buffer[j := t.originalEnd] == text;
  }

  /** A NUL before the stop character breaks the round trip: unterminating
      then overwrites that earlier NUL instead. */
  lemma TerminateRoundTripNeedsNoNul(text: seq<char>, pos: nat, stops: set<char>, k: nat)
    requires exists k :: pos <= k < |text| && text[k] in stops
    requires NUL !in stops
    requires pos <= k < FirstOf(text, pos, stops) && text[k] == NUL
    ensures var t := TerminateAtFirst(text, pos, stops);
      (exists k :: pos <= k < |t.buffer| && t.buffer[k] == NUL) &&
      UnterminateStr(t.buffer, pos, t.originalEnd) != text
  {
    var j := FirstOf(text, pos, stops);
    var t := TerminateAtFirst(text, pos, stops);
    assert t.buffer[k] == NUL;
    assert exists k :: pos <= k < |t.buffer| && t.buffer[k] in {NUL};
    var u := UnterminateStr(t.buffer, pos, t.originalEnd);
    assert u[j] == NUL;
    assert text[j] in stops;
  }
}
