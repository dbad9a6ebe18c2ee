/** The two regular-expression shapes the tutor matches with
    `String.prototype.match` (no `g` flag): `open(.*)close`, greedy, and
    `open(.*?)close`, lazy, where `open` is a literal text and `close` one
    literal character. `.` matches anything but a line terminator, and the
    engine reports the match at the leftmost position where one exists. */
module Pattern {
  import opened Types
  import opened Text

  datatype Mode = Greedy | Lazy

  /** A match starting at `start`; the matched text is `open + capture + [close]`. */
  datatype Match = Match(start: nat, capture: string)

  /** From position `a`, `n` characters without a line terminator and then `close`. */
  predicate ClosesAt(s: string, a: nat, n: nat, close: char) {
    a + n < |s| && s[a + n] == close && forall j :: a <= j < a + n ==> !IsLineTerminator(s[j])
  }

  /** Some `close` follows position `a` on the same line. */
  ghost predicate ClosesAfter(s: string, a: nat, close: char) {
    exists n: nat :: ClosesAt(s, a, n, close)
  }

  /** The pattern matches at position `i`, whatever the mode. */
  ghost predicate MatchesAt(s: string, open: string, close: char, i: nat) {
    OccursAt(s, open, i) && ClosesAfter(s, i + |open|, close)
  }

  /** `m` is the match the engine reports when it tries position `m.start`:
      the longest capture for `.*`, the shortest for `.*?`. */
  ghost predicate IsMatch(s: string, open: string, close: char, mode: Mode, m: Match) {
    var a := m.start + |open|;
    && OccursAt(s, open, m.start)
    && ClosesAt(s, a, |m.capture|, close)
    && s[a..a + |m.capture|] == m.capture
    && (mode == Greedy ==> forall n: nat :: n > |m.capture| ==> !ClosesAt(s, a, n, close))
    && (mode == Lazy ==> forall n: nat :: n < |m.capture| ==> !ClosesAt(s, a, n, close))
  }

  /** The first line terminator at or after `a`, or the end of `s`. */
  function LineEnd(s: string, a: nat): (e: nat)
    requires a <= |s|
    ensures a <= e <= |s|
    ensures forall j :: a <= j < e ==> !IsLineTerminator(s[j])
    ensures e < |s| ==> IsLineTerminator(s[e])
    decreases |s| - a
  {
    if a == |s| || IsLineTerminator(s[a]) then a else LineEnd(s, a + 1)
  }

  /** The last position in `[a, e)` holding `c`. */
  function LastIn(s: string, c: char, a: nat, e: nat): (r: Option<nat>)
    requires a <= e <= |s|
    ensures r.Some? ==> a <= r.value < e && s[r.value] == c
    ensures forall j :: a <= j < e && (r.None? || r.value < j) ==> s[j] != c
    decreases e - a
  {
    if e == a then None
    else if s[e - 1] == c then Some(e - 1)
    else LastIn(s, c, a, e - 1)
  }

  /** The first position in `[a, e)` holding `c`. */
  function FirstIn(s: string, c: char, a: nat, e: nat): (r: Option<nat>)
    requires a <= e <= |s|
    ensures r.Some? ==> a <= r.value < e && s[r.value] == c
    ensures forall j :: a <= j < e && (r.None? || j < r.value) ==> s[j] != c
    decreases e - a
  {
    if e == a then None
    else if s[a] == c then Some(a)
    else FirstIn(s, c, a + 1, e)
  }

  /** A closing character can only be found on the line the capture starts on. */
  lemma CloseBeforeLineEnd(s: string, a: nat, n: nat, close: char)
    requires a <= |s| && !IsLineTerminator(close)
    requires ClosesAt(s, a, n, close)
    ensures a + n < LineEnd(s, a)
  {
  }

  /** The engine's attempt at one position: the capture runs from after
      `open` to the last (greedy) or first (lazy) `close` on the same line. */
  function TryAt(s: string, open: string, close: char, mode: Mode, i: nat): (r: Option<Match>)
    requires !IsLineTerminator(close)
    ensures r.Some? ==> r.value.start == i && IsMatch(s, open, close, mode, r.value)
    ensures r.None? ==> !MatchesAt(s, open, close, i)
  {
    if !OccursAt(s, open, i) then None
    else
      var a := i + |open|;
      var e := LineEnd(s, a);
      var hit := if mode == Greedy then LastIn(s, close, a, e) else FirstIn(s, close, a, e);
      assert forall n: nat :: ClosesAt(s, a, n, close) ==> a + n < e && s[a + n] == close by {
        forall n | ClosesAt(s, a, n, close) ensures a + n < e {
          CloseBeforeLineEnd(s, a, n, close);
        }
      }
      match hit
      case None => None
      case Some(j) =>
        assert ClosesAt(s, a, j - a, close);
        Some(Match(i, s[a..j]))
  }

  /** The leftmost match at or after position `k`. */
  function FindFrom(s: string, open: string, close: char, mode: Mode, k: nat): (r: Option<Match>)
    requires !IsLineTerminator(close)
    ensures r.Some? ==> k <= r.value.start && IsMatch(s, open, close, mode, r.value)
    ensures r.Some? ==> forall i: nat :: k <= i < r.value.start ==> !MatchesAt(s, open, close, i)
    ensures r.None? ==> forall i: nat :: k <= i ==> !MatchesAt(s, open, close, i)
    decreases |s| + 1 - k
  {
    if k > |s| then None
    else
      match TryAt(s, open, close, mode, k)
      case Some(m) => Some(m)
      case None => FindFrom(s, open, close, mode, k + 1)
  }

  /** `s.match(pattern)`: the leftmost match in the whole string. */
  function Find(s: string, open: string, close: char, mode: Mode): (r: Option<Match>)
    requires !IsLineTerminator(close)
    ensures r.Some? ==> IsMatch(s, open, close, mode, r.value)
    ensures r.Some? ==> forall i: nat :: i < r.value.start ==> !MatchesAt(s, open, close, i)
    ensures r.None? ==> forall i: nat :: !MatchesAt(s, open, close, i)
  {
    FindFrom(s, open, close, mode, 0)
  }

  /** The text `m` matched. */
  function Matched(open: string, close: char, m: Match): string {
    open + m.capture + [close]
  }

  /** The matched text stands at the start of the match. */
  lemma MatchOccurs(s: string, open: string, close: char, mode: Mode, m: Match)
    requires IsMatch(s, open, close, mode, m)
    ensures OccursAt(s, Matched(open, close, m), m.start)
  {
    var w := Matched(open, close, m);
    var a := m.start + |open|;
    assert s[m.start..m.start + |w|] == s[m.start..a] + s[a..a + |m.capture|] + [s[a + |m.capture|]];
  }

  /** Wherever the matched text occurs, the pattern matches. */
  lemma OccurrenceMatches(s: string, open: string, close: char, mode: Mode, m: Match, p: nat)
    requires IsMatch(s, open, close, mode, m)
    requires OccursAt(s, Matched(open, close, m), p)
    ensures MatchesAt(s, open, close, p)
  {
    var w := Matched(open, close, m);
    var a := m.start + |open|;
    assert s[p..p + |open|] == w[..|open|];
    forall j | p + |open| <= j < p + |open| + |m.capture|
      ensures !IsLineTerminator(s[j])
    {
      assert s[j] == w[j - p] == m.capture[j - p - |open|] == s[a + (j - p - |open|)];
    }
    assert s[p + |open| + |m.capture|] == w[|w| - 1] == close;
    assert ClosesAt(s, p + |open|, |m.capture|, close);
  }

  /** The first occurrence of the matched text is the match itself: no copy of
      it can stand further left, since the engine would have matched there. */
  lemma FirstOccurrenceIsMatch(s: string, open: string, close: char, mode: Mode, m: Match)
    requires IsMatch(s, open, close, mode, m)
    requires forall i: nat :: i < m.start ==> !MatchesAt(s, open, close, i)
    ensures IndexOfFrom(s, Matched(open, close, m), 0) == Some(m.start)
  {
    MatchOccurs(s, open, close, mode, m);
    forall p: nat | OccursAt(s, Matched(open, close, m), p)
      ensures MatchesAt(s, open, close, p)
    {
      OccurrenceMatches(s, open, close, mode, m, p);
    }
  }
}
