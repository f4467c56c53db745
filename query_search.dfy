/**
 * `re.search(key + r'(\d+)', query)` for a literal key: the leftmost position where the
 * key is followed by at least one digit, with the greedy run of digits after it.
 * As in the regex, nothing is required before the key, so `xuploaded=5` matches `uploaded=`.
 */
module QuerySearch {
  import opened Outcomes
  import opened Decimal

  /** A match: where `key` starts, and the digits captured by group 1. */
  datatype Match = Match(start: nat, digits: seq<char>)

  /**
   * `key` occurs at `i` and a digit follows it. Stated by slice, as the regex reads it;
   * `Replace.OccursAt` tests character by character for cheaper proofs, and
   * `Replace.OccursAtSlice` shows the two agree.
   */
  predicate KeyDigitsAt(s: seq<char>, key: seq<char>, i: nat) {
    i + |key| < |s| && s[i..i + |key|] == key && IsDigit(s[i + |key|])
  }

  /** `m.digits` is the longest run of digits starting right after the key at `m.start`. */
  ghost predicate CapturesRun(s: seq<char>, key: seq<char>, m: Match) {
    var from, end := m.start + |key|, m.start + |key| + |m.digits|;
    && |m.digits| > 0
    && AllDigits(m.digits)
    && end <= |s|
    && s[from..end] == m.digits
    && (end == |s| || !IsDigit(s[end]))
  }

  /** What `re.search` returns: the leftmost start, with the greedy digit run. */
  ghost predicate IsLeftmostMatch(s: seq<char>, key: seq<char>, m: Match) {
    && KeyDigitsAt(s, key, m.start)
    && (forall i: nat :: i < m.start ==> !KeyDigitsAt(s, key, i))
    && CapturesRun(s, key, m)
  }

  /** The end of the run of digits that starts at `j`. */
  function DigitRunEnd(s: seq<char>, j: nat): (e: nat)
    requires j <= |s|
    ensures j <= e <= |s|
    ensures AllDigits(s[j..e])
    ensures e == |s| || !IsDigit(s[e])
    decreases |s| - j
  {
    if j < |s| && IsDigit(s[j]) then
      var e := DigitRunEnd(s, j + 1);
      assert s[j..e] == [s[j]] + s[j + 1..e];
      e
    else j
  }

  function SearchFrom(s: seq<char>, key: seq<char>, i: nat): (r: Option<Match>)
    requires i <= |s|
    ensures r.Some? ==> i <= r.value.start && KeyDigitsAt(s, key, r.value.start) && CapturesRun(s, key, r.value)
    ensures r.Some? ==> forall k: nat :: i <= k < r.value.start ==> !KeyDigitsAt(s, key, k)
    ensures r.None? ==> forall k: nat :: i <= k ==> !KeyDigitsAt(s, key, k)
    decreases |s| - i
  {
    if i == |s| then None
    else if KeyDigitsAt(s, key, i) then Some(Match(i, s[i + |key|..DigitRunEnd(s, i + |key|)]))
    else SearchFrom(s, key, i + 1)
  }

  /** `re.search`: the leftmost match when there is one, and None exactly when there is none. */
  function Search(s: seq<char>, key: seq<char>): (r: Option<Match>)
    ensures r.Some? ==> IsLeftmostMatch(s, key, r.value)
    ensures r.None? <==> forall k: nat :: !KeyDigitsAt(s, key, k)
  {
    SearchFrom(s, key, 0)
  }

  /** The leftmost greedy match is determined by the text: there is only one. */
  lemma {:induction false} LeftmostMatchUnique(s: seq<char>, key: seq<char>, m1: Match, m2: Match)
    requires IsLeftmostMatch(s, key, m1) && IsLeftmostMatch(s, key, m2)
    ensures m1 == m2
  {
    assert m1.start == m2.start;
    var from := m1.start + |key|;
    assert forall k :: 0 <= k < |m1.digits| ==> s[from + k] == m1.digits[k] && IsDigit(s[from + k]);
    assert forall k :: 0 <= k < |m2.digits| ==> s[from + k] == m2.digits[k] && IsDigit(s[from + k]);
    assert m1.digits == s[from..from + |m1.digits|];
  }

  /** The whole matched text (group 0), the key followed by the captured digits, occurs where the match starts. */
  lemma {:induction false} MatchedTextAt(s: seq<char>, key: seq<char>, m: Match)
    requires IsLeftmostMatch(s, key, m)
    ensures m.start + |key + m.digits| <= |s|
    ensures s[m.start..m.start + |key + m.digits|] == key + m.digits
  {
    var from, end := m.start + |key|, m.start + |key| + |m.digits|;
    assert s[m.start..end] == s[m.start..from] + s[from..end];
  }

  /** No word boundary is required before the key: `xuploaded=5` matches `uploaded=`. */
  lemma {:induction false} KeyWithoutBoundary()
    ensures Search("xuploaded=5", "uploaded=") == Some(Match(1, "5"))
  {
    var s := "xuploaded=5";
    assert !KeyDigitsAt(s, "uploaded=", 0);
    assert KeyDigitsAt(s, "uploaded=", 1);
    LeftmostMatchUnique(s, "uploaded=", Search(s, "uploaded=").value, Match(1, "5"));
  }
}
