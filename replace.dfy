/**
 * `str.replace(old, new)` with a non-empty `old`, the way the string type computes it:
 * find the next occurrence from the current position, copy the text before it, emit
 * `new`, and resume the search right after the occurrence, so occurrences are taken left
 * to right and never overlap. Alongside it, `str.split` and `str.join`: the replacement
 * joins the pieces between the occurrences with `new`, and joining them with `old` gives
 * the text back.
 */
module Replace {
  import opened Outcomes

  /** `p` occurs in `s` starting at `i`. */
  predicate OccursAt(s: seq<char>, p: seq<char>, i: nat) {
    i + |p| <= |s| && MatchesFrom(s, p, i, 0)
  }

  /** The characters of `p` from the `j`-th on agree with those of `s` from `i + j` on. */
  predicate MatchesFrom(s: seq<char>, p: seq<char>, i: nat, j: nat)
    requires i + |p| <= |s|
    decreases |p| - j
  {
    j >= |p| || (s[i + j] == p[j] && MatchesFrom(s, p, i, j + 1))
  }

  lemma {:induction false} MatchesFromSlice(s: seq<char>, p: seq<char>, i: nat, j: nat)
    requires i + |p| <= |s| && j <= |p|
    ensures MatchesFrom(s, p, i, j) <==> s[i + j..i + |p|] == p[j..]
    decreases |p| - j
  {
    if j < |p| {
      MatchesFromSlice(s, p, i, j + 1);
      assert s[i + j..i + |p|] == [s[i + j]] + s[i + j + 1..i + |p|];
      assert p[j..] == [p[j]] + p[j + 1..];
    }
  }

  /** The occurrence test is a comparison of `p` with the slice of `s` at `i`. */
  lemma OccursAtSlice(s: seq<char>, p: seq<char>, i: nat)
    ensures OccursAt(s, p, i) <==> i + |p| <= |s| && s[i..i + |p|] == p
  {
    if i + |p| <= |s| {
      MatchesFromSlice(s, p, i, 0);
      assert p[0..] == p;
    }
  }

  /** `p` does not occur anywhere in `s`. */
  ghost predicate Free(s: seq<char>, p: seq<char>) {
    forall i: nat :: !OccursAt(s, p, i)
  }

  /** `s.find(p, i)`: the first position at or after `i` where `p` occurs. */
  function FindFrom(s: seq<char>, p: seq<char>, i: nat): (r: Option<nat>)
    requires i <= |s|
    ensures r.Some? ==> i <= r.value && r.value + |p| <= |s| && OccursAt(s, p, r.value)
    decreases |s| - i
  {
    if i + |p| > |s| then None
    else if OccursAt(s, p, i) then Some(i)
    else FindFrom(s, p, i + 1)
  }

  /** The position found is the leftmost one: there is no occurrence between `i` and it, or none at all. */
  lemma {:induction false} FindFromLeftmost(s: seq<char>, p: seq<char>, i: nat)
    requires i <= |s|
    ensures FindFrom(s, p, i).Some? ==> forall k: nat :: i <= k < FindFrom(s, p, i).value ==> !OccursAt(s, p, k)
    ensures FindFrom(s, p, i).None? ==> forall k: nat :: i <= k ==> !OccursAt(s, p, k)
    decreases |s| - i
  {
    if i + |p| <= |s| && !OccursAt(s, p, i) {
      FindFromLeftmost(s, p, i + 1);
    }
  }

  /**
   * The loop of `str.replace` from position `i` on: copy up to the next occurrence, emit `r`
   * in its place, and resume the search right after it.
   */
  function ReplaceFrom(s: seq<char>, p: seq<char>, r: seq<char>, i: nat): (t: seq<char>)
    requires |p| > 0 && i <= |s|
    decreases |s| - i
  {
    match FindFrom(s, p, i)
    case None => s[i..]
    case Some(k) => s[i..k] + r + ReplaceFrom(s, p, r, k + |p|)
  }

  /** `s.replace(p, r)`. */
  function ReplaceAll(s: seq<char>, p: seq<char>, r: seq<char>): (t: seq<char>)
    requires |p| > 0
  {
    ReplaceFrom(s, p, r, 0)
  }

  /** `s.split(p)` applied to `s[i..]`: the pieces between the occurrences of `p`, left to right. */
  function SplitFrom(s: seq<char>, p: seq<char>, i: nat): (parts: seq<seq<char>>)
    requires |p| > 0 && i <= |s|
    ensures |parts| > 0
    decreases |s| - i
  {
    match FindFrom(s, p, i)
    case None => [s[i..]]
    case Some(k) => [s[i..k]] + SplitFrom(s, p, k + |p|)
  }

  /** `s.split(p)`. */
  function Split(s: seq<char>, p: seq<char>): (parts: seq<seq<char>>)
    requires |p| > 0
  {
    SplitFrom(s, p, 0)
  }

  /** `sep.join(parts)`. */
  function Join(parts: seq<seq<char>>, sep: seq<char>): (t: seq<char>)
    decreases |parts|
  {
    if |parts| == 0 then []
    else if |parts| == 1 then parts[0]
    else parts[0] + sep + Join(parts[1..], sep)
  }

  lemma JoinStep(piece: seq<char>, rest: seq<seq<char>>, sep: seq<char>, tail: seq<char>, whole: seq<char>)
    requires |rest| > 0 && Join(rest, sep) == tail && whole == piece + sep + tail
    ensures Join([piece] + rest, sep) == whole
  {
    JoinCons(piece, rest, sep);
  }

  lemma JoinCons(a: seq<char>, rest: seq<seq<char>>, sep: seq<char>)
    requires |rest| > 0
    ensures Join([a] + rest, sep) == a + sep + Join(rest, sep)
  {
    assert ([a] + rest)[1..] == rest;
  }

  /** From a position with no occurrence at or after it, the rest of the text is kept as it is. */
  lemma {:induction false} ReplaceFromFree(s: seq<char>, p: seq<char>, r: seq<char>, i: nat)
    requires |p| > 0 && i <= |s|
    requires forall k: nat :: i <= k ==> !OccursAt(s, p, k)
    ensures ReplaceFrom(s, p, r, i) == s[i..]
  {
    assert FindFrom(s, p, i).None?;
  }

  lemma AppendAssoc(a: seq<char>, b: seq<char>, c: seq<char>)
    ensures a + (b + c) == a + b + c
  {
  }

  /** Around an occurrence at `k`, the text from `i` is the part before it, `p`, and the rest. */
  lemma CutAround(s: seq<char>, p: seq<char>, i: nat, k: nat)
    requires i <= k && OccursAt(s, p, k)
    ensures s[i..] == s[i..k] + p + s[k + |p|..]
  {
    OccursAtSlice(s, p, k);
    SliceThree(s, i, k, k + |p|);
  }

  lemma SplitFromStep(s: seq<char>, p: seq<char>, i: nat, k: nat)
    requires |p| > 0 && i <= |s| && FindFrom(s, p, i) == Some(k)
    ensures SplitFrom(s, p, i) == [s[i..k]] + SplitFrom(s, p, k + |p|)
  {
  }

  lemma ReplaceFromStep(s: seq<char>, p: seq<char>, r: seq<char>, i: nat, k: nat)
    requires |p| > 0 && i <= |s| && FindFrom(s, p, i) == Some(k)
    ensures ReplaceFrom(s, p, r, i) == s[i..k] + r + ReplaceFrom(s, p, r, k + |p|)
  {
  }

  lemma ReplaceFromRest(s: seq<char>, p: seq<char>, r: seq<char>, i: nat)
    requires |p| > 0 && i <= |s| && FindFrom(s, p, i) == None
    ensures ReplaceFrom(s, p, r, i) == s[i..]
  {
  }

  lemma SliceThree(s: seq<char>, i: nat, k: nat, l: nat)
    requires i <= k <= l <= |s|
    ensures s[i..] == s[i..k] + s[k..l] + s[l..]
  {
  }

  /** The search finds the first occurrence at or after `i`. */
  lemma {:induction false} FindFromFirst(s: seq<char>, p: seq<char>, i: nat, k: nat)
    requires i <= k && OccursAt(s, p, k)
    requires forall j: nat :: i <= j < k ==> !OccursAt(s, p, j)
    ensures FindFrom(s, p, i) == Some(k)
    decreases k - i
  {
    if i < k {
      assert !OccursAt(s, p, i);
      FindFromFirst(s, p, i + 1, k);
    }
  }

  /** From `i` on, the only occurrence the scan meets is the one at `k`. */
  lemma {:induction false} ReplaceFromOnce(s: seq<char>, p: seq<char>, r: seq<char>, i: nat, k: nat)
    requires |p| > 0 && i <= k && OccursAt(s, p, k)
    requires forall j: nat :: i <= j < k || k + |p| <= j ==> !OccursAt(s, p, j)
    ensures ReplaceFrom(s, p, r, i) == s[i..k] + r + s[k + |p|..]
  {
    FindFromFirst(s, p, i, k);
    ReplaceFromStep(s, p, r, i, k);
    ReplaceFromFree(s, p, r, k + |p|);
  }

  /** Text without an occurrence comes back unchanged. */
  lemma {:induction false} ReplaceAllFree(s: seq<char>, p: seq<char>, r: seq<char>)
    requires |p| > 0 && Free(s, p)
    ensures ReplaceAll(s, p, r) == s
  {
    ReplaceFromFree(s, p, r, 0);
  }

  /** `str.replace` is `r.join(s.split(p))`: it rewrites the separators and keeps every piece. */
  lemma {:induction false} ReplaceFromIsSplitJoin(s: seq<char>, p: seq<char>, r: seq<char>, i: nat)
    requires |p| > 0 && i <= |s|
    ensures ReplaceFrom(s, p, r, i) == Join(SplitFrom(s, p, i), r)
    decreases |s| - i
  {
    match FindFrom(s, p, i)
    case None =>
      assert SplitFrom(s, p, i) == [s[i..]];
    case Some(k) =>
      var piece, rest := s[i..k], SplitFrom(s, p, k + |p|);
      calc {
        ReplaceFrom(s, p, r, i);
        { ReplaceFromStep(s, p, r, i, k); }
        piece + r + ReplaceFrom(s, p, r, k + |p|);
        { ReplaceFromIsSplitJoin(s, p, r, k + |p|); }
        piece + r + Join(rest, r);
        { JoinCons(piece, rest, r); }
        Join([piece] + rest, r);
        { SplitFromStep(s, p, i, k); }
        Join(SplitFrom(s, p, i), r);
      }
  }

  lemma {:induction false} ReplaceAllIsSplitJoin(s: seq<char>, p: seq<char>, r: seq<char>)
    requires |p| > 0
    ensures ReplaceAll(s, p, r) == Join(Split(s, p), r)
  {
    ReplaceFromIsSplitJoin(s, p, r, 0);
  }

  /** Joining the pieces back with `p` gives the original text. */
  lemma {:induction false} SplitFromJoinRoundTrip(s: seq<char>, p: seq<char>, i: nat)
    requires |p| > 0 && i <= |s|
    ensures Join(SplitFrom(s, p, i), p) == s[i..]
    decreases |s| - i
  {
    match FindFrom(s, p, i)
    case None =>
      assert SplitFrom(s, p, i) == [s[i..]];
    case Some(k) =>
      SplitFromStep(s, p, i, k);
      SplitFromJoinRoundTrip(s, p, k + |p|);
      CutAround(s, p, i, k);
      JoinStep(s[i..k], SplitFrom(s, p, k + |p|), p, s[k + |p|..], s[i..]);
  }

  lemma {:induction false} SplitJoinRoundTrip(s: seq<char>, p: seq<char>)
    requires |p| > 0
    ensures Join(Split(s, p), p) == s
  {
    SplitFromJoinRoundTrip(s, p, 0);
  }

  /** A piece between two occurrences contains no occurrence itself. */
  lemma {:induction false} PieceFree(s: seq<char>, p: seq<char>, i: nat, k: nat)
    requires |p| > 0 && i <= k <= |s|
    requires forall j: nat :: i <= j < k ==> !OccursAt(s, p, j)
    ensures Free(s[i..k], p)
  {
    forall j: nat ensures !OccursAt(s[i..k], p, j) {
      if j + |p| <= k - i {
        var a, b := s[i..k][j..j + |p|], s[i + j..i + j + |p|];
        forall t | 0 <= t < |p| ensures a[t] == b[t] {
          assert a[t] == s[i + j + t];
        }
        assert a == b;
        assert !OccursAt(s, p, i + j);
        OccursAtSlice(s, p, i + j);
        OccursAtSlice(s[i..k], p, j);
      }
    }
  }

  /** No piece contains `p`: every occurrence lies between two pieces. */
  lemma {:induction false} SplitFromPiecesFree(s: seq<char>, p: seq<char>, i: nat)
    requires |p| > 0 && i <= |s|
    ensures forall j :: 0 <= j < |SplitFrom(s, p, i)| ==> Free(SplitFrom(s, p, i)[j], p)
    decreases |s| - i
  {
    FindFromLeftmost(s, p, i);
    match FindFrom(s, p, i)
    case None =>
      PieceFree(s, p, i, |s|);
      assert s[i..|s|] == s[i..];
    case Some(k) =>
      PieceFree(s, p, i, k);
      SplitFromPiecesFree(s, p, k + |p|);
  }

  lemma {:induction false} SplitPiecesFree(s: seq<char>, p: seq<char>)
    requires |p| > 0
    ensures forall j :: 0 <= j < |Split(s, p)| ==> Free(Split(s, p)[j], p)
  {
    SplitFromPiecesFree(s, p, 0);
  }

  /** Replacing a text by itself changes nothing. */
  lemma {:induction false} ReplaceAllSame(s: seq<char>, p: seq<char>)
    requires |p| > 0
    ensures ReplaceAll(s, p, p) == s
  {
    ReplaceAllIsSplitJoin(s, p, p);
    SplitJoinRoundTrip(s, p);
  }

  /** When `p` occurs exactly once, at `k`, the result is the prefix, then `r`, then the unchanged suffix. */
  lemma {:induction false} ReplaceAllSingle(s: seq<char>, p: seq<char>, r: seq<char>, k: nat)
    requires |p| > 0 && OccursAt(s, p, k)
    requires forall i: nat :: i != k ==> !OccursAt(s, p, i)
    ensures ReplaceAll(s, p, r) == s[..k] + r + s[k + |p|..]
  {
    ReplaceFromOnce(s, p, r, 0, k);
    assert s[0..k] == s[..k];
  }

  /**
   * Two replacements: the search from the start finds `a`, the search resumed after it finds
   * `b`, and the search resumed after that finds nothing. An occurrence overlapping the one
   * at `a` is never looked at, since the search resumes after the replaced text.
   */
  lemma {:induction false} ReplaceAllTwo(s: seq<char>, p: seq<char>, r: seq<char>, a: nat, b: nat)
    requires |p| > 0 && FindFrom(s, p, 0) == Some(a)
    requires FindFrom(s, p, a + |p|) == Some(b) && FindFrom(s, p, b + |p|) == None
    ensures ReplaceAll(s, p, r) == s[..a] + r + s[a + |p|..b] + r + s[b + |p|..]
  {
    var front, between, after := s[..a] + r, s[a + |p|..b], s[b + |p|..];
    calc {
      ReplaceAll(s, p, r);
      ReplaceFrom(s, p, r, 0);
      { ReplaceFromStep(s, p, r, 0, a); assert s[0..a] == s[..a]; }
      front + ReplaceFrom(s, p, r, a + |p|);
      { ReplaceFromStep(s, p, r, a + |p|, b); }
      front + (between + r + ReplaceFrom(s, p, r, b + |p|));
      { ReplaceFromRest(s, p, r, b + |p|); }
      front + (between + r + after);
      { AppendAssoc(front, between + r, after); AppendAssoc(front, between, r); }
      front + between + r + after;
    }
  }
}
