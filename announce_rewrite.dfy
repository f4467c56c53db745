/**
 * The announce query rewrite: when the query carries both `downloaded=<digits>` and
 * `uploaded=<digits>`, the reported upload becomes the real downloaded count times the
 * progressive multiplier, and every occurrence of the matched `uploaded=<digits>` text
 * is replaced by `uploaded=<new value>`. Otherwise the query is forwarded as it is.
 */
module AnnounceRewrite {
  import opened Outcomes
  import opened Decimal
  import opened Multiplier
  import opened QuerySearch
  import opened Replace

  const DownloadedKey: seq<char> := "downloaded="
  const UploadedKey: seq<char> := "uploaded="

  /** Python's `int(x)` on a float: truncation toward zero. */
  function Truncate(x: real): (n: int)
    ensures 0.0 <= x ==> 0 <= n && n as real <= x < n as real + 1.0
    ensures x < 0.0 ==> n <= 0 && n as real - 1.0 < x <= n as real
  {
    if x >= 0.0 then x.Floor else -((-x).Floor)
  }

  /** `int(real_downloaded_bytes * multiplier)`, computed on exact reals. */
  function ReportedUpload(downloaded: nat, multiplier: real): (n: int)
    ensures 0.0 <= multiplier ==> 0 <= n && n as real <= downloaded as real * multiplier < n as real + 1.0
    ensures multiplier == 1.0 ==> n == downloaded
    ensures 1.0 <= multiplier ==> downloaded <= n
  {
    ProductFacts(downloaded as real, multiplier);
    Truncate(downloaded as real * multiplier)
  }

  lemma {:induction false} ProductFacts(d: real, m: real)
    requires 0.0 <= d
    ensures 0.0 <= m ==> 0.0 <= d * m
    ensures m == 1.0 ==> d * m == d
    ensures 1.0 <= m ==> d <= d * m
  {
    if 0.0 <= m {
      ScaleMonotone(d, 0.0, m);
    }
    if 1.0 <= m {
      ScaleMonotone(d, 1.0, m);
    }
  }

  lemma {:induction false} TruncateMonotone(x: real, y: real)
    requires x <= y
    ensures Truncate(x) <= Truncate(y)
  {
  }

  /** A larger multiplier never reports less. */
  lemma {:induction false} ReportedUploadMonotone(downloaded: nat, m1: real, m2: real)
    requires m1 <= m2
    ensures ReportedUpload(downloaded, m1) <= ReportedUpload(downloaded, m2)
  {
    var x, y := downloaded as real * m1, downloaded as real * m2;
    ScaleMonotone(downloaded as real, m1, m2);
    TruncateMonotone(x, y);
    assert ReportedUpload(downloaded, m1) == Truncate(x);
    assert ReportedUpload(downloaded, m2) == Truncate(y);
  }

  /** For a fixed downloaded count the reported upload never decreases as the proxy keeps running. */
  lemma {:induction false} ReportedUploadGrowsOverTime(downloaded: nat, maxMultiplier: real, rampUp: int, earlier: real, later: real)
    requires 0 < rampUp && 1.0 <= maxMultiplier && earlier <= later
    ensures ReportedUpload(downloaded, ProgressiveMultiplier(maxMultiplier, rampUp, earlier).value)
            <= ReportedUpload(downloaded, ProgressiveMultiplier(maxMultiplier, rampUp, later).value)
  {
    MultiplierMonotone(maxMultiplier, rampUp, earlier, later);
    ReportedUploadMonotone(downloaded,
      ProgressiveMultiplier(maxMultiplier, rampUp, earlier).value,
      ProgressiveMultiplier(maxMultiplier, rampUp, later).value);
  }

  /** `uploaded=<new value>` as the f-string prints it. */
  function NewUploadedText(downloadedDigits: seq<char>, multiplier: real): (field: seq<char>)
    requires AllDigits(downloadedDigits)
  {
    UploadedKey + ShowInt(ReportedUpload(ParseDigits(downloadedDigits), multiplier))
  }

  /**
   * The rewrite of the query string in do_GET. The multiplier is only evaluated when both
   * fields are present, so a division by zero can only surface then.
   */
  function RewriteQuery(query: seq<char>, maxMultiplier: real, rampUp: int, elapsed: real): (r: Result<seq<char>>)
    ensures (forall k: nat :: !KeyDigitsAt(query, DownloadedKey, k)) ==> r == Ok(query)
    ensures (forall k: nat :: !KeyDigitsAt(query, UploadedKey, k)) ==> r == Ok(query)
    ensures r.Err? <==> (exists k: nat :: KeyDigitsAt(query, DownloadedKey, k))
                        && (exists k: nat :: KeyDigitsAt(query, UploadedKey, k))
                        && rampUp == 0 && elapsed < 0.0
  {
    var downloaded := Search(query, DownloadedKey);
    var uploaded := Search(query, UploadedKey);
    if downloaded.Some? && uploaded.Some? then
      match ProgressiveMultiplier(maxMultiplier, rampUp, elapsed)
      case Err(e) => Err(e)
      case Ok(m) =>
        Ok(ReplaceAll(query, UploadedKey + uploaded.value.digits, NewUploadedText(downloaded.value.digits, m)))
    else
      Ok(query)
  }

  /**
   * With both fields present, the rewrite replaces every occurrence of the leftmost
   * `uploaded=<digits>` text by `uploaded=<int(downloaded * multiplier)>`, where
   * `downloaded` is the greedy digit run after the leftmost `downloaded=`.
   */
  lemma {:induction false} RewriteReplacesMatchedUpload(query: seq<char>, maxMultiplier: real, rampUp: int, elapsed: real,
                                     dm: Match, um: Match, m: real)
    requires IsLeftmostMatch(query, DownloadedKey, dm) && IsLeftmostMatch(query, UploadedKey, um)
    requires ProgressiveMultiplier(maxMultiplier, rampUp, elapsed) == Ok(m)
    ensures RewriteQuery(query, maxMultiplier, rampUp, elapsed)
            == Ok(ReplaceAll(query, UploadedKey + um.digits, NewUploadedText(dm.digits, m)))
  {
    var downloaded := Search(query, DownloadedKey);
    var uploaded := Search(query, UploadedKey);
    assert downloaded.Some? && uploaded.Some?;
    LeftmostMatchUnique(query, DownloadedKey, downloaded.value, dm);
    LeftmostMatchUnique(query, UploadedKey, uploaded.value, um);
  }

  /**
   * When the matched `uploaded=<digits>` text occurs only once, the new query is the part
   * before it, the new field, and the part after it, untouched.
   */
  lemma {:induction false} RewriteSingleOccurrence(query: seq<char>, maxMultiplier: real, rampUp: int, elapsed: real,
                                dm: Match, um: Match, m: real)
    requires IsLeftmostMatch(query, DownloadedKey, dm) && IsLeftmostMatch(query, UploadedKey, um)
    requires ProgressiveMultiplier(maxMultiplier, rampUp, elapsed) == Ok(m)
    requires forall i: nat :: i != um.start ==> !OccursAt(query, UploadedKey + um.digits, i)
    ensures RewriteQuery(query, maxMultiplier, rampUp, elapsed)
            == Ok(query[..um.start] + NewUploadedText(dm.digits, m)
                  + query[um.start + |UploadedKey| + |um.digits|..])
  {
    RewriteReplacesMatchedUpload(query, maxMultiplier, rampUp, elapsed, dm, um, m);
    ReplaceOnlyUpload(query, um, NewUploadedText(dm.digits, m));
  }

  /** The text part of the lemma above: a single occurrence of the matched field is swapped for `newField`. */
  lemma {:induction false} ReplaceOnlyUpload(query: seq<char>, um: Match, newField: seq<char>)
    requires IsLeftmostMatch(query, UploadedKey, um)
    requires forall i: nat :: i != um.start ==> !OccursAt(query, UploadedKey + um.digits, i)
    ensures ReplaceAll(query, UploadedKey + um.digits, newField)
            == query[..um.start] + newField + query[um.start + |UploadedKey| + |um.digits|..]
  {
    var oldField := UploadedKey + um.digits;
    MatchedTextAt(query, UploadedKey, um);
    OccursAtSlice(query, oldField, um.start);
    ReplaceAllSingle(query, oldField, newField, um.start);
  }

  /** When the new value prints as the old digits, the query is forwarded unchanged. */
  lemma {:induction false} RewriteKeepsSameText(query: seq<char>, maxMultiplier: real, rampUp: int, elapsed: real,
                             dm: Match, um: Match, m: real)
    requires IsLeftmostMatch(query, DownloadedKey, dm) && IsLeftmostMatch(query, UploadedKey, um)
    requires ProgressiveMultiplier(maxMultiplier, rampUp, elapsed) == Ok(m)
    requires ShowInt(ReportedUpload(ParseDigits(dm.digits), m)) == um.digits
    ensures RewriteQuery(query, maxMultiplier, rampUp, elapsed) == Ok(query)
  {
    RewriteReplacesMatchedUpload(query, maxMultiplier, rampUp, elapsed, dm, um, m);
    ReplaceAllSame(query, UploadedKey + um.digits);
  }

  /**
   * The rewritten query differs from the original only at the occurrences of the matched
   * text: cutting the original at them and joining the pieces with the new field gives it.
   */
  lemma {:induction false} RewriteTouchesOnlyMatchedText(query: seq<char>, maxMultiplier: real, rampUp: int, elapsed: real,
                                      dm: Match, um: Match, m: real)
    requires IsLeftmostMatch(query, DownloadedKey, dm) && IsLeftmostMatch(query, UploadedKey, um)
    requires ProgressiveMultiplier(maxMultiplier, rampUp, elapsed) == Ok(m)
    ensures var oldField := UploadedKey + um.digits;
            && Join(Split(query, oldField), oldField) == query
            && RewriteQuery(query, maxMultiplier, rampUp, elapsed)
               == Ok(Join(Split(query, oldField), NewUploadedText(dm.digits, m)))
  {
    var oldField := UploadedKey + um.digits;
    RewriteReplacesMatchedUpload(query, maxMultiplier, rampUp, elapsed, dm, um, m);
    ReplaceAllIsSplitJoin(query, oldField, NewUploadedText(dm.digits, m));
    SplitJoinRoundTrip(query, oldField);
  }

  /** The query "downloaded=10&uploaded=5&uploaded=55", used below, as its pieces. */
  const LeadingField: seq<char> := DownloadedKey + "10&"
  const ShortUpload: seq<char> := UploadedKey + "5"
  const TwoUploads: seq<char> := LeadingField + (ShortUpload + "&" + (ShortUpload + "5"))

  /** A key cannot start where its first character does not appear. */
  lemma {:induction false} NoKeyBefore(s: seq<char>, key: seq<char>, n: nat)
    requires 0 < |key| && n <= |s| && key[0] !in s[..n]
    ensures forall i: nat :: i < n ==> !KeyDigitsAt(s, key, i) && !OccursAt(s, key, i)
  {
    forall i: nat | i < n ensures !KeyDigitsAt(s, key, i) && !OccursAt(s, key, i) {
      assert s[..n][i] == s[i];
      if i + |key| <= |s| {
        assert s[i..i + |key|][0] == s[i];
      }
    }
  }

  lemma {:induction false} TwoUploadsMatches()
    ensures IsLeftmostMatch(TwoUploads, DownloadedKey, Match(0, "10"))
    ensures IsLeftmostMatch(TwoUploads, UploadedKey, Match(14, "5"))
  {
    var q, rest := TwoUploads, ShortUpload + "&" + (ShortUpload + "5");
    assert |LeadingField| == 14;
    assert q[..14] == LeadingField && q[14..] == rest;
    assert q[..11] == DownloadedKey by {
      assert q[..11] == q[..14][..11];
    }
    assert q[11] == '1' && q[12] == '0' && q[13] == '&';
    assert q[11..13] == "10";
    assert 'u' !in LeadingField;
    NoKeyBefore(q, UploadedKey, 14);
    assert q[14..23] == UploadedKey by {
      assert q[14..23] == rest[..9];
      assert rest[..10] == ShortUpload;
    }
    assert q[23] == rest[9] == '5';
    assert q[24] == rest[10] == '&';
    assert q[23..24] == "5";
  }

  /** Where `uploaded=5` occurs in the query: at 14 and at 25, as the head of `uploaded=55`. */
  lemma {:induction false} TwoUploadsOccurrences()
    ensures |TwoUploads| == 36
    ensures TwoUploads[..14] == LeadingField && TwoUploads[24..25] == "&" && TwoUploads[35..] == "5"
    ensures OccursAt(TwoUploads, ShortUpload, 14) && OccursAt(TwoUploads, ShortUpload, 25)
    ensures forall i: nat :: i < 14 || 24 <= i < 25 || 35 <= i ==> !OccursAt(TwoUploads, ShortUpload, i)
  {
    var q, p := TwoUploads, ShortUpload;
    var rest := p + "&" + (p + "5");
    assert q[..14] == LeadingField && q[14..] == rest;
    assert q[14..24] == p by {
      assert q[14..24] == rest[..10];
    }
    assert q[24] == '&';
    assert q[25..35] == p by {
      assert q[25..35] == rest[11..21];
      assert rest[11..] == p + "5";
    }
    assert q[35..] == "5";
    assert 'u' !in LeadingField;
    NoKeyBefore(q, p, 14);
    OccursAtSlice(q, p, 14);
    OccursAtSlice(q, p, 25);
  }

  lemma {:induction false} TwoUploadsReplaced()
    ensures ReplaceAll(TwoUploads, ShortUpload, UploadedKey + "10")
            == LeadingField + (UploadedKey + "10") + "&" + (UploadedKey + "10") + "5"
  {
    var q, p := TwoUploads, ShortUpload;
    TwoUploadsOccurrences();
    FindFromFirst(q, p, 0, 14);
    FindFromFirst(q, p, 24, 25);
    assert FindFrom(q, p, 35) == None;
    ReplaceAllTwo(TwoUploads, ShortUpload, UploadedKey + "10", 14, 25);
  }

  /**
   * As written, the replacement is a plain text replacement: the matched `uploaded=5` is
   * also found at the start of a longer run such as `uploaded=55`, which then changes too.
   */
  lemma {:induction false} ReplaceHitsLongerRun()
    ensures RewriteQuery(TwoUploads, 1.0, 0, 0.0)
            == Ok(LeadingField + (UploadedKey + "10") + "&" + (UploadedKey + "10") + "5")
  {
    TwoUploadsMatches();
    assert ParseDigits("10") == 10 by {
      assert "10"[..1] == "1" && "1"[..0] == [];
    }
    assert ShowInt(10) == "10";
    assert NewUploadedText("10", 1.0) == UploadedKey + "10";
    RewriteReplacesMatchedUpload(TwoUploads, 1.0, 0, 0.0, Match(0, "10"), Match(14, "5"), 1.0);
    TwoUploadsReplaced();
  }
}
