# NewGreedy announce rewriting, modelled in Dafny

NewGreedy is an HTTP proxy for BitTorrent clients. It intercepts tracker "announce"
requests, replaces the `uploaded=` count in the query with the real `downloaded=` count
times a progressive multiplier, forwards the request to the tracker, and relays the
tracker's answer. The multiplier ramps linearly from 1.0 to `max_upload_multiplier` over
`ramp_up_seconds` after start-up.

This project models the part of `NewGreedy.py` that decides what is forwarded:

- `multiplier.dfy` (`Multiplier`): `get_progressive_multiplier` over exact reals, with the
  elapsed time as a parameter, including the `ZeroDivisionError` it raises when the ramp is
  0 seconds and the elapsed time is negative.
- `decimal.dfy` (`Decimal`): `int(...)` on a digit run and the decimal text of an int, with
  both round trips.
- `query_search.dfy` (`QuerySearch`): `re.search(r'key(\d+)', query)` as a search for the
  leftmost key followed by a digit, capturing the greedy digit run.
- `replace.dfy` (`Replace`): `str.replace`, together with `str.split`/`str.join` and the
  proof that replacing equals splitting and joining; both use the same search for the next
  occurrence, so the facts that stand on their own are `SplitJoinRoundTrip` (joining the
  pieces with the pattern gives the text back) and `SplitPiecesFree` (no piece contains it).
- `announce_rewrite.dfy` (`AnnounceRewrite`): the query rewrite of `do_GET`, `int()`
  truncation, and the two quirks of the code as written: there is no boundary before the key
  (`xuploaded=5` matches), and the replacement also rewrites a longer digit run that starts
  with the matched text.
- `headers.dfy` (`Headers`): the forwarded header dict with `Host` overwritten (a loop), and
  the relayed response headers without `Transfer-Encoding` (a loop).
- `forward.dfy` (`Forward`): target path assembly and the upstream request as a whole.
- `outcomes.dfy` (`Outcomes`): `Option` and `Result`.

## Model

| member | source | states |
|---|---|---|
| Multiplier.ProgressiveMultiplier | NewGreedy.py:78-86 | fails (division by zero) exactly when the ramp is 0 s and the elapsed time is negative; once the elapsed time reaches the ramp it is exactly the maximum, including a ramp of 0; with a positive ramp it never fails and is exactly 1.0 at elapsed 0 |
| Multiplier.MultiplierWithinBounds | NewGreedy.py:85-86 | during the ramp (0 <= elapsed < ramp) and with max >= 1 the multiplier lies in [1.0, max] |
| Multiplier.MultiplierApproachesMax | NewGreedy.py:83-86 | before the end of the ramp, max minus the multiplier is (max - 1) times the fraction of the ramp still to go, so the ramp reaches max continuously |
| Multiplier.RampBelowMax | NewGreedy.py:83-86 | before the end of a positive ramp, with max >= 1, the multiplier is at most max |
| Multiplier.RampMonotone | NewGreedy.py:85-86 | with a positive ramp and max >= 1, inside the ramp the multiplier does not decrease as the elapsed time grows |
| Multiplier.MultiplierMonotone | NewGreedy.py:82-86 | with a positive ramp and max >= 1, the multiplier does not decrease over time, across the end of the ramp too |
| Multiplier.DefaultHalfWay | NewGreedy.py:67-68 | with the default settings (5.0, 3600 s) the multiplier is 3.0 after 1800 s |
| Decimal.ShowNat | NewGreedy.py:113 | the printed form of a non-negative int is a non-empty digit string with no leading zero, starting with '0' only for 0 |
| Decimal.ShowInt | NewGreedy.py:113 | a non-negative int prints as canonical digits that read back as the same number; a negative int prints as '-' followed by the canonical digits of its magnitude, which read back as -i |
| Decimal.ParseShow | NewGreedy.py:107-113 | reading back the printed form of n gives n |
| Decimal.ShowParse | NewGreedy.py:107-113 | printing the value of a digit string with no leading zero gives that string back |
| Decimal.ParseLeadingZero | NewGreedy.py:107 | a leading zero does not change the value read by int() |
| QuerySearch.DigitRunEnd | NewGreedy.py:101-102 | the greedy end of a digit run: everything before it is a digit and the character at it, if any, is not |
| QuerySearch.SearchFrom | NewGreedy.py:101-102 | from a position on: a result is the first key-plus-digit position, with the maximal digit run; no result means no such position |
| QuerySearch.Search | NewGreedy.py:101-102 | a match is the leftmost key followed by a digit, with the greedy digit run captured; None exactly when no key is followed by a digit |
| QuerySearch.LeftmostMatchUnique | NewGreedy.py:101-102 | the leftmost greedy match is unique, so the search result is determined by the query |
| QuerySearch.MatchedTextAt | NewGreedy.py:112 | the whole matched text (key plus digits) occurs in the query at the match position |
| QuerySearch.KeyWithoutBoundary | NewGreedy.py:102 | `xuploaded=5` matches `uploaded=` at position 1 with digits "5": the key has no boundary check |
| Replace.OccursAtSlice | NewGreedy.py:115 | the character-by-character occurrence test agrees with comparing the pattern to the slice of the text at that position |
| Replace.FindFrom | NewGreedy.py:115 | a position found is at or after the start of the search, inside the text, and the pattern occurs there |
| Replace.FindFromLeftmost | NewGreedy.py:115 | the position found is the leftmost occurrence at or after the start; nothing found means no occurrence at or after the start |
| Replace.FindFromFirst | NewGreedy.py:115 | conversely, the first occurrence at or after the start is the position found |
| Replace.ReplaceFromFree | NewGreedy.py:115 | from a position with no occurrence at or after it, the rest of the text is kept as it is |
| Replace.ReplaceAllFree | NewGreedy.py:115 | a text with no occurrence of the pattern is returned unchanged |
| Replace.ReplaceFromOnce | NewGreedy.py:115 | when the scan meets only one occurrence, the result is the text before it, the replacement, and the unchanged rest |
| Replace.ReplaceFromIsSplitJoin | NewGreedy.py:115 | from any position, the scan equals cutting the rest of the text at the occurrences and joining the pieces with the replacement |
| Replace.ReplaceAllIsSplitJoin | NewGreedy.py:115 | replacing equals cutting the text at the occurrences of the pattern and joining the pieces with the replacement |
| Replace.SplitFromJoinRoundTrip | NewGreedy.py:115 | from any position, joining the pieces with the pattern gives back the rest of the text |
| Replace.SplitJoinRoundTrip | NewGreedy.py:115 | joining the pieces with the pattern itself gives the original text, so only the occurrences are touched |
| Replace.SplitFromPiecesFree | NewGreedy.py:115 | from any position, no piece contains the pattern |
| Replace.SplitPiecesFree | NewGreedy.py:115 | no piece between occurrences contains the pattern |
| Replace.ReplaceAllSame | NewGreedy.py:115 | replacing the pattern by itself leaves the text unchanged |
| Replace.ReplaceAllSingle | NewGreedy.py:115 | when the pattern occurs only at k, the result is the prefix before k, the replacement, and the unchanged suffix |
| Replace.ReplaceAllTwo | NewGreedy.py:115 | when the search finds `a`, then (resumed after the replaced text) `b`, then nothing, the result keeps the three stretches between them and puts the replacement at `a` and `b`; an occurrence overlapping the one at `a` is never replaced |
| AnnounceRewrite.Truncate | NewGreedy.py:110 | int() truncates toward zero: the result is within 1 of the input, on the side of zero |
| AnnounceRewrite.TruncateMonotone | NewGreedy.py:110 | truncation is monotone |
| AnnounceRewrite.ReportedUpload | NewGreedy.py:107-110 | for a multiplier >= 0 the reported value is floor(downloaded * multiplier) and non-negative; with multiplier 1.0 it equals downloaded; with a multiplier >= 1.0 it is at least downloaded |
| AnnounceRewrite.ReportedUploadMonotone | NewGreedy.py:110 | a larger multiplier never reports less |
| AnnounceRewrite.ReportedUploadGrowsOverTime | NewGreedy.py:109-110 | for a fixed downloaded count, positive ramp and max >= 1, the reported value does not decrease over time |
| AnnounceRewrite.RewriteQuery | NewGreedy.py:101-115 | with no `downloaded=<digit>` or no `uploaded=<digit>` anywhere the query is returned unchanged; it fails exactly when both are present and the multiplier divides by zero |
| AnnounceRewrite.RewriteReplacesMatchedUpload | NewGreedy.py:101-115 | with both matches, the result replaces every occurrence of the leftmost `uploaded=<digits>` text by `uploaded=` and the decimal of int(downloaded * multiplier), downloaded being the greedy run after the leftmost `downloaded=` |
| AnnounceRewrite.RewriteSingleOccurrence | NewGreedy.py:112-115 | when the matched text occurs once, the new query is the prefix before it, the new field, and the unchanged suffix |
| AnnounceRewrite.ReplaceOnlyUpload | NewGreedy.py:112-115 | a single occurrence of the matched `uploaded=<digits>` text is swapped for the new field, the rest kept |
| AnnounceRewrite.RewriteKeepsSameText | NewGreedy.py:112-115 | when the new value prints as the old digits, the query is unchanged |
| AnnounceRewrite.RewriteTouchesOnlyMatchedText | NewGreedy.py:112-115 | the original query is its pieces joined by the matched text, and the new query is the same pieces joined by the new field |
| AnnounceRewrite.TwoUploadsMatches | NewGreedy.py:101-102 | in `downloaded=10&uploaded=5&uploaded=55` the matches are `10` at 0 and `5` at 14 |
| AnnounceRewrite.TwoUploadsOccurrences | NewGreedy.py:115 | in that query `uploaded=5` occurs at 14 and at 25 (inside `uploaded=55`) and nowhere else that the scan could reach |
| AnnounceRewrite.TwoUploadsReplaced | NewGreedy.py:115 | replacing `uploaded=5` there also rewrites the longer field: `uploaded=55` becomes `uploaded=105` |
| AnnounceRewrite.ReplaceHitsLongerRun | NewGreedy.py:101-115 | the whole rewrite of that query at multiplier 1.0 gives `downloaded=10&uploaded=10&uploaded=105` |
| Headers.LowerChar | NewGreedy.py:141 | str.lower on a Latin-1 character: A-Z and U+00C0-U+00DE except U+00D7 move up by 32 code points, every other character is kept |
| Headers.Lower | NewGreedy.py:141 | lower-cases each character and keeps the length |
| Headers.LowerCharIdempotent | NewGreedy.py:141 | lower-casing a lower-cased character changes nothing |
| Headers.LowerIdempotent | NewGreedy.py:141 | lower-casing a lower-cased name changes nothing |
| Headers.FirstMatch | NewGreedy.py:130 | the index of the first header whose name matches case-insensitively, None exactly when none matches |
| Headers.GetFirst | NewGreedy.py:130 | message[name] is the value of the first header whose name matches case-insensitively, None exactly when none matches |
| Headers.ForwardsHeadersUnique | NewGreedy.py:130-131 | the description of the forwarded headers fixes the map completely |
| Headers.ForwardHeaders | NewGreedy.py:130-131 | the forwarded map has one key per inbound name plus `Host`; `Host` maps to the netloc; every other key maps to the first inbound value whose name matches it |
| Headers.Relayable | NewGreedy.py:140-142 | no relayed header is named transfer-encoding in any case, and the relayed list is no longer than the upstream list |
| Headers.RelayHeaders | NewGreedy.py:140-142 | the loop relays exactly the upstream headers minus `Transfer-Encoding`, in order |
| Headers.RelayableMembers | NewGreedy.py:140-142 | a header is relayed exactly when it came from upstream and its lower-cased name is not transfer-encoding |
| Headers.RelayableConcat | NewGreedy.py:140-142 | filtering commutes with concatenation, so the upstream order is kept |
| Headers.RelayableKeepsAll | NewGreedy.py:140-142 | without a transfer-encoding header every upstream header is relayed unchanged |
| Headers.RelayableIdempotent | NewGreedy.py:140-142 | filtering a second time changes nothing |
| Headers.TransferEncodingAnyCase | NewGreedy.py:141 | `Transfer-Encoding` and `TRANSFER-ENCODING` are both dropped |
| Forward.SplitTarget | NewGreedy.py:126-128 | the part before the first '?' has no '?' and the parts are not longer than the target |
| Forward.SplitAfterPath | NewGreedy.py:126-128 | splitting a '?'-free path followed by more text splits only the text after the path |
| Forward.AssembleTarget | NewGreedy.py:126-128 | the target is the path alone for an empty query and path + "?" + query otherwise; for a path without '?' (as every urlsplit path is), splitting it at the first '?' gives back path and query |
| Forward.PrepareUpstream | NewGreedy.py:98-135 | fails exactly when the rewrite fails; otherwise the URL is `http://` + netloc + the assembled target of the rewritten query, and the headers are the forwarded headers |

## Left out

- The HTTP server, `ThreadingTCPServer`, the `requests.Session` GET and the streaming of the response body (NewGreedy.py:133-146, 159-171): network I/O and threads. Only the target URL (line 135) and the header filter (lines 140-142) are modelled.
- The mapping of exceptions to 504 and 500 responses (NewGreedy.py:148-153): it depends on library exceptions. Of the exceptions the modelled code raises by itself, the division by zero of the multiplier is returned as `Err(ZeroDivisionError)`; the overflow and digit-limit errors of the float and int conversions are not modelled (see `AnnounceRewrite.RewriteQuery` below).
- `urllib.parse.urlsplit` (NewGreedy.py:98): a library call; `path`, `query` and `netloc` are inputs.
- `time.time()` and `SCRIPT_START_TIME` (NewGreedy.py:60, 82): the clock reading is the `elapsed` parameter.
- Configuration loading (NewGreedy.py:63-68): the settings are parameters; only their defaults are recorded as constants.
- Logging and the MB display (NewGreedy.py:72-76, 96, 117-124, 155-157): output only.
- Multiplier.ProgressiveMultiplier: computed on exact reals; IEEE-754 rounding of the float arithmetic is not captured.
- AnnounceRewrite.RewriteQuery: fails only on the division by zero. In Python, the product `downloaded * multiplier` raises OverflowError when the downloaded count converts to a float of 2**1024 or more (counts just below it round up), `int()` of an infinite product raises OverflowError, `int()` of a NaN product (a non-finite `max_upload_multiplier`, or an infinite one with downloaded 0) raises ValueError, and `int()` of a digit run longer than 4300 digits raises ValueError on interpreters with the integer string conversion limit (3.11 and later, and the 3.7.14, 3.8.14, 3.9.14 and 3.10.7 security releases) (NewGreedy.py:107-110); each is answered with a 500 (NewGreedy.py:151-153). The model computes on exact reals and unbounded integers, so it returns `Ok` in these cases.
- AnnounceRewrite.ReportedUpload: the product `downloaded * multiplier` is exact; the precision a Python float loses on very large byte counts is not captured.
- Replace.ReplaceAll: requires a non-empty pattern; `str.replace` with an empty pattern is not modelled, since the code always passes `uploaded=` followed by at least one digit.
- Headers.ForwardHeaders: the result is a map, so the insertion order of the Python dict and how `requests` merges it into the session headers are not modelled.
- Headers.RelayHeaders: the upstream headers are taken as the sequence `response.headers.items()` yields; how the HTTP library folds repeated upstream headers is not modelled.
- Decimal.IsDigit and Headers.LowerChar: `\d` and `str.lower` are Unicode-aware in Python, but the request line (where the query and its digits come from) and the header text are decoded by `http.server` as ISO-8859-1, where the only decimal digits are ASCII 0-9 and only A-Z and U+00C0-U+00DE (without U+00D7) have lower-case forms; characters above U+00FF are left as they are.
