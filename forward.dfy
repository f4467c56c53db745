/**
 * Assembly of the upstream request in do_GET: the (possibly rewritten) query is put back
 * behind the path, the target URL is built from the authority and that path, and the
 * forwarded headers are prepared. The pieces of the split URL are inputs.
 */
module Forward {
  import opened Outcomes
  import opened AnnounceRewrite
  import opened Headers

  /** Splits a request target at its first '?' into path and query: the path is everything before it. */
  function SplitTarget(target: string): (parts: (string, string))
    ensures '?' !in parts.0
    ensures |parts.0| + |parts.1| <= |target|
  {
    if target == [] then ([], [])
    else if target[0] == '?' then ([], target[1..])
    else
      var rest := SplitTarget(target[1..]);
      ([target[0]] + rest.0, rest.1)
  }

  lemma {:induction false} SplitAfterPath(path: string, rest: string)
    requires '?' !in path
    ensures SplitTarget(path + rest) == (path + SplitTarget(rest).0, SplitTarget(rest).1)
    decreases |path|
  {
    if path != [] {
      assert (path + rest)[1..] == path[1..] + rest;
      SplitAfterPath(path[1..], rest);
      assert [path[0]] + (path[1..] + SplitTarget(rest).0) == path + SplitTarget(rest).0;
    } else {
      assert path + rest == rest;
      assert path + SplitTarget(rest).0 == SplitTarget(rest).0;
    }
  }

  /**
   * `target_path_and_query`: the path alone when the query is empty, otherwise the path,
   * '?' and the query; splitting it again at the first '?' gives back path and query.
   */
  method AssembleTarget(path: string, query: string) returns (target: string)
    ensures query == [] ==> target == path
    ensures query != [] ==> target == path + "?" + query
    ensures '?' !in path ==> SplitTarget(target) == (path, query)
  {
    target := path;
    if query != [] {
      target := target + "?" + query;
    }
    if '?' !in path {
      if query == [] {
        SplitAfterPath(path, []);
        assert SplitTarget([]) == ([], []);
        assert path + [] == path;
      } else {
        SplitAfterPath(path, "?" + query);
        assert ("?" + query)[0] == '?' && ("?" + query)[1..] == query;
        assert SplitTarget("?" + query) == ([], query);
        assert path + [] == path;
        assert path + "?" + query == path + ("?" + query);
      }
    }
  }

  /** The request sent upstream: its URL and its headers. */
  datatype UpstreamRequest = UpstreamRequest(url: string, headers: map<string, string>)

  /**
   * Everything do_GET decides before the network call, for a request whose target splits
   * into `path`, `query` and `netloc`: the query rewrite, the target URL and the headers.
   * The only failure modelled is the division by zero of the multiplier.
   */
  method PrepareUpstream(path: string, query: string, netloc: string, inbound: seq<Header>,
                         maxMultiplier: real, rampUp: int, elapsed: real)
    returns (r: Result<UpstreamRequest>)
    ensures r.Err? <==> RewriteQuery(query, maxMultiplier, rampUp, elapsed).Err?
    ensures r.Ok? ==>
              var q := RewriteQuery(query, maxMultiplier, rampUp, elapsed).value;
              && r.value.url == "http://" + netloc + (if q == [] then path else path + "?" + q)
              && ForwardsHeaders(inbound, netloc, r.value.headers)
  {
    var rewritten := RewriteQuery(query, maxMultiplier, rampUp, elapsed);
    if rewritten.Err? {
      return Err(rewritten.error);
    }
    var target := AssembleTarget(path, rewritten.value);
    var headers := ForwardHeaders(inbound, netloc);
    r := Ok(UpstreamRequest("http://" + netloc + target, headers));
  }
}
