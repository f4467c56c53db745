/**
 * Header handling around the upstream call: the forwarded request headers (a dict built
 * from the inbound headers, with `Host` overwritten) and the relayed response headers
 * (the upstream's, in order, without `Transfer-Encoding`).
 * Header text reaches Python decoded as ISO-8859-1, so `str.lower` is modelled on Latin-1.
 */
module Headers {
  import opened Outcomes

  datatype Header = Header(name: string, value: string)

  const HostName: string := "Host"
  const TransferEncoding: string := "transfer-encoding"

  /** `str.lower` on one Latin-1 character: A-Z and U+00C0..U+00DE except U+00D7 move down by 0x20. */
  function LowerChar(c: char): (l: char)
    ensures ('A' <= c <= 'Z' || ('\U{C0}' <= c <= '\U{DE}' && c != '\U{D7}')) ==> l as int == c as int + 32
    ensures !('A' <= c <= 'Z' || ('\U{C0}' <= c <= '\U{DE}' && c != '\U{D7}')) ==> l == c
  {
    if 'A' <= c <= 'Z' || ('\U{C0}' <= c <= '\U{DE}' && c != '\U{D7}') then (c as int + 32) as char else c
  }

  function Lower(s: string): (l: string)
    ensures |l| == |s|
    ensures forall i :: 0 <= i < |s| ==> l[i] == LowerChar(s[i])
  {
    seq(|s|, i requires 0 <= i < |s| => LowerChar(s[i]))
  }

  /** Header names compare case-insensitively. */
  predicate NameMatches(h: Header, name: string) {
    Lower(h.name) == Lower(name)
  }

  function FirstMatch(hs: seq<Header>, name: string): (r: Option<nat>)
    ensures r.Some? ==> r.value < |hs| && NameMatches(hs[r.value], name)
    ensures r.Some? ==> forall j :: 0 <= j < r.value ==> !NameMatches(hs[j], name)
    ensures r.None? <==> forall j :: 0 <= j < |hs| ==> !NameMatches(hs[j], name)
    decreases |hs|
  {
    if hs == [] then None
    else if NameMatches(hs[0], name) then Some(0)
    else match FirstMatch(hs[1..], name)
      case None => None
      case Some(k) => Some(k + 1)
  }

  /** `message[name]`: the value of the first header whose name matches, if any. */
  function GetFirst(hs: seq<Header>, name: string): (r: Option<string>)
    ensures r.None? <==> forall j :: 0 <= j < |hs| ==> !NameMatches(hs[j], name)
    ensures r.Some? ==> exists i :: 0 <= i < |hs| && NameMatches(hs[i], name) && hs[i].value == r.value
                                    && forall j :: 0 <= j < i ==> !NameMatches(hs[j], name)
  {
    match FirstMatch(hs, name)
    case None => None
    case Some(i) => Some(hs[i].value)
  }

  function Names(hs: seq<Header>): (names: set<string>) {
    set i | 0 <= i < |hs| :: hs[i].name
  }

  lemma NamesExtend(hs: seq<Header>, i: nat)
    requires i < |hs|
    ensures Names(hs[..i + 1]) == Names(hs[..i]) + {hs[i].name}
  {
    var a, b := hs[..i + 1], hs[..i];
    forall n | n in Names(a) ensures n in Names(b) + {hs[i].name} {
      var j :| 0 <= j < |a| && a[j].name == n;
      if j < i {
        assert b[j] == a[j];
      }
    }
    forall n | n in Names(b) ensures n in Names(a) {
      var j :| 0 <= j < |b| && b[j].name == n;
      assert a[j] == b[j];
    }
    assert a[i] == hs[i];
  }

  /**
   * What `dict(self.headers)` followed by `forward_headers['Host'] = netloc` yields:
   * one key per distinct inbound name, plus `Host`; `Host` maps to the upstream authority,
   * every other key to the first inbound value whose name matches it case-insensitively.
   */
  ghost predicate ForwardsHeaders(inbound: seq<Header>, netloc: string, fwd: map<string, string>) {
    && fwd.Keys == Names(inbound) + {HostName}
    && fwd[HostName] == netloc
    && forall k :: k in fwd && k != HostName ==> GetFirst(inbound, k) == Some(fwd[k])
  }

  /** There is exactly one such map: the description above fixes every key and value. */
  lemma ForwardsHeadersUnique(inbound: seq<Header>, netloc: string, f1: map<string, string>, f2: map<string, string>)
    requires ForwardsHeaders(inbound, netloc, f1) && ForwardsHeaders(inbound, netloc, f2)
    ensures f1 == f2
  {
    forall k | k in f1 ensures f1[k] == f2[k] {
      if k != HostName {
        assert GetFirst(inbound, k) == Some(f1[k]) == Some(f2[k]);
      }
    }
  }

  /** The forwarded headers: a dict of the inbound headers, then `Host` set to the upstream authority. */
  method ForwardHeaders(inbound: seq<Header>, netloc: string) returns (fwd: map<string, string>)
    ensures ForwardsHeaders(inbound, netloc, fwd)
  {
    fwd := map[];
    for i := 0 to |inbound|
      invariant fwd.Keys == Names(inbound[..i])
      invariant forall k :: k in fwd ==> GetFirst(inbound, k) == Some(fwd[k])
    {
      var name := inbound[i].name;
      assert NameMatches(inbound[i], name);
      var value := GetFirst(inbound, name).value;
      fwd := fwd[name := value];
      NamesExtend(inbound, i);
    }
    assert inbound[..|inbound|] == inbound;
    fwd := fwd[HostName := netloc];
  }

  predicate IsTransferEncoding(name: string) {
    Lower(name) == TransferEncoding
  }

  /** The upstream headers that are relayed: all but `Transfer-Encoding`, in their order. */
  function Relayable(hs: seq<Header>): (r: seq<Header>)
    ensures |r| <= |hs|
    ensures forall i :: 0 <= i < |r| ==> !IsTransferEncoding(r[i].name)
  {
    if hs == [] then []
    else
      var last := hs[|hs| - 1];
      Relayable(hs[..|hs| - 1]) + if IsTransferEncoding(last.name) then [] else [last]
  }

  /** Relay the upstream headers one by one, skipping `Transfer-Encoding`. */
  method RelayHeaders(upstream: seq<Header>) returns (relayed: seq<Header>)
    ensures relayed == Relayable(upstream)
  {
    relayed := [];
    for i := 0 to |upstream|
      invariant relayed == Relayable(upstream[..i])
    {
      var h := upstream[i];
      if !IsTransferEncoding(h.name) {
        relayed := relayed + [h];
      }
      assert upstream[..i + 1][..i] == upstream[..i];
    }
    assert upstream[..|upstream|] == upstream;
  }

  /** A header is relayed exactly when it came from upstream and is not `Transfer-Encoding`. */
  lemma {:induction false} RelayableMembers(hs: seq<Header>, h: Header)
    ensures h in Relayable(hs) <==> h in hs && !IsTransferEncoding(h.name)
    decreases |hs|
  {
    if hs != [] {
      var init := hs[..|hs| - 1];
      RelayableMembers(init, h);
      assert hs == init + [hs[|hs| - 1]];
    }
  }

  /** Filtering commutes with concatenation, so the relayed headers keep their upstream order. */
  lemma {:induction false} RelayableConcat(a: seq<Header>, b: seq<Header>)
    ensures Relayable(a + b) == Relayable(a) + Relayable(b)
    decreases |b|
  {
    if b == [] {
      assert a + b == a;
    } else {
      var init := b[..|b| - 1];
      RelayableConcat(a, init);
      assert (a + b)[..|a + b| - 1] == a + init;
    }
  }

  /** Without a `Transfer-Encoding` header every upstream header is relayed unchanged. */
  lemma {:induction false} RelayableKeepsAll(hs: seq<Header>)
    requires forall i :: 0 <= i < |hs| ==> !IsTransferEncoding(hs[i].name)
    ensures Relayable(hs) == hs
    decreases |hs|
  {
    if hs != [] {
      RelayableKeepsAll(hs[..|hs| - 1]);
    }
  }

  /** Lower-casing a character already lower-cased leaves it unchanged. */
  lemma LowerCharIdempotent(c: char)
    ensures LowerChar(LowerChar(c)) == LowerChar(c)
  {
  }

  /** Lower-casing is idempotent, so comparing lower-cased names is stable. */
  lemma LowerIdempotent(s: string)
    ensures Lower(Lower(s)) == Lower(s)
  {
    forall i | 0 <= i < |s|
      ensures Lower(Lower(s))[i] == Lower(s)[i]
    {
      LowerCharIdempotent(s[i]);
    }
  }

  /** Relaying twice is relaying once. */
  lemma RelayableIdempotent(hs: seq<Header>)
    ensures Relayable(Relayable(hs)) == Relayable(hs)
  {
    RelayableKeepsAll(Relayable(hs));
  }

  /** Any spelling of the name is dropped: `Transfer-Encoding` and `TRANSFER-ENCODING` alike. */
  lemma TransferEncodingAnyCase()
    ensures IsTransferEncoding("Transfer-Encoding") && IsTransferEncoding("TRANSFER-ENCODING")
  {
    assert Lower("Transfer-Encoding") == TransferEncoding;
    assert Lower("TRANSFER-ENCODING") == TransferEncoding;
  }
}
