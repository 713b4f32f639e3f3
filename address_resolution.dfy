/**
 * Which address counts as "the client" for CreateAccount
 * (AccountService.CreateAccount, the part before the salt is loaded).
 * A loopback peer is taken to be the local reverse proxy: its own address is
 * discarded and the first `x-real-ip` request header is parsed instead.
 */
module AddressResolution {
  import opened Wrappers
  import opened Platform

  const RealIpHeader: string := "x-real-ip"

  /** What the resolution step leaves in `remoteIp`, or the parse exception it raised. */
  datatype Resolution =
    | Resolved(address: IpAddress)
    | Unresolved     // remoteIp is null: CreateAccount answers Success = false
    | Unparseable    // IPAddress.Parse threw on the header value

  /** The loopback test on the address text: starts with "127." or is "::1". */
  predicate IsLoopbackText(text: string) {
    "127." <= text || text == "::1"
  }

  /** The value of the first header keyed exactly `x-real-ip`, if any. */
  function FirstRealIp(headers: seq<Header>): Option<string> {
    if headers == [] then None
    else if headers[0].key == RealIpHeader then Some(headers[0].value)
    else FirstRealIp(headers[1..])
  }

  /** The outcome of `IPAddress.Parse` on a header value. */
  function ParseHeaderValue(lib: Library, value: string): Resolution {
    match lib.parseAddress(value)
    case None => Unparseable
    case Some(a) => Resolved(a)
  }

  /** The address CreateAccount fingerprints, given the peer address and the request headers. */
  function Resolve(lib: Library, observed: Option<IpAddress>, headers: seq<Header>): (r: Resolution)
    ensures r == Unresolved <==> observed == None || (IsLoopbackText(observed.value.text) && FirstRealIp(headers) == None)
    ensures r.Resolved? ==>
      || (observed.Some? && !IsLoopbackText(observed.value.text) && r.address == observed.value)
      || (observed.Some? && FirstRealIp(headers).Some? && lib.parseAddress(FirstRealIp(headers).value) == Some(r.address))
  {
    match observed
    case None => Unresolved
    case Some(peer) =>
      if !IsLoopbackText(peer.text) then Resolved(peer)
      else match FirstRealIp(headers)
        case None => Unresolved
        case Some(v) => ParseHeaderValue(lib, v)
  }

  /** The header scan of CreateAccount: a loop over the headers that stops at the first match. */
  method ResolveClientAddress(lib: Library, observed: Option<IpAddress>, headers: seq<Header>)
    returns (r: Resolution)
    ensures r == Resolve(lib, observed, headers)
  {
    if observed == None {
      return Unresolved;
    }
    var peer := observed.value;
    if !IsLoopbackText(peer.text) {
      return Resolved(peer);
    }
    r := Unresolved;
    for i := 0 to |headers|
      invariant forall j :: 0 <= j < i ==> headers[j].key != RealIpHeader
    {
      if headers[i].key == RealIpHeader {
        FirstRealIpAt(headers, i);
        r := ParseHeaderValue(lib, headers[i].value);
        return;
      }
    }
    FirstRealIpAbsent(headers);
  }

  /** The header at index `i` is the first one keyed `x-real-ip`: its value is the one taken. */
  lemma {:induction false} FirstRealIpAt(headers: seq<Header>, i: nat)
    requires i < |headers| && headers[i].key == RealIpHeader
    requires forall j :: 0 <= j < i ==> headers[j].key != RealIpHeader
    ensures FirstRealIp(headers) == Some(headers[i].value)
  {
    if i > 0 {
      FirstRealIpAt(headers[1..], i - 1);
    }
  }

  /** No value is taken exactly when no header is keyed `x-real-ip`. */
  lemma {:induction false} FirstRealIpAbsent(headers: seq<Header>)
    ensures FirstRealIp(headers) == None <==> forall j :: 0 <= j < |headers| ==> headers[j].key != RealIpHeader
  {
    if headers != [] {
      FirstRealIpAbsent(headers[1..]);
      assert forall j :: 1 <= j < |headers| ==> headers[j] == headers[1..][j - 1];
    }
  }

  /** A loopback peer resolves to the parsed value of the first `x-real-ip` header. */
  lemma LoopbackUsesFirstRealIpHeader(lib: Library, peer: IpAddress, headers: seq<Header>, i: nat)
    requires IsLoopbackText(peer.text)
    requires i < |headers| && headers[i].key == RealIpHeader
    requires forall j :: 0 <= j < i ==> headers[j].key != RealIpHeader
    ensures Resolve(lib, Some(peer), headers) == ParseHeaderValue(lib, headers[i].value)
  {
    FirstRealIpAt(headers, i);
  }

  /** Headers after the first `x-real-ip` header, whatever they say, do not matter. */
  lemma {:induction false} LaterHeadersIgnored(lib: Library, observed: Option<IpAddress>, headers: seq<Header>, later: seq<Header>)
    requires FirstRealIp(headers) != None
    ensures Resolve(lib, observed, headers + later) == Resolve(lib, observed, headers)
  {
    FirstRealIpPrefix(headers, later);
  }

  lemma {:induction false} FirstRealIpPrefix(headers: seq<Header>, later: seq<Header>)
    requires FirstRealIp(headers) != None
    ensures FirstRealIp(headers + later) == FirstRealIp(headers)
  {
    assert headers != [];
    assert (headers + later)[0] == headers[0];
    if headers[0].key != RealIpHeader {
      assert (headers + later)[1..] == headers[1..] + later;
      FirstRealIpPrefix(headers[1..], later);
    }
  }

  /** A peer that is not loopback is used unchanged, whatever the headers are. */
  lemma NonLoopbackPeerUsedAsIs(lib: Library, peer: IpAddress, headers: seq<Header>)
    requires !IsLoopbackText(peer.text)
    ensures Resolve(lib, Some(peer), headers) == Resolved(peer)
  {
  }

  /**
   * No address is determined exactly when the peer address is missing, or it
   * is loopback and no header is keyed `x-real-ip`.
   */
  lemma UnresolvedExactly(lib: Library, observed: Option<IpAddress>, headers: seq<Header>)
    ensures Resolve(lib, observed, headers) == Unresolved <==>
      observed == None ||
      (IsLoopbackText(observed.value.text) && forall j :: 0 <= j < |headers| ==> headers[j].key != RealIpHeader)
  {
    FirstRealIpAbsent(headers);
  }

  /** IPv4 loopback text and the IPv6 loopback literal are loopback; other text is not. */
  lemma LoopbackExamples()
    ensures IsLoopbackText("127.0.0.1") && IsLoopbackText("::1")
    ensures !IsLoopbackText("203.0.113.7") && !IsLoopbackText("::ffff:127.0.0.1")
  {
    assert "127." == "127.0.0.1"[..4];
    assert "203.0.113.7"[0] != "127."[0];
    assert "::ffff:127.0.0.1"[0] != "127."[0];
  }
}
