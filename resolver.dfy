/**
 * The hop walk of `real_ip` (src/lib.rs): the claimed addresses, client
 * first, followed by the peer are walked from the peer outward, and the
 * first hop that is not a trusted proxy is the client. When every hop is
 * trusted, the first claimed address is the client, or the peer when
 * nothing was claimed. Without a peer there is no answer.
 *
 * The walk only asks whether an address is trusted; that test is the
 * parameter `trusts`, which `real_ip` answers with `IpNetworks::contains`
 * (see `Trusts` and the lemmas at the end).
 */
module Resolver {
  import opened Wrappers
  import opened Networks

  /** The trust test `real_ip` uses: membership in the configured networks. */
  function Trusts(trusted: IpNetworks): (trusts: IpAddr -> bool)
    ensures forall a :: trusts(a) <==> exists n :: n in trusted.networks && NetContains(n, a)
  {
    (a: IpAddr) => Contains(trusted, a)
  }

  /** The hop chain: the claimed addresses followed by the peer. */
  function Hops(claimed: seq<IpAddr>, peer: IpAddr): (hops: seq<IpAddr>)
    ensures |hops| == |claimed| + 1 && hops[|claimed|] == peer
    ensures forall k :: 0 <= k < |claimed| ==> hops[k] == claimed[k]
  {
    claimed + [peer]
  }

  /**
   * The position of the last hop that is not trusted: every later hop is
   * trusted. None when every hop is trusted.
   */
  function LastUntrusted(hops: seq<IpAddr>, trusts: IpAddr -> bool): (r: Option<nat>)
    ensures r.Some? ==> r.value < |hops| && !trusts(hops[r.value])
    ensures r.Some? ==> forall j :: r.value < j < |hops| ==> trusts(hops[j])
    ensures r.None? <==> forall j :: 0 <= j < |hops| ==> trusts(hops[j])
  {
    if hops == [] then None
    else if !trusts(hops[|hops| - 1]) then Some(|hops| - 1)
    else LastUntrusted(hops[..|hops| - 1], trusts)
  }

  /** The address `real_ip` reports for a peer, a claimed chain and a trust test. */
  function RealIp(peer: Option<IpAddr>, claimed: seq<IpAddr>, trusts: IpAddr -> bool): (r: Option<IpAddr>)
    ensures r.None? <==> peer.None?
    ensures r.Some? ==> r.value == peer.value || r.value in claimed
    ensures peer.Some? && !trusts(peer.value) ==> r == peer
  {
    match peer
    case None => None
    case Some(p) =>
      var hops := Hops(claimed, p);
      match LastUntrusted(hops, trusts)
      case Some(k) => Some(hops[k])
      case None => Some(if |claimed| > 0 then claimed[0] else p)
  }

  /**
   * The closure body of `real_ip`: walk the hops in reverse and return the
   * first untrusted one, else fall back to the first claimed address or the peer.
   */
  method ResolveRealIp(peer: Option<IpAddr>, claimed: seq<IpAddr>, trusts: IpAddr -> bool)
    returns (r: Option<IpAddr>)
    ensures r == RealIp(peer, claimed, trusts)
  {
    if peer.None? {
      return None;
    }
    var addr := peer.value;
    var hops := claimed + [addr];
    var i := |hops|;
    while i > 0
      invariant 0 <= i <= |hops|
      invariant forall j :: i <= j < |hops| ==> trusts(hops[j])
    {
      i := i - 1;
      var hop := hops[i];
      if !trusts(hop) {
        return Some(hop);
      }
    }
    r := Some(if |claimed| > 0 then claimed[0] else addr);
  }

  /**
   * The result is characterised by position: an untrusted hop all of whose
   * successors are trusted is the answer.
   */
  lemma {:induction false} RealIpCharacterised(p: IpAddr, claimed: seq<IpAddr>, trusts: IpAddr -> bool, k: nat)
    requires k <= |claimed|
    requires !trusts(Hops(claimed, p)[k])
    requires forall j :: k < j <= |claimed| ==> trusts(Hops(claimed, p)[j])
    ensures RealIp(Some(p), claimed, trusts) == Some(Hops(claimed, p)[k])
  {
    var hops := Hops(claimed, p);
    var r := LastUntrusted(hops, trusts);
    assert r.Some? by { assert !trusts(hops[k]); }
  }

  /**
   * A trusted address is reported only through the fallback: when the
   * answer is trusted, every hop was trusted.
   */
  lemma TrustedAnswerMeansAllTrusted(p: IpAddr, claimed: seq<IpAddr>, trusts: IpAddr -> bool)
    requires trusts(RealIp(Some(p), claimed, trusts).value)
    ensures forall j :: 0 <= j < |Hops(claimed, p)| ==> trusts(Hops(claimed, p)[j])
    ensures RealIp(Some(p), claimed, trusts) == Some(if |claimed| > 0 then claimed[0] else p)
  {
  }

  /**
   * Forged entries in front of the claimed chain change nothing as long as
   * some hop of the real chain is untrusted: a client cannot steer the
   * result by prepending addresses to the header.
   */
  lemma {:induction false} ForgedPrefixIgnored(p: IpAddr, forged: seq<IpAddr>, claimed: seq<IpAddr>, trusts: IpAddr -> bool)
    requires exists j :: 0 <= j <= |claimed| && !trusts(Hops(claimed, p)[j])
    ensures RealIp(Some(p), forged + claimed, trusts) == RealIp(Some(p), claimed, trusts)
  {
    var hops := Hops(claimed, p);
    assert LastUntrusted(hops, trusts).Some? by {
      var j :| 0 <= j <= |claimed| && !trusts(hops[j]);
    }
    var k := LastUntrusted(hops, trusts).value;
    assert Hops(forged + claimed, p) == forged + hops;
    LastUntrustedPrefix(forged, hops, trusts);
    assert (forged + hops)[|forged| + k] == hops[k];
  }

  /** Hops in front of an untrusted one do not move the last untrusted hop. */
  lemma {:induction false} LastUntrustedPrefix(forged: seq<IpAddr>, hops: seq<IpAddr>, trusts: IpAddr -> bool)
    requires LastUntrusted(hops, trusts).Some?
    ensures LastUntrusted(forged + hops, trusts) == Some(|forged| + LastUntrusted(hops, trusts).value)
  {
    var n := |hops|;
    var longer := forged + hops;
    assert longer != [] && longer[|longer| - 1] == hops[n - 1];
    if trusts(hops[n - 1]) {
      var shorter := hops[..n - 1];
      assert LastUntrusted(hops, trusts) == LastUntrusted(shorter, trusts);
      assert longer[..|longer| - 1] == forged + shorter;
      assert trusts(longer[|longer| - 1]);
      assert LastUntrusted(longer, trusts) == LastUntrusted(longer[..|longer| - 1], trusts);
      LastUntrustedPrefix(forged, shorter, trusts);
    } else {
      assert LastUntrusted(hops, trusts) == Some(n - 1);
      assert LastUntrusted(longer, trusts) == Some(|longer| - 1);
    }
  }

  /** When every hop is trusted, the first claimed address is believed. */
  lemma AllTrustedGivesFirstClaimed(p: IpAddr, claimed: seq<IpAddr>, trusts: IpAddr -> bool)
    requires claimed != []
    requires trusts(p) && forall c :: c in claimed ==> trusts(c)
    ensures RealIp(Some(p), claimed, trusts) == Some(claimed[0])
  {
    var hops := Hops(claimed, p);
    forall j | 0 <= j < |hops| ensures trusts(hops[j]) {
      if j < |claimed| { assert hops[j] in claimed; }
    }
  }

  /** A trusted peer with an untrusted nearest claimed hop yields that hop. */
  lemma UntrustedNearestClaimed(p: IpAddr, c1: IpAddr, c2: IpAddr, trusts: IpAddr -> bool)
    requires trusts(p) && !trusts(c2)
    ensures RealIp(Some(p), [c1, c2], trusts) == Some(c2)
  {
    RealIpCharacterised(p, [c1, c2], trusts, 1);
  }

  /** A trusted peer with nothing claimed yields the peer. */
  lemma TrustedPeerAloneGivesPeer(p: IpAddr, trusts: IpAddr -> bool)
    requires trusts(p)
    ensures RealIp(Some(p), [], trusts) == Some(p)
  {
  }

  /** With no trusted networks the headers are ignored: the peer is the answer. */
  lemma NoProxiesGivesPeer(peer: Option<IpAddr>, claimed: seq<IpAddr>)
    ensures RealIp(peer, claimed, Trusts(IpNetworks([]))) == peer
  {
    if peer.Some? {
      assert !Trusts(IpNetworks([]))(peer.value);
    }
  }

  /**
   * With proxies given as addresses, a peer that is not one of them is the
   * answer, whatever the headers claim.
   */
  lemma UnlistedPeerIsClient(addrs: seq<IpAddr>, p: IpAddr, claimed: seq<IpAddr>)
    requires p !in addrs
    ensures RealIp(Some(p), claimed, Trusts(FromIpAddrs(addrs))) == Some(p)
  {
    FromIpAddrsTrustsExactly(addrs, p);
  }
}
