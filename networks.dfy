/**
 * The trust set: IP addresses, CIDR networks and a set of networks
 * (`IpNetworks` in src/lib.rs). An address is the sequence of its bits, most
 * significant first: 32 of them for IPv4, 128 for IPv6. A network matches an
 * address of its own family whose leading `prefix` bits agree with the
 * network address, which is what comparing both under the netmask does.
 */
module Networks {

  const V4_WIDTH := 32
  const V6_WIDTH := 128

  type Bits = seq<bool>

  /** An IPv4 or IPv6 address. */
  datatype Address = V4(v4: Bits) | V6(v6: Bits)

  predicate ValidAddress(a: Address) {
    match a
    case V4(b) => |b| == V4_WIDTH
    case V6(b) => |b| == V6_WIDTH
  }

  type IpAddr = a: Address | ValidAddress(a) witness V4(seq(32, _ => false))

  /** A network: address and prefix length, in either family. */
  datatype Network = V4Net(addr4: Bits, prefix4: nat) | V6Net(addr6: Bits, prefix6: nat)

  /** The network address has its family's width and the prefix length does not exceed it. */
  predicate WellFormed(n: Network) {
    match n
    case V4Net(b, p) => |b| == V4_WIDTH && p <= V4_WIDTH
    case V6Net(b, p) => |b| == V6_WIDTH && p <= V6_WIDTH
  }

  type IpNetwork = n: Network | WellFormed(n) witness V4Net(seq(32, _ => false), 0)

  /** Two equally wide addresses agree under the netmask of length `p`. */
  predicate SamePrefix(na: Bits, p: nat, x: Bits)
    requires |na| == |x| && p <= |x|
  {
    x[..p] == na[..p]
  }

  /** `IpNetwork::contains`: an address of the other family never matches. */
  function NetContains(n: IpNetwork, a: IpAddr): (r: bool)
    ensures r ==> (n.V4Net? <==> a.V4?)
    ensures n.V4Net? && a.V4? && n.prefix4 == V4_WIDTH ==> (r <==> a.v4 == n.addr4)
    ensures n.V6Net? && a.V6? && n.prefix6 == V6_WIDTH ==> (r <==> a.v6 == n.addr6)
    ensures n.V4Net? && a.V4? && n.prefix4 == 0 ==> r
    ensures n.V6Net? && a.V6? && n.prefix6 == 0 ==> r
  {
    match n
    case V4Net(na, p) => a.V4? && SamePrefix(na, p, a.v4)
    case V6Net(na, p) => a.V6? && SamePrefix(na, p, a.v6)
  }

  /** The set of trusted networks. */
  datatype IpNetworks = IpNetworks(networks: seq<IpNetwork>)

  /** `iter().any(..)` over a sequence of networks. */
  function AnyContains(ns: seq<IpNetwork>, a: IpAddr): (r: bool)
    ensures r <==> exists k :: 0 <= k < |ns| && NetContains(ns[k], a)
  {
    if ns == [] then false
    else NetContains(ns[0], a) || AnyContains(ns[1..], a)
  }

  /** `IpNetworks::contains`: some configured network contains the address. */
  function Contains(nets: IpNetworks, a: IpAddr): (r: bool)
    ensures r <==> exists n :: n in nets.networks && NetContains(n, a)
    ensures nets.networks == [] ==> !r
  {
    AnyContains(nets.networks, a)
  }

  /** The full-width network of one address (`Ipv4Network::from`, `Ipv6Network::from`). */
  function HostNetwork(a: IpAddr): (n: IpNetwork)
    ensures forall b: IpAddr :: NetContains(n, b) <==> b == a
  {
    match a
    case V4(x) => V4Net(x, V4_WIDTH)
    case V6(x) => V6Net(x, V6_WIDTH)
  }

  /** `IpNetworks::from_ipaddr_iter`: one exact-match network per address, in order. */
  function FromIpAddrs(addrs: seq<IpAddr>): (r: IpNetworks)
    ensures |r.networks| == |addrs|
    ensures forall k :: 0 <= k < |addrs| ==> r.networks[k] == HostNetwork(addrs[k])
  {
    if addrs == [] then IpNetworks([])
    else IpNetworks([HostNetwork(addrs[0])] + FromIpAddrs(addrs[1..]).networks)
  }

  /** A trust set built from addresses trusts exactly those addresses. */
  lemma {:induction false} FromIpAddrsTrustsExactly(addrs: seq<IpAddr>, a: IpAddr)
    ensures Contains(FromIpAddrs(addrs), a) <==> a in addrs
  {
    var nets := FromIpAddrs(addrs);
    if a in addrs {
      var k :| 0 <= k < |addrs| && addrs[k] == a;
      assert NetContains(nets.networks[k], a);
    }
    if Contains(nets, a) {
      var k :| 0 <= k < |nets.networks| && NetContains(nets.networks[k], a);
      assert addrs[k] == a;
    }
  }
}
