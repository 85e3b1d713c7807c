/** Peer identities and multiaddresses, and the two address classifiers of the service. */
module Addressing {
  import opened Sequences

  datatype PeerId = PeerId(multihash: string)

  type Octet = n: int | 0 <= n < 256

  /** One component of a multiaddress; an IPv6 address is kept as its 128-bit number. */
  datatype Protocol =
    | Ip4(a: Octet, b: Octet, c: Octet, d: Octet)
    | Ip6(address: nat)
    | Dns(name: string)
    | Tcp(port: nat)
    | P2p(peer: PeerId)
    | Other(code: nat)

  type Multiaddr = seq<Protocol>

  datatype Subnet24 = Subnet24(a: Octet, b: Octet, c: Octet)

  /** The /24 of the first IPv4 component, if there is one. */
  function SubnetOf(addr: Multiaddr): Option<Subnet24> {
    if addr == [] then None
    else if addr[0].Ip4? then Some(Subnet24(addr[0].a, addr[0].b, addr[0].c))
    else SubnetOf(addr[1..])
  }

  /** The first IPv4 component alone decides, and only an address without one has no subnet. */
  lemma {:induction false} SubnetIsOfFirstIp4(addr: Multiaddr, i: nat)
    requires i <= |addr| && forall j :: 0 <= j < i ==> !addr[j].Ip4?
    ensures i < |addr| && addr[i].Ip4? ==> SubnetOf(addr) == Some(Subnet24(addr[i].a, addr[i].b, addr[i].c))
    ensures i == |addr| ==> SubnetOf(addr) == None
  {
    if i > 0 {
      SubnetIsOfFirstIp4(addr[1..], i - 1);
    }
  }

  predicate LoopbackOrUnspecified(p: Protocol) {
    match p
    case Ip4(a, b, c, d) => a == 127 || (a == 0 && b == 0 && c == 0 && d == 0)
    case Ip6(address) => address == 1 || address == 0
    case _ => false
  }

  predicate Undialable(addr: Multiaddr) {
    exists i :: 0 <= i < |addr| && LoopbackOrUnspecified(addr[i])
  }

  /** Loopback is 127.0.0.0/8 and ::1, unspecified are 0.0.0.0 and ::, and one such component is enough. */
  lemma UndialableExactly(addr: Multiaddr)
    ensures Undialable(addr) <==>
              exists i :: 0 <= i < |addr| &&
                ((addr[i].Ip4? && addr[i].a == 127) || addr[i] in {Ip4(0, 0, 0, 0), Ip6(0), Ip6(1)})
  {
    hide LoopbackOrUnspecified;
    forall i | 0 <= i < |addr|
      ensures LoopbackOrUnspecified(addr[i]) <==>
                (addr[i].Ip4? && addr[i].a == 127) || addr[i] in {Ip4(0, 0, 0, 0), Ip6(0), Ip6(1)}
    {
      ComponentExactly(addr[i]);
    }
  }

  lemma ComponentExactly(p: Protocol)
    ensures LoopbackOrUnspecified(p) <==>
              (p.Ip4? && p.a == 127) || p in {Ip4(0, 0, 0, 0), Ip6(0), Ip6(1)}
  {
  }

  predicate HasTcp(addr: Multiaddr) {
    exists i :: 0 <= i < |addr| && addr[i].Tcp?
  }

  /** Splits a multiaddress that ends in a /p2p component into the peer and what precedes it. */
  function SplitPeer(addr: Multiaddr): Option<(PeerId, Multiaddr)> {
    if |addr| > 0 && addr[|addr| - 1].P2p?
    then Some((addr[|addr| - 1].peer, addr[..|addr| - 1]))
    else None
  }

  /** Splitting undoes appending the peer, and recognizes exactly the addresses made that way. */
  lemma SplitInvertsAppend(addr: Multiaddr, peer: PeerId, dial: Multiaddr)
    ensures SplitPeer(addr) == Some((peer, dial)) <==> addr == dial + [P2p(peer)]
  {
    if SplitPeer(addr) == Some((peer, dial)) {
      assert addr == addr[..|addr| - 1] + [addr[|addr| - 1]];
    }
  }
}
