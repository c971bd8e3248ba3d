/** UDP socket addresses. */
module Addresses {
  import opened Octets

  datatype SocketAddr =
    | V4(ip: seq<byte>, port: nat)
    | V6(ip: seq<byte>, port: nat, flowinfo: nat, scope: nat)
  {
    predicate Valid() {
      && port < 0x1_0000
      && (V4? ==> |ip| == 4)
      && (V6? ==> |ip| == 16)
    }
  }

  type UdpAddr = a: SocketAddr | a.Valid() witness V4([0, 0, 0, 0], 0)

  const V4_MAPPED_PREFIX: seq<byte> := [0, 0, 0, 0, 0, 0, 0, 0, 0, 0, 0xFF, 0xFF]

  /** The peer an address stands for: IPv4-mapped IPv6 is IPv4, and the local routing hints of IPv6 are dropped. */
  function Canonical(a: UdpAddr): UdpAddr {
    match a
    case V4(_, _) => a
    case V6(ip, port, _, _) =>
      if ip[..12] == V4_MAPPED_PREFIX then V4(ip[12..], port) else V6(ip, port, 0, 0)
  }

  /** The IPv6 form of an IP address. */
  function Mapped(ip: seq<byte>): seq<byte> {
    if |ip| == 4 then V4_MAPPED_PREFIX + ip else ip
  }

  /** Two addresses of one peer: same IP, IPv4 or IPv4-mapped alike, and same port, whatever the routing hints. */
  predicate SamePeer(a: UdpAddr, b: UdpAddr) {
    Mapped(a.ip) == Mapped(b.ip) && a.port == b.port
  }

  lemma CanonicalExactly(a: UdpAddr, b: UdpAddr)
    ensures Canonical(a) == Canonical(b) <==> SamePeer(a, b)
  {
    CanonicalForm(a);
    CanonicalForm(b);
    var x, y := Canonical(a), Canonical(b);
    if SamePeer(a, b) {
      assert Mapped(x.ip) == Mapped(y.ip);
      if x.V4? && y.V4? { assert x.ip == Mapped(x.ip)[12..] && y.ip == Mapped(y.ip)[12..]; }
    }
  }

  /** The canonical form is of the same peer, and is IPv4 exactly if the IPv6 form is mapped. */
  lemma CanonicalForm(a: UdpAddr)
    ensures SamePeer(a, Canonical(a))
    ensures Canonical(a).V4? <==> Mapped(a.ip)[..12] == V4_MAPPED_PREFIX
    ensures Canonical(a).V6? ==> Canonical(a).flowinfo == 0 && Canonical(a).scope == 0
  {
    if a.V6? { assert a.ip == a.ip[..12] + a.ip[12..]; }
  }
}
