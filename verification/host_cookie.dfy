/** Stateless source-address validation cookies. */
module Cookie {
  import opened Octets
  import opened Crypto
  import opened Addresses
  import Handshake

  const COOKIE_MAC_LEN: nat := 16
  const COOKIE_REPLY_MARKER: byte := 0xC0
  const COOKIE_REPLY_LEN: nat := 1 + COOKIE_MAC_LEN
  const MSG1_WITH_COOKIE_LEN: nat := Handshake.MESSAGE_1_LEN + COOKIE_MAC_LEN
  const COOKIE_DOMAIN: string := "libp2p-cat-host cookie v1"

  function Domain(): seq<byte> {
    seq(|COOKIE_DOMAIN|, i requires 0 <= i < |COOKIE_DOMAIN| => COOKIE_DOMAIN[i] as int % 256)
  }

  /** Family tag, IP octets and big-endian port of the canonical address. */
  function AddrBytes(addr: UdpAddr): seq<byte> {
    Widths();
    match Canonical(addr)
    case V4(ip, port) => [0x04] + ip + ToBe(port, 2)
    case V6(ip, port, _, _) => [0x06] + ip + ToBe(port, 2)
  }

  function MacInput(from: UdpAddr, e: Bytes): Bytes {
    Literal(Domain()) + Literal(AddrBytes(from)) + e
  }

  function Mint(secret: Key, from: UdpAddr, e: Bytes): (r: Bytes)
    ensures |r| == COOKIE_MAC_LEN
  {
    Expand(Mac(secret, MacInput(from, e)), COOKIE_MAC_LEN)
  }

  function Challenge(secret: Key, from: UdpAddr, e: Bytes): (r: Bytes)
    ensures |r| == COOKIE_REPLY_LEN
  {
    [Lit(COOKIE_REPLY_MARKER)] + Mint(secret, from, e)
  }

  predicate IsChallenge(datagram: Bytes) {
    |datagram| == COOKIE_REPLY_LEN && datagram[0] == Lit(COOKIE_REPLY_MARKER)
  }

  predicate Verify(secret: Key, from: UdpAddr, e: Bytes, mac: Bytes) {
    |mac| == COOKIE_MAC_LEN && mac == Mint(secret, from, e)
  }

  /** A `msg1` followed by a cookie this host minted for exactly that address and ephemeral key. */
  predicate ValidEcho(secret: Key, from: UdpAddr, datagram: Bytes) {
    && |datagram| == MSG1_WITH_COOKIE_LEN
    && Verify(secret, from, datagram[..Handshake.MESSAGE_1_LEN], datagram[Handshake.MESSAGE_1_LEN..])
  }

  /** Two addresses share their MAC bytes exactly when they stand for the same peer. */
  lemma AddrBytesInjective(a: UdpAddr, b: UdpAddr)
    ensures AddrBytes(a) == AddrBytes(b) <==> SamePeer(a, b)
  {
    Widths();
    CanonicalExactly(a, b);
    var x, y := AddrBytes(a), AddrBytes(b);
    if x == y {
      var n := |Canonical(a).ip|;
      assert x[0] == y[0];
      assert |x| == 3 + n;
      assert x[1..1 + n] == Canonical(a).ip && x[1 + n..] == ToBe(Canonical(a).port, 2);
      assert y[1..1 + n] == Canonical(b).ip && y[1 + n..] == ToBe(Canonical(b).port, 2);
      FromBeToBe(Canonical(a).port, 2);
      FromBeToBe(Canonical(b).port, 2);
    }
  }

  lemma LiteralInjective(s: seq<byte>, t: seq<byte>)
    requires Literal(s) == Literal(t)
    ensures s == t
  {
    assert |s| == |Literal(s)| == |t|;
    forall i | 0 <= i < |s|
      ensures s[i] == t[i]
    {
      assert Literal(s)[i] == Literal(t)[i];
    }
  }

  /**
   * A cookie binds its secret, the peer it was minted for and the ephemeral
   * key: no other combination has the same MAC.
   */
  lemma MintBinds(s: Key, a: UdpAddr, e: Bytes, s': Key, a': UdpAddr, e': Bytes)
    ensures Mint(s, a, e) == Mint(s', a', e')
       <==> s == s' && SamePeer(a, a') && e == e'
  {
    var d, x, x' := Literal(Domain()), Literal(AddrBytes(a)), Literal(AddrBytes(a'));
    AddrBytesInjective(a, a');
    CanonicalExactly(a, a');
    if Mint(s, a, e) == Mint(s', a', e') {
      ExpandInjective(Mac(s, MacInput(a, e)), COOKIE_MAC_LEN, Mac(s', MacInput(a', e')), COOKIE_MAC_LEN);
      var m, m' := MacInput(a, e), MacInput(a', e');
      assert m[|d|] == x[0] && m'[|d|] == x'[0];
      assert |x| == |x'|;
      assert m[|d|..|d| + |x|] == x && m'[|d|..|d| + |x|] == x';
      assert m[|d| + |x|..] == e && m'[|d| + |x|..] == e';
      LiteralInjective(AddrBytes(a), AddrBytes(a'));
    }
  }
}
