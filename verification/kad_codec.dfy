/** The Kademlia wire codec. */
module KadCodec {
  import opened Prelude
  import opened Octets
  import opened Addresses
  import opened KadIds
  import opened KadTable

  datatype Frame =
    | PingReq
    | PingResp
    | FindNodeReq(target: NodeId)
    | FindNodeResp(peers: seq<Peer>)

  const MAX_PEERS_PER_RESP: nat := 255
  const ADDR_KIND_V4: byte := 0x04
  const ADDR_KIND_V6: byte := 0x06
  const ADDR_V4_BODY_LEN: nat := 6
  const ADDR_V6_BODY_LEN: nat := 18

  // --- Encoding ---

  function EncodeAddr(a: UdpAddr): (r: seq<byte>)
    ensures |r| == if a.V4? then 1 + ADDR_V4_BODY_LEN else 1 + ADDR_V6_BODY_LEN
  {
    Widths();
    match a
    case V4(ip, port) => [ADDR_KIND_V4] + ip + ToBe(port, 2)
    case V6(ip, port, _, _) => [ADDR_KIND_V6] + ip + ToBe(port, 2)
  }

  function EncodeEntry(p: Peer): seq<byte> {
    p.id + EncodeAddr(p.addr)
  }

  function EncodeEntries(peers: seq<Peer>): seq<byte> {
    if peers == [] then [] else EncodeEntry(peers[0]) + EncodeEntries(peers[1..])
  }

  function Encode(f: Frame): Result<seq<byte>> {
    match f
    case PingReq => Ok([0x00])
    case PingResp => Ok([0x01])
    case FindNodeReq(target) => Ok([0x02] + target)
    case FindNodeResp(peers) =>
      if |peers| > MAX_PEERS_PER_RESP then Err(WireProtocol)
      else Ok([0x03, |peers|] + EncodeEntries(peers))
  }

  // --- Decoding ---

  function DecodeAddr(buf: seq<byte>): (r: Result<(UdpAddr, nat)>)
    ensures r.Ok? ==> r.value.1 <= |buf|
  {
    Widths();
    if buf == [] then Err(WireProtocol)
    else if buf[0] == ADDR_KIND_V4 then
      if |buf| < 1 + ADDR_V4_BODY_LEN then Err(WireProtocol)
      else Ok((V4(buf[1..5], FromBe(buf[5..7])), 1 + ADDR_V4_BODY_LEN))
    else if buf[0] == ADDR_KIND_V6 then
      if |buf| < 1 + ADDR_V6_BODY_LEN then Err(WireProtocol)
      else Ok((V6(buf[1..17], FromBe(buf[17..19]), 0, 0), 1 + ADDR_V6_BODY_LEN))
    else Err(WireProtocol)
  }

  function DecodeEntry(buf: seq<byte>): (r: Result<(Peer, nat)>)
    ensures r.Ok? ==> NODE_ID_LEN < r.value.1 + 1 && r.value.1 <= |buf|
  {
    if |buf| < NODE_ID_LEN then Err(WireProtocol)
    else
      var (addr, consumed) :- DecodeAddr(buf[NODE_ID_LEN..]);
      Ok((Peer(buf[..NODE_ID_LEN], addr), NODE_ID_LEN + consumed))
  }

  /** `count` entries from the front of `buf`, and how many bytes they took. */
  function Entries(buf: seq<byte>, count: nat): (r: Result<(seq<Peer>, nat)>)
    ensures r.Ok? ==> r.value.1 <= |buf| && |r.value.0| == count
    decreases count
  {
    if count == 0 then Ok(([], 0))
    else
      var (head, consumed) :- DecodeEntry(buf);
      var (tail, more) :- Entries(buf[consumed..], count - 1);
      Ok(([head] + tail, consumed + more))
  }

  /** The result so far, followed by that of the rest. */
  function Joined(acc: seq<Peer>, offset: nat, rest: Result<(seq<Peer>, nat)>): Result<(seq<Peer>, nat)> {
    match rest
    case Err(e) => Err(e)
    case Ok((peers, more)) => Ok((acc + peers, offset + more))
  }

  lemma JoinNext(acc: seq<Peer>, offset: nat, buf: seq<byte>, left: nat)
    requires offset <= |buf| && left > 0
    ensures match DecodeEntry(buf[offset..])
            case Err(e) => Joined(acc, offset, Entries(buf[offset..], left)) == Err(e)
            case Ok((peer, n)) =>
              Joined(acc, offset, Entries(buf[offset..], left))
              == Joined(acc + [peer], offset + n, Entries(buf[offset + n..], left - 1))
  {
    hide DecodeEntry;
    var entry := DecodeEntry(buf[offset..]);
    if entry.Ok? {
      var (peer, n) := entry.value;
      assert buf[offset..][n..] == buf[offset + n..];
      var rest := Entries(buf[offset + n..], left - 1);
      hide Entries;
      if rest.Ok? { assert acc + ([peer] + rest.value.0) == acc + [peer] + rest.value.0; }
    }
  }

  lemma JoinedNothing(r: Result<(seq<Peer>, nat)>)
    ensures Joined([], 0, r) == r
  {
    if r.Ok? { assert [] + r.value.0 == r.value.0; }
  }

  /** The source's fold: push entries onto an accumulator with a running offset. */
  method DecodeEntries(buf: seq<byte>, count: nat) returns (r: Result<(seq<Peer>, nat)>)
    ensures r == Entries(buf, count)
  {
    hide DecodeEntry, Joined, Entries;
    var acc: seq<Peer> := [];
    var offset := 0;
    assert buf[0..] == buf;
    JoinedNothing(Entries(buf, count));
    for i := 0 to count
      invariant offset <= |buf|
      invariant Entries(buf, count) == Joined(acc, offset, Entries(buf[offset..], count - i))
    {
      var entry := DecodeEntry(buf[offset..]);
      JoinNext(acc, offset, buf, count - i);
      if entry.Err? {
        return Err(entry.error);
      }
      var (peer, consumed) := entry.value;
      acc := acc + [peer];
      offset := offset + consumed;
    }
    NoEntries(buf[offset..], acc, offset);
    r := Ok((acc, offset));
  }

  lemma NoEntries(buf: seq<byte>, acc: seq<Peer>, offset: nat)
    ensures Joined(acc, offset, Entries(buf, 0)) == Ok((acc, offset))
  {
    assert acc + [] == acc;
  }

  function Decode(bytes: seq<byte>): Result<Frame> {
    if bytes == [] then Err(WireProtocol)
    else
      var body := bytes[1..];
      match bytes[0]
      case 0x00 => if body == [] then Ok(PingReq) else Err(WireProtocol)
      case 0x01 => if body == [] then Ok(PingResp) else Err(WireProtocol)
      case 0x02 => if |body| == NODE_ID_LEN then Ok(FindNodeReq(body)) else Err(WireProtocol)
      case 0x03 => DecodeFindNodeResp(body)
      case _ => Err(WireProtocol)
  }

  function DecodeFindNodeResp(body: seq<byte>): Result<Frame> {
    if body == [] then Err(WireProtocol)
    else
      var (peers, consumed) :- Entries(body[1..], body[0]);
      if consumed == |body[1..]| then Ok(FindNodeResp(peers)) else Err(WireProtocol)
  }

  // --- Round trips ---

  /** What an address keeps on the wire: IPv6 flow and scope are dropped. */
  function WireAddr(a: UdpAddr): UdpAddr {
    match a
    case V4(_, _) => a
    case V6(ip, port, _, _) => V6(ip, port, 0, 0)
  }

  function WirePeer(p: Peer): Peer {
    p.(addr := WireAddr(p.addr))
  }

  function WirePeers(peers: seq<Peer>): seq<Peer> {
    seq(|peers|, i requires 0 <= i < |peers| => WirePeer(peers[i]))
  }

  function WireFrame(f: Frame): Frame {
    if f.FindNodeResp? then FindNodeResp(WirePeers(f.peers)) else f
  }

  lemma AddrRoundTrip(a: UdpAddr, rest: seq<byte>)
    ensures DecodeAddr(EncodeAddr(a) + rest) == Ok((WireAddr(a), |EncodeAddr(a)|))
  {
    Widths();
    FromBeToBe(a.port, 2);
    var n := if a.V4? then 5 else 17;
    var buf := EncodeAddr(a) + rest;
    assert buf[1..n] == a.ip && buf[n..n + 2] == ToBe(a.port, 2);
  }

  lemma AddrCanonical(buf: seq<byte>)
    requires DecodeAddr(buf).Ok?
    ensures var (a, n) := DecodeAddr(buf).value;
            EncodeAddr(a) == buf[..n] && WireAddr(a) == a
  {
    Widths();
    var (a, n) := DecodeAddr(buf).value;
    ToBeFromBe(buf[n - 2..n]);
    assert buf[..n] == [buf[0]] + buf[1..n - 2] + buf[n - 2..n];
  }

  lemma EntryRoundTrip(p: Peer, rest: seq<byte>)
    ensures DecodeEntry(EncodeEntry(p) + rest) == Ok((WirePeer(p), |EncodeEntry(p)|))
  {
    AddrRoundTrip(p.addr, rest);
    var buf := EncodeEntry(p) + rest;
    assert buf[..NODE_ID_LEN] == p.id && buf[NODE_ID_LEN..] == EncodeAddr(p.addr) + rest;
  }

  lemma {:induction false} EntriesRoundTrip(peers: seq<Peer>)
    ensures Entries(EncodeEntries(peers), |peers|) == Ok((WirePeers(peers), |EncodeEntries(peers)|))
  {
    hide EncodeEntry, DecodeEntry;
    if peers == [] {
      assert WirePeers(peers) == [];
    } else {
      var first, rest := EncodeEntry(peers[0]), EncodeEntries(peers[1..]);
      EntryRoundTrip(peers[0], rest);
      EntriesRoundTrip(peers[1..]);
      assert EncodeEntries(peers) == first + rest;
      assert (first + rest)[|first|..] == rest;
      assert WirePeers(peers) == [WirePeer(peers[0])] + WirePeers(peers[1..]);
    }
  }

  lemma EntryCanonical(buf: seq<byte>)
    requires DecodeEntry(buf).Ok?
    ensures var (p, n) := DecodeEntry(buf).value;
            EncodeEntry(p) == buf[..n] && WirePeer(p) == p
  {
    hide EncodeAddr, DecodeAddr, WireAddr;
    var (p, n) := DecodeEntry(buf).value;
    AddrCanonical(buf[NODE_ID_LEN..]);
    assert buf[..n] == buf[..NODE_ID_LEN] + buf[NODE_ID_LEN..][..n - NODE_ID_LEN];
  }

  lemma {:induction false} EntriesCanonical(buf: seq<byte>, count: nat)
    requires Entries(buf, count).Ok?
    ensures var (peers, n) := Entries(buf, count).value;
            EncodeEntries(peers) == buf[..n] && WirePeers(peers) == peers
    decreases count
  {
    hide EncodeEntry, DecodeEntry, WirePeer;
    if count > 0 {
      var (head, m) := DecodeEntry(buf).value;
      var (tail, k) := Entries(buf[m..], count - 1).value;
      EntryCanonical(buf);
      EntriesCanonical(buf[m..], count - 1);
      assert ([head] + tail)[1..] == tail;
      assert buf[..m + k] == buf[..m] + buf[m..][..k];
      assert WirePeers([head] + tail) == [WirePeer(head)] + WirePeers(tail);
    }
  }

  lemma RespRoundTrip(peers: seq<Peer>)
    ensures Encode(FindNodeResp(peers)).Err? <==> |peers| > MAX_PEERS_PER_RESP
    ensures Encode(FindNodeResp(peers)).Ok? ==>
              Decode(Encode(FindNodeResp(peers)).value) == Ok(FindNodeResp(WirePeers(peers)))
  {
    if |peers| <= MAX_PEERS_PER_RESP {
      EntriesRoundTrip(peers);
      hide Entries, EncodeEntries, WirePeers;
      var bytes := Encode(FindNodeResp(peers)).value;
      var body := bytes[1..];
      assert bytes[0] == 0x03 && body[0] == |peers|;
      assert body[1..] == EncodeEntries(peers);
      assert DecodeFindNodeResp(body) == Ok(FindNodeResp(WirePeers(peers)));
    }
  }

  /**
   * Decoding what was encoded gives the frame back, less the IPv6 flow and
   * scope that the wire does not carry; so it gives the same frame exactly
   * when those are zero.  Only a response of more than 255 peers cannot be
   * encoded.
   */
  lemma DecodeEncode(f: Frame)
    ensures Encode(f).Err? <==> f.FindNodeResp? && |f.peers| > MAX_PEERS_PER_RESP
    ensures Encode(f).Ok? ==> Decode(Encode(f).value) == Ok(WireFrame(f))
  {
    if f.FindNodeResp? {
      RespRoundTrip(f.peers);
    } else {
      hide Entries, EncodeEntries;
    }
  }

  /** Only one byte string decodes to a given frame: re-encoding gives it back, bit for bit. */
  lemma EncodeDecode(bytes: seq<byte>)
    requires Decode(bytes).Ok?
    ensures Encode(Decode(bytes).value) == Ok(bytes)
    ensures WireFrame(Decode(bytes).value) == Decode(bytes).value
  {
    hide Entries;
    assert bytes == [bytes[0]] + bytes[1..];
    assert bytes[1..] == [] ==> bytes == [bytes[0]];
    if bytes[0] == 0x03 {
      var body := bytes[1..];
      EntriesCanonical(body[1..], body[0]);
      var (peers, n) := Entries(body[1..], body[0]).value;
      assert body[1..][..n] == body[1..];
      assert bytes == [0x03, |peers|] + EncodeEntries(peers);
      assert Decode(bytes).value == FindNodeResp(peers);
    }
  }

  lemma FrameSurvivesExactly(f: Frame)
    requires Encode(f).Ok?
    ensures Decode(Encode(f).value) == Ok(f)
       <==> (f.FindNodeResp? ==> forall i :: 0 <= i < |f.peers| && f.peers[i].addr.V6? ==>
              f.peers[i].addr.flowinfo == 0 && f.peers[i].addr.scope == 0)
  {
    DecodeEncode(f);
    if f.FindNodeResp? {
      forall i | 0 <= i < |f.peers|
        ensures WirePeers(f.peers)[i] == f.peers[i]
           <==> (f.peers[i].addr.V6? ==> f.peers[i].addr.flowinfo == 0 && f.peers[i].addr.scope == 0)
      {
      }
      assert WirePeers(f.peers) == f.peers <==> forall i :: 0 <= i < |f.peers| ==> WirePeers(f.peers)[i] == f.peers[i];
    }
  }
}
