/** Where each field sits on the wire, byte by byte, as the formats document it. */
module WireLayout {
  import opened Prelude
  import opened Octets
  import opened Addresses
  import opened KadIds
  import opened KadTable
  import Crypto
  import KadCodec
  import PubsubCodec
  import Topics
  import Transport
  import Words

  /** `s` from `at` on begins with `part`. */
  predicate At(s: seq<byte>, at: nat, part: seq<byte>) {
    at + |part| <= |s| && s[at..at + |part|] == part
  }

  /** The i-th of the `len` bytes of `n`, most significant first. */
  predicate Digit(x: byte, n: nat, len: nat, i: nat)
    requires i < len
  {
    x == DigitOf(n, len - 1 - i)
  }

  predicate IsNumber(part: seq<byte>, n: nat) {
    forall i :: 0 <= i < |part| ==> Digit(part[i], n, |part|, i)
  }

  /** `s` holds `n` at `at`, in `len` bytes, most significant first. */
  predicate NumberAt(s: seq<byte>, at: nat, len: nat, n: nat) {
    at + len <= |s| && IsNumber(s[at..at + len], n)
  }

  lemma NumberBytes(n: nat, len: nat)
    requires n < Pow256(len)
    ensures IsNumber(ToBe(n, len), n)
  {
    forall i | 0 <= i < len
      ensures Digit(ToBe(n, len)[i], n, len, i)
    {
      BeDigits(n, len, i);
    }
  }

  lemma PartNumber(s: seq<byte>, at: nat, part: seq<byte>, n: nat)
    requires At(s, at, part) && IsNumber(part, n)
    ensures NumberAt(s, at, |part|, n)
  {
  }

  // --- Kademlia ---

  function EntryLen(p: Peer): nat {
    NODE_ID_LEN + if p.addr.V4? then 7 else 19
  }

  function EntryOffset(peers: seq<Peer>, i: nat): nat
    requires i <= |peers|
  {
    if i == 0 then 0 else EntryLen(peers[0]) + EntryOffset(peers[1..], i - 1)
  }

  /** One entry: id, address kind, IP octets, port. */
  predicate EntryAt(s: seq<byte>, at: nat, p: Peer) {
    && At(s, at, p.id)
    && At(s, at + NODE_ID_LEN, [if p.addr.V4? then 0x04 else 0x06])
    && At(s, at + NODE_ID_LEN + 1, p.addr.ip)
    && NumberAt(s, at + NODE_ID_LEN + 1 + |p.addr.ip|, 2, p.addr.port)
  }

  lemma EntryBytes(p: Peer)
    ensures |KadCodec.EncodeEntry(p)| == EntryLen(p) && EntryAt(KadCodec.EncodeEntry(p), 0, p)
  {
    Widths();
    NumberBytes(p.addr.port, 2);
    hide ToBe, IsNumber;
    var s := KadCodec.EncodeEntry(p);
    PartNumber(s, NODE_ID_LEN + 1 + |p.addr.ip|, ToBe(p.addr.port, 2), p.addr.port);
  }

  lemma PartMoved(s: seq<byte>, before: seq<byte>, after: seq<byte>, at: nat, part: seq<byte>)
    requires At(s, at, part)
    ensures At(before + s + after, |before| + at, part)
  {
  }

  lemma EntryMoved(s: seq<byte>, before: seq<byte>, after: seq<byte>, at: nat, p: Peer)
    requires EntryAt(s, at, p)
    ensures EntryAt(before + s + after, |before| + at, p)
  {
    PartMoved(s, before, after, at, p.id);
    PartMoved(s, before, after, at + NODE_ID_LEN, [if p.addr.V4? then 0x04 else 0x06]);
    PartMoved(s, before, after, at + NODE_ID_LEN + 1, p.addr.ip);
    var place := at + NODE_ID_LEN + 1 + |p.addr.ip|;
    hide IsNumber;
    PartMoved(s, before, after, place, s[place..place + 2]);
    hide At;
    PartNumber(before + s + after, |before| + place, s[place..place + 2], p.addr.port);
  }

  lemma {:induction false} EntriesLayout(peers: seq<Peer>, i: nat)
    requires i < |peers|
    ensures EntryAt(KadCodec.EncodeEntries(peers), EntryOffset(peers, i), peers[i])
    ensures |KadCodec.EncodeEntries(peers)| == EntryOffset(peers, |peers|)
    decreases |peers|
  {
    hide KadCodec.EncodeEntry, EntryAt, EntryLen;
    var first, rest := KadCodec.EncodeEntry(peers[0]), KadCodec.EncodeEntries(peers[1..]);
    EntryBytes(peers[0]);
    if |peers| > 1 { EntriesLayout(peers[1..], if i == 0 then 0 else i - 1); }
    assert [] + first + rest == first + rest && first + rest + [] == first + rest;
    if i == 0 {
      EntryMoved(first, [], rest, 0, peers[0]);
    } else {
      EntryMoved(rest, first, [], EntryOffset(peers[1..], i - 1), peers[i]);
    }
  }

  /** Every frame begins with its opcode; a request then holds the target, a response a count and the entries. */
  lemma KadLayout(f: KadCodec.Frame, i: nat)
    requires KadCodec.Encode(f).Ok? && (f.FindNodeResp? ==> i < |f.peers|)
    ensures var s := KadCodec.Encode(f).value;
            && (f.PingReq? ==> s == [0x00]) && (f.PingResp? ==> s == [0x01])
            && (f.FindNodeReq? ==> |s| == 33 && At(s, 0, [0x02]) && At(s, 1, f.target))
            && (f.FindNodeResp? ==>
                  && |s| == 2 + EntryOffset(f.peers, |f.peers|) && At(s, 0, [0x03, |f.peers|])
                  && EntryAt(s, 2 + EntryOffset(f.peers, i), f.peers[i]))
  {
    hide EntryAt, EntryOffset, EntryLen, KadCodec.EncodeEntries;
    if f.FindNodeResp? {
      EntriesLayout(f.peers, i);
      var entries, head := KadCodec.EncodeEntries(f.peers), [0x03, |f.peers|];
      EntryMoved(entries, head, [], EntryOffset(f.peers, i), f.peers[i]);
      assert KadCodec.Encode(f).value == head + entries + [];
    }
  }

  // --- Pubsub ---

  lemma PubsubParts(topic: Topics.Topic, k: nat, b: nat, wp: PubsubCodec.WirePiece)
    requires PubsubCodec.Encode(topic, k, b, wp).Ok?
    ensures k < Pow256(4) && b < Pow256(4)
    ensures PubsubCodec.Encode(topic, k, b, wp).value
         == [|topic|] + topic + ToBe(k, 4) + ToBe(b, 4)
            + (PubsubCodec.CommitmentToVec(wp.commitment) + PubsubCodec.TagToVec(wp.tag)
               + (wp.piece.codingVector + wp.piece.data))
  {
    Widths();
    hide ToBe, PubsubCodec.CommitmentToVec, PubsubCodec.TagToVec, Pow256;
  }

  /** Topic with its length, then the two dimensions, then commitment, tag and piece. */
  lemma PubsubLayout(topic: Topics.Topic, k: nat, b: nat, wp: PubsubCodec.WirePiece)
    requires PubsubCodec.Encode(topic, k, b, wp).Ok?
    ensures var s, n := PubsubCodec.Encode(topic, k, b, wp).value, |topic|;
            var c, t := PubsubCodec.CommitmentToVec(wp.commitment), PubsubCodec.TagToVec(wp.tag);
            && At(s, 0, [n]) && At(s, 1, topic)
            && NumberAt(s, 1 + n, 4, k) && NumberAt(s, 5 + n, 4, b)
            && At(s, 9 + n, c) && At(s, 9 + n + |c|, t)
            && At(s, 9 + n + |c| + |t|, wp.piece.codingVector)
            && At(s, 9 + n + |c| + |t| + |wp.piece.codingVector|, wp.piece.data)
            && |s| == 9 + n + |c| + |t| + |wp.piece.codingVector| + |wp.piece.data|
  {
    PubsubParts(topic, k, b, wp);
    NumberBytes(k, 4);
    NumberBytes(b, 4);
    var c, t := PubsubCodec.CommitmentToVec(wp.commitment), PubsubCodec.TagToVec(wp.tag);
    var s := PubsubCodec.Encode(topic, k, b, wp).value;
    hide *;
    Joined([|topic|], topic, ToBe(k, 4), ToBe(b, 4), c, t, wp.piece.codingVector, wp.piece.data, s);
    PartNumber(s, 1 + |topic|, ToBe(k, 4), k);
    PartNumber(s, 5 + |topic|, ToBe(b, 4), b);
  }

  /** Where eight parts lie that are joined. */
  lemma Joined(a: seq<byte>, b: seq<byte>, c: seq<byte>, d: seq<byte>, e: seq<byte>, f: seq<byte>, g: seq<byte>,
               h: seq<byte>, s: seq<byte>)
    requires s == a + b + c + d + (e + f + (g + h))
    ensures At(s, 0, a) && At(s, |a|, b) && At(s, |a| + |b|, c) && At(s, |a| + |b| + |c|, d)
    ensures var n := |a| + |b| + |c| + |d|;
            && At(s, n, e) && At(s, n + |e|, f) && At(s, n + |e| + |f|, g) && At(s, n + |e| + |f| + |g|, h)
            && |s| == n + |e| + |f| + |g| + |h|
  {
    var front, back := a + b + c + d, e + f + (g + h);
    Front(a, b, c, d, back);
    Back(front, e, f, g, h);
  }

  lemma Front(a: seq<byte>, b: seq<byte>, c: seq<byte>, d: seq<byte>, rest: seq<byte>)
    ensures var s := a + b + c + d + rest;
            At(s, 0, a) && At(s, |a|, b) && At(s, |a| + |b|, c) && At(s, |a| + |b| + |c|, d)
  {
  }

  lemma Back(front: seq<byte>, e: seq<byte>, f: seq<byte>, g: seq<byte>, h: seq<byte>)
    ensures var s, n := front + (e + f + (g + h)), |front|;
            At(s, n, e) && At(s, n + |e|, f) && At(s, n + |e| + |f|, g) && At(s, n + |e| + |f| + |g|, h)
  {
    var s := front + (e + f + (g + h));
    assert s[|front|..] == e + f + (g + h);
  }

  // --- Transport ---

  /** A transport datagram begins with its nonce, most significant byte first. */
  lemma NonceLayout(nonce: Words.u64, i: nat)
    requires i < Transport.NONCE_PREFIX_LEN
    ensures Transport.NoncePrefix(nonce)[i].Lit? && Digit(Transport.NoncePrefix(nonce)[i].value, nonce, 8, i)
  {
    Widths();
    BeDigits(nonce, Transport.NONCE_PREFIX_LEN, i);
    assert Transport.NoncePrefix(nonce)[i] == Crypto.Lit(ToBe(nonce, Transport.NONCE_PREFIX_LEN)[i]);
  }
}
