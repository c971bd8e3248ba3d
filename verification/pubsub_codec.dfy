/** The pubsub frame codec and the authenticators' own encodings. */
module PubsubCodec {
  import opened Prelude
  import opened Octets
  import opened Topics

  // --- Little-endian words ---

  function ToLe(n: nat, len: nat): (s: seq<byte>)
    requires n < Pow256(len)
    ensures |s| == len
    decreases len
  {
    if len == 0 then [] else [n % 256] + ToLe(n / 256, len - 1)
  }

  function FromLe(s: seq<byte>): (n: nat)
    ensures n < Pow256(|s|)
  {
    if s == [] then 0 else s[0] + 256 * FromLe(s[1..])
  }

  lemma {:induction false} FromLeToLe(n: nat, len: nat)
    requires n < Pow256(len)
    ensures FromLe(ToLe(n, len)) == n
    decreases len
  {
    if len > 0 {
      FromLeToLe(n / 256, len - 1);
      assert ToLe(n, len)[1..] == ToLe(n / 256, len - 1);
    }
  }

  lemma LowDigit(b: byte, n: nat)
    ensures (b + 256 * n) % 256 == b && (b + 256 * n) / 256 == n
  {
  }

  lemma {:induction false} ToLeFromLe(s: seq<byte>)
    ensures ToLe(FromLe(s), |s|) == s
  {
    if s != [] {
      var n := FromLe(s[1..]);
      assert FromLe(s) == s[0] + 256 * n && n < Pow256(|s| - 1);
      ToLeFromLe(s[1..]);
      hide FromLe;
      LowDigit(s[0], n);
      assert ToLe(FromLe(s), |s|) == [s[0]] + ToLe(n, |s| - 1);
      assert s == [s[0]] + s[1..];
    }
  }

  type i64 = e: int | -0x8000_0000_0000_0000 <= e < 0x8000_0000_0000_0000

  /** Two's complement, least significant byte first. */
  function I64ToLe(e: i64): (s: seq<byte>)
    ensures |s| == ENTRY_LEN
  {
    Widths();
    ToLe(if e < 0 then e + 0x1_0000_0000_0000_0000 else e, 8)
  }

  function I64FromLe(s: seq<byte>): i64
    requires |s| == ENTRY_LEN
  {
    Widths();
    var n := FromLe(s);
    if n < 0x8000_0000_0000_0000 then n else n - 0x1_0000_0000_0000_0000
  }

  lemma I64RoundTrip(e: i64)
    ensures I64FromLe(I64ToLe(e)) == e
  {
    Widths();
    FromLeToLe(if e < 0 then e + 0x1_0000_0000_0000_0000 else e, 8);
  }

  lemma I64Canonical(s: seq<byte>)
    requires |s| == ENTRY_LEN
    ensures I64ToLe(I64FromLe(s)) == s
  {
    Widths();
    ToLeFromLe(s);
  }

  // --- Authenticators ---

  const FINGERPRINT_LEN: nat := 32
  const PREFIX_LEN: nat := 4
  const ENTRY_LEN: nat := 8
  const U32_MAX: nat := 0xFFFF_FFFF

  type Fingerprint = s: seq<byte> | |s| == FINGERPRINT_LEN witness seq(FINGERPRINT_LEN, _ => 0)

  datatype Kind = Null | KeyedHash | Lattice

  datatype Commitment = NoCommitment | Committed(bytes: Fingerprint)

  datatype Tag = NoTag | HashTag(bytes: Fingerprint) | Signature(sigma: seq<i64>)

  predicate TagOf(kind: Kind, t: Tag) {
    match kind
    case Null => t.NoTag?
    case KeyedHash => t.HashTag?
    case Lattice => t.Signature?
  }

  /** The commitment and tag types of an authenticator. */
  predicate Typed(kind: Kind, c: Commitment, t: Tag) {
    (kind.Null? <==> c.NoCommitment?) && TagOf(kind, t)
  }

  function CommitmentToVec(c: Commitment): seq<byte> {
    if c.Committed? then c.bytes else []
  }

  function CommitmentFromBytes(kind: Kind, buf: seq<byte>): (r: Result<(Commitment, nat)>)
    ensures r.Ok? ==> r.value.1 <= |buf|
  {
    if kind.Null? then Ok((NoCommitment, 0))
    else if |buf| < FINGERPRINT_LEN then Err(WireProtocol)
    else Ok((Committed(buf[..FINGERPRINT_LEN]), FINGERPRINT_LEN))
  }

  function EntriesToVec(es: seq<i64>): (s: seq<byte>)
    ensures |s| == ENTRY_LEN * |es|
  {
    if es == [] then [] else I64ToLe(es[0]) + EntriesToVec(es[1..])
  }

  function EntriesFromBytes(body: seq<byte>, count: nat): (es: seq<i64>)
    requires |body| == ENTRY_LEN * count
    ensures |es| == count
    decreases count
  {
    if count == 0 then [] else [I64FromLe(body[..ENTRY_LEN])] + EntriesFromBytes(body[ENTRY_LEN..], count - 1)
  }

  /** The length prefix saturates. */
  function SigmaToVec(es: seq<i64>): seq<byte> {
    Widths();
    ToBe(if |es| <= U32_MAX then |es| else U32_MAX, PREFIX_LEN) + EntriesToVec(es)
  }

  function SigmaFromBytes(buf: seq<byte>): (r: Result<(seq<i64>, nat)>)
    ensures r.Ok? ==> r.value.1 <= |buf| && |r.value.0| <= U32_MAX
  {
    if |buf| < PREFIX_LEN then Err(WireProtocol)
    else
      Widths();
      var count := FromBe(buf[..PREFIX_LEN]);
      var end := PREFIX_LEN + ENTRY_LEN * count;
      if |buf| < end then Err(WireProtocol)
      else Ok((EntriesFromBytes(buf[PREFIX_LEN..end], count), end))
  }

  function TagToVec(t: Tag): seq<byte> {
    match t
    case NoTag => []
    case HashTag(bytes) => bytes
    case Signature(sigma) => SigmaToVec(sigma)
  }

  function TagFromBytes(kind: Kind, buf: seq<byte>): (r: Result<(Tag, nat)>)
    ensures r.Ok? ==> r.value.1 <= |buf|
  {
    match kind
    case Null => Ok((NoTag, 0))
    case KeyedHash =>
      if |buf| < FINGERPRINT_LEN then Err(WireProtocol)
      else Ok((HashTag(buf[..FINGERPRINT_LEN]), FINGERPRINT_LEN))
    case Lattice =>
      var (sigma, n) :- SigmaFromBytes(buf);
      Ok((Signature(sigma), n))
  }

  lemma {:induction false} EntriesRoundTrip(es: seq<i64>)
    ensures EntriesFromBytes(EntriesToVec(es), |es|) == es
  {
    hide I64ToLe, I64FromLe;
    if es == [] {
    } else {
      var (first, rest) := (I64ToLe(es[0]), EntriesToVec(es[1..]));
      I64RoundTrip(es[0]);
      EntriesRoundTrip(es[1..]);
      assert (first + rest)[..ENTRY_LEN] == first && (first + rest)[ENTRY_LEN..] == rest;
      assert es == [es[0]] + es[1..];
    }
  }

  lemma {:induction false} EntriesCanonical(body: seq<byte>, count: nat)
    requires |body| == ENTRY_LEN * count
    ensures EntriesToVec(EntriesFromBytes(body, count)) == body
    decreases count
  {
    hide I64ToLe, I64FromLe;
    if count > 0 {
      var es := EntriesFromBytes(body, count);
      I64Canonical(body[..ENTRY_LEN]);
      EntriesCanonical(body[ENTRY_LEN..], count - 1);
      assert es[1..] == EntriesFromBytes(body[ENTRY_LEN..], count - 1);
      assert body == body[..ENTRY_LEN] + body[ENTRY_LEN..];
    }
  }

  lemma SigmaRoundTrip(es: seq<i64>, rest: seq<byte>)
    requires |es| <= U32_MAX
    ensures SigmaFromBytes(SigmaToVec(es) + rest) == Ok((es, |SigmaToVec(es)|))
  {
    Widths();
    FromBeToBe(|es|, PREFIX_LEN);
    EntriesRoundTrip(es);
    hide EntriesToVec, EntriesFromBytes, ToBe, FromBe;
    var buf := SigmaToVec(es) + rest;
    var end := PREFIX_LEN + ENTRY_LEN * |es|;
    assert buf[..PREFIX_LEN] == ToBe(|es|, PREFIX_LEN);
    assert buf[PREFIX_LEN..end] == EntriesToVec(es);
  }

  lemma SigmaCanonical(buf: seq<byte>)
    requires SigmaFromBytes(buf).Ok?
    ensures var (es, n) := SigmaFromBytes(buf).value; SigmaToVec(es) == buf[..n]
  {
    Widths();
    ToBeFromBe(buf[..PREFIX_LEN]);
    var count := FromBe(buf[..PREFIX_LEN]);
    var end := PREFIX_LEN + ENTRY_LEN * count;
    EntriesCanonical(buf[PREFIX_LEN..end], count);
    hide EntriesToVec, EntriesFromBytes, ToBe, FromBe;
    assert buf[..end] == buf[..PREFIX_LEN] + buf[PREFIX_LEN..end];
  }

  /** Each tag owns exactly the bytes it was written to; a signature does if its length fits the prefix. */
  lemma TagRoundTrip(kind: Kind, t: Tag, rest: seq<byte>)
    requires TagOf(kind, t) && (t.Signature? ==> |t.sigma| <= U32_MAX)
    ensures TagFromBytes(kind, TagToVec(t) + rest) == Ok((t, |TagToVec(t)|))
  {
    if t.Signature? {
      SigmaRoundTrip(t.sigma, rest);
    } else if t.HashTag? {
      assert (TagToVec(t) + rest)[..FINGERPRINT_LEN] == t.bytes;
    }
  }

  lemma TagCanonical(kind: Kind, buf: seq<byte>)
    requires TagFromBytes(kind, buf).Ok?
    ensures var (t, n) := TagFromBytes(kind, buf).value; TagToVec(t) == buf[..n]
  {
    if kind.Lattice? { SigmaCanonical(buf); }
  }

  lemma CommitmentRoundTrip(kind: Kind, c: Commitment, rest: seq<byte>)
    requires kind.Null? <==> c.NoCommitment?
    ensures CommitmentFromBytes(kind, CommitmentToVec(c) + rest) == Ok((c, |CommitmentToVec(c)|))
  {
    if c.Committed? { assert (c.bytes + rest)[..FINGERPRINT_LEN] == c.bytes; }
  }

  lemma CommitmentCanonical(kind: Kind, buf: seq<byte>)
    requires CommitmentFromBytes(kind, buf).Ok?
    ensures var (c, n) := CommitmentFromBytes(kind, buf).value; CommitmentToVec(c) == buf[..n]
  {
  }

  // --- Frames ---

  datatype CodedPiece = CodedPiece(codingVector: seq<byte>, data: seq<byte>)

  function PieceToBytes(p: CodedPiece): seq<byte> {
    p.codingVector + p.data
  }

  /** The coding library's parser: `k` bytes of coding vector, the rest data. */
  function PieceFromBytes(buf: seq<byte>, k: nat): Result<CodedPiece> {
    if |buf| < k then Err(RlncLayer) else Ok(CodedPiece(buf[..k], buf[k..]))
  }

  datatype WirePiece = WirePiece(commitment: Commitment, piece: CodedPiece, tag: Tag)

  datatype Frame = Frame(topic: Topic, pieceCount: nat, pieceByteLen: nat, pieceBytes: seq<byte>)

  const KB_LEN: nat := 8

  function AuthBlock(wp: WirePiece): seq<byte> {
    CommitmentToVec(wp.commitment) + TagToVec(wp.tag) + PieceToBytes(wp.piece)
  }

  function Encode(topic: Topic, k: nat, b: nat, wp: WirePiece): Result<seq<byte>> {
    Widths();
    if k > U32_MAX || b > U32_MAX then Err(WireProtocol)
    else Ok([|topic|] + topic + ToBe(k, 4) + ToBe(b, 4) + AuthBlock(wp))
  }

  /** Commitment, tag and piece, each starting where the one before ended. */
  function DecodeAuthBlock(kind: Kind, buf: seq<byte>, k: nat): Result<(WirePiece, seq<byte>)> {
    var (commitment, n) :- CommitmentFromBytes(kind, buf);
    var (tag, m) :- TagFromBytes(kind, buf[n..]);
    var pieceBytes := buf[n..][m..];
    var piece :- PieceFromBytes(pieceBytes, k);
    Ok((WirePiece(commitment, piece, tag), pieceBytes))
  }

  function Decode(kind: Kind, bytes: seq<byte>): Result<(Frame, WirePiece)> {
    if bytes == [] then Err(WireProtocol)
    else
      var n := bytes[0];
      if |bytes| < 1 + n + KB_LEN then Err(WireProtocol)
      else if !ValidTopic(bytes[1..1 + n]) then Err(WireProtocol)
      else
        var k := FromBe(bytes[1 + n..1 + n + 4]);
        var b := FromBe(bytes[1 + n + 4..1 + n + 8]);
        var (wp, pieceBytes) :- DecodeAuthBlock(kind, bytes[1 + n + KB_LEN..], k);
        Ok((Frame(bytes[1..1 + n], k, b, pieceBytes), wp))
  }

  lemma AuthBlockRoundTrip(kind: Kind, wp: WirePiece, k: nat)
    requires Typed(kind, wp.commitment, wp.tag)
    requires |wp.piece.codingVector| == k && (wp.tag.Signature? ==> |wp.tag.sigma| <= U32_MAX)
    ensures DecodeAuthBlock(kind, AuthBlock(wp), k) == Ok((wp, PieceToBytes(wp.piece)))
  {
    hide CommitmentToVec, CommitmentFromBytes, TagToVec, TagFromBytes, TagOf;
    var (c, t, p) := (CommitmentToVec(wp.commitment), TagToVec(wp.tag), PieceToBytes(wp.piece));
    CommitmentRoundTrip(kind, wp.commitment, t + p);
    TagRoundTrip(kind, wp.tag, p);
    var buf := AuthBlock(wp);
    assert buf == c + (t + p);
    assert buf[|c|..] == t + p;
    assert (t + p)[|t|..] == p;
    assert p[..k] == wp.piece.codingVector && p[k..] == wp.piece.data;
  }

  lemma ParsedTypes(kind: Kind, c: seq<byte>, t: seq<byte>)
    requires CommitmentFromBytes(kind, c).Ok? && TagFromBytes(kind, t).Ok?
    ensures var tag := TagFromBytes(kind, t).value.0;
            Typed(kind, CommitmentFromBytes(kind, c).value.0, tag) && (tag.Signature? ==> |tag.sigma| <= U32_MAX)
  {
    hide FromBe, EntriesFromBytes;
  }

  lemma PieceCanonical(buf: seq<byte>, k: nat)
    requires PieceFromBytes(buf, k).Ok?
    ensures var p := PieceFromBytes(buf, k).value; |p.codingVector| == k && PieceToBytes(p) == buf
  {
    assert buf[..k] + buf[k..] == buf;
  }

  lemma ThreeParts(buf: seq<byte>, n: nat, m: nat)
    requires n <= |buf| && m <= |buf| - n
    ensures buf[..n] + buf[n..][..m] + buf[n..][m..] == buf
  {
    assert buf[n..][..m] + buf[n..][m..] == buf[n..];
  }

  lemma AuthBlockCanonical(kind: Kind, buf: seq<byte>, k: nat)
    requires DecodeAuthBlock(kind, buf, k).Ok?
    ensures var (wp, p) := DecodeAuthBlock(kind, buf, k).value;
            && Typed(kind, wp.commitment, wp.tag) && |wp.piece.codingVector| == k
            && (wp.tag.Signature? ==> |wp.tag.sigma| <= U32_MAX)
            && PieceToBytes(wp.piece) == p && AuthBlock(wp) == buf
  {
    hide CommitmentToVec, TagToVec, CommitmentFromBytes, TagFromBytes, Typed, PieceFromBytes, PieceToBytes;
    var (c, n) := CommitmentFromBytes(kind, buf).value;
    var (t, m) := TagFromBytes(kind, buf[n..]).value;
    CommitmentCanonical(kind, buf);
    TagCanonical(kind, buf[n..]);
    ParsedTypes(kind, buf, buf[n..]);
    PieceCanonical(buf[n..][m..], k);
    ThreeParts(buf, n, m);
  }

  /** The frame a receiver sees for an encoded piece. */
  function Received(topic: Topic, k: nat, b: nat, wp: WirePiece): (Frame, WirePiece) {
    (Frame(topic, k, b, PieceToBytes(wp.piece)), wp)
  }

  lemma HeaderParts(topic: Topic, k: nat, b: nat, block: seq<byte>)
    requires k <= U32_MAX && b <= U32_MAX
    ensures Pow256(4) == U32_MAX + 1
    ensures var bytes := [|topic|] + topic + ToBe(k, 4) + ToBe(b, 4) + block;
            var n := |topic|;
            && bytes[0] == n && |bytes| >= 1 + n + KB_LEN && bytes[1..1 + n] == topic
            && FromBe(bytes[1 + n..1 + n + 4]) == k && FromBe(bytes[1 + n + 4..1 + n + 8]) == b
            && bytes[1 + n + KB_LEN..] == block
  {
    Widths();
    FromBeToBe(k, 4);
    FromBeToBe(b, 4);
    hide ToBe, FromBe;
    var bytes := [|topic|] + topic + ToBe(k, 4) + ToBe(b, 4) + block;
    var n := |topic|;
    assert bytes[1..1 + n] == topic;
    assert bytes[1 + n..1 + n + 4] == ToBe(k, 4);
    assert bytes[1 + n + 4..1 + n + 8] == ToBe(b, 4);
    assert bytes[1 + n + KB_LEN..] == block;
  }

  /**
   * A frame survives the wire exactly when its coding vector has the announced
   * length and, under the lattice authenticator, its signature has at most
   * 2^32 - 1 entries.  The announced piece length is carried but never compared
   * with the data.
   */
  lemma DecodeEncodeExactly(kind: Kind, topic: Topic, k: nat, b: nat, wp: WirePiece)
    requires Typed(kind, wp.commitment, wp.tag)
    ensures Encode(topic, k, b, wp).Ok? <==> k <= U32_MAX && b <= U32_MAX
    ensures Encode(topic, k, b, wp).Ok? ==>
              (Decode(kind, Encode(topic, k, b, wp).value) == Ok(Received(topic, k, b, wp))
               <==> |wp.piece.codingVector| == k && (wp.tag.Signature? ==> |wp.tag.sigma| <= U32_MAX))
  {
    hide ToBe, FromBe, DecodeAuthBlock, AuthBlock, PieceToBytes, Pow256, Typed;
    if k <= U32_MAX && b <= U32_MAX {
      HeaderParts(topic, k, b, AuthBlock(wp));
      var block := AuthBlock(wp);
      if |wp.piece.codingVector| == k && (wp.tag.Signature? ==> |wp.tag.sigma| <= U32_MAX) {
        AuthBlockRoundTrip(kind, wp, k);
      } else if DecodeAuthBlock(kind, block, k).Ok? {
        AuthBlockCanonical(kind, block, k);
      }
    }
  }

  lemma HeaderJoins(bytes: seq<byte>, n: nat)
    requires |bytes| >= 1 + n + KB_LEN && bytes[0] == n
    ensures bytes == [n] + bytes[1..1 + n] + bytes[1 + n..1 + n + 4] + bytes[1 + n + 4..1 + n + 8]
                     + bytes[1 + n + KB_LEN..]
  {
    Cut(bytes, 0, 1);
    Cut(bytes, 1, 1 + n);
    Cut(bytes, 1 + n, 1 + n + 4);
    Cut(bytes, 1 + n + 4, 1 + n + 8);
    Regroup(bytes[0..1], bytes[1..1 + n], bytes[1 + n..1 + n + 4], bytes[1 + n + 4..1 + n + 8], bytes[1 + n + 8..]);
    assert bytes[0..] == bytes && bytes[0..1] == [n];
  }

  lemma Cut(s: seq<byte>, i: nat, j: nat)
    requires i <= j <= |s|
    ensures s[i..] == s[i..j] + s[j..]
  {
  }

  lemma Regroup(a: seq<byte>, b: seq<byte>, c: seq<byte>, d: seq<byte>, e: seq<byte>)
    ensures a + (b + (c + (d + e))) == a + b + c + d + e
  {
    assert a + (b + (c + (d + e))) == a + b + (c + (d + e));
    assert a + b + (c + (d + e)) == a + b + c + (d + e);
  }

  /** Only one byte string decodes to a given frame: re-encoding gives it back, bit for bit. */
  lemma EncodeDecode(kind: Kind, bytes: seq<byte>)
    requires Decode(kind, bytes).Ok?
    ensures var (f, wp) := Decode(kind, bytes).value;
            && Encode(f.topic, f.pieceCount, f.pieceByteLen, wp) == Ok(bytes)
            && |wp.piece.codingVector| == f.pieceCount && PieceToBytes(wp.piece) == f.pieceBytes
            && Typed(kind, wp.commitment, wp.tag)
  {
    Widths();
    hide ToBe, FromBe, DecodeAuthBlock, AuthBlock, PieceToBytes, Typed;
    var n := bytes[0];
    var (k, b) := (bytes[1 + n..1 + n + 4], bytes[1 + n + 4..1 + n + 8]);
    ToBeFromBe(k);
    ToBeFromBe(b);
    AuthBlockCanonical(kind, bytes[1 + n + KB_LEN..], FromBe(k));
    hide Pow256;
    HeaderJoins(bytes, n);
    var (f, wp) := Decode(kind, bytes).value;
    assert f.topic == bytes[1..1 + n] && f.pieceCount == FromBe(k) && f.pieceByteLen == FromBe(b);
  }
}
