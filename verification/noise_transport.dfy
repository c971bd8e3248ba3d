/** Post-handshake transport: explicit nonces and a 64-bit sliding replay window. */
module Transport {
  import opened Prelude
  import opened Crypto
  import opened Octets
  import opened ReplayWindow
  import opened Words

  const NONCE_PREFIX_LEN: nat := 8
  const TRANSPORT_OVERHEAD: nat := NONCE_PREFIX_LEN + TAG_LEN

  datatype TransportState = TransportState(
    sendKey: Key, sendNonce: u64, recvKey: Key, recvMax: u64, recvWindow: u64)

  function NewTransport(sendKey: Key, recvKey: Key): TransportState {
    TransportState(sendKey, 0, recvKey, 0, 0)
  }

  function NoncePrefix(nonce: u64): (r: Bytes)
    ensures |r| == NONCE_PREFIX_LEN
  {
    Widths();
    Literal(ToBe(nonce, NONCE_PREFIX_LEN))
  }

  /** The number a byte stands for; bytes of a symbolic term are read as zero. */
  function Octet(b: Byte): byte {
    match b
    case Lit(v) => v
    case Piece(_, _) => 0
  }

  function ParseNonce(prefix: Bytes): u64
    requires |prefix| == NONCE_PREFIX_LEN
  {
    Widths();
    FromBe(seq(|prefix|, i requires 0 <= i < |prefix| => Octet(prefix[i])))
  }

  lemma ParsePrefix(nonce: u64)
    ensures ParseNonce(NoncePrefix(nonce)) == nonce
  {
    Widths();
    var s := ToBe(nonce, NONCE_PREFIX_LEN);
    assert seq(|s|, i requires 0 <= i < |s| => Octet(Literal(s)[i])) == s;
    FromBeToBe(nonce, NONCE_PREFIX_LEN);
  }

  function Encrypt(state: TransportState, plaintext: Bytes): Result<(TransportState, Bytes)> {
    var datagram := NoncePrefix(state.sendNonce) + Seal(state.sendKey, state.sendNonce, [], plaintext);
    if state.sendNonce == U64_MAX then Err(NoiseProtocol)
    else Ok((state.(sendNonce := state.sendNonce + 1), datagram))
  }

  /** Validation and decryption without touching the window. */
  function DecryptChecked(key: Key, window: u64, max: u64, datagram: Bytes): Result<(u64, Bytes)> {
    if |datagram| < TRANSPORT_OVERHEAD then Err(NoiseProtocol)
    else
      var nonce := ParseNonce(datagram[..NONCE_PREFIX_LEN]);
      if !NonceAcceptable(window, max, nonce) then Err(NoiseReplay)
      else
        var plaintext :- Open(key, nonce, [], datagram[NONCE_PREFIX_LEN..]);
        Ok((nonce, plaintext))
  }

  function Decrypt(state: TransportState, datagram: Bytes): (TransportState, Result<Bytes>) {
    match DecryptChecked(state.recvKey, state.recvWindow, state.recvMax, datagram)
    case Err(e) => (state, Err(e))
    case Ok((nonce, plaintext)) =>
      var (window, max) := AdvanceWindow(state.recvWindow, state.recvMax, nonce);
      (state.(recvWindow := window, recvMax := max), Ok(plaintext))
  }

  /** A datagram that is refused changes nothing. */
  lemma DecryptErrorKeeps(t: TransportState, d: Bytes)
    ensures Decrypt(t, d).1.Err? ==> Decrypt(t, d).0 == t
  {
    hide DecryptChecked;
  }

  /** Each half of the state is touched by its own operation alone. */
  lemma HalvesApart(t: TransportState, p: Bytes, d: Bytes)
    ensures Decrypt(t, d).0.sendKey == t.sendKey && Decrypt(t, d).0.sendNonce == t.sendNonce
    ensures Encrypt(t, p).Ok? ==>
              var t' := Encrypt(t, p).value.0;
              t'.recvKey == t.recvKey && t'.recvMax == t.recvMax && t'.recvWindow == t.recvWindow
  {
    hide DecryptChecked;
  }
}
