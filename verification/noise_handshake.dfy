/** The six transitions of the Noise XX handshake (Noise revision 34, section 7.5). */
module Handshake {
  import opened Prelude
  import opened Crypto
  import opened Symmetric
  import opened Transport

  const EPH_PUBLIC_LEN: nat := KEY_LEN
  const ENC_STATIC_LEN: nat := KEY_LEN + TAG_LEN
  const MESSAGE_1_LEN: nat := EPH_PUBLIC_LEN
  const MESSAGE_2_OVERHEAD_LEN: nat := EPH_PUBLIC_LEN + ENC_STATIC_LEN + TAG_LEN
  const MESSAGE_3_OVERHEAD_LEN: nat := ENC_STATIC_LEN + TAG_LEN

  function ParseKey(slice: Bytes): Result<Key> {
    if |slice| == KEY_LEN then Ok(slice) else Err(NoiseProtocol)
  }

  // --- Initiator ---

  datatype InitiatorAfterE = InitiatorAfterE(ownStatic: Key, ephemeral: Key, sym: SymmetricState)

  datatype InitiatorAfterResponse = InitiatorAfterResponse(
    ownStatic: Key, remoteEph: Key, remoteStatic: Key, sym: SymmetricState)

  function WriteE(ownStatic: Key, seed: Key): (InitiatorAfterE, Bytes) {
    var sym := Initialize().MixHash(PublicOf(seed));
    var (sym, trailing) := sym.EncryptAndHash([]);
    (InitiatorAfterE(ownStatic, seed, sym), PublicOf(seed) + trailing)
  }

  function ReadResponse(state: InitiatorAfterE, msg: Bytes): Result<(InitiatorAfterResponse, Bytes)> {
    if |msg| < MESSAGE_2_OVERHEAD_LEN then Err(NoiseProtocol)
    else
      var remoteEph :- ParseKey(msg[..EPH_PUBLIC_LEN]);
      var sym := state.sym.MixHash(remoteEph).MixKey(Dh(state.ephemeral, remoteEph));
      var (sym, plain) :- sym.DecryptAndHash(msg[EPH_PUBLIC_LEN..EPH_PUBLIC_LEN + ENC_STATIC_LEN]);
      var remoteStatic :- ParseKey(plain);
      var sym := sym.MixKey(Dh(state.ephemeral, remoteStatic));
      var (sym, payload) :- sym.DecryptAndHash(msg[EPH_PUBLIC_LEN + ENC_STATIC_LEN..]);
      Ok((InitiatorAfterResponse(state.ownStatic, remoteEph, remoteStatic, sym), payload))
  }

  /** The symmetric state in which the handshake ends, with message 3. */
  function FinishS(state: InitiatorAfterResponse, payload: Bytes): (SymmetricState, Bytes) {
    var (sym, encStatic) := state.sym.EncryptAndHash(PublicOf(state.ownStatic));
    var sym := sym.MixKey(Dh(state.ownStatic, state.remoteEph));
    var (sym, encPayload) := sym.EncryptAndHash(payload);
    (sym, encStatic + encPayload)
  }

  function WriteS(state: InitiatorAfterResponse, payload: Bytes): (TransportState, Bytes, Key) {
    var (sym, msg) := FinishS(state, payload);
    var (toResponder, toInitiator) := sym.Split();
    (NewTransport(toResponder, toInitiator), msg, state.remoteStatic)
  }

  // --- Responder ---

  datatype ResponderAfterE = ResponderAfterE(ownStatic: Key, remoteEph: Key, sym: SymmetricState)

  datatype ResponderAfterResponse = ResponderAfterResponse(ephemeral: Key, sym: SymmetricState)

  function ReadE(ownStatic: Key, msg: Bytes): Result<ResponderAfterE> {
    if |msg| == MESSAGE_1_LEN then
      var remoteEph :- ParseKey(msg[..EPH_PUBLIC_LEN]);
      var (sym, _) :- Initialize().MixHash(remoteEph).DecryptAndHash([]);
      Ok(ResponderAfterE(ownStatic, remoteEph, sym))
    else Err(NoiseProtocol)
  }

  function WriteResponse(state: ResponderAfterE, seed: Key, payload: Bytes): (ResponderAfterResponse, Bytes) {
    var sym := state.sym.MixHash(PublicOf(seed)).MixKey(Dh(seed, state.remoteEph));
    var (sym, encStatic) := sym.EncryptAndHash(PublicOf(state.ownStatic));
    var sym := sym.MixKey(Dh(state.ownStatic, state.remoteEph));
    var (sym, encPayload) := sym.EncryptAndHash(payload);
    (ResponderAfterResponse(seed, sym), PublicOf(seed) + encStatic + encPayload)
  }

  /** The symmetric state in which the responder ends, with the initiator's static key and payload. */
  function AcceptS(state: ResponderAfterResponse, msg: Bytes): Result<(SymmetricState, Key, Bytes)> {
    if |msg| < MESSAGE_3_OVERHEAD_LEN then Err(NoiseProtocol)
    else
      var (sym, plain) :- state.sym.DecryptAndHash(msg[..ENC_STATIC_LEN]);
      var remoteStatic :- ParseKey(plain);
      var sym := sym.MixKey(Dh(state.ephemeral, remoteStatic));
      var (sym, payload) :- sym.DecryptAndHash(msg[ENC_STATIC_LEN..]);
      Ok((sym, remoteStatic, payload))
  }

  function ReadS(state: ResponderAfterResponse, msg: Bytes): Result<(TransportState, Key, Bytes)> {
    var (sym, remoteStatic, payload) :- AcceptS(state, msg);
    var (toResponder, toInitiator) := sym.Split();
    Ok((NewTransport(toInitiator, toResponder), remoteStatic, payload))
  }
}
