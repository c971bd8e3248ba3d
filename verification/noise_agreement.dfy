/** What the two sides of an XX handshake agree on. */
module Agreement {
  import opened Prelude
  import opened Crypto
  import opened Symmetric
  import opened Transport
  import opened Handshake

  /** What one side sends under is what the other receives under, in both directions, and no key serves both. */
  predicate Mirrored(t: TransportState, u: TransportState) {
    && t.sendKey == u.recvKey && t.recvKey == u.sendKey && t.sendKey != t.recvKey
    && t == NewTransport(t.sendKey, t.recvKey) && u == NewTransport(u.sendKey, u.recvKey)
  }

  lemma SplitKeysDiffer(s: SymmetricState)
    ensures s.Split().0 != s.Split().1
  {
    assert s.Split().0[0] != s.Split().1[0];
  }

  lemma MessageOne(initiator: Key, responder: Key, seed: Key)
    ensures var (a, msg) := WriteE(initiator, seed);
            && |msg| == MESSAGE_1_LEN && msg == PublicOf(seed)
            && ReadE(responder, msg) == Ok(ResponderAfterE(responder, PublicOf(seed), a.sym))
  {
    var (a, msg) := WriteE(initiator, seed);
    assert msg[..EPH_PUBLIC_LEN] == msg == PublicOf(seed);
  }

  /** The message 2 that the initiator's transcript calls for, given what the responder would put in it. */
  function ResponseFor(a: InitiatorAfterE, remoteEph: Key, remoteStatic: Key, payload: Bytes): (SymmetricState, Bytes) {
    var sym := a.sym.MixHash(remoteEph).MixKey(Dh(a.ephemeral, remoteEph));
    var (sym, encStatic) := sym.EncryptAndHash(remoteStatic);
    var sym := sym.MixKey(Dh(a.ephemeral, remoteStatic));
    var (sym, encPayload) := sym.EncryptAndHash(payload);
    (sym, remoteEph + encStatic + encPayload)
  }

  /** Reading message 2 succeeds on exactly the messages the initiator's own transcript calls for. */
  lemma ReadResponseExactly(a: InitiatorAfterE, msg: Bytes, next: InitiatorAfterResponse, payload: Bytes)
    ensures ReadResponse(a, msg) == Ok((next, payload))
       <==> next.ownStatic == a.ownStatic
            && ResponseFor(a, next.remoteEph, next.remoteStatic, payload) == (next.sym, msg)
  {
    var e, s := next.remoteEph, next.remoteStatic;
    var s1 := a.sym.MixHash(e).MixKey(Dh(a.ephemeral, e));
    var (s2, encStatic) := s1.EncryptAndHash(s);
    var s3 := s2.MixKey(Dh(a.ephemeral, s));
    var (s4, encPayload) := s3.EncryptAndHash(payload);
    var expected := e + encStatic + encPayload;
    if |msg| >= MESSAGE_2_OVERHEAD_LEN {
      var n := EPH_PUBLIC_LEN + ENC_STATIC_LEN;
      var m0, m1, m2 := msg[..EPH_PUBLIC_LEN], msg[EPH_PUBLIC_LEN..n], msg[n..];
      assert msg == m0 + m1 + m2;
      if msg == expected {
        assert m0 == e && m1 == encStatic && m2 == encPayload;
      }
      s1.DecryptInvertsEncrypt(m1, s2, s);
      s3.DecryptInvertsEncrypt(m2, s4, payload);
      if ReadResponse(a, msg) == Ok((next, payload)) {
        var (t2, plain) := s1.DecryptAndHash(m1).value;
        s1.DecryptInvertsEncrypt(m1, t2, plain);
        assert m1 == encStatic && t2 == s2;
        s3.DecryptInvertsEncrypt(m2, next.sym, payload);
      }
    }
  }

  /** The message 3 that the responder's transcript calls for, given what the initiator would put in it. */
  function FinalFor(b: ResponderAfterResponse, remoteStatic: Key, payload: Bytes): (SymmetricState, Bytes) {
    var (sym, encStatic) := b.sym.EncryptAndHash(remoteStatic);
    var sym := sym.MixKey(Dh(b.ephemeral, remoteStatic));
    var (sym, encPayload) := sym.EncryptAndHash(payload);
    (sym, encStatic + encPayload)
  }

  /** Reading message 3 succeeds on exactly the messages the responder's own transcript calls for. */
  lemma AcceptSExactly(b: ResponderAfterResponse, msg: Bytes, sym: SymmetricState, remoteStatic: Key, payload: Bytes)
    requires b.sym.cipherKey.Some?
    ensures AcceptS(b, msg) == Ok((sym, remoteStatic, payload))
       <==> FinalFor(b, remoteStatic, payload) == (sym, msg)
  {
    var (s2, encStatic) := b.sym.EncryptAndHash(remoteStatic);
    var s3 := s2.MixKey(Dh(b.ephemeral, remoteStatic));
    var (s4, encPayload) := s3.EncryptAndHash(payload);
    if |msg| >= MESSAGE_3_OVERHEAD_LEN {
      var m1, m2 := msg[..ENC_STATIC_LEN], msg[ENC_STATIC_LEN..];
      assert msg == m1 + m2;
      if msg == encStatic + encPayload {
        assert m1 == encStatic && m2 == encPayload;
      }
      b.sym.DecryptInvertsEncrypt(m1, s2, remoteStatic);
      s3.DecryptInvertsEncrypt(m2, s4, payload);
      if AcceptS(b, msg) == Ok((sym, remoteStatic, payload)) {
        var (t2, plain) := b.sym.DecryptAndHash(m1).value;
        b.sym.DecryptInvertsEncrypt(m1, t2, plain);
        assert m1 == encStatic && t2 == s2;
        s3.DecryptInvertsEncrypt(m2, sym, payload);
      }
    }
  }

  /**
   * XX agreement.  For all static keys, ephemeral seeds and trailers the three
   * messages are accepted, have the documented lengths and carry each static
   * key and payload exactly; both sides hold the same hash and chaining key
   * after every message, and end with mirrored transport keys.
   */
  lemma XxAgreement(initiator: Key, responder: Key, iSeed: Key, rSeed: Key, trailer2: Bytes, trailer3: Bytes)
    ensures var (a, msg1) := WriteE(initiator, iSeed);
            var e := ReadE(responder, msg1);
            && |msg1| == MESSAGE_1_LEN
            && e.Ok? && e.value.sym == a.sym
            && var (b, msg2) := WriteResponse(e.value, rSeed, trailer2);
            && |msg2| == MESSAGE_2_OVERHEAD_LEN + |trailer2|
            && var got2 := ReadResponse(a, msg2);
            && got2.Ok? && got2.value.1 == trailer2
            && got2.value.0.remoteStatic == PublicOf(responder) && got2.value.0.sym == b.sym
            && var (t, msg3, claimed) := WriteS(got2.value.0, trailer3);
            && |msg3| == MESSAGE_3_OVERHEAD_LEN + |trailer3| && claimed == PublicOf(responder)
            && AcceptS(b, msg3) == Ok((FinishS(got2.value.0, trailer3).0, PublicOf(initiator), trailer3))
            && var got3 := ReadS(b, msg3);
            && got3.Ok? && got3.value.1 == PublicOf(initiator) && got3.value.2 == trailer3
            && Mirrored(t, got3.value.0)
  {
    hide Dh, PublicOf, Seal, HashTwo, KdfFirst, KdfSecond;
    var (a, msg1) := WriteE(initiator, iSeed);
    MessageOne(initiator, responder, iSeed);
    var e := ReadE(responder, msg1).value;
    var (b, msg2) := WriteResponse(e, rSeed, trailer2);
    DhCommutes(iSeed, rSeed);
    DhCommutes(iSeed, responder);
    DhCommutes(initiator, rSeed);
    var next := InitiatorAfterResponse(initiator, PublicOf(rSeed), PublicOf(responder), b.sym);
    ReadResponseExactly(a, msg2, next, trailer2);
    var (sym, msg3) := FinishS(next, trailer3);
    AcceptSExactly(b, msg3, sym, PublicOf(initiator), trailer3);
    SplitKeysDiffer(sym);
  }
}
