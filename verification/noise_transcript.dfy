/**
 * The handshake hash as a record of the whole conversation: every ciphertext
 * is bound to all that went before it, and the keys follow the XX schedule.
 */
module Transcript {
  import opened Prelude
  import opened Crypto
  import opened Symmetric
  import opened Transport
  import opened Handshake
  import opened Agreement

  /** The hash of the protocol name and then of `items`, one after the other. */
  function TranscriptHash(items: seq<Bytes>): Key {
    if items == [] then ProtocolName()
    else HashTwo(TranscriptHash(items[..|items| - 1]), items[|items| - 1])
  }

  /** A hash stands for one transcript alone. */
  lemma {:induction false} TranscriptInjective(x: seq<Bytes>, y: seq<Bytes>)
    ensures TranscriptHash(x) == TranscriptHash(y) <==> x == y
    decreases |x|
  {
    if TranscriptHash(x) == TranscriptHash(y) {
      assert TranscriptHash(x)[0] == TranscriptHash(y)[0];
      assert ProtocolName()[0].Lit?;
      if x != [] && y != [] {
        TranscriptInjective(x[..|x| - 1], y[..|y| - 1]);
        assert x == x[..|x| - 1] + [x[|x| - 1]] && y == y[..|y| - 1] + [y[|y| - 1]];
      }
    }
  }

  lemma OneMore(items: seq<Bytes>, item: Bytes)
    ensures HashTwo(TranscriptHash(items), item) == TranscriptHash(items + [item])
  {
    assert (items + [item])[..|items|] == items;
  }

  // --- What each message adds ---

  /** Message 1 is the ephemeral key, then an empty payload. */
  function FirstItems(msg: Bytes): seq<Bytes> {
    [msg, []]
  }

  /** Message 2: ephemeral key, sealed static key, sealed trailer. */
  function SecondItems(msg: Bytes): seq<Bytes>
    requires |msg| >= MESSAGE_2_OVERHEAD_LEN
  {
    [msg[..EPH_PUBLIC_LEN], msg[EPH_PUBLIC_LEN..EPH_PUBLIC_LEN + ENC_STATIC_LEN], msg[EPH_PUBLIC_LEN + ENC_STATIC_LEN..]]
  }

  /** Message 3: sealed static key, sealed trailer. */
  function ThirdItems(msg: Bytes): seq<Bytes>
    requires |msg| >= MESSAGE_3_OVERHEAD_LEN
  {
    [msg[..ENC_STATIC_LEN], msg[ENC_STATIC_LEN..]]
  }

  lemma SecondItemsInjective(m: Bytes, n: Bytes)
    requires |m| >= MESSAGE_2_OVERHEAD_LEN && |n| >= MESSAGE_2_OVERHEAD_LEN && SecondItems(m) == SecondItems(n)
    ensures m == n
  {
    var x, y := SecondItems(m), SecondItems(n);
    assert m == x[0] + x[1] + x[2] && n == y[0] + y[1] + y[2];
  }

  /** After message 1 both sides hold the protocol name as chaining key and message 1 as transcript. */
  lemma AfterOne(own: Key, seed: Key, msg: Bytes)
    ensures var (a, sent) := WriteE(own, seed);
            a.ephemeral == seed
            && a.sym == SymmetricState(ProtocolName(), TranscriptHash(FirstItems(sent)), None, 0)
    ensures ReadE(own, msg).Ok? ==>
              ReadE(own, msg).value
              == ResponderAfterE(own, msg, SymmetricState(ProtocolName(), TranscriptHash(FirstItems(msg)), None, 0))
  {
    OneMore([], PublicOf(seed));
    OneMore([PublicOf(seed)], []);
    assert [] + [PublicOf(seed)] == [PublicOf(seed)] && [PublicOf(seed)] + [[]] == FirstItems(PublicOf(seed));
    assert PublicOf(seed) + [] == PublicOf(seed);
    OneMore([], msg);
    OneMore([msg], []);
    assert [] + [msg] == [msg] && [msg] + [[]] == FirstItems(msg);
    if |msg| == MESSAGE_1_LEN { assert msg[..EPH_PUBLIC_LEN] == msg; }
    hide PublicOf, HashTwo, ProtocolName, TranscriptHash;
  }

  /** The state that message 2 leaves, given the two secrets and the transcript before it. */
  function SecondState(ck: Key, ee: Key, es: Key, items: seq<Bytes>): SymmetricState {
    SymmetricState(KdfFirst(KdfFirst(ck, ee), es), TranscriptHash(items), Some(KdfSecond(KdfFirst(ck, ee), es)), 1)
  }

  /** `msg` is message 2 over `items`: each ciphertext is bound to the transcript so far. */
  predicate SecondBound(ck: Key, ee: Key, es: Key, items: seq<Bytes>, msg: Bytes, remoteStatic: Key, payload: Bytes)
    requires |msg| >= MESSAGE_2_OVERHEAD_LEN
  {
    var parts := SecondItems(msg);
    && parts[1] == Seal(KdfSecond(ck, ee), 0, TranscriptHash(items + parts[..1]), remoteStatic)
    && parts[2] == Seal(KdfSecond(KdfFirst(ck, ee), es), 0, TranscriptHash(items + parts[..2]), payload)
  }

  lemma MixSteps(items: seq<Bytes>, parts: seq<Bytes>)
    requires |parts| == 3
    ensures HashTwo(TranscriptHash(items), parts[0]) == TranscriptHash(items + parts[..1])
    ensures HashTwo(TranscriptHash(items + parts[..1]), parts[1]) == TranscriptHash(items + parts[..2])
    ensures HashTwo(TranscriptHash(items + parts[..2]), parts[2]) == TranscriptHash(items + parts)
  {
    OneMore(items, parts[0]);
    OneMore(items + parts[..1], parts[1]);
    OneMore(items + parts[..2], parts[2]);
    assert items + parts[..1] == items + [parts[0]];
    assert items + parts[..2] == items + parts[..1] + [parts[1]];
    assert items + parts == items + parts[..2] + [parts[2]];
  }

  /** Message 2 as the responder writes it. */
  lemma ResponseBound(s: ResponderAfterE, seed: Key, payload: Bytes, items: seq<Bytes>)
    requires s.sym.hash == TranscriptHash(items)
    ensures var (b, msg) := WriteResponse(s, seed, payload);
            var ee, es := Dh(seed, s.remoteEph), Dh(s.ownStatic, s.remoteEph);
            && |msg| == MESSAGE_2_OVERHEAD_LEN + |payload| && msg[..EPH_PUBLIC_LEN] == PublicOf(seed)
            && SecondBound(s.sym.chainingKey, ee, es, items, msg, PublicOf(s.ownStatic), payload)
            && b == ResponderAfterResponse(seed, SecondState(s.sym.chainingKey, ee, es, items + SecondItems(msg)))
  {
    hide Dh, PublicOf, Seal, HashTwo, KdfFirst, KdfSecond, TranscriptHash;
    var sym1 := s.sym.MixHash(PublicOf(seed)).MixKey(Dh(seed, s.remoteEph));
    var (sym2, encStatic) := sym1.EncryptAndHash(PublicOf(s.ownStatic));
    var sym3 := sym2.MixKey(Dh(s.ownStatic, s.remoteEph));
    var (sym4, encPayload) := sym3.EncryptAndHash(payload);
    var msg := WriteResponse(s, seed, payload).1;
    assert msg == PublicOf(seed) + encStatic + encPayload;
    var n := EPH_PUBLIC_LEN + ENC_STATIC_LEN;
    assert msg[..EPH_PUBLIC_LEN] == PublicOf(seed) && msg[EPH_PUBLIC_LEN..n] == encStatic && msg[n..] == encPayload;
    MixSteps(items, SecondItems(msg));
  }

  /** Message 2 as the initiator accepts it. */
  lemma ReadBound(a: InitiatorAfterE, msg: Bytes, items: seq<Bytes>)
    requires a.sym.hash == TranscriptHash(items) && ReadResponse(a, msg).Ok?
    ensures var (next, payload) := ReadResponse(a, msg).value;
            && |msg| >= MESSAGE_2_OVERHEAD_LEN && next.remoteEph == msg[..EPH_PUBLIC_LEN] && next.ownStatic == a.ownStatic
            && var ee, es := Dh(a.ephemeral, next.remoteEph), Dh(a.ephemeral, next.remoteStatic);
            && SecondBound(a.sym.chainingKey, ee, es, items, msg, next.remoteStatic, payload)
            && next.sym == SecondState(a.sym.chainingKey, ee, es, items + SecondItems(msg))
  {
    var (next, payload) := ReadResponse(a, msg).value;
    ReadResponseExactly(a, msg, next, payload);
    hide Dh, PublicOf, Seal, HashTwo, KdfFirst, KdfSecond, TranscriptHash, ReadResponse;
    var sym1 := a.sym.MixHash(next.remoteEph).MixKey(Dh(a.ephemeral, next.remoteEph));
    var (sym2, encStatic) := sym1.EncryptAndHash(next.remoteStatic);
    var sym3 := sym2.MixKey(Dh(a.ephemeral, next.remoteStatic));
    var (sym4, encPayload) := sym3.EncryptAndHash(payload);
    assert msg == next.remoteEph + encStatic + encPayload;
    assert SecondItems(msg) == [next.remoteEph, encStatic, encPayload];
    MixSteps(items, SecondItems(msg));
  }

  /** The keys of the transport: three secrets chained from the protocol name, then the split. */
  function SessionChain(ee: Key, es: Key, se: Key): Key {
    KdfFirst(KdfFirst(KdfFirst(ProtocolName(), ee), es), se)
  }

  /** Message 3 as the initiator writes it: both ciphertexts are bound to the transcript so far. */
  lemma FinishBound(s: InitiatorAfterResponse, payload: Bytes, ck: Key, ee: Key, es: Key, items: seq<Bytes>)
    requires s.sym == SecondState(ck, ee, es, items)
    ensures var (sym, msg) := FinishS(s, payload);
            var se, key := Dh(s.ownStatic, s.remoteEph), KdfSecond(KdfFirst(ck, ee), es);
            && |msg| == MESSAGE_3_OVERHEAD_LEN + |payload|
            && ThirdItems(msg)[0] == Seal(key, 1, TranscriptHash(items), PublicOf(s.ownStatic))
            && ThirdItems(msg)[1] == Seal(KdfSecond(s.sym.chainingKey, se), 0,
                                          TranscriptHash(items + ThirdItems(msg)[..1]), payload)
            && sym == SymmetricState(KdfFirst(s.sym.chainingKey, se), TranscriptHash(items + ThirdItems(msg)),
                                     Some(KdfSecond(s.sym.chainingKey, se)), 1)
  {
    hide Dh, PublicOf, Seal, HashTwo, KdfFirst, KdfSecond, TranscriptHash;
    var (sym1, encStatic) := s.sym.EncryptAndHash(PublicOf(s.ownStatic));
    var sym2 := sym1.MixKey(Dh(s.ownStatic, s.remoteEph));
    var (sym3, encPayload) := sym2.EncryptAndHash(payload);
    var msg := FinishS(s, payload).1;
    assert msg == encStatic + encPayload;
    var parts := ThirdItems(msg);
    assert parts == [encStatic, encPayload];
    OneMore(items, encStatic);
    OneMore(items + [encStatic], encPayload);
    assert items + parts[..1] == items + [encStatic] && items + parts == items + [encStatic] + [encPayload];
  }

  // --- What acceptance proves ---

  /**
   * A responder's message 2 is accepted by an initiator exactly when the
   * responder read that initiator's message 1.
   */
  lemma ResponseAcceptedExactly(iOwn: Key, iSeed: Key, rOwn: Key, rSeed: Key, heard1: Bytes, trailer: Bytes)
    requires ReadE(rOwn, heard1).Ok?
    ensures var msg2 := WriteResponse(ReadE(rOwn, heard1).value, rSeed, trailer).1;
            ReadResponse(WriteE(iOwn, iSeed).0, msg2).Ok? <==> heard1 == WriteE(iOwn, iSeed).1
  {
    var (a, msg1) := WriteE(iOwn, iSeed);
    var e := ReadE(rOwn, heard1).value;
    var msg2 := WriteResponse(e, rSeed, trailer).1;
    AfterOne(iOwn, iSeed, heard1);
    AfterOne(rOwn, iSeed, heard1);
    hide Dh, PublicOf, Seal, HashTwo, KdfFirst, KdfSecond, TranscriptHash, ReadResponse, WriteResponse, ReadE, WriteE;
    if ReadResponse(a, msg2).Ok? {
      ResponseBound(e, rSeed, trailer, FirstItems(heard1));
      ReadBound(a, msg2, FirstItems(msg1));
      var (next, payload) := ReadResponse(a, msg2).value;
      var part := SecondItems(msg2)[..1];
      SealInjective(KdfSecond(ProtocolName(), Dh(rSeed, e.remoteEph)), 0, TranscriptHash(FirstItems(heard1) + part),
                    PublicOf(rOwn),
                    KdfSecond(ProtocolName(), Dh(a.ephemeral, next.remoteEph)), 0,
                    TranscriptHash(FirstItems(msg1) + part), next.remoteStatic);
      TranscriptInjective(FirstItems(heard1) + part, FirstItems(msg1) + part);
      assert (FirstItems(heard1) + part)[0] == (FirstItems(msg1) + part)[0];
    }
    if heard1 == msg1 { XxAgreement(iOwn, rOwn, iSeed, rSeed, trailer, trailer); }
  }

  /**
   * Transcript binding.  A responder accepts an initiator's message 3 exactly
   * when each read what the other wrote: the responder that initiator's
   * message 1, and the initiator that responder's message 2, trailer and all.
   */
  lemma FinalAcceptedExactly(iOwn: Key, iSeed: Key, rOwn: Key, rSeed: Key, heard1: Bytes, heard2: Bytes,
                             trailer2: Bytes, trailer3: Bytes)
    requires ReadE(rOwn, heard1).Ok? && ReadResponse(WriteE(iOwn, iSeed).0, heard2).Ok?
    ensures var (a, msg1) := WriteE(iOwn, iSeed);
            var (b, msg2) := WriteResponse(ReadE(rOwn, heard1).value, rSeed, trailer2);
            var (sym, msg3) := FinishS(ReadResponse(a, heard2).value.0, trailer3);
            && (AcceptS(b, msg3).Ok? <==> heard1 == msg1 && heard2 == msg2)
            && (AcceptS(b, msg3).Ok? ==>
                  AcceptS(b, msg3) == Ok((sym, PublicOf(iOwn), trailer3)) && ReadResponse(a, heard2).value.1 == trailer2)
  {
    var (a, msg1) := WriteE(iOwn, iSeed);
    var e := ReadE(rOwn, heard1).value;
    var (b, msg2) := WriteResponse(e, rSeed, trailer2);
    var next := ReadResponse(a, heard2).value.0;
    var msg3 := FinishS(next, trailer3).1;
    XxAgreement(iOwn, rOwn, iSeed, rSeed, trailer2, trailer3);
    AfterOne(iOwn, iSeed, heard1);
    AfterOne(rOwn, iSeed, heard1);
    hide Dh, PublicOf, Seal, HashTwo, KdfFirst, KdfSecond, TranscriptHash, ReadResponse, WriteResponse, ReadE, WriteE;
    hide FinishS, AcceptS;
    if AcceptS(b, msg3).Ok? {
      ResponseBound(e, rSeed, trailer2, FirstItems(heard1));
      ReadBound(a, heard2, FirstItems(msg1));
      var x, y := FirstItems(heard1) + SecondItems(msg2), FirstItems(msg1) + SecondItems(heard2);
      AcceptedHash(b, next, trailer3);
      TranscriptInjective(x, y);
      assert x[0] == y[0] && x[2..] == y[2..] && x[2..] == SecondItems(msg2) && y[2..] == SecondItems(heard2);
      SecondItemsInjective(msg2, heard2);
    }
  }

  /** Message 3 opens only under the hash it was made under. */
  lemma AcceptedHash(b: ResponderAfterResponse, s: InitiatorAfterResponse, trailer: Bytes)
    requires b.sym.cipherKey.Some? && s.sym.cipherKey.Some? && AcceptS(b, FinishS(s, trailer).1).Ok?
    ensures b.sym.hash == s.sym.hash
  {
    var msg := FinishS(s, trailer).1;
    var (sym, remoteStatic, payload) := AcceptS(b, msg).value;
    AcceptSExactly(b, msg, sym, remoteStatic, payload);
    hide Dh, PublicOf, Seal, HashTwo, KdfFirst, KdfSecond, AcceptS;
    var c, d := b.sym.EncryptAndHash(remoteStatic).1, s.sym.EncryptAndHash(PublicOf(s.ownStatic)).1;
    assert msg[..ENC_STATIC_LEN] == c && msg[..ENC_STATIC_LEN] == d;
    SealInjective(b.sym.cipherKey.value, b.sym.nonce, b.sym.hash, remoteStatic,
                  s.sym.cipherKey.value, s.sym.nonce, s.sym.hash, PublicOf(s.ownStatic));
  }

  /** The transport keys are those of the XX schedule, the first one for the initiator's traffic. */
  lemma SessionKeys(initiator: Key, responder: Key, iSeed: Key, rSeed: Key, trailer2: Bytes, trailer3: Bytes)
    ensures var (a, msg1) := WriteE(initiator, iSeed);
            var e := ReadE(responder, msg1);
            var chain := SessionChain(Dh(iSeed, PublicOf(rSeed)), Dh(iSeed, PublicOf(responder)),
                                      Dh(initiator, PublicOf(rSeed)));
            && e.Ok?
            && var (b, msg2) := WriteResponse(e.value, rSeed, trailer2);
            var got2 := ReadResponse(a, msg2);
            && got2.Ok?
            && var (t, msg3, _) := WriteS(got2.value.0, trailer3);
            var got3 := ReadS(b, msg3);
            && t == NewTransport(KdfFirst(chain, []), KdfSecond(chain, []))
            && got3.Ok? && got3.value.0 == NewTransport(KdfSecond(chain, []), KdfFirst(chain, []))
  {
    var (a, msg1) := WriteE(initiator, iSeed);
    MessageOne(initiator, responder, iSeed);
    XxAgreement(initiator, responder, iSeed, rSeed, trailer2, trailer3);
    var (b, msg2) := WriteResponse(ReadE(responder, msg1).value, rSeed, trailer2);
    AfterOne(initiator, iSeed, msg1);
    AfterOne(responder, iSeed, msg1);
    hide Dh, PublicOf, Seal, HashTwo, KdfFirst, KdfSecond, TranscriptHash, ReadResponse, WriteResponse, ReadE, WriteE;
    ReadBound(a, msg2, FirstItems(msg1));
    ResponseBound(ReadE(responder, msg1).value, rSeed, trailer2, FirstItems(msg1));
    var next := ReadResponse(a, msg2).value.0;
    FinishBound(next, trailer3, ProtocolName(), Dh(iSeed, next.remoteEph), Dh(iSeed, next.remoteStatic),
                FirstItems(msg1) + SecondItems(msg2));
    hide FinishS, AcceptS;
  }
}
