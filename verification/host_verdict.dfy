/** What one arrival earns, on every path: exactly which datagrams do what, read off the wire. */
module HostVerdict {
  import opened Prelude
  import opened Crypto
  import opened Addresses
  import opened Identity
  import opened LruTable
  import opened Transport
  import opened Handshake
  import opened Agreement
  import opened HostModel
  import opened HostGate
  import Cookie

  /** The event of an operation that ended well. */
  predicate Shows(out: Result<Outcome>, event: Event) {
    out.Ok? && out.value.event == Some(event)
  }

  // --- Strangers ---

  const MSG2_LEN: nat := MESSAGE_2_OVERHEAD_LEN + SIGNED_STATIC_KEY_LEN
  const MSG3_LEN: nat := MESSAGE_3_OVERHEAD_LEN + SIGNED_STATIC_KEY_LEN

  /**
   * A stranger gets into a table exactly by echoing the cookie minted for its
   * address and ephemeral key, if the answer fits.
   */
  lemma StrangerAdmittedExactly(h: Host, from: UdpAddr, d: Bytes, seed: Key)
    requires !h.Knows(from)
    ensures var out := RecvOne(h, from, d, seed);
            (out.Ok? && out.value.host.Knows(from))
            <==> EchoesCookie(h.config.identity.cookieSecret, from, d) && h.config.maxPayload >= MSG2_LEN
  {
    hide WriteResponse, Cookie.Mint, PublicOf, InsertLru;
    if |d| == Cookie.MSG1_WITH_COOKIE_LEN {
      var e := ReadE(h.config.identity.staticPrivate, d[..MESSAGE_1_LEN]).value;
      ResponseLength(e, seed, h.config.identity.Trailer());
      hide ReadE;
      var state := ResponderAwaitingFinalize(WriteResponse(e, seed, h.config.identity.Trailer()).0);
      InsertLruEntries(h.handshakes, from, Stamped(state, h.tick + 1), h.config.capacity.maxHandshakes);
    }
  }

  lemma ResponseLength(e: ResponderAfterE, seed: Key, trailer: Bytes)
    ensures |WriteResponse(e, seed, trailer).1| == MESSAGE_2_OVERHEAD_LEN + |trailer|
  {
    hide Seal, Dh, PublicOf;
  }

  /** A challenge goes to exactly the 32-byte datagrams, carries that sender's cookie, and costs a tick. */
  lemma StrangerChallengedExactly(h: Host, from: UdpAddr, d: Bytes, seed: Key)
    requires !h.Knows(from)
    ensures var out := RecvOne(h, from, d, seed);
            (&& Shows(out, HandshakeProgress(from)) && out.value.host == h.Ticked()
             && out.value.sent == [Packet(from, [Lit(0xC0)] + Cookie.Mint(h.config.identity.cookieSecret, from, d))])
            <==> |d| == MESSAGE_1_LEN && h.config.maxPayload >= Cookie.COOKIE_REPLY_LEN
    ensures Shows(RecvOne(h, from, d, seed), Rejected(from))
       <==> |d| != MESSAGE_1_LEN && !EchoesCookie(h.config.identity.cookieSecret, from, d)
  {
    StrangerAdmittedExactly(h, from, d, seed);
    hide WriteResponse, Cookie.Mint, PublicOf, InsertLru;
  }

  // --- Handshakes ---

  /** `payload` begins with the binding of `remoteStatic` by `signer`. */
  predicate Binds(payload: Bytes, signer: Bytes, remoteStatic: Key) {
    && |payload| >= SIGNED_STATIC_KEY_LEN
    && payload[..SIGNED_STATIC_KEY_LEN] == SignedStaticKey(signer, remoteStatic)
  }

  /** Message 2 of a peer that holds `remoteStatic`, with a trailer in which the identity `id` signs that key. */
  ghost predicate IsResponse(a: InitiatorAfterE, d: Bytes, remoteStatic: Key, id: PeerId) {
    exists e: Key, payload, signer ::
      ResponseFor(a, e, remoteStatic, payload).1 == d && Binds(payload, signer, remoteStatic) && id == PeerIdOf(signer)
  }

  ghost predicate IsFinal(b: ResponderAfterResponse, d: Bytes, remoteStatic: Key, id: PeerId) {
    exists payload, signer ::
      FinalFor(b, remoteStatic, payload).1 == d && Binds(payload, signer, remoteStatic) && id == PeerIdOf(signer)
  }

  lemma VerifiedSigner(payload: Bytes, remoteStatic: Key) returns (signer: Bytes)
    requires VerifyBinding(payload, remoteStatic).Ok?
    ensures Binds(payload, signer, remoteStatic) && VerifyBinding(payload, remoteStatic) == Ok(PeerIdOf(signer))
  {
    signer := payload[0].term.signer;
  }

  lemma ConsumedExactly(identity: Credentials, a: InitiatorAfterE, d: Bytes, remoteStatic: Key, id: PeerId)
    ensures (ConsumeMsg2(identity, a, d).Ok?
             && ConsumeMsg2(identity, a, d).value.0.remoteStatic == remoteStatic
             && ConsumeMsg2(identity, a, d).value.0.remotePeer == id)
       <==> IsResponse(a, d, remoteStatic, id)
  {
    hide ReadResponse, ResponseFor, VerifyBinding, WriteS, SignedStaticKey;
    var consumed := ConsumeMsg2(identity, a, d);
    if consumed.Ok? && consumed.value.0.remoteStatic == remoteStatic && consumed.value.0.remotePeer == id {
      var (next, payload) := ReadResponse(a, d).value;
      FinalStatic(next, identity.Trailer());
      ReadResponseExactly(a, d, next, payload);
      var signer := VerifiedSigner(payload, remoteStatic);
    }
    if IsResponse(a, d, remoteStatic, id) {
      var e: Key, payload, signer :| ResponseFor(a, e, remoteStatic, payload).1 == d
                                     && Binds(payload, signer, remoteStatic) && id == PeerIdOf(signer);
      var next := InitiatorAfterResponse(a.ownStatic, e, remoteStatic, ResponseFor(a, e, remoteStatic, payload).0);
      ReadResponseExactly(a, d, next, payload);
      VerifyBindingExactly(payload, remoteStatic, signer);
      FinalStatic(next, identity.Trailer());
    }
  }

  lemma FinalStatic(s: InitiatorAfterResponse, trailer: Bytes)
    ensures WriteS(s, trailer).2 == s.remoteStatic
  {
  }

  lemma AcceptedExactly(b: ResponderAfterResponse, d: Bytes, remoteStatic: Key, id: PeerId)
    requires b.sym.cipherKey.Some?
    ensures (ConsumeMsg3(b, d).Ok?
             && ConsumeMsg3(b, d).value.remoteStatic == remoteStatic && ConsumeMsg3(b, d).value.remotePeer == id)
       <==> IsFinal(b, d, remoteStatic, id)
  {
    hide AcceptS, FinalFor, VerifyBinding, SignedStaticKey;
    var consumed := ConsumeMsg3(b, d);
    if consumed.Ok? && consumed.value.remoteStatic == remoteStatic && consumed.value.remotePeer == id {
      var (sym, s, payload) := AcceptS(b, d).value;
      AcceptSExactly(b, d, sym, s, payload);
      var signer := VerifiedSigner(payload, remoteStatic);
    }
    if IsFinal(b, d, remoteStatic, id) {
      var payload, signer :| FinalFor(b, remoteStatic, payload).1 == d
                             && Binds(payload, signer, remoteStatic) && id == PeerIdOf(signer);
      AcceptSExactly(b, d, FinalFor(b, remoteStatic, payload).0, remoteStatic, payload);
      VerifyBindingExactly(payload, remoteStatic, signer);
    }
  }

  lemma ResponseTooLong(a: InitiatorAfterE, d: Bytes, remoteStatic: Key, id: PeerId)
    requires IsResponse(a, d, remoteStatic, id)
    ensures |d| >= MSG2_LEN
  {
    hide Seal, Dh, SignedStaticKey;
  }

  /**
   * An initiator's handshake completes exactly on the message 2 its own
   * transcript calls for, from a peer whose identity signs the very static key
   * it used; it echoes exactly the 17-byte challenges, unchanged itself.
   */
  lemma InitiatorVerdict(h: Host, from: UdpAddr, d: Bytes, seed: Key, remoteStatic: Key, id: PeerId)
    requires from !in h.established && from in h.handshakes && h.handshakes[from].value.InitiatorAwaitingResponse?
    ensures Shows(RecvOne(h, from, d, seed), HandshakeComplete(from, remoteStatic, id))
       <==> IsResponse(h.handshakes[from].value.afterE, d, remoteStatic, id) && h.config.maxPayload >= MSG3_LEN
    ensures var echo := h.handshakes[from].value.msg1 + d[Min(1, |d|)..];
            (RecvOne(h, from, d, seed) == Ok(Outcome(h, Some(HandshakeProgress(from)), [Packet(from, echo)]))
             <==> |d| == 17 && d[0] == Lit(0xC0) && h.config.Fits(echo))
  {
    var a := h.handshakes[from].value.afterE;
    var consumed := ConsumeMsg2(h.config.identity, a, d);
    ConsumedExactly(h.config.identity, a, d, remoteStatic, id);
    if IsResponse(a, d, remoteStatic, id) { ResponseTooLong(a, d, remoteStatic, id); }
    if consumed.Ok? { FinalLength(h.config.identity, a, d); }
    hide ConsumeMsg2, IsResponse, InsertLru;
  }

  lemma FinalLength(identity: Credentials, a: InitiatorAfterE, d: Bytes)
    requires ConsumeMsg2(identity, a, d).Ok?
    ensures |ConsumeMsg2(identity, a, d).value.1| == MSG3_LEN
  {
    var next := ReadResponse(a, d).value.0;
    assert next.sym.cipherKey.Some?;
    hide ReadResponse, VerifyBinding, Seal, Dh, SignedStaticKey, PublicOf;
  }

  /** A responder's handshake completes exactly on the message 3 its own transcript calls for, so signed. */
  lemma ResponderVerdict(h: Host, from: UdpAddr, d: Bytes, seed: Key, remoteStatic: Key, id: PeerId)
    requires from !in h.established && from in h.handshakes && h.handshakes[from].value.ResponderAwaitingFinalize?
    requires h.handshakes[from].value.afterResp.sym.cipherKey.Some?
    ensures Shows(RecvOne(h, from, d, seed), HandshakeComplete(from, remoteStatic, id))
       <==> IsFinal(h.handshakes[from].value.afterResp, d, remoteStatic, id)
    ensures RecvOne(h, from, d, seed).Ok?
  {
    AcceptedExactly(h.handshakes[from].value.afterResp, d, remoteStatic, id);
    hide ConsumeMsg3, IsFinal, InsertLru;
  }

  // --- Identities over a run ---

  /** `d` holds a ciphertext whose plaintext begins with a binding of `remoteStatic` by the identity `id`. */
  ghost predicate CarriesBinding(d: Bytes, remoteStatic: Key, id: PeerId) {
    exists i, signer ::
      && 0 <= i < |d| && d[i].Piece? && d[i].term.Sealed?
      && Binds(d[i].term.plaintext, signer, remoteStatic) && id == PeerIdOf(signer)
  }

  lemma ResponseCarries(a: InitiatorAfterE, d: Bytes, remoteStatic: Key, id: PeerId)
    requires IsResponse(a, d, remoteStatic, id)
    ensures CarriesBinding(d, remoteStatic, id)
  {
    var e: Key, payload, signer :| ResponseFor(a, e, remoteStatic, payload).1 == d
                                   && Binds(payload, signer, remoteStatic) && id == PeerIdOf(signer);
    hide Binds, Dh, PublicOf, PeerIdOf;
    var n := EPH_PUBLIC_LEN + ENC_STATIC_LEN;
    assert d[n].Piece? && d[n].term.Sealed? && d[n].term.plaintext == payload;
  }

  lemma FinalCarries(b: ResponderAfterResponse, d: Bytes, remoteStatic: Key, id: PeerId)
    requires b.sym.cipherKey.Some? && IsFinal(b, d, remoteStatic, id)
    ensures CarriesBinding(d, remoteStatic, id)
  {
    var payload, signer :| FinalFor(b, remoteStatic, payload).1 == d
                           && Binds(payload, signer, remoteStatic) && id == PeerIdOf(signer);
    hide Binds, Dh, PublicOf, PeerIdOf;
    var n := ENC_STATIC_LEN;
    assert d[n].Piece? && d[n].term.Sealed? && d[n].term.plaintext == payload;
  }

  /** A reported identity has signed the reported static key, inside the very datagram that completed the handshake. */
  lemma CompletionCarries(h: Host, op: Op, remoteStatic: Key, id: PeerId)
    requires AnsweredKeyed(h) && op.RecvOp? && Shows(Step(h, op), HandshakeComplete(op.from, remoteStatic, id))
    ensures CarriesBinding(op.datagram, remoteStatic, id)
  {
    CompletesInFlight(h, op, remoteStatic, id);
    match h.handshakes[op.from].value
    case InitiatorAwaitingResponse(a, _) =>
      InitiatorVerdict(h, op.from, op.datagram, op.seed, remoteStatic, id);
      ResponseCarries(a, op.datagram, remoteStatic, id);
    case ResponderAwaitingFinalize(b) =>
      ResponderVerdict(h, op.from, op.datagram, op.seed, remoteStatic, id);
      FinalCarries(b, op.datagram, remoteStatic, id);
  }

  lemma CompletesInFlight(h: Host, op: Op, remoteStatic: Key, id: PeerId)
    requires op.RecvOp? && Shows(Step(h, op), HandshakeComplete(op.from, remoteStatic, id))
    ensures op.from !in h.established && op.from in h.handshakes
  {
    hide Decrypt, ConsumeMsg2, ConsumeMsg3, AnswerMsg1, Cookie.Mint, Cookie.IsChallenge, InsertLru;
  }

  /** A responder waiting for message 3 has a key to open it with. */
  predicate AnsweredKeyed(h: Host) {
    forall a :: a in h.handshakes && h.handshakes[a].value.ResponderAwaitingFinalize? ==>
      h.handshakes[a].value.afterResp.sym.cipherKey.Some?
  }

  lemma StepKeyed(h: Host, op: Op)
    requires AnsweredKeyed(h) && Step(h, op).Ok?
    ensures AnsweredKeyed(Step(h, op).value.host)
  {
    match op
    case RecvOp(from, d, seed) => RecvKeyed(h, op);
    case DialOp(addr, seed) =>
      hide WriteE;
      var (a, msg1) := WriteE(h.config.identity.staticPrivate, seed);
      InsertLruEntries(h.handshakes, addr, Stamped(InitiatorAwaitingResponse(a, msg1), h.tick + 1),
                       h.config.capacity.maxHandshakes);
      hide InsertLru;
    case SendOp(_, _) => hide Encrypt;
    case _ =>
  }

  lemma RecvKeyed(h: Host, op: Op)
    requires op.RecvOp? && AnsweredKeyed(h) && Step(h, op).Ok?
    ensures AnsweredKeyed(Step(h, op).value.host)
  {
    hide Decrypt, ConsumeMsg2, ConsumeMsg3, InsertLru, Cookie.Mint, Cookie.IsChallenge, Cookie.Verify;
    if !h.Knows(op.from) && |op.datagram| == Cookie.MSG1_WITH_COOKIE_LEN {
      var e := ReadE(h.config.identity.staticPrivate, op.datagram[..MESSAGE_1_LEN]).value;
      assert WriteResponse(e, op.seed, h.config.identity.Trailer()).0.sym.cipherKey.Some? by { hide Seal, Dh, PublicOf; }
      hide WriteResponse, ReadE;
      var state := ResponderAwaitingFinalize(WriteResponse(e, op.seed, h.config.identity.Trailer()).0);
      InsertLruEntries(h.handshakes, op.from, Stamped(state, h.tick + 1), h.config.capacity.maxHandshakes);
    }
  }

  /** The completion that a session with `a` goes back to. */
  ghost predicate Completed(trace: seq<Trace>, a: UdpAddr, remoteStatic: Key, id: PeerId) {
    exists i ::
      && 0 <= i < |trace| && trace[i].op.RecvOp? && trace[i].op.from == a
      && trace[i].event == Some(HandshakeComplete(a, remoteStatic, id))
      && CarriesBinding(trace[i].op.datagram, remoteStatic, id)
  }

  /** A session keeps its identity, or is new and just reported. */
  lemma StepLinks(h: Host, op: Op, a: UdpAddr)
    requires Step(h, op).Ok? && a in Step(h, op).value.host.established
    ensures var out := Step(h, op).value;
            var link := out.host.established[a].value;
            || (a in h.established && link.remoteStatic == h.established[a].value.remoteStatic
                && link.remotePeer == h.established[a].value.remotePeer)
            || (op.RecvOp? && op.from == a && out.event == Some(HandshakeComplete(a, link.remoteStatic, link.remotePeer)))
  {
    hide WriteE, Encrypt, Decrypt, AnswerMsg1, Cookie.Mint, Cookie.IsChallenge, Cookie.Verify;
    match op
    case RecvOp(from, _, _) => RecvLinks(h, op, a);
    case DialOp(_, _) => hide InsertLru;
    case _ =>
  }

  lemma RecvLinks(h: Host, op: Op, a: UdpAddr)
    requires op.RecvOp? && Step(h, op).Ok? && a in Step(h, op).value.host.established
    ensures var out := Step(h, op).value;
            var link := out.host.established[a].value;
            || (a in h.established && link.remoteStatic == h.established[a].value.remoteStatic
                && link.remotePeer == h.established[a].value.remotePeer)
            || (op.from == a && out.event == Some(HandshakeComplete(a, link.remoteStatic, link.remotePeer)))
  {
    if op.from in h.established {
      hide Decrypt;
    } else if op.from in h.handshakes {
      InFlightLinks(h, op, a);
    } else {
      hide WriteResponse, ReadE, Cookie.Mint, InsertLru;
    }
  }

  lemma InFlightLinks(h: Host, op: Op, a: UdpAddr)
    requires op.RecvOp? && op.from !in h.established && op.from in h.handshakes && Step(h, op).Ok?
    requires a in Step(h, op).value.host.established
    ensures var out := Step(h, op).value;
            var link := out.host.established[a].value;
            || (a in h.established && link == h.established[a].value)
            || (op.from == a && out.event == Some(HandshakeComplete(a, link.remoteStatic, link.remotePeer)))
  {
    var cap := h.config.capacity.maxEstablished;
    match h.handshakes[op.from].value
    case InitiatorAwaitingResponse(afterE, _) =>
      hide ConsumeMsg2, Cookie.IsChallenge;
      var consumed := ConsumeMsg2(h.config.identity, afterE, op.datagram);
      if consumed.Ok? { InsertLruEntries(h.established, op.from, Stamped(consumed.value.0, h.tick + 1), cap); }
      hide InsertLru;
    case ResponderAwaitingFinalize(afterResp) =>
      hide ConsumeMsg3;
      var consumed := ConsumeMsg3(afterResp, op.datagram);
      if consumed.Ok? { InsertLruEntries(h.established, op.from, Stamped(consumed.value, h.tick + 1), cap); }
      hide InsertLru;
  }

  lemma {:induction false} RunLinks(h: Host, ops: seq<Op>, a: UdpAddr)
    requires AnsweredKeyed(h) && Run(h, ops).Ok? && a in Run(h, ops).value.host.established
    ensures var r := Run(h, ops).value;
            var link := r.host.established[a].value;
            || (a in h.established && link.remoteStatic == h.established[a].value.remoteStatic
                && link.remotePeer == h.established[a].value.remotePeer)
            || Completed(r.trace, a, link.remoteStatic, link.remotePeer)
    decreases |ops|
  {
    hide Step, CarriesBinding, AnsweredKeyed;
    if ops != [] {
      var out, rest := Step(h, ops[0]).value, ops[1..];
      var r := Run(h, ops).value;
      var link := r.host.established[a].value;
      StepKeyed(h, ops[0]);
      RunLinks(out.host, rest, a);
      var later := Run(out.host, rest).value.trace;
      assert r.trace == [Trace(ops[0], out.event, out.sent)] + later;
      if Completed(later, a, link.remoteStatic, link.remotePeer) {
        CompletedLater(r.trace, a, link.remoteStatic, link.remotePeer);
      } else {
        StepLinks(h, ops[0], a);
        if ops[0].RecvOp? && Shows(Step(h, ops[0]), HandshakeComplete(ops[0].from, link.remoteStatic, link.remotePeer)) {
          CompletionCarries(h, ops[0], link.remoteStatic, link.remotePeer);
          assert r.trace[0].event == out.event;
        }
      }
    }
  }

  lemma CompletedLater(trace: seq<Trace>, a: UdpAddr, remoteStatic: Key, id: PeerId)
    requires trace != [] && Completed(trace[1..], a, remoteStatic, id)
    ensures Completed(trace, a, remoteStatic, id)
  {
    hide CarriesBinding;
    var i :| 0 <= i < |trace[1..]| && trace[1..][i].op.RecvOp? && trace[1..][i].op.from == a
             && trace[1..][i].event == Some(HandshakeComplete(a, remoteStatic, id))
             && CarriesBinding(trace[1..][i].op.datagram, remoteStatic, id);
    assert trace[i + 1] == trace[1..][i];
  }

  /**
   * No session without a signature.  In every run of a new host, each session
   * was reported complete with its static key and peer id, on a datagram in
   * which that identity signs that static key.
   */
  lemma EverySessionIsSigned(config: Config, ops: seq<Op>, a: UdpAddr)
    requires Run(NewHost(config), ops).Ok? && a in Run(NewHost(config), ops).value.host.established
    ensures var r := Run(NewHost(config), ops).value;
            Completed(r.trace, a, r.host.established[a].value.remoteStatic, r.host.established[a].value.remotePeer)
  {
    RunLinks(NewHost(config), ops, a);
  }
}
