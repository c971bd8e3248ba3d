/** When a dial cannot go through: a callee that knows the caller, and two crossed dials. */
module HostCrossed {
  import opened Prelude
  import opened Crypto
  import opened Addresses
  import opened Transport
  import opened Handshake
  import opened Identity
  import opened ReplayWindow
  import opened HostModel
  import opened HostDial
  import Agreement
  import Cookie

  /** An ephemeral key is no ciphertext: no session accepts it as a datagram. */
  lemma SessionRefusesMsg1(t: TransportState, seed: Key)
    ensures Decrypt(t, PublicOf(seed)).1.Err?
  {
    var d := PublicOf(seed);
    assert d[NONCE_PREFIX_LEN..][0] == Piece(Public(seed), NONCE_PREFIX_LEN);
    hide ParseNonce, NonceAcceptable;
  }

  /** Message 1 is too short to be message 2 or message 3. */
  lemma HandshakeRefusesMsg1(identity: Credentials, afterE: InitiatorAfterE, afterResp: ResponderAfterResponse, seed: Key)
    ensures ConsumeMsg2(identity, afterE, PublicOf(seed)).Err?
    ensures ConsumeMsg3(afterResp, PublicOf(seed)).Err?
    ensures !Cookie.IsChallenge(PublicOf(seed))
  {
    hide VerifyBinding, WriteS;
  }

  /**
   * A bare message 1 is answered exactly by a host that does not know its
   * sender.  One that does rejects it and keeps its entry: it may be dialling
   * the sender itself, or hold a session that the sender has evicted.
   */
  lemma AnswersStrangersOnly(h: Host, a: UdpAddr, own: Key, iSeed: Key, seed: Key)
    requires h.config.maxPayload >= Cookie.COOKIE_REPLY_LEN
    ensures var out := RecvOne(h, a, WriteE(own, iSeed).1, seed);
            && out.Ok? && (out.value.sent != [] <==> !h.Knows(a))
            && (h.Knows(a) ==> out.value.event == Some(Rejected(a)) && SameButTick(h, out.value.host))
  {
    Agreement.MessageOne(own, own, iSeed);
    hide WriteE, PublicOf;
    if a in h.established {
      SessionRefusesMsg1(h.established[a].value.transport, iSeed);
      DecryptErrorKeeps(h.established[a].value.transport, PublicOf(iSeed));
      hide Decrypt;
    } else if a in h.handshakes {
      match h.handshakes[a].value
      case InitiatorAwaitingResponse(afterE, _) =>
        HandshakeRefusesMsg1(h.config.identity, afterE, ResponderAfterResponse(iSeed, afterE.sym), iSeed);
        hide ConsumeMsg2, Cookie.IsChallenge;
      case ResponderAwaitingFinalize(afterResp) =>
        HandshakeRefusesMsg1(h.config.identity, InitiatorAfterE(iSeed, iSeed, afterResp.sym), afterResp, iSeed);
        hide ConsumeMsg3;
    }
  }

  /** A dial gets an answer exactly when neither host knows the other. */
  lemma DialAnsweredExactly(left: Host, right: Host, a: UdpAddr, b: UdpAddr, iSeed: Key, seed: Key)
    requires left.config.maxPayload >= MESSAGE_1_LEN && right.config.maxPayload >= Cookie.COOKIE_REPLY_LEN
    ensures (var o1 := Dial(left, b, iSeed);
             o1.Ok? && |o1.value.sent| == 1 && RecvOne(right, a, o1.value.sent[0].payload, seed).value.sent != [])
       <==> !left.Knows(b) && !right.Knows(a)
  {
    AnswersStrangersOnly(right, a, left.config.identity.staticPrivate, iSeed, seed);
    Agreement.MessageOne(left.config.identity.staticPrivate, iSeed, iSeed);
    hide RecvOne, WriteE;
  }

  // --- Crossed dials ---

  /** The network's moves: deliver the one host's message 1 to the other, any number of times. */
  datatype Delivery = ToLeft(seed: Key) | ToRight(seed: Key)

  datatype Exchange = Exchange(left: Host, right: Host, events: seq<Event>, sent: seq<Packet>)

  /** Two hosts that have dialled each other, at `b` and at `a`, with their messages 1 on the way. */
  ghost function Deliver(x: Exchange, a: UdpAddr, b: UdpAddr, ml: Bytes, mr: Bytes, ds: seq<Delivery>): Result<Exchange>
    decreases |ds|
  {
    if ds == [] then Ok(x)
    else
      match ds[0]
      case ToRight(seed) =>
        var out :- RecvOne(x.right, a, ml, seed);
        Deliver(Exchange(x.left, out.host, x.events + (if out.event.Some? then [out.event.value] else []),
                         x.sent + out.sent), a, b, ml, mr, ds[1..])
      case ToLeft(seed) =>
        var out :- RecvOne(x.left, b, mr, seed);
        Deliver(Exchange(out.host, x.right, x.events + (if out.event.Some? then [out.event.value] else []),
                         x.sent + out.sent), a, b, ml, mr, ds[1..])
  }

  predicate AllRejected(events: seq<Event>) {
    forall i :: 0 <= i < |events| ==> events[i].Rejected?
  }

  /** Each host stays as it is and says nothing. */
  lemma {:induction false} CrossedStuck(x: Exchange, a: UdpAddr, b: UdpAddr, lOwn: Key, rOwn: Key, lSeed: Key, rSeed: Key,
                                        ds: seq<Delivery>)
    requires x.left.Knows(b) && x.right.Knows(a) && AllRejected(x.events) && x.sent == []
    requires x.left.config.maxPayload >= Cookie.COOKIE_REPLY_LEN && x.right.config.maxPayload >= Cookie.COOKIE_REPLY_LEN
    ensures var r := Deliver(x, a, b, WriteE(lOwn, lSeed).1, WriteE(rOwn, rSeed).1, ds);
            && r.Ok? && AllRejected(r.value.events) && r.value.sent == [] && |r.value.events| == |x.events| + |ds|
            && SameButTick(x.left, r.value.left) && SameButTick(x.right, r.value.right)
    decreases |ds|
  {
    hide RecvOne, WriteE;
    if ds != [] {
      var ml, mr := WriteE(lOwn, lSeed).1, WriteE(rOwn, rSeed).1;
      match ds[0]
      case ToRight(seed) =>
        AnswersStrangersOnly(x.right, a, lOwn, lSeed, seed);
        var out := RecvOne(x.right, a, ml, seed).value;
        assert x.sent + out.sent == [] && out.event == Some(Rejected(a));
        CrossedStuck(Exchange(x.left, out.host, x.events + [Rejected(a)], []), a, b, lOwn, rOwn, lSeed, rSeed, ds[1..]);
      case ToLeft(seed) =>
        AnswersStrangersOnly(x.left, b, rOwn, rSeed, seed);
        var out := RecvOne(x.left, b, mr, seed).value;
        assert x.sent + out.sent == [] && out.event == Some(Rejected(b));
        CrossedStuck(Exchange(out.host, x.right, x.events + [Rejected(b)], []), a, b, lOwn, rOwn, lSeed, rSeed, ds[1..]);
    }
  }

  lemma DialLeaves(h: Host, addr: UdpAddr, seed: Key)
    requires !h.Knows(addr) && h.config.maxPayload >= MESSAGE_1_LEN
    ensures var out := Dial(h, addr, seed);
            && out.Ok? && |out.value.sent| == 1
            && out.value.sent[0].payload == WriteE(h.config.identity.staticPrivate, seed).1
            && addr in out.value.host.handshakes && out.value.host.config == h.config
  {
    Agreement.MessageOne(h.config.identity.staticPrivate, seed, seed);
    hide WriteE;
  }

  /**
   * Crossed dials never complete.  When two hosts dial each other before
   * either message 1 arrives, then whatever is delivered, however often, both
   * reject it, neither ever sends anything more, and both wait on, until a
   * caller or a sweep evicts one of the handshakes.
   */
  lemma CrossedDialsNeverComplete(left: Host, right: Host, a: UdpAddr, b: UdpAddr, lSeed: Key, rSeed: Key, ds: seq<Delivery>)
    requires !left.Knows(b) && !right.Knows(a)
    requires left.config.maxPayload >= MESSAGE_1_LEN && right.config.maxPayload >= MESSAGE_1_LEN
    ensures var (l, r) := (Dial(left, b, lSeed), Dial(right, a, rSeed));
            && l.Ok? && r.Ok? && |l.value.sent| == 1 && |r.value.sent| == 1
            && var x := Deliver(Exchange(l.value.host, r.value.host, [], []), a, b,
                                l.value.sent[0].payload, r.value.sent[0].payload, ds);
            && x.Ok? && AllRejected(x.value.events) && |x.value.events| == |ds| && x.value.sent == []
            && SameButTick(l.value.host, x.value.left) && SameButTick(r.value.host, x.value.right)
            && b in x.value.left.handshakes && a in x.value.right.handshakes
  {
    var lOwn, rOwn := left.config.identity.staticPrivate, right.config.identity.staticPrivate;
    DialLeaves(left, b, lSeed);
    DialLeaves(right, a, rSeed);
    hide WriteE, Deliver, RecvOne, Dial;
    var l, r := Dial(left, b, lSeed).value, Dial(right, a, rSeed).value;
    CrossedStuck(Exchange(l.host, r.host, [], []), a, b, lOwn, rOwn, lSeed, rSeed, ds);
  }
}
