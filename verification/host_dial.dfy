/** Two hosts that do not know each other establish a connection in five datagrams. */
module HostDial {
  import opened Prelude
  import opened Crypto
  import opened Addresses
  import opened Identity
  import opened Transport
  import opened Handshake
  import opened Agreement
  import opened HostModel
  import opened HostInvariant
  import Cookie

  /** Any run of arrivals, from any address, each of which was rejected. */
  ghost predicate RejectedOnly(h: Host, ops: seq<Op>) {
    Run(h, ops).Ok?
    && forall i :: 0 <= i < |Run(h, ops).value.trace| ==>
         var t := Run(h, ops).value.trace[i];
         t.op.RecvOp? && t.event == Some(Rejected(t.op.from))
  }

  /** The host after such a run. */
  ghost function After(h: Host, junk: seq<Op>): Host
    requires Run(h, junk).Ok?
  {
    Run(h, junk).value.host
  }

  ghost predicate SameButTick(h: Host, g: Host) {
    g == h.(tick := g.tick) && h.tick <= g.tick
  }

  lemma RejectedStep(h: Host, op: Op)
    requires op.RecvOp? && Step(h, op).Ok? && Step(h, op).value.event == Some(Rejected(op.from))
    ensures SameButTick(h, Step(h, op).value.host) && Step(h, op).value.sent == []
  {
    hide Decrypt, ConsumeMsg2, ConsumeMsg3, AnswerMsg1, Cookie.Mint, Cookie.IsChallenge, Cookie.Verify;
  }

  lemma NothingHappened(h: Host)
    ensures Run(h, []).Ok? && After(h, []) == h && SameButTick(h, h)
  {
  }

  lemma RejectedFirst(h: Host, ops: seq<Op>)
    requires ops != [] && RejectedOnly(h, ops)
    ensures Run(h, ops).Ok? && ops[0].RecvOp? && Step(h, ops[0]).Ok?
    ensures Step(h, ops[0]).value.event == Some(Rejected(ops[0].from))
    ensures RejectedOnly(Step(h, ops[0]).value.host, ops[1..])
    ensures After(h, ops) == After(Step(h, ops[0]).value.host, ops[1..])
  {
    hide Step;
    var run := Run(h, ops).value;
    var next := Step(h, ops[0]).value.host;
    assert run.trace[0].op == ops[0];
    assert forall i :: 0 <= i < |Run(next, ops[1..]).value.trace| ==>
      Run(next, ops[1..]).value.trace[i] == run.trace[i + 1];
  }

  lemma {:induction false} RejectedRun(h: Host, ops: seq<Op>)
    requires Inv(h) && RejectedOnly(h, ops)
    ensures Inv(After(h, ops)) && SameButTick(h, After(h, ops))
    decreases |ops|
  {
    hide Step, Inv, RejectedOnly;
    if ops != [] {
      RejectedFirst(h, ops);
      RejectedStep(h, ops[0]);
      StepInv(h, ops[0]);
      RejectedRun(Step(h, ops[0]).value.host, ops[1..]);
    } else {
      NothingHappened(h);
    }
  }

  /**
   * The network's choice of junk: at each of the five deliveries, and knowing
   * the host, any run of arrivals.  A choice that is not rejected throughout
   * does not count.
   */
  type Noise = (nat, Host) -> seq<Op>

  ghost function Noisy(h: Host, noise: Noise, i: nat): Host {
    if RejectedOnly(h, noise(i, h)) then After(h, noise(i, h)) else h
  }

  lemma NoisyKeeps(h: Host, noise: Noise, i: nat)
    requires Inv(h)
    ensures Inv(Noisy(h, noise, i)) && SameButTick(h, Noisy(h, noise, i))
  {
    hide Inv, Run;
    if RejectedOnly(h, noise(i, h)) { RejectedRun(h, noise(i, h)); }
  }

  // --- The six operations, one at a time ---

  predicate Awaits(h: Host, addr: UdpAddr, state: HandshakeState) {
    addr in h.handshakes && h.handshakes[addr].value == state && addr !in h.established
  }

  predicate Linked(h: Host, addr: UdpAddr, link: Link) {
    addr in h.established && h.established[addr].value == link && addr !in h.handshakes
  }

  lemma Dials(h: Host, addr: UdpAddr, seed: Key)
    requires Inv(h) && !h.Knows(addr) && h.config.maxPayload >= MESSAGE_1_LEN
    ensures var (afterE, msg1) := WriteE(h.config.identity.staticPrivate, seed);
            var r := Dial(h, addr, seed);
            && r.Ok? && r.value.sent == [Packet(addr, msg1)] && |msg1| == MESSAGE_1_LEN
            && Inv(r.value.host) && r.value.host.config == h.config
            && Awaits(r.value.host, addr, InitiatorAwaitingResponse(afterE, msg1))
  {
    hide Inv, Encrypt, RecvOne;
    StepInv(h, DialOp(addr, seed));
    MessageOne(h.config.identity.staticPrivate, seed, seed);
  }

  lemma Challenges(h: Host, from: UdpAddr, msg1: Bytes, seed: Key)
    requires Inv(h) && !h.Knows(from) && |msg1| == MESSAGE_1_LEN
    requires h.config.maxPayload >= Cookie.COOKIE_REPLY_LEN
    ensures RecvOne(h, from, msg1, seed)
         == Ok(Outcome(h.Ticked(), Some(HandshakeProgress(from)),
                       [Packet(from, Cookie.Challenge(h.config.identity.cookieSecret, from, msg1))]))
    ensures Inv(h.Ticked())
  {
    hide Inv;
    TickedInv(h);
  }

  lemma Echoes(h: Host, from: UdpAddr, afterE: InitiatorAfterE, msg1: Bytes, secret: Key, self: UdpAddr, seed: Key)
    requires Awaits(h, from, InitiatorAwaitingResponse(afterE, msg1)) && |msg1| == MESSAGE_1_LEN
    requires h.config.maxPayload >= Cookie.MSG1_WITH_COOKIE_LEN
    ensures RecvOne(h, from, Cookie.Challenge(secret, self, msg1), seed)
         == Ok(Outcome(h, Some(HandshakeProgress(from)), [Packet(from, msg1 + Cookie.Mint(secret, self, msg1))]))
  {
    hide Cookie.Mint;
    var c := Cookie.Challenge(secret, self, msg1);
    assert c[1..] == Cookie.Mint(secret, self, msg1);
  }

  lemma Answers(h: Host, from: UdpAddr, e: ResponderAfterE, msg1: Bytes, seed: Key)
    requires Inv(h) && !h.Knows(from) && |msg1| == MESSAGE_1_LEN
    requires ReadE(h.config.identity.staticPrivate, msg1) == Ok(e)
    requires h.config.maxPayload >= MESSAGE_2_OVERHEAD_LEN + SIGNED_STATIC_KEY_LEN
    ensures var (b, msg2) := WriteResponse(e, seed, h.config.identity.Trailer());
            var r := RecvOne(h, from, msg1 + Cookie.Mint(h.config.identity.cookieSecret, from, msg1), seed);
            |msg2| == MESSAGE_2_OVERHEAD_LEN + SIGNED_STATIC_KEY_LEN ==>
            && r.Ok? && r.value.sent == [Packet(from, msg2)]
            && Inv(r.value.host) && r.value.host.config == h.config
            && Awaits(r.value.host, from, ResponderAwaitingFinalize(b))
  {
    hide Inv, WriteResponse, ReadE, Cookie.Mint;
    var d := msg1 + Cookie.Mint(h.config.identity.cookieSecret, from, msg1);
    assert d[..MESSAGE_1_LEN] == msg1 && d[MESSAGE_1_LEN..] == Cookie.Mint(h.config.identity.cookieSecret, from, msg1);
    RecvInv(h, from, d, seed);
  }

  lemma Completes(h: Host, from: UdpAddr, link: Link)
    requires Inv(h) && from in h.handshakes
    ensures Linked(h.WithEstablished(from, link), from, link) && Inv(h.WithEstablished(from, link))
    ensures h.WithEstablished(from, link).config == h.config
  {
    hide Inv;
    WithEstablishedInv(h, from, link);
  }

  lemma CompletesAsInitiator(h: Host, from: UdpAddr, afterE: InitiatorAfterE, msg1: Bytes, msg2: Bytes,
                             link: Link, msg3: Bytes, seed: Key)
    requires Inv(h) && Awaits(h, from, InitiatorAwaitingResponse(afterE, msg1))
    requires |msg2| != Cookie.COOKIE_REPLY_LEN && |msg3| <= h.config.maxPayload
    requires ConsumeMsg2(h.config.identity, afterE, msg2) == Ok((link, msg3))
    ensures var r := RecvOne(h, from, msg2, seed);
            && r.Ok? && r.value.sent == [Packet(from, msg3)]
            && r.value.event == Some(HandshakeComplete(from, link.remoteStatic, link.remotePeer))
            && Inv(r.value.host) && r.value.host.config == h.config && Linked(r.value.host, from, link)
  {
    hide Inv, ConsumeMsg2;
    Completes(h, from, link);
  }

  lemma CompletesAsResponder(h: Host, from: UdpAddr, b: ResponderAfterResponse, msg3: Bytes, link: Link, seed: Key)
    requires Inv(h) && Awaits(h, from, ResponderAwaitingFinalize(b))
    requires ConsumeMsg3(b, msg3) == Ok(link)
    ensures var r := RecvOne(h, from, msg3, seed);
            && r.Ok? && r.value.sent == []
            && r.value.event == Some(HandshakeComplete(from, link.remoteStatic, link.remotePeer))
            && Inv(r.value.host) && Linked(r.value.host, from, link)
  {
    hide Inv, ConsumeMsg3;
    Completes(h, from, link);
  }

  /** The links two honest identities end up with, and the last two messages. */
  lemma HonestLinks(i: Credentials, r: Credentials, iSeed: Key, rSeed: Key)
    ensures var (a, msg1) := WriteE(i.staticPrivate, iSeed);
            var e := ReadE(r.staticPrivate, msg1);
            && e.Ok?
            && var (b, msg2) := WriteResponse(e.value, rSeed, r.Trailer());
            && |msg2| == MESSAGE_2_OVERHEAD_LEN + SIGNED_STATIC_KEY_LEN
            && var left := ConsumeMsg2(i, a, msg2);
            && left.Ok? && |left.value.1| == MESSAGE_3_OVERHEAD_LEN + SIGNED_STATIC_KEY_LEN
            && var right := ConsumeMsg3(b, left.value.1);
            && right.Ok?
            && Mirrored(left.value.0.transport, right.value.transport)
            && left.value.0.remoteStatic == PublicOf(r.staticPrivate)
            && left.value.0.remotePeer == PeerIdOf(r.signer)
            && right.value.remoteStatic == PublicOf(i.staticPrivate)
            && right.value.remotePeer == PeerIdOf(i.signer)
  {
    hide WriteE, ReadE, WriteResponse, ReadResponse, WriteS, ReadS, Mirrored, SignedStaticKey, PublicOf;
    XxAgreement(i.staticPrivate, r.staticPrivate, iSeed, rSeed, r.Trailer(), i.Trailer());
    TrailerVerifies(i);
    TrailerVerifies(r);
  }

  lemma TrailerVerifies(c: Credentials)
    ensures VerifyBinding(c.Trailer(), PublicOf(c.staticPrivate)) == Ok(PeerIdOf(c.signer))
  {
    VerifyBindingExactly(c.Trailer(), PublicOf(c.staticPrivate), c.signer);
    assert c.Trailer()[..SIGNED_STATIC_KEY_LEN] == c.Trailer();
  }

  /**
   * Two-host dial.  For two hosts that do not know each other the five
   * datagrams msg1, challenge, msg1 with cookie, msg2 and msg3, with any
   * rejected junk before each, leave both established: keys mirrored, and each
   * reporting the other's static key and peer id.
   */
  lemma TwoHostDial(left: Host, right: Host, a: UdpAddr, b: UdpAddr, iSeed: Key, rSeed: Key, spare: Key, noise: Noise)
    requires Inv(left) && Inv(right) && !left.Knows(b) && !right.Knows(a)
    requires left.config.maxPayload >= MESSAGE_2_OVERHEAD_LEN + SIGNED_STATIC_KEY_LEN
    requires right.config.maxPayload >= MESSAGE_2_OVERHEAD_LEN + SIGNED_STATIC_KEY_LEN
    ensures var o1 := Dial(left, b, iSeed);
            && o1.Ok? && |o1.value.sent| == 1
            && var o2 := RecvOne(Noisy(right, noise, 1), a, o1.value.sent[0].payload, spare);
            && o2.Ok? && |o2.value.sent| == 1
            && var o3 := RecvOne(Noisy(o1.value.host, noise, 2), b, o2.value.sent[0].payload, spare);
            && o3.Ok? && |o3.value.sent| == 1
            && var o4 := RecvOne(Noisy(o2.value.host, noise, 3), a, o3.value.sent[0].payload, rSeed);
            && o4.Ok? && |o4.value.sent| == 1
            && var o5 := RecvOne(Noisy(o3.value.host, noise, 4), b, o4.value.sent[0].payload, spare);
            && o5.Ok? && |o5.value.sent| == 1
            && var o6 := RecvOne(Noisy(o4.value.host, noise, 5), a, o5.value.sent[0].payload, spare);
            && o6.Ok?
            && var i, r := left.config.identity, right.config.identity;
            && o5.value.event == Some(HandshakeComplete(b, PublicOf(r.staticPrivate), PeerIdOf(r.signer)))
            && o6.value.event == Some(HandshakeComplete(a, PublicOf(i.staticPrivate), PeerIdOf(i.signer)))
            && b in o5.value.host.established && a in o6.value.host.established
            && Mirrored(o5.value.host.established[b].value.transport, o6.value.host.established[a].value.transport)
  {
    hide *;
    WireLengths();
    var i, r := left.config.identity, right.config.identity;
    HonestLinks(i, r, iSeed, rSeed);
    var (afterE, msg1) := WriteE(i.staticPrivate, iSeed);
    var e := ReadE(r.staticPrivate, msg1).value;
    var (afterResp, msg2) := WriteResponse(e, rSeed, r.Trailer());
    var (link, msg3) := ConsumeMsg2(i, afterE, msg2).value;
    var back := ConsumeMsg3(afterResp, msg3).value;

    Dials(left, b, iSeed);
    var left1 := Dial(left, b, iSeed).value.host;
    NoisyKeeps(right, noise, 1);
    var right1 := Noisy(right, noise, 1);
    SameTables(right, right1, a);
    Challenges(right1, a, msg1, spare);
    NoisyKeeps(left1, noise, 2);
    var left2 := Noisy(left1, noise, 2);
    SameTables(left1, left2, b);
    Echoes(left2, b, afterE, msg1, r.cookieSecret, a, spare);
    var right2 := right1.Ticked();
    SameTables(right1, right2, a);
    NoisyKeeps(right2, noise, 3);
    var right3 := Noisy(right2, noise, 3);
    SameTables(right2, right3, a);
    Answers(right3, a, e, msg1, rSeed);
    NoisyKeeps(left2, noise, 4);
    var left4 := Noisy(left2, noise, 4);
    SameTables(left2, left4, b);
    CompletesAsInitiator(left4, b, afterE, msg1, msg2, link, msg3, spare);
    var right4 := RecvOne(right3, a, msg1 + Cookie.Mint(r.cookieSecret, a, msg1), rSeed).value.host;
    NoisyKeeps(right4, noise, 5);
    var right5 := Noisy(right4, noise, 5);
    SameTables(right4, right5, a);
    CompletesAsResponder(right5, a, afterResp, msg3, back, spare);
    Reported(RecvOne(left4, b, msg2, spare).value.host, b, link);
    Reported(RecvOne(right5, a, msg3, spare).value.host, a, back);
  }

  lemma WireLengths()
    ensures MESSAGE_1_LEN == 32 && MESSAGE_2_OVERHEAD_LEN == 96 && MESSAGE_3_OVERHEAD_LEN == 64
    ensures Cookie.COOKIE_REPLY_LEN == 17 && Cookie.MSG1_WITH_COOKIE_LEN == 48 && SIGNED_STATIC_KEY_LEN == 96
  {
  }

  lemma SameTables(h: Host, g: Host, addr: UdpAddr)
    requires SameButTick(h, g) || g == h.Ticked()
    ensures g.config == h.config && g.Knows(addr) == h.Knows(addr)
    ensures forall state :: Awaits(h, addr, state) <==> Awaits(g, addr, state)
  {
  }

  lemma Reported(h: Host, addr: UdpAddr, link: Link)
    requires Linked(h, addr, link)
    ensures addr in h.established && h.established[addr].value == link
  {
  }
}
