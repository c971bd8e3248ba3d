/** Matching conversations over every run of a network of hosts. */
module Matching {
  import opened Prelude
  import opened Crypto
  import opened Symmetric
  import opened Addresses
  import opened Identity
  import opened LruTable
  import opened Transport
  import opened Handshake
  import opened HostModel
  import opened NonceUses
  import opened NonceLedger
  import opened NonceNetwork
  import opened Authentication
  import Cookie

  // --- One step ---

  lemma ReadEOwn(own: Key, e: Bytes)
    ensures ReadE(own, e).Ok? ==> ReadE(own, e).value.ownStatic == own
  {
    hide HashTwo, ProtocolName;
  }

  lemma StepCovered(configs: map<nat, Config>, net: Net, l: Ledger, log: Log, nop: NetOp)
    requires AuthOk(configs, net, l, log) && nop.host in net
    ensures forall m :: m in StepMade(net[nop.host], nop.op) ==>
              Covered(configs, StepLog(log, nop.host, net[nop.host], nop.op).parts, m)
  {
    hide Covered, NetOk, MadeLogged, LogHonest, RecvUses, SendUses, SendMade, Statics, OwnSession;
    var h, op := net[nop.host], nop.op;
    match op
    case SendOp(addr, plaintext) =>
      if addr in h.established {
        SendCovered(configs, net, l, Slot(nop.host, addr, false), h.established[addr].value.transport, plaintext,
                    StepLog(log, nop.host, h, op).parts);
      }
    case RecvOp(from, d, seed) =>
      if from in h.established {
        NothingFromSession(h, op);
      } else if from in h.handshakes {
        match h.handshakes[from].value
        case InitiatorAwaitingResponse(a, _) => InitiatorCovered(configs, net, l, log, nop, a);
        case ResponderAwaitingFinalize(_) => NothingFromResponder(h, op);
      } else {
        StrangerCovered(configs, log, nop.host, h, op);
      }
    case _ =>
  }

  lemma NothingFromSession(h: Host, op: Op)
    requires op.RecvOp? && op.from in h.established
    ensures StepUses(h, op) == []
  {
  }

  lemma NothingFromResponder(h: Host, op: Op)
    requires op.RecvOp? && op.from !in h.established && op.from in h.handshakes
    requires h.handshakes[op.from].value.ResponderAwaitingFinalize?
    ensures StepUses(h, op) == []
  {
  }

  lemma OpeningFacts(net: Net, l: Ledger, q: Slot, a: InitiatorAfterE)
    requires NetOk(net, l) && Live(net, q) == Some(Opening(a))
    ensures a.sym.chainingKey == ProtocolName() && a.ephemeral in l.dialSeeds
  {
    assert SessionOk(l, Opening(a));
  }

  lemma InitiatorCovered(configs: map<nat, Config>, net: Net, l: Ledger, log: Log, nop: NetOp, a: InitiatorAfterE)
    requires AuthOk(configs, net, l, log) && nop.host in net && nop.op.RecvOp?
    requires var h := net[nop.host];
             nop.op.from !in h.established && nop.op.from in h.handshakes
             && h.handshakes[nop.op.from].value.InitiatorAwaitingResponse?
             && h.handshakes[nop.op.from].value.afterE == a
    ensures forall m :: m in StepMade(net[nop.host], nop.op) ==>
              Covered(configs, StepLog(log, nop.host, net[nop.host], nop.op).parts, m)
  {
    hide Covered, NetOk, MadeLogged, LogHonest, Step, StepUses, ConsumeMsg2, ReadResponse, FinishUses, FinishMade, Statics;
    hide Cookie.IsChallenge, OwnSession;
    var h, op := net[nop.host], nop.op;
    OpeningFacts(net, l, Slot(nop.host, op.from, true), a);
    InitiatorOutcome(h, op, a);
    if StepUses(h, op) != [] {
      FinishCovered(configs, a, op.datagram, StepLog(log, nop.host, h, op).parts,
                    Finish(nop.host, a.ownStatic, a.ephemeral, EphOf(op.datagram)));
    }
  }

  lemma StrangerCovered(configs: map<nat, Config>, log: Log, name: nat, h: Host, op: Op)
    requires op.RecvOp? && !h.Knows(op.from) && name in configs && h.config == configs[name]
    ensures forall m :: m in StepMade(h, op) ==> Covered(configs, StepLog(log, name, h, op).parts, m)
  {
    hide Covered, Step, StepUses, ReadE, AnswerUses, AnswerMade, WriteResponse, Cookie.ValidEcho;
    var own, msg1 := h.config.identity.staticPrivate, op.datagram[..Min(MESSAGE_1_LEN, |op.datagram|)];
    StrangerOutcome(h, op);
    if StepUses(h, op) != [] {
      FirstTransitions(own, op.seed, msg1);
      ReadEOwn(own, msg1);
      assert EphOf(op.datagram) == msg1;
      AnswerCovered(configs, ReadE(own, msg1).value, op.seed, StepLog(log, name, h, op).parts,
                    Answer(name, own, op.seed, EphOf(op.datagram)));
    }
  }

  lemma StepCounted(l: Ledger, log: Log, name: nat, h: Host, op: Op)
    requires Counted(l, log.made)
    ensures Counted(StepLedger(l, h, op), StepLog(log, name, h, op).made)
  {
    MadeAreUses(h, op);
    hide StepUses, StepMade, StepParts, Finishes;
  }

  /** A new record is of the host that took the step, with a key it drew itself. */
  lemma NewPart(configs: map<nat, Config>, net: Net, l: Ledger, log: Log, nop: NetOp, r: Record)
    requires AuthOk(configs, net, l, log) && nop.host in net && r in StepParts(nop.host, net[nop.host], nop.op)
    ensures nop.op.RecvOp? && r.host == nop.host && nop.host in configs
    ensures r.ownStatic == configs[nop.host].identity.staticPrivate
    ensures if r.Answer? then r.seed == nop.op.seed else r.seed in l.dialSeeds
  {
    hide NetOk, MadeLogged, LogHonest, StepUses, Statics;
    var h, op := net[nop.host], nop.op;
    if op.from in h.handshakes && h.handshakes[op.from].value.InitiatorAwaitingResponse? {
      var q := Slot(nop.host, op.from, true);
      OpeningFacts(net, l, q, h.handshakes[op.from].value.afterE);
      assert OwnSession(configs, log.parts, nop.host, Live(net, q).value);
    }
  }

  lemma StepLogHonest(configs: map<nat, Config>, net: Net, l: Ledger, log: Log, nop: NetOp)
    requires AuthOk(configs, net, l, log) && nop.host in net
    ensures LogHonest(configs, StepLedger(l, net[nop.host], nop.op), StepLog(log, nop.host, net[nop.host], nop.op))
  {
    var h, op := net[nop.host], nop.op;
    StepCounted(l, log, nop.host, h, op);
    forall r | r in StepParts(nop.host, h, op)
      ensures r.host == nop.host && nop.host in configs && r.ownStatic == configs[nop.host].identity.staticPrivate
      ensures op.RecvOp? && if r.Answer? then r.seed == op.seed else r.seed in l.dialSeeds
    {
      NewPart(configs, net, l, log, nop, r);
    }
    hide NetOk, MadeLogged, StepUses, StepMade, StepParts, Statics, Finishes, Counted, OwnSessions;
  }

  lemma StepConfig(h: Host, op: Op)
    ensures Step(h, op).Ok? ==> Step(h, op).value.host.config == h.config
  {
    hide WriteE, Encrypt, Decrypt, ConsumeMsg2, ConsumeMsg3, AnswerMsg1, InsertLru, Cookie.Mint, Cookie.Verify, Cookie.IsChallenge;
  }

  /** Where the in-flight handshakes of a host come from. */
  lemma FlyingAfter(h: Host, op: Op, x: UdpAddr)
    requires Step(h, op).Ok? && x in Step(h, op).value.host.handshakes
    ensures var state := Step(h, op).value.host.handshakes[x].value;
            var own := h.config.identity.staticPrivate;
            || (x in h.handshakes && state == h.handshakes[x].value)
            || (op.DialOp? && state == InitiatorAwaitingResponse(WriteE(own, op.seed).0, WriteE(own, op.seed).1))
            || (op.RecvOp? && StepUses(h, op) != [] && !h.Knows(op.from)
                && |op.datagram| >= MESSAGE_1_LEN && ReadE(own, op.datagram[..MESSAGE_1_LEN]).Ok?
                && state == ResponderAwaitingFinalize(
                              WriteResponse(ReadE(own, op.datagram[..MESSAGE_1_LEN]).value, op.seed,
                                            h.config.identity.Trailer()).0))
  {
    match op
    case DialOp(_, _) => hide WriteE;
    case RecvOp(_, _, _) => FlyingAfterArrival(h, op, x);
    case SendOp(_, _) => hide Encrypt;
    case _ =>
  }

  lemma FlyingAfterArrival(h: Host, op: Op, x: UdpAddr)
    requires op.RecvOp? && Step(h, op).Ok? && x in Step(h, op).value.host.handshakes
    ensures var state := Step(h, op).value.host.handshakes[x].value;
            var own := h.config.identity.staticPrivate;
            || (x in h.handshakes && state == h.handshakes[x].value)
            || (StepUses(h, op) != [] && !h.Knows(op.from)
                && |op.datagram| >= MESSAGE_1_LEN && ReadE(own, op.datagram[..MESSAGE_1_LEN]).Ok?
                && state == ResponderAwaitingFinalize(
                              WriteResponse(ReadE(own, op.datagram[..MESSAGE_1_LEN]).value, op.seed,
                                            h.config.identity.Trailer()).0))
  {
    if h.Knows(op.from) {
      hide Decrypt, ConsumeMsg2, ConsumeMsg3, Cookie.IsChallenge, InsertLru;
    } else {
      StrangerOutcome(h, op);
      hide Step, StepUses, ReadE, WriteResponse, Cookie.ValidEcho, AnswerUses;
      var own, msg1 := h.config.identity.staticPrivate, op.datagram[..Min(MESSAGE_1_LEN, |op.datagram|)];
      if Cookie.ValidEcho(h.config.identity.cookieSecret, op.from, op.datagram) && ReadE(own, msg1).Ok? {
        var state := ResponderAwaitingFinalize(WriteResponse(ReadE(own, msg1).value, op.seed, h.config.identity.Trailer()).0);
        TwoUses(ReadE(own, msg1).value, op.seed);
        InsertLruEntries(h.handshakes, op.from, Stamped(state, h.tick + 1), h.config.capacity.maxHandshakes);
        hide InsertLru;
      }
    }
  }

  lemma OwnSessionStays(configs: map<nat, Config>, parts: set<Record>, parts': set<Record>, host: nat, s: Endpoint)
    requires OwnSession(configs, parts, host, s) && parts <= parts'
    ensures OwnSession(configs, parts', host, s)
  {
    hide Inputs, Dh;
  }

  lemma NewAnswerOwn(configs: map<nat, Config>, parts: set<Record>, host: nat, e: ResponderAfterE, seed: Key, trailer: Bytes)
    requires host in configs && e.ownStatic == configs[host].identity.staticPrivate && e.sym.chainingKey == ProtocolName()
    requires Answer(host, e.ownStatic, seed, e.remoteEph) in parts
    ensures OwnSession(configs, parts, host, Answered(WriteResponse(e, seed, trailer).0))
  {
    ResponderInputs(e, seed, trailer);
    hide Inputs, Dh, WriteResponse;
  }

  lemma StepOwn(configs: map<nat, Config>, net: Net, l: Ledger, log: Log, nop: NetOp, q: Slot)
    requires AuthOk(configs, net, l, log) && nop.host in net && Live(StepNet(net, nop), q).Some?
    ensures OwnSession(configs, StepLog(log, nop.host, net[nop.host], nop.op).parts, q.host, Live(StepNet(net, nop), q).value)
  {
    hide StepMade, NetOk, MadeLogged, LogHonest, Step, StepUses, Statics, OwnSession, WriteE, WriteResponse, ReadE;
    var h, op := net[nop.host], nop.op;
    var log' := StepLog(log, nop.host, h, op);
    if q.host != nop.host {
      assert Live(StepNet(net, nop), q) == Live(net, q);
      OwnSessionStays(configs, log.parts, log'.parts, q.host, Live(net, q).value);
    } else if q.flying {
      FlyingAfter(h, op, q.addr);
      var own := h.config.identity.staticPrivate;
      var state := Step(h, op).value.host.handshakes[q.addr].value;
      if q.addr in h.handshakes && state == h.handshakes[q.addr].value {
        OwnSessionStays(configs, log.parts, log'.parts, q.host, Live(net, q).value);
      } else if op.DialOp? {
        OpeningOwn(configs, log'.parts, nop.host, own, op.seed);
      } else {
        var msg1 := op.datagram[..MESSAGE_1_LEN];
        FirstTransitions(own, op.seed, msg1);
        ReadEOwn(own, msg1);
        assert EphOf(op.datagram) == msg1;
        NewAnswerOwn(configs, log'.parts, nop.host, ReadE(own, msg1).value, op.seed, h.config.identity.Trailer());
      }
    } else {
      OpenedOwn(configs, log'.parts, q.host, Live(StepNet(net, nop), q).value);
    }
  }

  lemma OpeningOwn(configs: map<nat, Config>, parts: set<Record>, host: nat, own: Key, seed: Key)
    requires host in configs && own == configs[host].identity.staticPrivate
    ensures OwnSession(configs, parts, host, Opening(WriteE(own, seed).0))
  {
    hide PublicOf, HashTwo, ProtocolName;
  }

  lemma OpenedOwn(configs: map<nat, Config>, parts: set<Record>, host: nat, s: Endpoint)
    requires s.Opened?
    ensures OwnSession(configs, parts, host, s)
  {
  }

  lemma StepAuth(configs: map<nat, Config>, net: Net, l: Ledger, log: Log, nop: NetOp)
    requires AuthOk(configs, net, l, log) && nop.host in net && Believable(l, log.made, Statics(configs), nop.op)
    ensures AuthOk(configs, StepNet(net, nop), StepLedger(l, net[nop.host], nop.op),
                   StepLog(log, nop.host, net[nop.host], nop.op))
  {
    var h, op := net[nop.host], nop.op;
    var net', l', log' := StepNet(net, nop), StepLedger(l, h, op), StepLog(log, nop.host, h, op);
    assert log.Within(log') && log'.made == log.made + StepMade(h, op);
    SeedsStayApart(l, log.made, Statics(configs), h, op);
    StepLogHonest(configs, net, l, log, nop);
    hide NetOk, MadeLogged, Covered, Step, StepUses, StepMade, StepLog, OwnSession, Statics, Live;
    BelievableIsPlausible(l, log.made, Statics(configs), op);
    hide Believable, LogHonest;
    StepKeeps(net, l, nop);
    StepCovered(configs, net, l, log, nop);
    LogGrows(configs, log, log');
    OwnAfter(configs, net, l, log, nop);
  }

  lemma OwnAfter(configs: map<nat, Config>, net: Net, l: Ledger, log: Log, nop: NetOp)
    requires AuthOk(configs, net, l, log) && nop.host in net
    ensures OwnSessions(configs, StepNet(net, nop), StepLog(log, nop.host, net[nop.host], nop.op))
  {
    var h, op := net[nop.host], nop.op;
    hide NetOk, MadeLogged, LogHonest, Step, StepLog, OwnSession, Statics, Live;
    var net', log' := StepNet(net, nop), StepLog(log, nop.host, h, op);
    StepConfig(h, op);
    forall q | Live(net', q).Some?
      ensures OwnSession(configs, log'.parts, q.host, Live(net', q).value)
    {
      StepOwn(configs, net, l, log, nop, q);
    }
  }

  lemma SeedsStayApart(l: Ledger, made: set<Sealing>, statics: set<Key>, h: Host, op: Op)
    requires l.Seeds() !! statics && Believable(l, made, statics, op)
    ensures StepLedger(l, h, op).Seeds() !! statics
  {
    hide Genuine, StepUses, Finishes, FreshSeed;
  }

  // --- Every run ---

  ghost function AuthRun(net: Net, l: Ledger, log: Log, nops: seq<NetOp>): (Net, Ledger, Log)
    decreases |nops|
  {
    if nops == [] then (net, l, log)
    else if nops[0].host !in net then AuthRun(net, l, log, nops[1..])
    else
      var h, op := net[nops[0].host], nops[0].op;
      AuthRun(StepNet(net, nops[0]), StepLedger(l, h, op), StepLog(log, nops[0].host, h, op), nops[1..])
  }

  ghost predicate BelievableRun(statics: set<Key>, net: Net, l: Ledger, log: Log, nops: seq<NetOp>)
    decreases |nops|
  {
    if nops == [] then true
    else if nops[0].host !in net then BelievableRun(statics, net, l, log, nops[1..])
    else
      var h, op := net[nops[0].host], nops[0].op;
      && Believable(l, log.made, statics, op)
      && BelievableRun(statics, StepNet(net, nops[0]), StepLedger(l, h, op), StepLog(log, nops[0].host, h, op), nops[1..])
  }

  lemma {:induction false} RunAuth(configs: map<nat, Config>, net: Net, l: Ledger, log: Log, nops: seq<NetOp>)
    requires AuthOk(configs, net, l, log) && BelievableRun(Statics(configs), net, l, log, nops)
    ensures var (net', l', log') := AuthRun(net, l, log, nops); AuthOk(configs, net', l', log')
    decreases |nops|
  {
    hide AuthOk, Believable, StepNet, StepLedger, StepLog;
    if nops != [] {
      if nops[0].host in net {
        StepAuth(configs, net, l, log, nops[0]);
        RunAuth(configs, StepNet(net, nops[0]), StepLedger(l, net[nops[0].host], nops[0].op),
                StepLog(log, nops[0].host, net[nops[0].host], nops[0].op), nops[1..]);
      } else {
        RunAuth(configs, net, l, log, nops[1..]);
      }
    }
  }

  lemma NewAuth(configs: map<nat, Config>)
    ensures AuthOk(configs, NewNet(configs), EMPTY, NO_LOG)
  {
    hide Statics;
  }

  // --- What a completion proves ---

  /** Two keys that meet in one Diffie-Hellman secret with an honest static key. */
  lemma StaticShared(own: Key, x: Key, s: Key, peer: Key)
    requires Dh(own, x) == Dh(s, PublicOf(peer)) && own != s
    ensures own == peer && x == PublicOf(s)
  {
    SameSecret(own, x, s, PublicOf(peer));
    PublicInjective(peer, own);
  }

  lemma GuardedAt(l: Ledger, statics: set<Key>, key: Bytes, j: nat, s: Key, t: Key)
    requires j < |Inputs(key)| && s in l.Seeds() && t in l.Seeds() + statics && Inputs(key)[j] == Dh(s, PublicOf(t))
    ensures Guarded(l, statics, key)
  {
    hide Inputs, Dh, PublicOf;
  }

  lemma GenuineAt(l: Ledger, made: set<Sealing>, statics: set<Key>, d: Bytes, i: nat)
    requires Genuine(l, made, statics, d) && i < |d| && d[i].Piece? && d[i].term.Sealed?
    requires Guarded(l, statics, d[i].term.key)
    ensures Sealing(Use(d[i].term.key, d[i].term.nonce), d[i].term.plaintext) in made
  {
  }

  lemma InLog(configs: map<nat, Config>, log: Log, m: Sealing)
    requires MadeLogged(configs, log) && m in log.made && m.use.nonce == 0
    ensures Level(m.use.key) == 2 ==> AnswerLogged(configs, log.parts, m)
    ensures Level(m.use.key) == 3 ==> FinishLogged(configs, log.parts, m)
  {
  }

  /**
   * Message 2 under the name of an honest static key was made by a host with
   * that key, for this ephemeral key, and carries that host's own trailer.
   */
  lemma ResponseAnswered(configs: map<nat, Config>, net: Net, l: Ledger, log: Log, a: InitiatorAfterE, d: Bytes,
                         peer: Key) returns (r: Record)
    requires AuthOk(configs, net, l, log) && Genuine(l, log.made, Statics(configs), d) && peer in Statics(configs)
    requires a.sym.chainingKey == ProtocolName() && a.ephemeral in l.dialSeeds && l.dialSeeds !! l.recvSeeds
    requires ReadResponse(a, d).Ok? && ReadResponse(a, d).value.0.remoteStatic == PublicOf(peer)
    ensures r in log.parts && r.Answer? && r.ownStatic == peer && r.peerEph == PublicOf(a.ephemeral)
    ensures EphOf(d) == PublicOf(r.seed)
    ensures r.host in configs && ReadResponse(a, d).value.1 == configs[r.host].identity.Trailer()
  {
    hide NetOk, OwnSessions, Inputs, Dh, PublicOf, ReadResponse, FinishUses, Genuine, Guarded, MadeLogged, Statics, Counted;
    ResponseInputs(a, d);
    var e, sealed := EphOf(d), d[EPH_PUBLIC_LEN + ENC_STATIC_LEN].term;
    GuardedAt(l, Statics(configs), sealed.key, 1, a.ephemeral, peer);
    GenuineAt(l, log.made, Statics(configs), d, EPH_PUBLIC_LEN + ENC_STATIC_LEN);
    var m := Sealing(Use(sealed.key, 0), sealed.plaintext);
    InLog(configs, log, m);
    r :| r in log.parts && r.Answer? && r.host in configs
         && Inputs(sealed.key) == [Dh(r.seed, r.peerEph), Dh(r.ownStatic, r.peerEph)]
         && m.plaintext == configs[r.host].identity.Trailer();
    StaticsOf(configs, r.host);
    assert Inputs(sealed.key)[1] == Dh(r.ownStatic, r.peerEph) && Inputs(sealed.key)[0] == Dh(r.seed, r.peerEph);
    StaticShared(r.ownStatic, r.peerEph, a.ephemeral, peer);
    SameSecret(r.seed, r.peerEph, a.ephemeral, e);
  }

  lemma StaticsOf(configs: map<nat, Config>, n: nat)
    requires n in configs
    ensures configs[n].identity.staticPrivate in Statics(configs)
  {
  }

  /** Message 3 under the name of an honest static key was made by a host with that key, for this answer, with its trailer. */
  lemma FinishAnswered(configs: map<nat, Config>, net: Net, l: Ledger, log: Log, host: nat,
                       b: ResponderAfterResponse, d: Bytes, peer: Key) returns (r: Record)
    requires AuthOk(configs, net, l, log) && Genuine(l, log.made, Statics(configs), d) && peer in Statics(configs)
    requires OwnSession(configs, log.parts, host, Answered(b)) && l.dialSeeds !! l.recvSeeds
    requires AcceptS(b, d).Ok? && AcceptS(b, d).value.1 == PublicOf(peer)
    ensures r in log.parts && r.Finish? && r.ownStatic == peer && r.peerEph == PublicOf(b.ephemeral)
    ensures Answer(host, configs[host].identity.staticPrivate, b.ephemeral, PublicOf(r.seed)) in log.parts
    ensures r.host in configs && AcceptS(b, d).value.2 == configs[r.host].identity.Trailer()
  {
    hide NetOk, OwnSessions, Inputs, Dh, PublicOf, AcceptS, Genuine, Guarded, MadeLogged, Statics, Counted;
    var own := configs[host].identity.staticPrivate;
    var x: Key :| Answer(host, own, b.ephemeral, x) in log.parts
                  && Inputs(b.sym.chainingKey) == [Dh(b.ephemeral, x), Dh(own, x)];
    AcceptInputs(b, d);
    var sealed := d[ENC_STATIC_LEN].term;
    assert Inputs(sealed.key) == [Dh(b.ephemeral, x), Dh(own, x), Dh(b.ephemeral, PublicOf(peer))];
    assert b.ephemeral in l.recvSeeds;
    GuardedAt(l, Statics(configs), sealed.key, 2, b.ephemeral, peer);
    GenuineAt(l, log.made, Statics(configs), d, ENC_STATIC_LEN);
    var m := Sealing(Use(sealed.key, 0), sealed.plaintext);
    InLog(configs, log, m);
    r :| r in log.parts && r.Finish? && r.host in configs && |Inputs(sealed.key)| == 3
         && Inputs(sealed.key)[0] == Dh(r.seed, r.peerEph) && Inputs(sealed.key)[2] == Dh(r.ownStatic, r.peerEph)
         && m.plaintext == configs[r.host].identity.Trailer();
    StaticsOf(configs, r.host);
    StaticShared(r.ownStatic, r.peerEph, b.ephemeral, peer);
    SameSecret(r.seed, r.peerEph, b.ephemeral, x);
  }

  /** What completing says about the messages read. */
  lemma CompletionRead(h: Host, op: Op, peerStatic: Key, id: PeerId)
    requires op.RecvOp? && Step(h, op).Ok? && Step(h, op).value.event == Some(HandshakeComplete(op.from, peerStatic, id))
    ensures op.from !in h.established && op.from in h.handshakes
    ensures match h.handshakes[op.from].value
            case InitiatorAwaitingResponse(a, _) =>
              && ReadResponse(a, op.datagram).Ok?
              && ReadResponse(a, op.datagram).value.0.remoteStatic == peerStatic
              && VerifyBinding(ReadResponse(a, op.datagram).value.1, peerStatic) == Ok(id)
              && StepUses(h, op) == FinishUses(ReadResponse(a, op.datagram).value.0)
            case ResponderAwaitingFinalize(b) =>
              && AcceptS(b, op.datagram).Ok? && AcceptS(b, op.datagram).value.1 == peerStatic
              && VerifyBinding(AcceptS(b, op.datagram).value.2, peerStatic) == Ok(id)
  {
    hide Decrypt, AnswerMsg1, ReadResponse, VerifyBinding, FinishS, AcceptS, Cookie.Mint, Cookie.IsChallenge, FinishUses;
  }

  /** An honest trailer names the identity of the host it belongs to, and no other. */
  lemma TrailerNames(c: Credentials, id: PeerId)
    requires VerifyBinding(c.Trailer(), PublicOf(c.staticPrivate)) == Ok(id)
    ensures id == PeerIdOf(c.signer)
  {
    VerifyBindingExactly(c.Trailer(), PublicOf(c.staticPrivate), c.signer);
    hide VerifyBinding, PublicOf;
    assert c.Trailer()[..SIGNED_STATIC_KEY_LEN] == c.Trailer();
  }

  /** The other side of a completed handshake, as its host logged it; `id` is that host's own identity. */
  ghost predicate Matched(configs: map<nat, Config>, parts: set<Record>, host: nat, h: Host, op: Op, peer: Key, id: PeerId)
    requires op.RecvOp? && op.from in h.handshakes && host in configs
  {
    var own := configs[host].identity.staticPrivate;
    match h.handshakes[op.from].value
    case InitiatorAwaitingResponse(a, _) =>
      exists m, seed: Key :: Answer(m, peer, seed, PublicOf(a.ephemeral)) in parts
        && m in configs && configs[m].identity.staticPrivate == peer && id == PeerIdOf(configs[m].identity.signer)
        && StepParts(host, h, op) == {Finish(host, own, a.ephemeral, PublicOf(seed))}
    case ResponderAwaitingFinalize(b) =>
      exists m, seed: Key :: Finish(m, peer, seed, PublicOf(b.ephemeral)) in parts
        && m in configs && configs[m].identity.staticPrivate == peer && id == PeerIdOf(configs[m].identity.signer)
        && Answer(host, own, b.ephemeral, PublicOf(seed)) in parts
  }

  lemma CompletionMatched(configs: map<nat, Config>, net: Net, l: Ledger, log: Log, nop: NetOp, peer: Key, id: PeerId)
    requires AuthOk(configs, net, l, log) && nop.host in net && nop.op.RecvOp?
    requires Genuine(l, log.made, Statics(configs), nop.op.datagram) && peer in Statics(configs)
    requires var out := Step(net[nop.host], nop.op);
             out.Ok? && out.value.event == Some(HandshakeComplete(nop.op.from, PublicOf(peer), id))
    ensures nop.op.from in net[nop.host].handshakes && nop.host in configs
    ensures Matched(configs, log.parts, nop.host, net[nop.host], nop.op, peer, id)
  {
    hide NetOk, MadeLogged, Inputs, Dh, PublicOf, ReadResponse, AcceptS, Step, Genuine, Statics, OwnSession, StepUses, FinishUses;
    hide VerifyBinding, PeerIdOf, Counted;
    var h, op := net[nop.host], nop.op;
    var q := Slot(nop.host, op.from, true);
    CompletionRead(h, op, PublicOf(peer), id);
    SeedsApart(net, l);
    assert OwnSession(configs, log.parts, nop.host, Live(net, q).value);
    match h.handshakes[op.from].value
    case InitiatorAwaitingResponse(a, _) =>
      assert Live(net, q) == Some(Opening(a));
      OpeningFacts(net, l, q, a);
      OpeningIsOwn(configs, log.parts, nop.host, a);
      var r := ResponseAnswered(configs, net, l, log, a, op.datagram, peer);
      ResponseInputs(a, op.datagram);
      TrailerNames(configs[r.host].identity, id);
      assert r == Answer(r.host, peer, r.seed, PublicOf(a.ephemeral));
    case ResponderAwaitingFinalize(b) =>
      assert Live(net, q) == Some(Answered(b));
      var r := FinishAnswered(configs, net, l, log, nop.host, b, op.datagram, peer);
      TrailerNames(configs[r.host].identity, id);
      assert r == Finish(r.host, peer, r.seed, PublicOf(b.ephemeral));
  }

  lemma OpeningIsOwn(configs: map<nat, Config>, parts: set<Record>, host: nat, a: InitiatorAfterE)
    requires OwnSession(configs, parts, host, Opening(a))
    ensures host in configs && a.ownStatic == configs[host].identity.staticPrivate
  {
  }

  /**
   * Mutual authentication.  In any run of a network of hosts, whatever is
   * lost, replayed, reordered or relayed: when a host reports a completed
   * handshake with the static key of an honest host, a host with that static
   * key took the other part in it, and the reported peer id is that host's
   * own.  An initiator's peer answered the initiator's ephemeral key with the
   * very ephemeral key the initiator received; a responder's peer finished
   * towards the responder's ephemeral key, with the very ephemeral key the
   * responder had answered.
   */
  lemma EveryCompletionIsMatched(configs: map<nat, Config>, nops: seq<NetOp>, nop: NetOp, peer: Key, id: PeerId)
    requires BelievableRun(Statics(configs), NewNet(configs), EMPTY, NO_LOG, nops)
    requires var (net, l, log) := AuthRun(NewNet(configs), EMPTY, NO_LOG, nops);
             && nop.host in net && nop.op.RecvOp? && Believable(l, log.made, Statics(configs), nop.op)
             && peer in Statics(configs)
             && var out := Step(net[nop.host], nop.op);
             out.Ok? && out.value.event == Some(HandshakeComplete(nop.op.from, PublicOf(peer), id))
    ensures var (net, _, log) := AuthRun(NewNet(configs), EMPTY, NO_LOG, nops);
            && nop.op.from in net[nop.host].handshakes && nop.host in configs
            && Matched(configs, log.parts, nop.host, net[nop.host], nop.op, peer, id)
  {
    hide AuthOk, Step, Matched, Genuine, Statics, PublicOf, AuthRun, BelievableRun, NewNet;
    NewAuth(configs);
    RunAuth(configs, NewNet(configs), EMPTY, NO_LOG, nops);
    var (net, l, log) := AuthRun(NewNet(configs), EMPTY, NO_LOG, nops);
    CompletionMatched(configs, net, l, log, nop, peer, id);
  }
}
