/**
 * Mutual authentication: who completes a handshake with an honest host's
 * static key has talked to that host, and both used the same ephemeral keys.
 */
module Authentication {
  import opened Prelude
  import opened Crypto
  import opened Symmetric
  import opened Transport
  import opened Handshake
  import opened HostModel
  import opened NonceUses
  import opened NonceLedger
  import opened NonceNetwork
  import opened Identity
  import Cookie

  /** An honest host's part in a handshake: its static and ephemeral private keys, and the peer's ephemeral key. */
  datatype Record =
    | Answer(host: nat, ownStatic: Key, seed: Key, peerEph: Key)
    | Finish(host: nat, ownStatic: Key, seed: Key, peerEph: Key)

  // --- All the inputs of the handshake keys ---

  /** The key that seals the responder's trailer. */
  lemma AnswerInputs(s: ResponderAfterE, seed: Key)
    requires s.sym.chainingKey == ProtocolName()
    ensures Level(AnswerUses(s, seed)[0].key) == 1
    ensures Inputs(AnswerUses(s, seed)[1].key) == [Dh(seed, s.remoteEph), Dh(s.ownStatic, s.remoteEph)]
  {
    hide Dh, KdfFirst, KdfSecond, Inputs, HashTwo;
    var ee := Dh(seed, s.remoteEph);
    ProtocolNameUnderived();
    InputsGrow(ProtocolName(), ee);
    InputsGrow(KdfFirst(ProtocolName(), ee), Dh(s.ownStatic, s.remoteEph));
  }

  /** Both ciphertexts of an accepted message 2, and the keys that message 3 will use. */
  lemma ResponseInputs(a: InitiatorAfterE, d: Bytes)
    requires a.sym.chainingKey == ProtocolName() && ReadResponse(a, d).Ok?
    ensures |d| >= MESSAGE_2_OVERHEAD_LEN
    ensures var s, e := ReadResponse(a, d).value.0, d[..EPH_PUBLIC_LEN];
            var trailer := d[EPH_PUBLIC_LEN + ENC_STATIC_LEN];
            && s.remoteEph == e && s.ownStatic == a.ownStatic && s.sym.cipherKey.Some? && s.sym.nonce == 1
            && trailer.Piece? && trailer.term.Sealed? && trailer.term.nonce == 0
            && trailer.term.plaintext == ReadResponse(a, d).value.1
            && Inputs(trailer.term.key) == [Dh(a.ephemeral, e), Dh(a.ephemeral, s.remoteStatic)]
            && var u := FinishUses(s);
            && |u| == 2 && u[0].nonce == 1
            && Inputs(u[1].key) == [Dh(a.ephemeral, e), Dh(a.ephemeral, s.remoteStatic), Dh(a.ownStatic, e)]
  {
    hide Dh, KdfFirst, KdfSecond, Inputs, HashTwo, Seal, PublicOf;
    var e: Key := d[..EPH_PUBLIC_LEN];
    var ee := Dh(a.ephemeral, e);
    var n := EPH_PUBLIC_LEN + ENC_STATIC_LEN;
    var s1 := a.sym.MixHash(e).MixKey(ee);
    var (s2, plain) := s1.DecryptAndHash(d[EPH_PUBLIC_LEN..n]).value;
    var es := Dh(a.ephemeral, plain);
    var s3 := s2.MixKey(es);
    var sealed := d[n..];
    assert Open(KdfSecond(KdfFirst(ProtocolName(), ee), es), 0, s3.hash, sealed).Ok?;
    OpenHead(KdfSecond(KdfFirst(ProtocolName(), ee), es), 0, s3.hash, sealed);
    assert sealed[0] == d[n];
    ProtocolNameUnderived();
    InputsGrow(ProtocolName(), ee);
    InputsGrow(KdfFirst(ProtocolName(), ee), es);
    InputsGrow(KdfFirst(KdfFirst(ProtocolName(), ee), es), Dh(a.ownStatic, e));
  }

  /** The trailer of an accepted message 3. */
  lemma AcceptInputs(b: ResponderAfterResponse, d: Bytes)
    requires b.sym.cipherKey.Some? && AcceptS(b, d).Ok?
    ensures |d| >= MESSAGE_3_OVERHEAD_LEN
    ensures var remoteStatic, trailer := AcceptS(b, d).value.1, d[ENC_STATIC_LEN];
            && trailer.Piece? && trailer.term.Sealed? && trailer.term.nonce == 0
            && trailer.term.plaintext == AcceptS(b, d).value.2
            && Inputs(trailer.term.key) == Inputs(b.sym.chainingKey) + [Dh(b.ephemeral, remoteStatic)]
  {
    hide Dh, KdfFirst, KdfSecond, Inputs, HashTwo, Seal, PublicOf;
    var (s1, plain) := b.sym.DecryptAndHash(d[..ENC_STATIC_LEN]).value;
    var se := Dh(b.ephemeral, plain);
    var s2 := s1.MixKey(se);
    var sealed := d[ENC_STATIC_LEN..];
    assert s1.chainingKey == b.sym.chainingKey;
    assert Open(KdfSecond(b.sym.chainingKey, se), 0, s2.hash, sealed).Ok?;
    OpenHead(KdfSecond(b.sym.chainingKey, se), 0, s2.hash, sealed);
    assert sealed[0] == d[ENC_STATIC_LEN];
    InputsGrow(b.sym.chainingKey, se);
  }

  lemma ResponderInputs(s: ResponderAfterE, seed: Key, trailer: Bytes)
    requires s.sym.chainingKey == ProtocolName()
    ensures var b := WriteResponse(s, seed, trailer).0;
            && b.ephemeral == seed && b.sym.cipherKey.Some?
            && Inputs(b.sym.chainingKey) == [Dh(seed, s.remoteEph), Dh(s.ownStatic, s.remoteEph)]
  {
    hide Dh, KdfFirst, KdfSecond, Inputs, HashTwo, Seal, PublicOf;
    var ee := Dh(seed, s.remoteEph);
    ProtocolNameUnderived();
    InputsGrow(ProtocolName(), ee);
    InputsGrow(KdfFirst(ProtocolName(), ee), Dh(s.ownStatic, s.remoteEph));
  }

  // --- The network assumption, with honest static keys ---

  /** Some input of `key` is a secret that an honest ephemeral key shares with an honest ephemeral or static key. */
  predicate Guarded(l: Ledger, statics: set<Key>, key: Bytes) {
    exists j, s, t :: 0 <= j < |Inputs(key)| && s in l.Seeds() && t in l.Seeds() + statics
                      && Inputs(key)[j] == Dh(s, PublicOf(t))
  }

  /** Nobody but the host that made it can put a ciphertext under a guarded key on the wire. */
  predicate Genuine(l: Ledger, made: set<Sealing>, statics: set<Key>, d: Bytes) {
    forall i :: 0 <= i < |d| && d[i].Piece? && d[i].term.Sealed? && Guarded(l, statics, d[i].term.key) ==>
      Sealing(Use(d[i].term.key, d[i].term.nonce), d[i].term.plaintext) in made
  }

  /** Seeds are fresh, and no static key either; arrivals are genuine. */
  predicate Believable(l: Ledger, made: set<Sealing>, statics: set<Key>, op: Op) {
    match op
    case DialOp(_, seed) => FreshSeed(l, seed) && seed !in statics
    case RecvOp(_, d, seed) => FreshSeed(l, seed) && seed !in statics && Genuine(l, made, statics, d)
    case _ => true
  }

  predicate Counted(l: Ledger, made: set<Sealing>) {
    forall m :: m in made ==> m.use in l.uses
  }

  lemma BelievableIsPlausible(l: Ledger, made: set<Sealing>, statics: set<Key>, op: Op)
    requires Believable(l, made, statics, op) && Counted(l, made)
    ensures Plausible(l, op)
  {
    hide Dh, PublicOf, InputsOf;
    if op.RecvOp? {
      forall i | 0 <= i < |op.datagram| && op.datagram[i].Piece? && op.datagram[i].term.Sealed?
                 && Honest(l, op.datagram[i].term.key)
        ensures Use(op.datagram[i].term.key, op.datagram[i].term.nonce) in l.uses
      {
        HonestIsGuarded(l, statics, op.datagram[i].term.key);
      }
    }
  }

  lemma HonestIsGuarded(l: Ledger, statics: set<Key>, key: Bytes)
    requires Honest(l, key)
    ensures Guarded(l, statics, key)
  {
    hide Dh, PublicOf, Inputs;
    var s, t :| s in l.Seeds() && t in l.Seeds() && Root(key) == Dh(s, PublicOf(t));
    assert |Dh(s, PublicOf(t))| == KEY_LEN;
    assert Inputs(key)[0] == Dh(s, PublicOf(t));
  }

  /** Honest traffic is genuine, as it is plausible: whatever holds only ciphertexts that were made may be delivered. */
  lemma AccountedIsGenuine(l: Ledger, made: set<Sealing>, statics: set<Key>, d: Bytes)
    requires AllAccounted(made, d)
    ensures Genuine(l, made, statics, d)
  {
    hide Guarded;
    assert forall i :: 0 <= i < |d| ==> Accounted(made, d[i]);
  }

  // --- The log of what honest hosts did ---

  function EphOf(d: Bytes): Key {
    if |d| >= KEY_LEN then d[..KEY_LEN] else Expand(Mac([], []), KEY_LEN)
  }

  /** What honest hosts have encrypted, and the handshakes they have taken part in. */
  datatype Log = Log(made: set<Sealing>, parts: set<Record>)
  {
    predicate Within(later: Log) {
      made <= later.made && parts <= later.parts
    }
  }

  const NO_LOG: Log := Log({}, {})

  /** What a host encrypts in one operation, with what it holds. */
  function StepMade(h: Host, op: Op): set<Sealing> {
    match op
    case SendOp(addr, plaintext) =>
      if addr in h.established then SendMade(h.established[addr].value.transport, plaintext) else {}
    case RecvOp(from, d, seed) =>
      if StepUses(h, op) == [] then {}
      else if from in h.handshakes then
        FinishMade(ReadResponse(h.handshakes[from].value.afterE, d).value.0, h.config.identity.Trailer())
      else AnswerMade(ReadE(h.config.identity.staticPrivate, d[..MESSAGE_1_LEN]).value, seed, h.config.identity.Trailer())
    case _ => {}
  }

  function StepParts(name: nat, h: Host, op: Op): set<Record> {
    if !op.RecvOp? || StepUses(h, op) == [] then {}
    else if op.from in h.handshakes then
      match h.handshakes[op.from].value
      case InitiatorAwaitingResponse(a, _) => {Finish(name, a.ownStatic, a.ephemeral, EphOf(op.datagram))}
      case ResponderAwaitingFinalize(_) => {}
    else {Answer(name, h.config.identity.staticPrivate, op.seed, EphOf(op.datagram))}
  }

  function StepLog(log: Log, name: nat, h: Host, op: Op): Log {
    Log(log.made + StepMade(h, op), log.parts + StepParts(name, h, op))
  }

  /** `m` is the trailer of an honest host's message 2, and names that host. */
  ghost predicate AnswerLogged(configs: map<nat, Config>, parts: set<Record>, m: Sealing) {
    exists r :: r in parts && r.Answer? && r.host in configs
      && Inputs(m.use.key) == [Dh(r.seed, r.peerEph), Dh(r.ownStatic, r.peerEph)]
      && m.plaintext == configs[r.host].identity.Trailer()
  }

  ghost predicate FinishLogged(configs: map<nat, Config>, parts: set<Record>, m: Sealing) {
    exists r :: r in parts && r.Finish? && r.host in configs && |Inputs(m.use.key)| == 3
      && Inputs(m.use.key)[0] == Dh(r.seed, r.peerEph) && Inputs(m.use.key)[2] == Dh(r.ownStatic, r.peerEph)
      && m.plaintext == configs[r.host].identity.Trailer()
  }

  /** A trailer was sealed by a host that logged the handshake it belongs to; other ciphertexts are of no concern. */
  ghost predicate Covered(configs: map<nat, Config>, parts: set<Record>, m: Sealing) {
    && (Level(m.use.key) == 2 && m.use.nonce == 0 ==> AnswerLogged(configs, parts, m))
    && (Level(m.use.key) == 3 && m.use.nonce == 0 ==> FinishLogged(configs, parts, m))
  }

  ghost predicate MadeLogged(configs: map<nat, Config>, log: Log) {
    forall m :: m in log.made ==> Covered(configs, log.parts, m)
  }

  ghost predicate LogHonest(configs: map<nat, Config>, l: Ledger, log: Log) {
    && Counted(l, log.made)
    && forall r :: r in log.parts ==>
      && r.host in configs && r.ownStatic == configs[r.host].identity.staticPrivate
      && r.seed in if r.Answer? then l.recvSeeds else l.dialSeeds
  }

  /** Hosts keep their configurations, and their in-flight handshakes are their own. */
  ghost predicate OwnSessions(configs: map<nat, Config>, net: Net, log: Log) {
    && (forall n :: n in net ==> n in configs && net[n].config == configs[n])
    && (forall q :: Live(net, q).Some? ==> OwnSession(configs, log.parts, q.host, Live(net, q).value))
  }

  ghost predicate OwnSession(configs: map<nat, Config>, parts: set<Record>, host: nat, s: Endpoint) {
    match s
    case Opening(a) => host in configs && a.ownStatic == configs[host].identity.staticPrivate
    case Answered(b) =>
      && host in configs && b.sym.cipherKey.Some?
      && var own := configs[host].identity.staticPrivate;
      exists x: Key :: Answer(host, own, b.ephemeral, x) in parts
        && Inputs(b.sym.chainingKey) == [Dh(b.ephemeral, x), Dh(own, x)]
    case Opened(_) => true
  }

  ghost predicate AuthOk(configs: map<nat, Config>, net: Net, l: Ledger, log: Log) {
    && NetOk(net, l) && MadeLogged(configs, log) && LogHonest(configs, l, log) && OwnSessions(configs, net, log)
    && l.Seeds() !! Statics(configs)
  }

  function Statics(configs: map<nat, Config>): set<Key> {
    set n | n in configs :: configs[n].identity.staticPrivate
  }

  /** The log stays sound if what is new in it is covered. */
  lemma LogGrows(configs: map<nat, Config>, log: Log, log': Log)
    requires MadeLogged(configs, log) && log.Within(log')
    requires forall m :: m in log'.made && m !in log.made ==> Covered(configs, log'.parts, m)
    ensures MadeLogged(configs, log')
  {
    hide Covered;
    forall m | m in log'.made
      ensures Covered(configs, log'.parts, m)
    {
      if m in log.made { CoveredStays(configs, log.parts, log'.parts, m); }
    }
  }

  lemma CoveredStays(configs: map<nat, Config>, parts: set<Record>, parts': set<Record>, m: Sealing)
    requires Covered(configs, parts, m) && parts <= parts'
    ensures Covered(configs, parts', m)
  {
    hide Inputs, Dh, Level;
  }

  /** What a stranger's valid echo makes a host log. */
  lemma AnswerCovered(configs: map<nat, Config>, s: ResponderAfterE, seed: Key, parts: set<Record>, r: Record)
    requires s.sym.chainingKey == ProtocolName() && r.host in configs
    requires r in parts && r.Answer? && r.seed == seed && r.ownStatic == s.ownStatic && r.peerEph == s.remoteEph
    ensures forall m :: m in AnswerMade(s, seed, configs[r.host].identity.Trailer()) ==> Covered(configs, parts, m)
  {
    AnswerInputs(s, seed);
    hide Inputs, Dh;
    var u := AnswerUses(s, seed);
    assert Level(u[1].key) == 2;
    assert AnswerLogged(configs, parts, Sealing(u[1], configs[r.host].identity.Trailer()));
  }

  lemma FinishCovered(configs: map<nat, Config>, a: InitiatorAfterE, d: Bytes, parts: set<Record>, r: Record)
    requires a.sym.chainingKey == ProtocolName() && ReadResponse(a, d).Ok? && r.host in configs
    requires r in parts && r.Finish? && r.seed == a.ephemeral && r.ownStatic == a.ownStatic && r.peerEph == EphOf(d)
    ensures ReadResponse(a, d).value.0.sym.cipherKey.Some?
    ensures forall m :: m in FinishMade(ReadResponse(a, d).value.0, configs[r.host].identity.Trailer()) ==>
              Covered(configs, parts, m)
  {
    ResponseKeys(a, d);
    ResponseInputs(a, d);
    hide Inputs, Dh, ReadResponse, FinishUses;
    var u := FinishUses(ReadResponse(a, d).value.0);
    assert FinishLogged(configs, parts, Sealing(u[1], configs[r.host].identity.Trailer()));
  }

  lemma SendCovered(configs: map<nat, Config>, net: Net, l: Ledger, q: Slot, t: TransportState, plaintext: Bytes,
                    parts: set<Record>)
    requires NetOk(net, l) && Live(net, q) == Some(Opened(t))
    ensures forall m :: m in SendMade(t, plaintext) ==> Covered(configs, parts, m)
  {
    assert SessionOk(l, Opened(t));
  }

  // --- Nothing is left out of the log ---

  lemma MadeAreUses(h: Host, op: Op)
    ensures forall m :: m in StepMade(h, op) ==> m.use in StepUses(h, op)
  {
    hide ReadResponse, ReadE, VerifyBinding, WriteS, Cookie.IsChallenge, Cookie.Verify;
  }

  /** A byte of an echoed challenge: of the stored message 1, or of the challenge itself. */
  predicate Echoed(h: Host, op: Op, b: Byte) {
    && op.RecvOp? && op.from in h.handshakes && h.handshakes[op.from].value.InitiatorAwaitingResponse?
    && Cookie.IsChallenge(op.datagram) && (b in h.handshakes[op.from].value.msg1 || b in op.datagram)
  }

  /**
   * Nothing escapes the ledger: every ciphertext in what a host sends, other
   * than raw payloads and echoed bytes, is one of the step's sealings, with
   * what it holds, and each sealing is one of the step's uses.
   */
  lemma EverySealCounted(h: Host, op: Op, packet: Packet, b: Byte)
    requires Step(h, op).Ok? && !op.SendRawOp? && packet in Step(h, op).value.sent && b in packet.payload
    ensures Accounted(StepMade(h, op), b) || Echoed(h, op, b)
    ensures forall m :: m in StepMade(h, op) ==> m.use in StepUses(h, op)
  {
    MadeAreUses(h, op);
    match op
    case DialOp(_, _) => hide StepMade, StepUses, HashTwo;
    case SendOp(addr, plaintext) => SendCounted(h, op, b);
    case RecvOp(_, _, _) =>
      if op.from in h.established {
        hide Decrypt, StepMade, StepUses;
      } else if op.from in h.handshakes {
        InFlightCounted(h, op, b);
      } else {
        StrangerCounted(h, op, b);
      }
    case _ =>
  }

  lemma AccountedByte(made: set<Sealing>, d: Bytes, b: Byte)
    requires AllAccounted(made, d) && b in d
    ensures Accounted(made, b)
  {
  }

  lemma SendCounted(h: Host, op: Op, b: Byte)
    requires op.SendOp? && Step(h, op).Ok? && |Step(h, op).value.sent| == 1 && b in Step(h, op).value.sent[0].payload
    ensures Accounted(StepMade(h, op), b)
  {
    var t := h.established[op.addr].value.transport;
    SendAccounted(t, op.plaintext);
    hide Encrypt, AllAccounted, SendMade;
    AccountedByte(SendMade(t, op.plaintext), Encrypt(t, op.plaintext).value.1, b);
  }

  lemma InFlightCounted(h: Host, op: Op, b: Byte)
    requires op.RecvOp? && op.from !in h.established && op.from in h.handshakes && Step(h, op).Ok?
    requires Step(h, op).value.sent != [] && b in Step(h, op).value.sent[0].payload
    ensures Accounted(StepMade(h, op), b) || Echoed(h, op, b)
  {
    hide ReadResponse, VerifyBinding, FinishS, Cookie.IsChallenge, AcceptS, AllAccounted, FinishMade;
    match h.handshakes[op.from].value
    case InitiatorAwaitingResponse(a, msg1) =>
      var trailer := h.config.identity.Trailer();
      if !Cookie.IsChallenge(op.datagram) {
        var s := ReadResponse(a, op.datagram).value.0;
        InitiatorOutcome(h, op, a);
        assert s.sym.cipherKey.Some? by { ResponseKeyed(a, op.datagram); }
        FinishAccounted(s, trailer);
        AccountedByte(FinishMade(s, trailer), FinishS(s, trailer).1, b);
      }
    case ResponderAwaitingFinalize(_) =>
  }

  lemma ResponseKeyed(a: InitiatorAfterE, d: Bytes)
    requires ReadResponse(a, d).Ok?
    ensures ReadResponse(a, d).value.0.sym.cipherKey.Some?
  {
    hide Dh, Open;
  }

  lemma StrangerCounted(h: Host, op: Op, b: Byte)
    requires op.RecvOp? && !h.Knows(op.from) && Step(h, op).Ok?
    requires Step(h, op).value.sent != [] && b in Step(h, op).value.sent[0].payload
    ensures Accounted(StepMade(h, op), b)
  {
    hide WriteResponse, AnswerMade, AllAccounted, Cookie.Verify, PublicOf;
    if |op.datagram| == Cookie.MSG1_WITH_COOKIE_LEN {
      var e := ReadE(h.config.identity.staticPrivate, op.datagram[..MESSAGE_1_LEN]).value;
      var trailer := h.config.identity.Trailer();
      hide ReadE;
      AnswerAccounted(e, op.seed, trailer);
      AccountedByte(AnswerMade(e, op.seed, trailer), WriteResponse(e, op.seed, trailer).1, b);
    }
  }
}
