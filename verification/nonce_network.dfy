/** No AEAD key and nonce encrypt twice, over every run of a network of hosts. */
module NonceNetwork {
  import opened Prelude
  import opened Crypto
  import opened Symmetric
  import opened Addresses
  import opened Identity
  import opened Transport
  import opened Handshake
  import opened HostModel
  import opened NonceUses
  import opened NonceLedger
  import opened Words
  import Cookie

  // --- What a host encrypts in one operation ---

  function RecvUses(h: Host, from: UdpAddr, d: Bytes, seed: Key): seq<Use> {
    if from in h.established then []
    else if from in h.handshakes then
      match h.handshakes[from].value
      case InitiatorAwaitingResponse(a, _) =>
        if Cookie.IsChallenge(d) || ConsumeMsg2(h.config.identity, a, d).Err? then []
        else FinishUses(ReadResponse(a, d).value.0)
      case ResponderAwaitingFinalize(_) => []
    else if Cookie.ValidEcho(h.config.identity.cookieSecret, from, d) then
      match ReadE(h.config.identity.staticPrivate, d[..MESSAGE_1_LEN])
      case Err(_) => []
      case Ok(e) => AnswerUses(e, seed)
    else []
  }

  function StepUses(h: Host, op: Op): seq<Use> {
    match op
    case SendOp(addr, _) => if addr in h.established then SendUses(h.established[addr].value.transport) else []
    case RecvOp(from, d, seed) => RecvUses(h, from, d, seed)
    case _ => []
  }

  /** The initiator seed that finishes its handshake in this operation, if one does. */
  function Finishes(h: Host, op: Op): set<Key> {
    if op.RecvOp? && op.from !in h.established && op.from in h.handshakes && RecvUses(h, op.from, op.datagram, op.seed) != []
    then {h.handshakes[op.from].value.afterE.ephemeral}
    else {}
  }

  function EphemeralOf(d: Bytes): set<Bytes> {
    if |d| >= EPH_PUBLIC_LEN then {d[..EPH_PUBLIC_LEN]} else {}
  }

  function StepLedger(l: Ledger, h: Host, op: Op): Ledger {
    Ledger(l.dialSeeds + (if op.DialOp? then {op.seed} else {}),
           l.recvSeeds + (if op.RecvOp? then {op.seed} else {}),
           l.heard + (if op.RecvOp? then EphemeralOf(op.datagram) else {}),
           l.spent + Finishes(h, op),
           l.uses + StepUses(h, op))
  }

  datatype NetOp = NetOp(host: nat, op: Op)

  /** A host whose operation fails is gone. */
  ghost function StepNet(net: Net, nop: NetOp): Net
    requires nop.host in net
  {
    match Step(net[nop.host], nop.op)
    case Err(_) => net - {nop.host}
    case Ok(out) => net[nop.host := out.host]
  }

  // --- What is assumed of seeds and of the network ---

  /** A seed is new, and its public half has not been on the wire. */
  predicate FreshSeed(l: Ledger, seed: Key) {
    seed !in l.Seeds() && PublicOf(seed) !in l.heard
  }

  /** `key` derives from a secret shared by two ephemeral seeds that hosts drew. */
  predicate Honest(l: Ledger, key: Bytes) {
    exists s, t :: s in l.Seeds() && t in l.Seeds() && Root(key) == Dh(s, PublicOf(t))
  }

  /** Nobody but a host that made it can put a ciphertext under an honest key on the wire. */
  predicate NoForgery(l: Ledger, d: Bytes) {
    forall i :: 0 <= i < |d| && d[i].Piece? && d[i].term.Sealed? && Honest(l, d[i].term.key) ==>
      Use(d[i].term.key, d[i].term.nonce) in l.uses
  }

  predicate Plausible(l: Ledger, op: Op) {
    match op
    case DialOp(_, seed) => FreshSeed(l, seed)
    case RecvOp(_, d, seed) => FreshSeed(l, seed) && NoForgery(l, d)
    case _ => true
  }

  lemma AccountedPlausible(l: Ledger, made: set<Sealing>, d: Bytes)
    requires AllAccounted(made, d) && forall m :: m in made ==> m.use in l.uses
    ensures NoForgery(l, d)
  {
    hide Honest;
    assert forall i :: 0 <= i < |d| ==> Accounted(made, d[i]);
  }

  /**
   * Honest traffic is plausible: once a host has made them, message 2, message
   * 3 and a transport datagram may reach anybody, any number of times.
   */
  lemma AnswerPlausible(l: Ledger, s: ResponderAfterE, seed: Key, trailer: Bytes)
    requires forall u :: u in AnswerUses(s, seed) ==> u in l.uses
    ensures NoForgery(l, WriteResponse(s, seed, trailer).1)
  {
    AnswerAccounted(s, seed, trailer);
    hide WriteResponse, Honest, AllAccounted, NoForgery;
    AccountedPlausible(l, AnswerMade(s, seed, trailer), WriteResponse(s, seed, trailer).1);
  }

  lemma FinishPlausible(l: Ledger, s: InitiatorAfterResponse, trailer: Bytes)
    requires s.sym.cipherKey.Some? && forall u :: u in FinishUses(s) ==> u in l.uses
    ensures NoForgery(l, FinishS(s, trailer).1)
  {
    FinishAccounted(s, trailer);
    hide FinishS, Honest, AllAccounted, NoForgery;
    AccountedPlausible(l, FinishMade(s, trailer), FinishS(s, trailer).1);
  }

  lemma SendPlausible(l: Ledger, t: TransportState, plaintext: Bytes)
    requires Encrypt(t, plaintext).Ok? && forall u :: u in SendUses(t) ==> u in l.uses
    ensures NoForgery(l, Encrypt(t, plaintext).value.1)
  {
    SendAccounted(t, plaintext);
    hide Encrypt, Honest, AllAccounted, NoForgery;
    AccountedPlausible(l, SendMade(t, plaintext), Encrypt(t, plaintext).value.1);
  }

  // --- Sessions before and after a step of one host ---

  /** `h'` has what `h` had, less some sessions, and possibly `s` at one place. */
  ghost predicate Changes(h: Host, h': Host, addr: UdpAddr, flying: bool, s: Endpoint) {
    && (SessionAt(h', addr, flying).Some? ==> SessionAt(h', addr, flying) == Some(s))
    && forall a, f :: !(a == addr && f == flying) && SessionAt(h', a, f).Some? ==> SessionAt(h', a, f) == SessionAt(h, a, f)
  }

  lemma WithHandshakeChanges(h: Host, addr: UdpAddr, state: HandshakeState)
    ensures SessionAt(h.WithHandshake(addr, state), addr, true).Some?
    ensures Changes(h, h.WithHandshake(addr, state), addr, true,
                    if state.InitiatorAwaitingResponse? then Opening(state.afterE) else Answered(state.afterResp))
  {
  }

  lemma WithEstablishedChanges(h: Host, addr: UdpAddr, link: Link)
    ensures Changes(h, h.WithEstablished(addr, link), addr, false, Opened(link.transport))
    ensures SessionAt(h.WithEstablished(addr, link), addr, true).None?
  {
  }

  lemma TouchedChanges(h: Host, addr: UdpAddr, link: Link)
    ensures Changes(h, h.Touched(addr, link), addr, false, Opened(link.transport))
  {
  }

  /** A network step, read off the change to its one host. */
  lemma Lift(net: Net, nop: NetOp, q: Slot, s: Endpoint)
    requires nop.host in net && q.host == nop.host
    requires Step(net[nop.host], nop.op).Ok? ==>
               Changes(net[nop.host], Step(net[nop.host], nop.op).value.host, q.addr, q.flying, s)
    ensures Live(StepNet(net, nop), q).Some? ==> Live(StepNet(net, nop), q) == Some(s)
    ensures forall r :: r != q && Live(StepNet(net, nop), r).Some? ==> Live(StepNet(net, nop), r) == Live(net, r)
  {
    hide Step, SessionAt;
    var net' := StepNet(net, nop);
    forall r | r != q && Live(net', r).Some?
      ensures Live(net', r) == Live(net, r)
    {
      if r.host == nop.host {
        assert !(r.addr == q.addr && r.flying == q.flying);
      }
    }
  }

  // --- The six kinds of step ---

  /** One more encryption of the session at `q` concerns no other session. */
  lemma SendLedger(net: Net, l: Ledger, l': Ledger, q: Slot, t: TransportState)
    requires NetOk(net, l) && Live(net, q) == Some(Opened(t))
    requires Grows(l, l', SendUses(t)) && l'.dialSeeds == l.dialSeeds && l'.recvSeeds == l.recvSeeds && l'.spent == l.spent
    ensures LedgerOk(l')
    ensures forall r :: r != q && Live(net, r).Some? ==>
              SessionOk(l', Live(net, r).value) && TagOf(Live(net, r).value) != TagOf(Opened(t))
  {
    var s, u := Opened(t), Use(t.sendKey, t.sendNonce);
    hide Root, Dh, Live, IsChain, Level;
    assert SessionOk(l, s);
    assert Bears(u, TagOf(s));
    ClaimRooted(l, l', SendUses(t), u, TagOf(s));
    assert Level(u.key) == 4;
    assert u !in l.uses;
    LedgerGrows(l, l', [u]);
    hide SessionOk, LedgerOk, Bears, TagOf;
    forall r | r != q && Live(net, r).Some?
      ensures SessionOk(l', Live(net, r).value) && TagOf(Live(net, r).value) != TagOf(s)
    {
      OneBearer(u, TagOf(s), TagOf(Live(net, r).value));
      OthersKept(l, l', [u], Live(net, r).value);
    }
  }

  lemma SendKeeps(net: Net, l: Ledger, net': Net, l': Ledger, q: Slot, t: TransportState)
    requires NetOk(net, l) && Live(net, q) == Some(Opened(t)) && t.sendNonce < U64_MAX
    requires Grows(l, l', SendUses(t)) && l'.dialSeeds == l.dialSeeds && l'.recvSeeds == l.recvSeeds && l'.spent == l.spent
    requires Live(net', q).Some? ==> Live(net', q) == Some(Opened(t.(sendNonce := t.sendNonce + 1)))
    requires forall r :: r != q && Live(net', r).Some? ==> Live(net', r) == Live(net, r)
    ensures NetOk(net', l')
  {
    hide Live, LedgerOk, TagOf, SessionOk;
    SendLedger(net, l, l', q, t);
    assert SessionOk(l, Opened(t));
    NextNonceOk(l, l', t);
    SameTag(t);
    Install(net, l, net', l', q, q, Opened(t.(sendNonce := t.sendNonce + 1)));
  }

  lemma SameTag(t: TransportState)
    requires t.sendNonce < U64_MAX
    ensures TagOf(Opened(t.(sendNonce := t.sendNonce + 1))) == TagOf(Opened(t))
  {
  }

  lemma OneBearer(u: Use, tag: Tag, other: Tag)
    requires Bears(u, tag) && tag != other
    ensures !Bears(u, other)
  {
  }

  lemma OthersKept(l: Ledger, l': Ledger, more: seq<Use>, s: Endpoint)
    requires SessionOk(l, s) && Grows(l, l', more)
    requires forall u :: u in more ==> !Bears(u, TagOf(s))
    requires s.Opening? ==> l'.spent == l.spent || s.a.ephemeral !in l'.spent
    ensures SessionOk(l', s)
  {
    hide Bears, TagOf, Level;
    OpeningUnspent(l, s);
    SessionStays(l, l', more, s);
  }

  /** A use with a claimed tag has the same root as the one that claimed it. */
  lemma ClaimRooted(l: Ledger, l': Ledger, more: seq<Use>, u: Use, tag: Tag)
    requires LedgerOk(l) && Grows(l, l', more) && Claimed(l.uses, tag) && Bears(u, tag)
    ensures Rooted(l', u)
  {
    hide Root, Dh, RoleOf;
    var v :| v in l.uses && Bears(v, tag);
    assert Rooted(l, v);
    RootedStays(l, l', more, v);
  }

  lemma NextNonceOk(l: Ledger, l': Ledger, t: TransportState)
    requires SessionOk(l, Opened(t)) && t.sendNonce < U64_MAX && l'.uses == l.uses + [Use(t.sendKey, t.sendNonce)]
    ensures SessionOk(l', Opened(t.(sendNonce := t.sendNonce + 1)))
  {
    hide Root, IsChain, Level, RoleOf;
    var s := Opened(t);
    var v :| v in l.uses && Bears(v, TagOf(s));
    assert v in l'.uses;
  }

  /** Reading leaves the sending half alone. */
  lemma DeliverKeeps(net: Net, l: Ledger, net': Net, l': Ledger, q: Slot, t: TransportState, t': TransportState)
    requires NetOk(net, l) && Live(net, q) == Some(Opened(t)) && t'.sendKey == t.sendKey && t'.sendNonce == t.sendNonce
    requires Grows(l, l', []) && l'.spent == l.spent && l'.dialSeeds !! l'.recvSeeds
    requires Live(net', q).Some? ==> Live(net', q) == Some(Opened(t'))
    requires forall r :: r != q && Live(net', r).Some? ==> Live(net', r) == Live(net, r)
    ensures NetOk(net', l')
  {
    NothingNew(net, l, net, l');
    hide Live, LedgerOk, Level, Bears, Root, IsChain;
    assert SessionOk(l', Opened(t));
    assert TagOf(Opened(t')) == TagOf(Opened(t));
    Install(net, l', net', l', q, q, Opened(t'));
  }

  lemma DialKeeps(net: Net, l: Ledger, net': Net, l': Ledger, q: Slot, a: InitiatorAfterE)
    requires NetOk(net, l) && Grows(l, l', []) && l'.spent == l.spent && l'.recvSeeds == l.recvSeeds
    requires a.sym.chainingKey == ProtocolName() && FreshSeed(l, a.ephemeral)
    requires l'.dialSeeds == l.dialSeeds + {a.ephemeral}
    requires Live(net', q).Some? ==> Live(net', q) == Some(Opening(a))
    requires forall r :: r != q && Live(net', r).Some? ==> Live(net', r) == Live(net, r)
    ensures NetOk(net', l')
  {
    NothingNew(net, l, net, l');
    assert SessionOk(l', Opening(a));
    hide Live, LedgerOk, Bears, SessionOk;
    forall r | r != q && Live(net, r).Some?
      ensures TagOf(Live(net, r).value) != OfSeed(a.ephemeral)
    {
      OpeningUnspent(l, Live(net, r).value);
    }
    Install(net, l', net', l', q, q, Opening(a));
  }

  /** A responder's secret is new: no earlier secret of a responder involves its fresh seed. */
  lemma AnswerIsNew(l: Ledger, seed: Key, x: Key)
    requires LedgerOk(l) && FreshSeed(l, seed)
    ensures !Claimed(l.uses, OfSecret(Responder, Dh(seed, x)))
  {
    hide Root, Dh, RoleOf, PublicOf, NoRepeats;
    var tag := OfSecret(Responder, Dh(seed, x));
    forall u | u in l.uses
      ensures !Bears(u, tag)
    {
      assert Rooted(l, u);
      if Bears(u, tag) {
        var s: Key, y: Key :| s in l.recvSeeds && y in l.heard && Root(u.key) == Dh(s, y);
        SameSecret(s, y, seed, x);
      }
    }
  }

  lemma AnswerLedger(l: Ledger, l': Ledger, s: Key, x: Key, more: seq<Use>)
    requires LedgerOk(l) && Grows(l, l', more) && l'.dialSeeds !! l'.recvSeeds && l'.spent <= l'.dialSeeds
    requires s in l'.recvSeeds && x in l'.heard && |more| == 2 && more[0] != more[1]
    requires forall u :: u in more ==> Bears(u, OfSecret(Responder, Dh(s, x)))
    requires !Claimed(l.uses, OfSecret(Responder, Dh(s, x)))
    ensures LedgerOk(l')
  {
    hide Root, Dh, RoleOf;
    assert forall u :: u in more ==> u !in l.uses && Rooted(l', u);
    LedgerGrows(l, l', more);
  }

  lemma AnsweredOk(l: Ledger, l': Ledger, more: seq<Use>, b: ResponderAfterResponse)
    requires Grows(l, l', more) && more != [] && Level(b.sym.chainingKey) == 2 && b.sym.cipherKey.Some?
    requires !Claimed(l.uses, TagOf(Answered(b)))
    requires forall u :: u in more ==> Bears(u, TagOf(Answered(b))) && Level(u.key) != 4
    ensures SessionOk(l', Answered(b))
  {
    hide Root, RoleOf, Level, TagOf;
    assert more[0] in l'.uses;
    assert forall u :: u in l'.uses && Bears(u, TagOf(Answered(b))) ==> u in more;
  }

  lemma AnswerKeeps(net: Net, l: Ledger, net': Net, l': Ledger, q: Slot, e: ResponderAfterE, seed: Key, trailer: Bytes)
    requires NetOk(net, l) && Grows(l, l', AnswerUses(e, seed)) && FreshSeed(l, seed)
    requires e.sym.chainingKey == ProtocolName() && e.remoteEph in l'.heard
    requires l'.dialSeeds == l.dialSeeds && l'.recvSeeds == l.recvSeeds + {seed} && l'.spent == l.spent
    requires Live(net', q).Some? ==> Live(net', q) == Some(Answered(WriteResponse(e, seed, trailer).0))
    requires forall r :: r != q && Live(net', r).Some? ==> Live(net', r) == Live(net, r)
    ensures NetOk(net', l')
  {
    hide Root, Dh, PublicOf, Live, Level, WriteResponse, AnswerUses, LedgerOk, SessionOk, Claimed;
    AnswerKeys(e, seed, trailer);
    AnswerIsNew(l, seed, e.remoteEph);
    var b := WriteResponse(e, seed, trailer).0;
    var more, tag := AnswerUses(e, seed), OfSecret(Responder, Dh(seed, e.remoteEph));
    TwoUses(e, seed);
    SeedsApart(net, l);
    assert TagOf(Answered(b)) == tag;
    assert Bears(more[0], tag) && Bears(more[1], tag);
    AnswerLedger(l, l', seed, e.remoteEph, more);
    AnsweredOk(l, l', more, b);
    hide Bears, TagOf;
    forall r | r != q && Live(net, r).Some?
      ensures SessionOk(l', Live(net, r).value) && TagOf(Live(net, r).value) != tag
    {
      TagClaimed(l, Live(net, r).value);
      NewTagDiffers(l, more, tag, Live(net, r).value);
      OthersKept(l, l', more, Live(net, r).value);
    }
    Install(net, l, net', l', q, q, Answered(b));
  }

  lemma TwoUses(e: ResponderAfterE, seed: Key)
    ensures |AnswerUses(e, seed)| == 2
  {
  }

  lemma TagClaimed(l: Ledger, s: Endpoint)
    requires SessionOk(l, s)
    ensures s.Opening? || Claimed(l.uses, TagOf(s))
  {
  }

  lemma NewTagDiffers(l: Ledger, more: seq<Use>, tag: Tag, s: Endpoint)
    requires tag.OfSecret? && !Claimed(l.uses, tag) && (s.Opening? || Claimed(l.uses, TagOf(s)))
    requires forall u :: u in more ==> Bears(u, tag)
    ensures TagOf(s) != tag && forall u :: u in more ==> !Bears(u, TagOf(s))
  {
    hide RoleOf, Root, IsChain;
  }

  /** The first ciphertext of an answer is made by a responder, so never for two initiators. */
  lemma NoResponderBetween(l: Ledger, v: Use, s: Key, t: Key)
    requires LedgerOk(l) && v in l.uses && Level(v.key) == 1 && v.nonce == 0
    requires s in l.dialSeeds && t in l.dialSeeds
    ensures Root(v.key) != Dh(s, PublicOf(t))
  {
    assert Rooted(l, v);
    hide Root, Dh, PublicOf, NoRepeats, Level;
    if Root(v.key) == Dh(s, PublicOf(t)) {
      var r: Key, y: Key :| r in l.recvSeeds && y in l.heard && Root(v.key) == Dh(r, y);
      SameSecret(r, y, s, PublicOf(t));
      PublicInjective(r, t);
    }
  }

  /** An earlier initiator with the same secret would be the peer of this one. */
  lemma InitiatorsShare(l: Ledger, u: Use, s: Key, x: Key)
    requires LedgerOk(l) && u in l.uses && s !in l.spent && Bears(u, OfSecret(Initiator, Dh(s, x)))
    ensures exists t :: t in l.spent && x == PublicOf(t)
  {
    assert Rooted(l, u);
    hide Root, Dh, PublicOf, NoRepeats, Level;
    var t: Key, y: Key :| t in l.spent && Root(u.key) == Dh(t, y);
    SameSecret(t, y, s, x);
  }

  lemma Recognised(l: Ledger, d: Bytes, i: nat, s: Key, t: Key)
    requires NoForgery(l, d) && i < |d| && d[i].Piece? && d[i].term.Sealed? && s in l.Seeds() && t in l.Seeds()
    requires Root(d[i].term.key) == Dh(s, PublicOf(t))
    ensures Use(d[i].term.key, d[i].term.nonce) in l.uses
  {
    hide Root, Dh, PublicOf;
    assert Honest(l, d[i].term.key);
  }

  /** An initiator's secret is new: nobody forges a response between two initiators. */
  lemma FinishIsNew(l: Ledger, a: InitiatorAfterE, d: Bytes)
    requires LedgerOk(l) && SessionOk(l, Opening(a)) && NoForgery(l, d) && ReadResponse(a, d).Ok?
    ensures |d| >= EPH_PUBLIC_LEN && !Claimed(l.uses, OfSecret(Initiator, Dh(a.ephemeral, d[..EPH_PUBLIC_LEN])))
  {
    ResponseKeys(a, d);
    OpeningUnspent(l, Opening(a));
    hide Root, Dh, PublicOf, Level, ReadResponse, NoForgery, Bears, SessionOk;
    var x: Key := d[..EPH_PUBLIC_LEN];
    var tag := OfSecret(Initiator, Dh(a.ephemeral, x));
    if Claimed(l.uses, tag) {
      var u :| u in l.uses && Bears(u, tag);
      InitiatorsShare(l, u, a.ephemeral, x);
      var t :| t in l.spent && x == PublicOf(t);
      var sealed := d[EPH_PUBLIC_LEN].term;
      Recognised(l, d, EPH_PUBLIC_LEN, a.ephemeral, t);
      NoResponderBetween(l, Use(sealed.key, sealed.nonce), a.ephemeral, t);
    }
  }

  lemma PublicInjective(s: Key, t: Key)
    requires PublicOf(s) == PublicOf(t)
    ensures s == t
  {
    ExpandInjective(Public(s), KEY_LEN, Public(t), KEY_LEN);
  }

  lemma FinishLedger(l: Ledger, l': Ledger, s: Key, x: Key, more: seq<Use>)
    requires LedgerOk(l) && Grows(l, l', more) && l'.dialSeeds == l.dialSeeds && l'.dialSeeds !! l'.recvSeeds
    requires s in l.dialSeeds && l'.spent == l.spent + {s} && |more| == 2 && more[0] != more[1]
    requires forall u :: u in more ==> Bears(u, OfSecret(Initiator, Dh(s, x)))
    requires !Claimed(l.uses, OfSecret(Initiator, Dh(s, x)))
    ensures LedgerOk(l')
  {
    hide Root, Dh, RoleOf;
    assert forall u :: u in more ==> u !in l.uses && Rooted(l', u);
    LedgerGrows(l, l', more);
  }

  /** A session that has just made its first uses, none of them after the split. */
  lemma OpenedOk(l: Ledger, l': Ledger, more: seq<Use>, t: TransportState)
    requires Grows(l, l', more) && more != [] && Level(t.sendKey) == 4 && !Claimed(l.uses, TagOf(Opened(t)))
    requires forall u :: u in more ==> Bears(u, TagOf(Opened(t))) && Level(u.key) != 4
    ensures SessionOk(l', Opened(t))
  {
    hide Root, RoleOf, Level, TagOf;
    assert more[0] in l'.uses;
    assert forall u :: u in l'.uses && Bears(u, TagOf(Opened(t))) ==> u in more;
  }

  lemma FinishKeeps(net: Net, l: Ledger, net': Net, l': Ledger, from: Slot, q: Slot, a: InitiatorAfterE, d: Bytes,
                    trailer: Bytes)
    requires NetOk(net, l) && Live(net, from) == Some(Opening(a)) && from != q
    requires NoForgery(l, d) && ReadResponse(a, d).Ok?
    requires Grows(l, l', FinishUses(ReadResponse(a, d).value.0)) && l'.dialSeeds == l.dialSeeds
    requires l'.dialSeeds !! l'.recvSeeds && l'.spent == l.spent + {a.ephemeral}
    requires Live(net', q).Some? ==> Live(net', q) == Some(Opened(WriteS(ReadResponse(a, d).value.0, trailer).0))
    requires Live(net', from).None?
    requires forall r :: r != q && Live(net', r).Some? ==> Live(net', r) == Live(net, r)
    ensures NetOk(net', l')
  {
    hide Root, Dh, PublicOf, Live, Level, ReadResponse, WriteS, FinishUses, IsChain, LedgerOk, NoForgery, SessionOk;
    var resp := ReadResponse(a, d).value.0;
    assert SessionOk(l, Opening(a));
    OpeningUnspent(l, Opening(a));
    ResponseKeys(a, d);
    FinishedKeys(resp, trailer);
    FinishIsNew(l, a, d);
    var s' := Opened(WriteS(resp, trailer).0);
    var more, tag := FinishUses(resp), OfSecret(Initiator, Dh(a.ephemeral, resp.remoteEph));
    assert TagOf(s') == tag;
    assert Bears(more[0], tag) && Bears(more[1], tag);
    FinishLedger(l, l', a.ephemeral, resp.remoteEph, more);
    OpenedOk(l, l', more, WriteS(resp, trailer).0);
    FinishInstall(net, l, net', l', from, q, a, more, tag, s');
  }

  lemma FinishInstall(net: Net, l: Ledger, net': Net, l': Ledger, from: Slot, q: Slot, a: InitiatorAfterE,
                      more: seq<Use>, tag: Tag, s: Endpoint)
    requires NetOk(net, l) && Live(net, from) == Some(Opening(a)) && from != q
    requires Grows(l, l', more) && LedgerOk(l') && SessionOk(l', s) && TagOf(s) == tag && tag.OfSecret?
    requires !Claimed(l.uses, tag) && (forall u :: u in more ==> Bears(u, tag)) && l'.spent == l.spent + {a.ephemeral}
    requires Live(net', q).Some? ==> Live(net', q) == Some(s)
    requires Live(net', from).None?
    requires forall r :: r != q && Live(net', r).Some? ==> Live(net', r) == Live(net, r)
    ensures NetOk(net', l')
  {
    hide SessionOk, LedgerOk, Bears, Claimed, Live;
    assert SessionOk(l, Opening(a));
    forall r | r != q && r != from && Live(net, r).Some?
      ensures SessionOk(l', Live(net, r).value) && TagOf(Live(net, r).value) != tag
    {
      TagClaimed(l, Live(net, r).value);
      OpeningUnspent(l, Live(net, r).value);
      NewTagDiffers(l, more, tag, Live(net, r).value);
      OthersKept(l, l', more, Live(net, r).value);
    }
    Install(net, l, net', l', q, from, s);
  }

  lemma AcceptKeeps(net: Net, l: Ledger, net': Net, l': Ledger, from: Slot, q: Slot, b: ResponderAfterResponse, d: Bytes)
    requires NetOk(net, l) && Live(net, from) == Some(Answered(b)) && from != q && ReadS(b, d).Ok?
    requires Grows(l, l', []) && l'.spent == l.spent && l'.dialSeeds !! l'.recvSeeds
    requires Live(net', q).Some? ==> Live(net', q) == Some(Opened(ReadS(b, d).value.0))
    requires Live(net', from).None?
    requires forall r :: r != q && Live(net', r).Some? ==> Live(net', r) == Live(net, r)
    ensures NetOk(net', l')
  {
    NothingNew(net, l, net, l');
    assert SessionOk(l', Answered(b));
    AcceptedKeys(b, d);
    hide Root, Live, Level, ReadS, IsChain, LedgerOk, Bears;
    var s' := Opened(ReadS(b, d).value.0);
    assert TagOf(s') == TagOf(Answered(b));
    assert SessionOk(l', s');
    hide SessionOk, TagOf;
    Install(net, l', net', l', q, from, s');
  }

  // --- Every operation, then every run ---

  lemma FirstTransitions(ownStatic: Key, seed: Key, e: Bytes)
    ensures var a := WriteE(ownStatic, seed).0; a.ephemeral == seed && a.sym.chainingKey == ProtocolName()
    ensures ReadE(ownStatic, e).Ok? ==>
              ReadE(ownStatic, e).value.remoteEph == e && ReadE(ownStatic, e).value.sym.chainingKey == ProtocolName()
  {
    hide PublicOf, HashTwo, ProtocolName;
    if |e| == MESSAGE_1_LEN { assert e[..EPH_PUBLIC_LEN] == e; }
  }

  lemma DialStep(net: Net, l: Ledger, nop: NetOp)
    requires NetOk(net, l) && nop.host in net && nop.op.DialOp? && Plausible(l, nop.op)
    ensures NetOk(StepNet(net, nop), StepLedger(l, net[nop.host], nop.op))
  {
    var h, op := net[nop.host], nop.op;
    var l' := StepLedger(l, h, op);
    hide NetOk, WriteE, SessionAt, FreshSeed, PublicOf;
    assert l'.uses == l.uses + [] && l'.spent == l.spent;
    var (a, msg1) := WriteE(h.config.identity.staticPrivate, op.seed);
    FirstTransitions(h.config.identity.staticPrivate, op.seed, msg1);
    WithHandshakeChanges(h, op.addr, InitiatorAwaitingResponse(a, msg1));
    Lift(net, nop, Slot(nop.host, op.addr, true), Opening(a));
    DialKeeps(net, l, StepNet(net, nop), l', Slot(nop.host, op.addr, true), a);
  }

  lemma SendStep(net: Net, l: Ledger, nop: NetOp)
    requires NetOk(net, l) && nop.host in net && nop.op.SendOp?
    ensures NetOk(StepNet(net, nop), StepLedger(l, net[nop.host], nop.op))
  {
    var h, op := net[nop.host], nop.op;
    var net', l' := StepNet(net, nop), StepLedger(l, h, op);
    if op.addr !in h.established {
      assert net' == net - {nop.host};
      assert l'.uses == l.uses + [];
      SeedsApart(net, l);
      NothingNew(net, l, net', l');
    } else {
      var link := h.established[op.addr].value;
      var t := link.transport;
      var q := Slot(nop.host, op.addr, false);
      SendSeals(t, op.plaintext);
      assert Live(net, q) == Some(Opened(t));
      if t.sendNonce == U64_MAX {
        assert net' == net - {nop.host};
        hide NetOk, SessionAt, Encrypt;
        SendLedger(net, l, l', q, t);
        LastSend(net, l, net', l', nop.host, q);
      } else {
        TouchedChanges(h, op.addr, link.(transport := t.(sendNonce := t.sendNonce + 1)));
        hide NetOk, SessionAt, Encrypt;
        Lift(net, nop, q, Opened(t.(sendNonce := t.sendNonce + 1)));
        SendKeeps(net, l, net', l', q, t);
      }
    }
  }

  /** A host that spends its last nonce is gone, with all its sessions. */
  lemma LastSend(net: Net, l: Ledger, net': Net, l': Ledger, host: nat, q: Slot)
    requires NetOk(net, l) && LedgerOk(l') && net' == net - {host} && q.host == host
    requires forall r :: r != q && Live(net, r).Some? ==> SessionOk(l', Live(net, r).value)
    ensures NetOk(net', l')
  {
    hide SessionAt, LedgerOk, SessionOk, TagOf;
    Retire(net, l, net', l', q);
  }

  lemma SeedsApart(net: Net, l: Ledger)
    requires NetOk(net, l)
    ensures l.dialSeeds !! l.recvSeeds && l.spent <= l.dialSeeds
  {
  }

  /** The ledger after an arrival that made the host encrypt nothing. */
  lemma QuietLedger(net: Net, l: Ledger, h: Host, op: Op)
    requires NetOk(net, l) && op.RecvOp? && Plausible(l, op) && StepUses(h, op) == []
    ensures var l' := StepLedger(l, h, op);
            Grows(l, l', []) && l'.spent == l.spent && l'.dialSeeds !! l'.recvSeeds
  {
    hide PublicOf, RecvUses;
    SeedsApart(net, l);
  }

  /** An arrival that leaves both tables as they are. */
  lemma QuietStep(net: Net, l: Ledger, nop: NetOp)
    requires NetOk(net, l) && nop.host in net && nop.op.RecvOp? && Plausible(l, nop.op)
    requires StepUses(net[nop.host], nop.op) == []
    requires var r := Step(net[nop.host], nop.op);
             r.Ok? ==> r.value.host.handshakes == net[nop.host].handshakes
                       && r.value.host.established == net[nop.host].established
    ensures NetOk(StepNet(net, nop), StepLedger(l, net[nop.host], nop.op))
  {
    var h, op := net[nop.host], nop.op;
    var net', l' := StepNet(net, nop), StepLedger(l, h, op);
    QuietLedger(net, l, h, op);
    hide NetOk, Step, StepUses, StepLedger, PublicOf, Plausible;
    forall r | Live(net', r).Some?
      ensures Live(net', r) == Live(net, r)
    {
      if r.host == nop.host {
        assert net'[r.host] == Step(h, op).value.host;
      }
    }
    NothingNew(net, l, net', l');
  }

  lemma EstablishedStep(net: Net, l: Ledger, nop: NetOp)
    requires NetOk(net, l) && nop.host in net && nop.op.RecvOp? && Plausible(l, nop.op)
    requires nop.op.from in net[nop.host].established
    ensures NetOk(StepNet(net, nop), StepLedger(l, net[nop.host], nop.op))
  {
    var h, op := net[nop.host], nop.op;
    var link := h.established[op.from].value;
    var next, result := Decrypt(link.transport, op.datagram).0, Decrypt(link.transport, op.datagram).1;
    if result.Err? {
      assert Step(h, op).value.host == h;
      QuietStep(net, l, nop);
    } else {
      var q := Slot(nop.host, op.from, false);
      QuietLedger(net, l, h, op);
      HalvesApart(link.transport, [], op.datagram);
      TouchedChanges(h, op.from, link.(transport := next));
      assert Live(net, q) == Some(Opened(link.transport));
      hide NetOk, SessionAt, Decrypt, StepLedger, Plausible;
      Lift(net, nop, q, Opened(next));
      DeliverKeeps(net, l, StepNet(net, nop), StepLedger(l, h, op), q, link.transport, next);
    }
  }

  /** An initiator either completes, making the uses of message 3, or encrypts nothing and stays. */
  lemma InitiatorOutcome(h: Host, op: Op, a: InitiatorAfterE)
    requires op.RecvOp? && op.from !in h.established && op.from in h.handshakes
    requires var s := h.handshakes[op.from].value; s.InitiatorAwaitingResponse? && s.afterE == a
    ensures Cookie.IsChallenge(op.datagram) || ConsumeMsg2(h.config.identity, a, op.datagram).Err? ==>
              StepUses(h, op) == []
              && (Step(h, op).Ok? ==>
                    Step(h, op).value.host.handshakes == h.handshakes
                    && Step(h, op).value.host.established == h.established)
    ensures !Cookie.IsChallenge(op.datagram) && ConsumeMsg2(h.config.identity, a, op.datagram).Ok? ==>
              && ReadResponse(a, op.datagram).Ok?
              && StepUses(h, op) == FinishUses(ReadResponse(a, op.datagram).value.0)
              && (Step(h, op).Ok? ==>
                    Step(h, op).value.host
                    == h.WithEstablished(op.from, ConsumeMsg2(h.config.identity, a, op.datagram).value.0))
  {
    hide ReadResponse, VerifyBinding, WriteS, Cookie.IsChallenge, FinishUses;
    if ConsumeMsg2(h.config.identity, a, op.datagram).Ok? { ConsumedResponse(h.config.identity, a, op.datagram); }
  }

  lemma ConsumedResponse(identity: Credentials, a: InitiatorAfterE, d: Bytes)
    requires ConsumeMsg2(identity, a, d).Ok?
    ensures ReadResponse(a, d).Ok?
    ensures ConsumeMsg2(identity, a, d).value.0.transport == WriteS(ReadResponse(a, d).value.0, identity.Trailer()).0
  {
    hide ReadResponse, VerifyBinding, WriteS;
  }

  lemma InitiatorStep(net: Net, l: Ledger, nop: NetOp, a: InitiatorAfterE)
    requires NetOk(net, l) && nop.host in net && nop.op.RecvOp? && Plausible(l, nop.op)
    requires var h := net[nop.host];
             nop.op.from !in h.established && nop.op.from in h.handshakes
             && h.handshakes[nop.op.from].value.InitiatorAwaitingResponse?
             && h.handshakes[nop.op.from].value.afterE == a
    ensures NetOk(StepNet(net, nop), StepLedger(l, net[nop.host], nop.op))
  {
    hide ReadResponse, ConsumeMsg2, WriteS, PublicOf, Root, Cookie.IsChallenge, NetOk, Step, StepUses, StepNet, FinishUses;
    hide Level, Plausible, VerifyBinding;
    var h, op := net[nop.host], nop.op;
    var consumed := ConsumeMsg2(h.config.identity, a, op.datagram);
    InitiatorOutcome(h, op, a);
    if Cookie.IsChallenge(op.datagram) || consumed.Err? {
      QuietStep(net, l, nop);
    } else {
      var from, q := Slot(nop.host, op.from, true), Slot(nop.host, op.from, false);
      var t := consumed.value.0.transport;
      ConsumedResponse(h.config.identity, a, op.datagram);
      assert Live(net, from) == Some(Opening(a));
      WithEstablishedChanges(h, op.from, consumed.value.0);
      OpeningPlausible(net, l, from, a, op);
      ResponseKeys(a, op.datagram);
      assert Finishes(h, op) == {a.ephemeral} by { FinishingSeed(h, op, a); }
      hide SessionAt, Live, Finishes;
      Lift(net, nop, q, Opened(t));
      FinishingStep(net, nop);
      FinishKeeps(net, l, StepNet(net, nop), StepLedger(l, h, op), from, q, a, op.datagram, h.config.identity.Trailer());
    }
  }

  lemma FinishingSeed(h: Host, op: Op, a: InitiatorAfterE)
    requires op.RecvOp? && op.from !in h.established && op.from in h.handshakes && StepUses(h, op) != []
    requires var s := h.handshakes[op.from].value; s.InitiatorAwaitingResponse? && s.afterE == a
    ensures Finishes(h, op) == {a.ephemeral}
  {
    hide RecvUses;
  }

  lemma OpeningPlausible(net: Net, l: Ledger, from: Slot, a: InitiatorAfterE, op: Op)
    requires NetOk(net, l) && Live(net, from) == Some(Opening(a)) && op.RecvOp? && Plausible(l, op)
    ensures a.sym.chainingKey == ProtocolName() && NoForgery(l, op.datagram)
    ensures l.dialSeeds !! l.recvSeeds && op.seed !in l.dialSeeds
  {
    assert SessionOk(l, Opening(a));
  }

  /** An initiator that makes the uses of message 3 is out of the flying table after the step. */
  lemma FinishingStep(net: Net, nop: NetOp)
    requires nop.host in net && nop.op.RecvOp? && StepUses(net[nop.host], nop.op) != []
    requires var h := net[nop.host];
             nop.op.from !in h.established && nop.op.from in h.handshakes
             && h.handshakes[nop.op.from].value.InitiatorAwaitingResponse?
    ensures Live(StepNet(net, nop), Slot(nop.host, nop.op.from, true)).None?
  {
    InitiatorOutcome(net[nop.host], nop.op, net[nop.host].handshakes[nop.op.from].value.afterE);
    hide Step, StepUses, ConsumeMsg2, ReadResponse, FinishUses, Cookie.IsChallenge;
  }

  lemma ResponderStep(net: Net, l: Ledger, nop: NetOp)
    requires NetOk(net, l) && nop.host in net && nop.op.RecvOp? && Plausible(l, nop.op)
    requires var h := net[nop.host];
             nop.op.from !in h.established && nop.op.from in h.handshakes
             && h.handshakes[nop.op.from].value.ResponderAwaitingFinalize?
    ensures NetOk(StepNet(net, nop), StepLedger(l, net[nop.host], nop.op))
  {
    var h, op := net[nop.host], nop.op;
    var b := h.handshakes[op.from].value.afterResp;
    var consumed := ConsumeMsg3(b, op.datagram);
    hide ReadS, VerifyBinding, PublicOf, Root, NetOk;
    assert StepUses(h, op) == [];
    if consumed.Err? {
      QuietStep(net, l, nop);
    } else {
      var from, q := Slot(nop.host, op.from, true), Slot(nop.host, op.from, false);
      var t := ReadS(b, op.datagram).value.0;
      assert Live(net, from) == Some(Answered(b));
      QuietLedger(net, l, h, op);
      WithEstablishedChanges(h, op.from, consumed.value);
      assert Step(h, op).value.host == h.WithEstablished(op.from, consumed.value);
      hide SessionAt, ConsumeMsg3, Step, StepUses, StepLedger, Plausible;
      Lift(net, nop, q, Opened(t));
      assert Live(StepNet(net, nop), from).None?;
      AcceptKeeps(net, l, StepNet(net, nop), StepLedger(l, h, op), from, q, b, op.datagram);
    }
  }

  /** A stranger either earns an answer, making the uses of message 2, or no state at all. */
  lemma StrangerOutcome(h: Host, op: Op)
    requires op.RecvOp? && !h.Knows(op.from)
    ensures var own, msg1 := h.config.identity.staticPrivate, op.datagram[..Min(MESSAGE_1_LEN, |op.datagram|)];
            if Cookie.ValidEcho(h.config.identity.cookieSecret, op.from, op.datagram) && ReadE(own, msg1).Ok? then
              && StepUses(h, op) == AnswerUses(ReadE(own, msg1).value, op.seed)
              && |op.datagram| >= MESSAGE_1_LEN
              && (Step(h, op).Ok? ==>
                    Step(h, op).value.host
                    == h.WithHandshake(op.from, ResponderAwaitingFinalize(
                         WriteResponse(ReadE(own, msg1).value, op.seed, h.config.identity.Trailer()).0)))
            else
              && StepUses(h, op) == []
              && (Step(h, op).Ok? ==>
                    Step(h, op).value.host.handshakes == h.handshakes
                    && Step(h, op).value.host.established == h.established)
  {
    hide ReadE, WriteResponse, Cookie.Verify, AnswerUses;
  }

  lemma StrangerStep(net: Net, l: Ledger, nop: NetOp)
    requires NetOk(net, l) && nop.host in net && nop.op.RecvOp? && Plausible(l, nop.op)
    requires !net[nop.host].Knows(nop.op.from)
    ensures NetOk(StepNet(net, nop), StepLedger(l, net[nop.host], nop.op))
  {
    hide ReadE, WriteResponse, Cookie.Verify, Cookie.ValidEcho, PublicOf, NetOk, AnswerUses, Honest, Step, StepUses, StepNet;
    hide SessionAt, NoForgery;
    var h, op := net[nop.host], nop.op;
    var own, msg1 := h.config.identity.staticPrivate, op.datagram[..Min(MESSAGE_1_LEN, |op.datagram|)];
    StrangerOutcome(h, op);
    if !Cookie.ValidEcho(h.config.identity.cookieSecret, op.from, op.datagram) || ReadE(own, msg1).Err? {
      QuietStep(net, l, nop);
    } else {
      var e := ReadE(own, msg1).value;
      var b := WriteResponse(e, op.seed, h.config.identity.Trailer()).0;
      FirstTransitions(own, op.seed, msg1);
      WithHandshakeChanges(h, op.from, ResponderAwaitingFinalize(b));
      var q := Slot(nop.host, op.from, true);
      Lift(net, nop, q, Answered(b));
      AnswerKeeps(net, l, StepNet(net, nop), StepLedger(l, h, op), q, e, op.seed, h.config.identity.Trailer());
    }
  }

  lemma OtherStep(net: Net, l: Ledger, nop: NetOp)
    requires NetOk(net, l) && nop.host in net && (nop.op.SendRawOp? || nop.op.EvictOp? || nop.op.EvictIdleOp?)
    ensures NetOk(StepNet(net, nop), StepLedger(l, net[nop.host], nop.op))
  {
    var net', l' := StepNet(net, nop), StepLedger(l, net[nop.host], nop.op);
    assert l'.uses == l.uses + [];
    SeedsApart(net, l);
    hide NetOk;
    NothingNew(net, l, net', l');
  }

  lemma StepKeeps(net: Net, l: Ledger, nop: NetOp)
    requires NetOk(net, l) && nop.host in net && Plausible(l, nop.op)
    ensures NetOk(StepNet(net, nop), StepLedger(l, net[nop.host], nop.op))
  {
    hide NetOk, Plausible, StepNet, StepLedger;
    match nop.op
    case DialOp(_, _) => DialStep(net, l, nop);
    case SendOp(_, _) => SendStep(net, l, nop);
    case RecvOp(from, _, _) =>
      var h := net[nop.host];
      if from in h.established {
        EstablishedStep(net, l, nop);
      } else if from in h.handshakes {
        match h.handshakes[from].value
        case InitiatorAwaitingResponse(a, _) => InitiatorStep(net, l, nop, a);
        case ResponderAwaitingFinalize(_) => ResponderStep(net, l, nop);
      } else {
        StrangerStep(net, l, nop);
      }
    case _ => OtherStep(net, l, nop);
  }

  /** A whole run of the network; operations of hosts that are gone do nothing. */
  ghost function NetRun(net: Net, l: Ledger, nops: seq<NetOp>): (Net, Ledger)
    decreases |nops|
  {
    if nops == [] then (net, l)
    else if nops[0].host !in net then NetRun(net, l, nops[1..])
    else NetRun(StepNet(net, nops[0]), StepLedger(l, net[nops[0].host], nops[0].op), nops[1..])
  }

  /** Every seed of the run is fresh when drawn, and no arrival is forged. */
  ghost predicate PlausibleRun(net: Net, l: Ledger, nops: seq<NetOp>)
    decreases |nops|
  {
    if nops == [] then true
    else if nops[0].host !in net then PlausibleRun(net, l, nops[1..])
    else
      && Plausible(l, nops[0].op)
      && PlausibleRun(StepNet(net, nops[0]), StepLedger(l, net[nops[0].host], nops[0].op), nops[1..])
  }

  lemma {:induction false} RunKeeps(net: Net, l: Ledger, nops: seq<NetOp>)
    requires NetOk(net, l) && PlausibleRun(net, l, nops)
    ensures NetOk(NetRun(net, l, nops).0, NetRun(net, l, nops).1)
    decreases |nops|
  {
    hide NetOk, Plausible, StepNet, StepLedger;
    if nops != [] {
      if nops[0].host in net {
        StepKeeps(net, l, nops[0]);
        RunKeeps(StepNet(net, nops[0]), StepLedger(l, net[nops[0].host], nops[0].op), nops[1..]);
      } else {
        RunKeeps(net, l, nops[1..]);
      }
    }
  }

  function NewNet(configs: map<nat, Config>): Net {
    map i | i in configs :: NewHost(configs[i])
  }

  const EMPTY: Ledger := Ledger({}, {}, {}, {}, [])

  /**
   * No AEAD key and nonce encrypt twice: in any network of hosts, whatever is
   * lost, replayed, reordered, relayed between sessions or evicted, all the
   * encryptions of handshakes and transports, by initiators and responders
   * alike, are under different pairs.
   */
  lemma NoPairEncryptsTwice(configs: map<nat, Config>, nops: seq<NetOp>)
    requires PlausibleRun(NewNet(configs), EMPTY, nops)
    ensures NoRepeats(NetRun(NewNet(configs), EMPTY, nops).1.uses)
  {
    assert NetOk(NewNet(configs), EMPTY);
    RunKeeps(NewNet(configs), EMPTY, nops);
  }
}
