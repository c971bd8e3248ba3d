/**
 * The host without a clock: each table is a list of entries, least recently
 * touched first.  The stamped host refines it, so the stamps implement true
 * LRU order, and a datagram that changes nothing here changes nothing there
 * but stamps.
 */
module HostRecency {
  import opened Prelude
  import opened Crypto
  import opened Addresses
  import opened LruTable
  import opened Transport
  import opened Handshake
  import opened HostModel
  import opened HostInvariant
  import Cookie

  datatype ListHost = ListHost(
    config: Config,
    handshakes: Recency<UdpAddr, HandshakeState>,
    established: Recency<UdpAddr, Link>)

  datatype ListOutcome = ListOutcome(host: ListHost, event: Option<Event>, sent: seq<Packet>)

  function Emit(next: ListHost, event: Option<Event>, to: UdpAddr, payload: Bytes): Result<ListOutcome> {
    if next.config.Fits(payload)
    then Ok(ListOutcome(next, event, [Packet(to, payload)]))
    else Err(DatagramTooLarge)
  }

  function Quiet(next: ListHost, event: Event): Result<ListOutcome> {
    Ok(ListOutcome(next, Some(event), []))
  }

  function ListDial(l: ListHost, addr: UdpAddr, seed: Key): Result<ListOutcome> {
    if Find(l.handshakes, addr).Some? || Find(l.established, addr).Some? then Err(Prelude.HostState)
    else
      var (afterE, msg1) := WriteE(l.config.identity.staticPrivate, seed);
      Emit(Started(l, addr, InitiatorAwaitingResponse(afterE, msg1)), None, addr, msg1)
  }

  function ListSend(l: ListHost, addr: UdpAddr, plaintext: Bytes): Result<ListOutcome> {
    match Find(l.established, addr)
    case None => Err(Prelude.HostState)
    case Some(link) =>
      var (transport, datagram) :- Encrypt(link.transport, plaintext);
      Emit(Used(l, addr, link.(transport := transport)), None, addr, datagram)
  }

  function Started(l: ListHost, addr: UdpAddr, state: HandshakeState): ListHost {
    l.(handshakes := PushRecent(l.handshakes, addr, state, l.config.capacity.maxHandshakes))
  }

  function Completed(l: ListHost, addr: UdpAddr, link: Link): ListHost {
    l.(handshakes := Remove(l.handshakes, addr),
       established := PushRecent(l.established, addr, link, l.config.capacity.maxEstablished))
  }

  function Used(l: ListHost, addr: UdpAddr, link: Link): ListHost {
    l.(established := MoveToBack(l.established, addr, link))
  }

  function ListRecv(l: ListHost, from: UdpAddr, datagram: Bytes, seed: Key): Result<ListOutcome> {
    var link, handshake := Find(l.established, from), Find(l.handshakes, from);
    if link.Some? then ListOpen(l, from, link.value, datagram)
    else if handshake.Some? then ListAdvance(l, from, handshake.value, datagram)
    else ListNew(l, from, datagram, seed)
  }

  function ListOpen(l: ListHost, from: UdpAddr, link: Link, datagram: Bytes): Result<ListOutcome> {
    match Decrypt(link.transport, datagram)
    case (_, Err(_)) => Quiet(l, Rejected(from))
    case (transport, Ok(plaintext)) =>
      Quiet(Used(l, from, link.(transport := transport)), DatagramDelivered(from, plaintext))
  }

  function ListAdvance(l: ListHost, from: UdpAddr, handshake: HandshakeState, datagram: Bytes): Result<ListOutcome> {
    match handshake
    case InitiatorAwaitingResponse(afterE, msg1) =>
      if Cookie.IsChallenge(datagram) then
        Emit(l, Some(HandshakeProgress(from)), from, msg1 + datagram[1..])
      else (
        match ConsumeMsg2(l.config.identity, afterE, datagram)
        case Err(_) => Quiet(l, Rejected(from))
        case Ok((link, msg3)) =>
          Emit(Completed(l, from, link), Some(HandshakeComplete(from, link.remoteStatic, link.remotePeer)), from, msg3)
      )
    case ResponderAwaitingFinalize(afterResp) =>
      match ConsumeMsg3(afterResp, datagram)
      case Err(_) => Quiet(l, Rejected(from))
      case Ok(link) =>
        Quiet(Completed(l, from, link), HandshakeComplete(from, link.remoteStatic, link.remotePeer))
  }

  function ListNew(l: ListHost, from: UdpAddr, datagram: Bytes, seed: Key): Result<ListOutcome> {
    var secret := l.config.identity.cookieSecret;
    if |datagram| == MESSAGE_1_LEN then
      Emit(l, Some(HandshakeProgress(from)), from, Cookie.Challenge(secret, from, datagram))
    else if Cookie.ValidEcho(secret, from, datagram) then (
      match AnswerMsg1(l.config.identity, datagram[..MESSAGE_1_LEN], seed)
      case Err(_) => Quiet(l, Rejected(from))
      case Ok((afterResp, msg2)) =>
        Emit(Started(l, from, ResponderAwaitingFinalize(afterResp)), Some(HandshakeProgress(from)), from, msg2)
    ) else Quiet(l, Rejected(from))
  }

  /** Every operation but the idle sweep, which alone can see the clock. */
  function ListStep(l: ListHost, op: Op): Result<ListOutcome>
    requires !op.EvictIdleOp?
  {
    match op
    case DialOp(addr, seed) => ListDial(l, addr, seed)
    case SendOp(addr, plaintext) => ListSend(l, addr, plaintext)
    case SendRawOp(addr, payload) => Emit(l, None, addr, payload)
    case RecvOp(from, datagram, seed) => ListRecv(l, from, datagram, seed)
    case EvictOp(addr) =>
      Ok(ListOutcome(l.(handshakes := Remove(l.handshakes, addr), established := Remove(l.established, addr)), None, []))
  }

  // --- Refinement ---

  ghost predicate Models(l: ListHost, h: Host) {
    l.config == h.config && Refines(l.handshakes, h.handshakes) && Refines(l.established, h.established)
  }

  /** The two results agree on success, on event and datagrams, and on the next host. */
  ghost predicate Agree(lr: Result<ListOutcome>, hr: Result<Outcome>) {
    && lr.Ok? == hr.Ok?
    && (lr.Ok? ==>
          && lr.value.event == hr.value.event && lr.value.sent == hr.value.sent
          && Models(lr.value.host, hr.value.host))
    && (lr.Err? ==> lr.error == hr.error)
  }

  lemma ModelsFind(l: ListHost, h: Host, addr: UdpAddr)
    requires Models(l, h)
    ensures Find(l.handshakes, addr) == if addr in h.handshakes then Some(h.handshakes[addr].value) else None
    ensures Find(l.established, addr) == if addr in h.established then Some(h.established[addr].value) else None
  {
    RefinesFind(l.handshakes, h.handshakes, addr);
    RefinesFind(l.established, h.established, addr);
  }

  lemma StartedModels(l: ListHost, h: Host, addr: UdpAddr, state: HandshakeState)
    requires Models(l, h) && Inv(h) && !h.Knows(addr)
    ensures Models(Started(l, addr, state), h.WithHandshake(addr, state))
  {
    hide InsertLru, PushRecent, Refines, Distinct, CrossDistinct;
    RefinesPush(l.handshakes, h.handshakes, addr, Stamped(state, h.tick + 1), h.config.capacity.maxHandshakes);
  }

  lemma CompletedModels(l: ListHost, h: Host, addr: UdpAddr, link: Link)
    requires Models(l, h) && Inv(h) && addr in h.handshakes
    ensures Models(Completed(l, addr, link), h.WithEstablished(addr, link))
  {
    hide InsertLru, PushRecent, Refines, Distinct, CrossDistinct, Remove;
    RefinesRemove(l.handshakes, h.handshakes, addr);
    RefinesPush(l.established, h.established, addr, Stamped(link, h.tick + 1), h.config.capacity.maxEstablished);
  }

  lemma UsedModels(l: ListHost, h: Host, addr: UdpAddr, link: Link)
    requires Models(l, h) && Inv(h)
    ensures Models(Used(l, addr, link), h.Touched(addr, link))
  {
    hide MoveToBack, Refines, Distinct, CrossDistinct;
    RefinesMoveToBack(l.established, h.established, addr, Stamped(link, h.tick + 1));
  }

  lemma DecryptRefines(l: ListHost, h: Host, from: UdpAddr, datagram: Bytes, seed: Key)
    requires Models(l, h) && Inv(h) && from in h.established
    ensures Agree(ListRecv(l, from, datagram, seed), RecvOne(h, from, datagram, seed))
  {
    hide Decrypt, Models, Inv;
    ModelsFind(l, h, from);
    var link := h.established[from].value;
    UsedModels(l, h, from, link.(transport := Decrypt(link.transport, datagram).0));
  }

  lemma TickedModels(l: ListHost, h: Host)
    requires Models(l, h)
    ensures Models(l, h.Ticked())
  {
  }

  lemma AdvanceRefines(l: ListHost, h: Host, from: UdpAddr, datagram: Bytes, seed: Key)
    requires Models(l, h) && Inv(h) && from in h.handshakes
    ensures Agree(ListRecv(l, from, datagram, seed), RecvOne(h, from, datagram, seed))
  {
    hide ConsumeMsg2, ConsumeMsg3, Refines, InsertLru, Remove, PushRecent, Inv, Distinct;
    assert Disjoint(h) by { InvParts(h); }
    ModelsFind(l, h, from);
    TickedModels(l, h);
    match h.handshakes[from].value
    case InitiatorAwaitingResponse(afterE, msg1) =>
      var r := ConsumeMsg2(h.config.identity, afterE, datagram);
      if r.Ok? { CompletedModels(l, h, from, r.value.0); }
    case ResponderAwaitingFinalize(afterResp) =>
      var r := ConsumeMsg3(afterResp, datagram);
      if r.Ok? { CompletedModels(l, h, from, r.value); }
  }

  lemma NewRefines(l: ListHost, h: Host, from: UdpAddr, datagram: Bytes, seed: Key)
    requires Models(l, h) && Inv(h) && !h.Knows(from)
    ensures Agree(ListRecv(l, from, datagram, seed), RecvOne(h, from, datagram, seed))
  {
    hide AnswerMsg1, Refines, InsertLru, PushRecent, Inv, Distinct, Cookie.Mint;
    ModelsFind(l, h, from);
    TickedModels(l, h);
    var r := AnswerMsg1(h.config.identity, datagram[..if |datagram| < MESSAGE_1_LEN then 0 else MESSAGE_1_LEN], seed);
    if r.Ok? { StartedModels(l, h, from, ResponderAwaitingFinalize(r.value.0)); }
  }

  /** One step: the stamped host does what the list host does. */
  lemma StepRefines(l: ListHost, h: Host, op: Op)
    requires Models(l, h) && Inv(h) && !op.EvictIdleOp?
    ensures Agree(ListStep(l, op), Step(h, op))
  {
    hide RecvOne, ListRecv, WriteE, Encrypt, Refines, InsertLru, PushRecent, Inv, Distinct, Remove, MoveToBack;
    match op
    case DialOp(addr, seed) =>
      ModelsFind(l, h, addr);
      if !h.Knows(addr) {
        var (afterE, msg1) := WriteE(h.config.identity.staticPrivate, seed);
        StartedModels(l, h, addr, InitiatorAwaitingResponse(afterE, msg1));
      }
    case SendOp(addr, plaintext) =>
      ModelsFind(l, h, addr);
      if addr in h.established {
        var link := h.established[addr].value;
        var r := Encrypt(link.transport, plaintext);
        if r.Ok? { UsedModels(l, h, addr, link.(transport := r.value.0)); }
      }
    case SendRawOp(_, _) => TickedModels(l, h);
    case RecvOp(from, datagram, seed) =>
      if from in h.established {
        DecryptRefines(l, h, from, datagram, seed);
      } else if from in h.handshakes {
        AdvanceRefines(l, h, from, datagram, seed);
      } else {
        NewRefines(l, h, from, datagram, seed);
      }
    case EvictOp(addr) =>
      RefinesRemove(l.handshakes, h.handshakes, addr);
      RefinesRemove(l.established, h.established, addr);
  }
}
