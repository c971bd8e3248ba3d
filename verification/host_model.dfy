/**
 * The connection-managing host as a state and its operations: two bounded
 * tables keyed by address, a tick, and the datagrams each operation sends.
 *
 * An operation that returns an error consumes the host, so it ends a run.
 */
module HostModel {
  import opened Prelude
  import opened Crypto
  import opened Addresses
  import opened Identity
  import opened LruTable
  import opened Transport
  import opened Handshake
  import Cookie

  datatype HandshakeState =
    | InitiatorAwaitingResponse(afterE: InitiatorAfterE, msg1: Bytes)
    | ResponderAwaitingFinalize(afterResp: ResponderAfterResponse)

  datatype Link = Link(transport: TransportState, remoteStatic: Key, remotePeer: PeerId)

  datatype Credentials = Credentials(staticPrivate: Key, signer: Bytes, cookieSecret: Key)
  {
    function Trailer(): Bytes {
      SignedStaticKey(signer, PublicOf(staticPrivate))
    }
  }

  /** Caps on the two tables; neither may be zero. */
  datatype Caps = Caps(maxHandshakes: nat, maxEstablished: nat)

  type Capacity = c: Caps | c.maxHandshakes > 0 && c.maxEstablished > 0 witness Caps(256, 1024)

  /** What stays fixed over the life of a host; `maxPayload` is the socket's outbound ceiling. */
  datatype Config = Config(identity: Credentials, capacity: Capacity, maxPayload: nat)
  {
    predicate Fits(payload: Bytes) {
      |payload| <= maxPayload
    }
  }

  datatype Event =
    | HandshakeProgress(addr: UdpAddr)
    | HandshakeComplete(addr: UdpAddr, remoteStatic: Key, remotePeer: PeerId)
    | DatagramDelivered(addr: UdpAddr, plaintext: Bytes)
    | Rejected(addr: UdpAddr)

  datatype Packet = Packet(to: UdpAddr, payload: Bytes)

  // --- Protocol decisions, free of table state ---

  /** Message 2 read, binding verified, message 3 written. */
  function ConsumeMsg2(identity: Credentials, afterE: InitiatorAfterE, datagram: Bytes): Result<(Link, Bytes)> {
    var (afterResp, payload) :- ReadResponse(afterE, datagram);
    var peer :- VerifyBinding(payload, afterResp.remoteStatic);
    var (transport, msg3, remoteStatic) := WriteS(afterResp, identity.Trailer());
    Ok((Link(transport, remoteStatic, peer), msg3))
  }

  function ConsumeMsg3(afterResp: ResponderAfterResponse, datagram: Bytes): Result<Link> {
    var (transport, remoteStatic, payload) :- ReadS(afterResp, datagram);
    var peer :- VerifyBinding(payload, remoteStatic);
    Ok(Link(transport, remoteStatic, peer))
  }

  /** Message 1 read, message 2 written. */
  function AnswerMsg1(identity: Credentials, e: Bytes, seed: Key): Result<(ResponderAfterResponse, Bytes)> {
    var afterE :- ReadE(identity.staticPrivate, e);
    Ok(WriteResponse(afterE, seed, identity.Trailer()))
  }

  // --- The host ---

  datatype Host = Host(
    config: Config,
    handshakes: Table<UdpAddr, HandshakeState>,
    established: Table<UdpAddr, Link>,
    tick: nat)
  {
    predicate Knows(addr: UdpAddr) {
      addr in handshakes || addr in established
    }

    ghost function WithHandshake(addr: UdpAddr, state: HandshakeState): Host {
      this.(handshakes := InsertLru(handshakes, addr, Stamped(state, tick + 1), config.capacity.maxHandshakes),
            tick := tick + 1)
    }

    ghost function WithEstablished(addr: UdpAddr, link: Link): Host {
      this.(handshakes := handshakes - {addr},
            established := InsertLru(established, addr, Stamped(link, tick + 1), config.capacity.maxEstablished),
            tick := tick + 1)
    }

    function Touched(addr: UdpAddr, link: Link): Host {
      this.(established := established[addr := Stamped(link, tick + 1)], tick := tick + 1)
    }

    function Ticked(): Host {
      this.(tick := tick + 1)
    }
  }

  function NewHost(config: Config): Host {
    Host(config, map[], map[], 0)
  }

  datatype Outcome = Outcome(host: Host, event: Option<Event>, sent: seq<Packet>)

  /** One outbound datagram, or the socket's size error. */
  ghost function Transmit(next: Host, event: Option<Event>, to: UdpAddr, payload: Bytes): Result<Outcome> {
    if next.config.Fits(payload)
    then Ok(Outcome(next, event, [Packet(to, payload)]))
    else Err(DatagramTooLarge)
  }

  function Silent(next: Host, event: Event): Result<Outcome> {
    Ok(Outcome(next, Some(event), []))
  }

  ghost function Dial(h: Host, addr: UdpAddr, seed: Key): Result<Outcome> {
    if h.Knows(addr) then Err(Prelude.HostState)
    else
      var (afterE, msg1) := WriteE(h.config.identity.staticPrivate, seed);
      Transmit(h.WithHandshake(addr, InitiatorAwaitingResponse(afterE, msg1)), None, addr, msg1)
  }

  ghost function Send(h: Host, addr: UdpAddr, plaintext: Bytes): Result<Outcome> {
    if addr !in h.established then Err(Prelude.HostState)
    else
      var link := h.established[addr].value;
      var (transport, datagram) :- Encrypt(link.transport, plaintext);
      Transmit(h.Touched(addr, link.(transport := transport)), None, addr, datagram)
  }

  ghost function SendRaw(h: Host, addr: UdpAddr, payload: Bytes): Result<Outcome> {
    Transmit(h.Ticked(), None, addr, payload)
  }

  /** Established, then in flight, then possibly a new responder. */
  ghost function RecvOne(h: Host, from: UdpAddr, datagram: Bytes, seed: Key): Result<Outcome> {
    if from in h.established then DecryptEstablished(h, from, datagram)
    else if from in h.handshakes then AdvanceInFlight(h, from, datagram)
    else TryResponderMsg1(h, from, datagram, seed)
  }

  /** A rejected datagram leaves the entry, its stamp and the tick alone. */
  function DecryptEstablished(h: Host, from: UdpAddr, datagram: Bytes): Result<Outcome>
    requires from in h.established
  {
    var link := h.established[from].value;
    match Decrypt(link.transport, datagram)
    case (_, Err(_)) => Silent(h, Rejected(from))
    case (transport, Ok(plaintext)) =>
      Silent(h.Touched(from, link.(transport := transport)), DatagramDelivered(from, plaintext))
  }

  /** The entry survives every datagram that does not complete the handshake. */
  ghost function AdvanceInFlight(h: Host, from: UdpAddr, datagram: Bytes): Result<Outcome>
    requires from in h.handshakes
  {
    match h.handshakes[from].value
    case InitiatorAwaitingResponse(afterE, msg1) =>
      if Cookie.IsChallenge(datagram) then
        Transmit(h, Some(HandshakeProgress(from)), from, msg1 + datagram[1..])
      else (
        match ConsumeMsg2(h.config.identity, afterE, datagram)
        case Err(_) => Silent(h.Ticked(), Rejected(from))
        case Ok((link, msg3)) =>
          Transmit(h.WithEstablished(from, link),
                   Some(HandshakeComplete(from, link.remoteStatic, link.remotePeer)), from, msg3)
      )
    case ResponderAwaitingFinalize(afterResp) =>
      match ConsumeMsg3(afterResp, datagram)
      case Err(_) => Silent(h.Ticked(), Rejected(from))
      case Ok(link) =>
        Silent(h.WithEstablished(from, link), HandshakeComplete(from, link.remoteStatic, link.remotePeer))
  }

  /** A bare `msg1` earns a challenge; only an echoed cookie earns state. */
  ghost function TryResponderMsg1(h: Host, from: UdpAddr, datagram: Bytes, seed: Key): Result<Outcome> {
    var secret := h.config.identity.cookieSecret;
    if |datagram| == MESSAGE_1_LEN then
      Transmit(h.Ticked(), Some(HandshakeProgress(from)), from, Cookie.Challenge(secret, from, datagram))
    else if |datagram| == Cookie.MSG1_WITH_COOKIE_LEN then
      var e, mac := datagram[..MESSAGE_1_LEN], datagram[MESSAGE_1_LEN..];
      if Cookie.Verify(secret, from, e, mac) then (
        match AnswerMsg1(h.config.identity, e, seed)
        case Err(_) => Silent(h.Ticked(), Rejected(from))
        case Ok((afterResp, msg2)) =>
          Transmit(h.WithHandshake(from, ResponderAwaitingFinalize(afterResp)),
                   Some(HandshakeProgress(from)), from, msg2)
      ) else Silent(h.Ticked(), Rejected(from))
    else Silent(h.Ticked(), Rejected(from))
  }

  function Evict(h: Host, addr: UdpAddr): Host {
    h.(handshakes := h.handshakes - {addr}, established := h.established - {addr})
  }

  function Stale<T>(t: Table<UdpAddr, T>, cutoff: nat): set<UdpAddr> {
    set a | a in t && t[a].lastActivity < cutoff
  }

  /** The host without its idle entries, and the addresses swept. */
  function EvictIdle(h: Host, maxIdle: nat): (Host, set<UdpAddr>) {
    var cutoff := Cutoff(h.tick, maxIdle);
    var hs, es := Stale(h.handshakes, cutoff), Stale(h.established, cutoff);
    (h.(handshakes := h.handshakes - hs, established := h.established - es), hs + es)
  }

  // --- Runs ---

  datatype Op =
    | DialOp(addr: UdpAddr, seed: Key)
    | SendOp(addr: UdpAddr, plaintext: Bytes)
    | SendRawOp(addr: UdpAddr, payload: Bytes)
    | RecvOp(from: UdpAddr, datagram: Bytes, seed: Key)
    | EvictOp(addr: UdpAddr)
    | EvictIdleOp(maxIdle: nat)

  ghost function Step(h: Host, op: Op): Result<Outcome> {
    match op
    case DialOp(addr, seed) => Dial(h, addr, seed)
    case SendOp(addr, plaintext) => Send(h, addr, plaintext)
    case SendRawOp(addr, payload) => SendRaw(h, addr, payload)
    case RecvOp(from, datagram, seed) => RecvOne(h, from, datagram, seed)
    case EvictOp(addr) => Ok(Outcome(Evict(h, addr), None, []))
    case EvictIdleOp(maxIdle) => Ok(Outcome(EvictIdle(h, maxIdle).0, None, []))
  }

  /** What one operation showed the caller and the network. */
  datatype Trace = Trace(op: Op, event: Option<Event>, sent: seq<Packet>)

  datatype RunResult = RunResult(host: Host, trace: seq<Trace>)

  /** A whole run; it ends early, with an error, as soon as one operation does. */
  ghost function Run(h: Host, ops: seq<Op>): Result<RunResult>
    decreases |ops|
  {
    if ops == [] then Ok(RunResult(h, []))
    else
      var out :- Step(h, ops[0]);
      var rest :- Run(out.host, ops[1..]);
      Ok(RunResult(rest.host, [Trace(ops[0], out.event, out.sent)] + rest.trace))
  }
}
