/** What junk does to the clock, and what that does to idle sweeps. */
module HostClock {
  import opened Prelude
  import opened Crypto
  import opened Addresses
  import opened LruTable
  import opened Transport
  import opened Handshake
  import opened HostModel
  import opened HostInvariant
  import Cookie

  /** A rejected arrival costs one tick, and on the established path not even that; nothing else changes. */
  lemma RejectedExactly(h: Host, op: Op)
    requires op.RecvOp? && Step(h, op).Ok? && Step(h, op).value.event == Some(Rejected(op.from))
    ensures Step(h, op).value.host == if op.from in h.established then h else h.Ticked()
    ensures Step(h, op).value.sent == []
  {
    hide Decrypt, ConsumeMsg2, ConsumeMsg3, AnswerMsg1, Cookie.Mint, Cookie.IsChallenge, Cookie.Verify;
  }

  // --- What each operation costs, and whom it renews ---

  /** Costs no tick: evictions, an echoed challenge, and a rejection at an established address. */
  predicate Free(h: Host, op: Op, event: Option<Event>) {
    match op
    case EvictOp(_) => true
    case EvictIdleOp(_) => true
    case RecvOp(from, _, _) => if from in h.established then event == Some(Rejected(from))
                               else from in h.handshakes && event == Some(HandshakeProgress(from))
    case _ => false
  }

  /** Writes the entry at `a`: dialled, sent to, delivered from, completed, or newly answered. */
  predicate Renews(h: Host, op: Op, event: Option<Event>, a: UdpAddr) {
    match op
    case DialOp(addr, _) => addr == a
    case SendOp(addr, _) => addr == a
    case RecvOp(from, _, _) =>
      from == a && event.Some? && (event.value.DatagramDelivered? || event.value.HandshakeComplete? || !h.Knows(a))
    case _ => false
  }

  ghost predicate Effect(h: Host, op: Op, out: Outcome, a: UdpAddr) {
    var h' := out.host;
    && h'.tick == h.tick + (if Free(h, op, out.event) then 0 else 1)
    && (a in h'.handshakes ==>
          if Renews(h, op, out.event, a) then h'.handshakes[a].lastActivity == h'.tick
          else a in h.handshakes && h'.handshakes[a] == h.handshakes[a])
    && (a in h'.established ==>
          if Renews(h, op, out.event, a) then h'.established[a].lastActivity == h'.tick
          else a in h.established && h'.established[a] == h.established[a])
  }

  /**
   * The clock of the idle sweeps.  Every operation costs one tick, but those
   * named free; the entry it writes, if it writes one, is stamped with the new
   * tick, and every other entry that is left is left as it was, stamp and all.
   */
  lemma OperationsCost(h: Host, op: Op, a: UdpAddr)
    requires Inv(h) && Step(h, op).Ok?
    ensures Effect(h, op, Step(h, op).value, a)
  {
    InvParts(h);
    NeverBoth(h, a);
    hide Inv, Effect, Step, Bounded, CrossDistinct, Before, Disjoint;
    match op
    case RecvOp(from, _, _) =>
      if from in h.established {
        SessionEffect(h, op, a);
      } else if from in h.handshakes {
        InFlightEffect(h, op, a);
      } else {
        StrangerEffect(h, op, a);
      }
    case DialOp(_, _) => DialEffect(h, op, a);
    case SendOp(_, _) => SessionEffect(h, op, a);
    case _ => OtherEffect(h, op, a);
  }

  lemma SessionEffect(h: Host, op: Op, a: UdpAddr)
    requires op.SendOp? || (op.RecvOp? && op.from in h.established)
    requires (a !in h.handshakes || a !in h.established) && Step(h, op).Ok?
    ensures Effect(h, op, Step(h, op).value, a)
  {
    hide Encrypt, Decrypt;
  }

  lemma DialEffect(h: Host, op: Op, a: UdpAddr)
    requires op.DialOp? && Step(h, op).Ok?
    ensures Effect(h, op, Step(h, op).value, a)
  {
    hide WriteE;
    var (afterE, msg1) := WriteE(h.config.identity.staticPrivate, op.seed);
    HandshakeWritten(h, op.addr, InitiatorAwaitingResponse(afterE, msg1), a);
    hide InsertLru;
  }

  lemma OtherEffect(h: Host, op: Op, a: UdpAddr)
    requires (op.SendRawOp? || op.EvictOp? || op.EvictIdleOp?) && Step(h, op).Ok?
    ensures Effect(h, op, Step(h, op).value, a)
  {
  }

  lemma HandshakeWritten(h: Host, addr: UdpAddr, state: HandshakeState, a: UdpAddr)
    ensures var h' := h.WithHandshake(addr, state);
            && h'.tick == h.tick + 1 && h'.established == h.established
            && (a in h'.handshakes ==>
                  if a == addr then h'.handshakes[a] == Stamped(state, h'.tick)
                  else a in h.handshakes && h'.handshakes[a] == h.handshakes[a])
  {
    InsertLruEntries(h.handshakes, addr, Stamped(state, h.tick + 1), h.config.capacity.maxHandshakes);
    hide InsertLru;
  }

  lemma SessionWritten(h: Host, addr: UdpAddr, link: Link, a: UdpAddr)
    ensures var h' := h.WithEstablished(addr, link);
            && h'.tick == h.tick + 1 && h'.handshakes == h.handshakes - {addr}
            && (a in h'.established ==>
                  if a == addr then h'.established[a] == Stamped(link, h'.tick)
                  else a in h.established && h'.established[a] == h.established[a])
  {
    InsertLruEntries(h.established, addr, Stamped(link, h.tick + 1), h.config.capacity.maxEstablished);
    hide InsertLru;
  }

  lemma InFlightEffect(h: Host, op: Op, a: UdpAddr)
    requires op.RecvOp? && op.from !in h.established && op.from in h.handshakes && Step(h, op).Ok?
    ensures Effect(h, op, Step(h, op).value, a)
  {
    hide ConsumeMsg2, ConsumeMsg3, Cookie.IsChallenge;
    match h.handshakes[op.from].value
    case InitiatorAwaitingResponse(afterE, _) =>
      var consumed := ConsumeMsg2(h.config.identity, afterE, op.datagram);
      if consumed.Ok? { SessionWritten(h, op.from, consumed.value.0, a); }
      hide InsertLru;
    case ResponderAwaitingFinalize(afterResp) =>
      var consumed := ConsumeMsg3(afterResp, op.datagram);
      if consumed.Ok? { SessionWritten(h, op.from, consumed.value, a); }
      hide InsertLru;
  }

  lemma StrangerEffect(h: Host, op: Op, a: UdpAddr)
    requires op.RecvOp? && !h.Knows(op.from) && Step(h, op).Ok?
    ensures Effect(h, op, Step(h, op).value, a)
  {
    hide AnswerMsg1, Cookie.Mint, Cookie.Verify;
    if |op.datagram| == Cookie.MSG1_WITH_COOKIE_LEN {
      var answer := AnswerMsg1(h.config.identity, op.datagram[..MESSAGE_1_LEN], op.seed);
      if answer.Ok? { HandshakeWritten(h, op.from, ResponderAwaitingFinalize(answer.value.0), a); }
    }
    hide InsertLru;
  }

  /** `send_raw` and `evict` do that alone. */
  lemma RawAndEvictExactly(h: Host, addr: UdpAddr, payload: Bytes, a: UdpAddr)
    ensures Step(h, SendRawOp(addr, payload)).Ok? <==> |payload| <= h.config.maxPayload
    ensures |payload| <= h.config.maxPayload ==>
              Step(h, SendRawOp(addr, payload)) == Ok(Outcome(h.(tick := h.tick + 1), None, [Packet(addr, payload)]))
    ensures Step(h, EvictOp(addr)).Ok?
    ensures var out := Step(h, EvictOp(addr)).value;
            && (out.host.Knows(a) <==> h.Knows(a) && a != addr)
            && out.host.tick == h.tick && out.event == None && out.sent == []
  {
  }

  // --- Ticks that nobody's entry sees ---

  function Later(h: Host, ticks: nat): Host {
    h.(tick := h.tick + ticks)
  }

  lemma StaleLater<T>(t: Table<UdpAddr, T>, tick: nat, ticks: nat, maxIdle: nat)
    requires Before(t, tick + 1)
    ensures forall a :: a in Stale(t, Cutoff(tick + ticks, maxIdle))
              <==> a in t && tick + ticks - t[a].lastActivity > maxIdle
  {
  }

  /**
   * The damage a junk flood does.  Ticks that pass without touching an entry
   * change what a sweep takes exactly if they carry some entry over the limit:
   * one that was at most `maxIdle` behind, and is not any more.
   */
  lemma TicksChangeSweepExactly(h: Host, ticks: nat, maxIdle: nat)
    requires Inv(h)
    ensures EvictIdle(Later(h, ticks), maxIdle).1 == EvictIdle(h, maxIdle).1
       <==> forall a :: h.Knows(a) ==>
              h.tick - LastActivity(h, a) > maxIdle || h.tick + ticks - LastActivity(h, a) <= maxIdle
  {
    InvParts(h);
    var late, early := EvictIdle(Later(h, ticks), maxIdle).1, EvictIdle(h, maxIdle).1;
    forall t | t in {0, ticks}
      ensures forall a :: a in EvictIdle(Later(h, t), maxIdle).1
                <==> h.Knows(a) && h.tick + t - LastActivity(h, a) > maxIdle
    {
      SweptLater(h, t, maxIdle);
    }
    assert Later(h, 0) == h;
    hide EvictIdle, Inv, Bounded, CrossDistinct, Before, Disjoint;
    if late != early {
      var a :| (a in late && a !in early) || (a in early && a !in late);
      assert h.Knows(a) && h.tick - LastActivity(h, a) <= maxIdle && h.tick + ticks - LastActivity(h, a) > maxIdle;
    } else {
      forall a | h.Knows(a)
        ensures h.tick - LastActivity(h, a) > maxIdle || h.tick + ticks - LastActivity(h, a) <= maxIdle
      {
        assert a in late <==> a in early;
      }
    }
  }

  lemma SweptLater(h: Host, ticks: nat, maxIdle: nat)
    requires Inv(h)
    ensures forall a :: a in EvictIdle(Later(h, ticks), maxIdle).1
              <==> h.Knows(a) && h.tick + ticks - LastActivity(h, a) > maxIdle
  {
    InvParts(h);
    StaleLater(h.handshakes, h.tick, ticks, maxIdle);
    StaleLater(h.established, h.tick, ticks, maxIdle);
    hide Inv, Bounded, CrossDistinct, Before, Stale, Cutoff;
  }

  /** One rejection off the established path saves or dooms exactly the entries on the limit. */
  lemma OneRejectionChangesSweepExactly(h: Host, maxIdle: nat)
    requires Inv(h)
    ensures EvictIdle(h.Ticked(), maxIdle).1 == EvictIdle(h, maxIdle).1
       <==> forall a :: h.Knows(a) ==> h.tick - LastActivity(h, a) != maxIdle
  {
    TicksChangeSweepExactly(h, 1, maxIdle);
    assert Later(h, 1) == h.Ticked();
    hide EvictIdle, Inv;
  }

  // --- Junk at established addresses ---

  predicate SpoofedJunk(h: Host, op: Op, event: Option<Event>) {
    op.RecvOp? && op.from in h.established && event == Some(Rejected(op.from))
  }

  ghost function Unspoofed(h: Host, ops: seq<Op>): seq<Op>
    decreases |ops|
  {
    if ops == [] then []
    else
      match Step(h, ops[0])
      case Err(_) => ops
      case Ok(out) => (if SpoofedJunk(h, ops[0], out.event) then [] else [ops[0]]) + Unspoofed(out.host, ops[1..])
  }

  ghost function UnspoofedTrace(h: Host, ops: seq<Op>): seq<Trace>
    decreases |ops|
  {
    if ops == [] then []
    else
      match Step(h, ops[0])
      case Err(_) => []
      case Ok(out) =>
        (if SpoofedJunk(h, ops[0], out.event) then [] else [Trace(ops[0], out.event, out.sent)])
          + UnspoofedTrace(out.host, ops[1..])
  }

  /**
   * Junk in the name of established peers is nothing at all: deleting it from
   * any run, idle sweeps included, leaves every other event and datagram, and
   * the final host down to its clock and stamps, the same.
   */
  lemma {:induction false} SpoofedJunkIsNothing(h: Host, ops: seq<Op>)
    requires Run(h, ops).Ok?
    ensures Run(h, Unspoofed(h, ops)) == Ok(RunResult(Run(h, ops).value.host, UnspoofedTrace(h, ops)))
    decreases |ops|
  {
    hide Step;
    if ops != [] {
      var out, rest := Step(h, ops[0]).value, ops[1..];
      SpoofedJunkIsNothing(out.host, rest);
      if SpoofedJunk(h, ops[0], out.event) {
        RejectedExactly(h, ops[0]);
        assert Unspoofed(h, ops) == Unspoofed(h, rest);
        assert UnspoofedTrace(h, ops) == UnspoofedTrace(h, rest);
      } else {
        var kept := Unspoofed(h, ops);
        assert kept[0] == ops[0] && kept[1..] == Unspoofed(out.host, rest);
      }
    }
  }
}
