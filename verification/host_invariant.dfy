/** What every operation, and so every run, keeps about the two tables. */
module HostInvariant {
  import opened Prelude
  import opened Crypto
  import opened Addresses
  import opened LruTable
  import opened HostModel
  import opened Transport
  import opened Handshake

  ghost predicate Disjoint(h: Host) {
    forall a :: a in h.handshakes ==> a !in h.established
  }

  ghost predicate CrossDistinct(h: Host) {
    forall a, b :: a in h.handshakes && b in h.established ==>
      h.handshakes[a].lastActivity != h.established[b].lastActivity
  }

  /**
   * Each table is within its cap, no stamp lies in the future, no two entries
   * of either table share a stamp, and no address is in both tables.
   */
  ghost predicate Inv(h: Host) {
    && Bounded(h.handshakes, h.config.capacity.maxHandshakes, h.tick)
    && Bounded(h.established, h.config.capacity.maxEstablished, h.tick)
    && Disjoint(h) && CrossDistinct(h)
  }

  /** Each entry is an old one of the same table, or is at `addr` and carries the new tick. */
  ghost predicate OldOrNew<T>(t: Table<UdpAddr, T>, t': Table<UdpAddr, T>, addr: UdpAddr, tick: nat) {
    forall a :: a in t' ==> if a == addr then t'[a].lastActivity == tick + 1 else a in t && t'[a] == t[a]
  }

  /** A new tick collides with no old stamp, and one address moved keeps the tables disjoint. */
  lemma StaysApart(h: Host, h': Host, addr: UdpAddr)
    requires Before(h.handshakes, h.tick + 1) && Before(h.established, h.tick + 1) && Disjoint(h) && CrossDistinct(h)
    requires OldOrNew(h.handshakes, h'.handshakes, addr, h.tick)
    requires OldOrNew(h.established, h'.established, addr, h.tick)
    requires addr !in h'.handshakes || addr !in h'.established
    ensures Disjoint(h') && CrossDistinct(h')
  {
    forall a, b | a in h'.handshakes && b in h'.established
      ensures h'.handshakes[a].lastActivity != h'.established[b].lastActivity
    {
      if a != addr { assert h'.handshakes[a] == h.handshakes[a]; }
      if b != addr { assert h'.established[b] == h.established[b]; }
    }
  }

  lemma InvParts(h: Host)
    requires Inv(h)
    ensures Disjoint(h) && CrossDistinct(h) && Before(h.handshakes, h.tick + 1) && Before(h.established, h.tick + 1)
    ensures Bounded(h.handshakes, h.config.capacity.maxHandshakes, h.tick)
    ensures Bounded(h.established, h.config.capacity.maxEstablished, h.tick)
  {
    hide Distinct, Before, Disjoint, CrossDistinct;
  }

  lemma NeverBoth(h: Host, addr: UdpAddr)
    requires Disjoint(h)
    ensures addr !in h.handshakes || addr !in h.established
  {
  }

  lemma InsertOldOrNew<T>(t: Table<UdpAddr, T>, addr: UdpAddr, value: T, cap: nat, tick: nat)
    requires Bounded(t, cap, tick) && cap > 0
    ensures var t' := InsertLru(t, addr, Stamped(value, tick + 1), cap);
            Bounded(t', cap, tick + 1) && OldOrNew(t, t', addr, tick)
  {
    hide InsertLru, Bounded;
    InsertLruKeeps(t, addr, Stamped(value, tick + 1), cap, tick);
  }

  lemma Untouched<T>(t: Table<UdpAddr, T>, gone: set<UdpAddr>, addr: UdpAddr, cap: nat, tick: nat)
    requires Bounded(t, cap, tick) && addr !in t - gone
    ensures Bounded(t - gone, cap, tick + 1) && OldOrNew(t, t - gone, addr, tick)
  {
    WithoutKeeps(t, gone, cap, tick);
    LaterKeeps(t - gone, cap, tick);
  }

  lemma TouchOldOrNew<T>(t: Table<UdpAddr, T>, addr: UdpAddr, value: T, cap: nat, tick: nat)
    requires Bounded(t, cap, tick) && addr in t
    ensures var t' := t[addr := Stamped(value, tick + 1)];
            Bounded(t', cap, tick + 1) && OldOrNew(t, t', addr, tick)
  {
    TouchKeeps(t, addr, value, cap, tick);
  }

  /** The invariant of a host one tick on, part by part. */
  lemma InvOf(h: Host, h': Host, addr: UdpAddr)
    requires Inv(h) && h'.config == h.config && h'.tick == h.tick + 1
    requires Bounded(h'.handshakes, h.config.capacity.maxHandshakes, h.tick + 1)
    requires Bounded(h'.established, h.config.capacity.maxEstablished, h.tick + 1)
    requires OldOrNew(h.handshakes, h'.handshakes, addr, h.tick)
    requires OldOrNew(h.established, h'.established, addr, h.tick)
    requires addr !in h'.handshakes || addr !in h'.established
    ensures Inv(h')
  {
    hide OldOrNew, Distinct, Before, Disjoint, CrossDistinct;
    StaysApart(h, h', addr);
  }

  lemma WithHandshakeInv(h: Host, addr: UdpAddr, state: HandshakeState)
    requires Inv(h) && !h.Knows(addr)
    ensures Inv(h.WithHandshake(addr, state))
  {
    hide InsertLru, Bounded, Inv, OldOrNew;
    InvParts(h);
    InsertOldOrNew(h.handshakes, addr, state, h.config.capacity.maxHandshakes, h.tick);
    Untouched(h.established, {}, addr, h.config.capacity.maxEstablished, h.tick);
    assert h.established - {} == h.established;
    InvOf(h, h.WithHandshake(addr, state), addr);
  }

  lemma WithEstablishedInv(h: Host, addr: UdpAddr, link: Link)
    requires Inv(h) && addr in h.handshakes
    ensures Inv(h.WithEstablished(addr, link))
  {
    hide InsertLru, Bounded, Inv, OldOrNew;
    InvParts(h);
    InsertOldOrNew(h.established, addr, link, h.config.capacity.maxEstablished, h.tick);
    Untouched(h.handshakes, {addr}, addr, h.config.capacity.maxHandshakes, h.tick);
    InvOf(h, h.WithEstablished(addr, link), addr);
  }

  lemma TouchedInv(h: Host, addr: UdpAddr, link: Link)
    requires Inv(h) && addr in h.established
    ensures Inv(h.Touched(addr, link))
  {
    hide Bounded, Inv, OldOrNew, Disjoint;
    InvParts(h);
    NeverBoth(h, addr);
    TouchOldOrNew(h.established, addr, link, h.config.capacity.maxEstablished, h.tick);
    Untouched(h.handshakes, {}, addr, h.config.capacity.maxHandshakes, h.tick);
    assert h.handshakes - {} == h.handshakes;
    InvOf(h, h.Touched(addr, link), addr);
  }

  lemma TickedInv(h: Host)
    requires Inv(h)
    ensures Inv(h.Ticked())
  {
    LaterKeeps(h.established, h.config.capacity.maxEstablished, h.tick);
    LaterKeeps(h.handshakes, h.config.capacity.maxHandshakes, h.tick);
  }

  lemma WithoutInv(h: Host, hs: set<UdpAddr>, es: set<UdpAddr>)
    requires Inv(h)
    ensures Inv(h.(handshakes := h.handshakes - hs, established := h.established - es))
  {
    WithoutKeeps(h.handshakes, hs, h.config.capacity.maxHandshakes, h.tick);
    WithoutKeeps(h.established, es, h.config.capacity.maxEstablished, h.tick);
  }

  lemma RecvInv(h: Host, from: UdpAddr, datagram: Bytes, seed: Key)
    requires Inv(h)
    ensures RecvOne(h, from, datagram, seed).Ok? ==> Inv(RecvOne(h, from, datagram, seed).value.host)
  {
    hide ConsumeMsg2, ConsumeMsg3, AnswerMsg1, Decrypt, Inv;
    TickedInv(h);
    if from in h.established {
      TouchedInv(h, from, h.established[from].value.(transport := Decrypt(h.established[from].value.transport, datagram).0));
    } else if from in h.handshakes {
      forall link: Link { WithEstablishedInv(h, from, link); }
    } else {
      forall state: HandshakeState { WithHandshakeInv(h, from, state); }
    }
  }

  /** Every operation keeps the invariant. */
  lemma StepInv(h: Host, op: Op)
    requires Inv(h)
    ensures Step(h, op).Ok? ==> Inv(Step(h, op).value.host)
  {
    hide RecvOne, WriteE, Encrypt, Inv;
    match op
    case DialOp(addr, _) =>
      if !h.Knows(addr) {
        var (afterE, msg1) := WriteE(h.config.identity.staticPrivate, op.seed);
        WithHandshakeInv(h, addr, InitiatorAwaitingResponse(afterE, msg1));
      }
    case SendOp(addr, _) =>
      if addr in h.established {
        var link := h.established[addr].value;
        var encrypted := Encrypt(link.transport, op.plaintext);
        if encrypted.Ok? { TouchedInv(h, addr, link.(transport := encrypted.value.0)); }
      }
    case SendRawOp(_, _) => TickedInv(h);
    case RecvOp(from, datagram, seed) => RecvInv(h, from, datagram, seed);
    case EvictOp(addr) => WithoutInv(h, {addr}, {addr});
    case EvictIdleOp(maxIdle) =>
      var cutoff := Cutoff(h.tick, maxIdle);
      WithoutInv(h, Stale(h.handshakes, cutoff), Stale(h.established, cutoff));
  }

  /** The table invariant holds after every run of a new host. */
  lemma {:induction false} RunInv(h: Host, ops: seq<Op>)
    requires Inv(h)
    ensures Run(h, ops).Ok? ==> Inv(Run(h, ops).value.host)
    decreases |ops|
  {
    if ops != [] {
      StepInv(h, ops[0]);
      if Step(h, ops[0]).Ok? { RunInv(Step(h, ops[0]).value.host, ops[1..]); }
    }
  }

  lemma EveryRunInv(config: Config, ops: seq<Op>)
    ensures Run(NewHost(config), ops).Ok? ==> Inv(Run(NewHost(config), ops).value.host)
  {
    RunInv(NewHost(config), ops);
  }

  ghost function LastActivity(h: Host, a: UdpAddr): nat
    requires h.Knows(a)
  {
    if a in h.handshakes then h.handshakes[a].lastActivity else h.established[a].lastActivity
  }

  lemma StaleExactly<T>(t: Table<UdpAddr, T>, tick: nat, maxIdle: nat)
    requires Before(t, tick + 1)
    ensures forall a :: a in Stale(t, Cutoff(tick, maxIdle)) <==> a in t && tick - t[a].lastActivity > maxIdle
  {
  }

  lemma StaleApart(h: Host, cutoff: nat)
    requires Inv(h)
    ensures Stale(h.handshakes, cutoff) !! Stale(h.established, cutoff)
  {
  }

  /** An idle sweep takes exactly the entries more than `maxIdle` ticks behind, and leaves the others as they were. */
  lemma EvictIdleExactly(h: Host, maxIdle: nat)
    requires Inv(h)
    ensures var (h', gone) := EvictIdle(h, maxIdle);
            && (forall a :: a in gone <==> h.Knows(a) && h.tick - LastActivity(h, a) > maxIdle)
            && (forall a :: h'.Knows(a) <==> h.Knows(a) && a !in gone)
            && (forall a :: a in h'.handshakes ==> a in h.handshakes && h'.handshakes[a] == h.handshakes[a])
            && (forall a :: a in h'.established ==> a in h.established && h'.established[a] == h.established[a])
            && h'.tick == h.tick
    ensures Stale(h.handshakes, Cutoff(h.tick, maxIdle)) !! Stale(h.established, Cutoff(h.tick, maxIdle))
  {
    StaleApart(h, Cutoff(h.tick, maxIdle));
    InvParts(h);
    StaleExactly(h.handshakes, h.tick, maxIdle);
    StaleExactly(h.established, h.tick, maxIdle);
    hide Inv, Bounded, Distinct, CrossDistinct, Before, Stale, Cutoff;
  }
}
