/** The tick stamps implement true LRU over whole runs, idle sweeps included. */
module HostLru {
  import opened Prelude
  import opened Addresses
  import opened LruTable
  import opened HostModel
  import opened HostInvariant
  import opened HostRecency

  lemma NoneStale<T>(list: Recency<UdpAddr, T>, t: Table<UdpAddr, T>, cutoff: nat)
    requires Refines(list, t) && (list != [] ==> t[list[0].0].lastActivity >= cutoff)
    ensures Stale(t, cutoff) == {}
  {
  }

  lemma HeadStale<T>(t: Table<UdpAddr, T>, head: UdpAddr, cutoff: nat)
    requires head in t && t[head].lastActivity < cutoff
    ensures var t' := t - {head};
            |Stale(t, cutoff)| == |Stale(t', cutoff)| + 1 && t - Stale(t, cutoff) == t' - Stale(t', cutoff)
  {
    var t' := t - {head};
    assert Stale(t, cutoff) == {head} + Stale(t', cutoff);
    assert head !in Stale(t', cutoff);
  }

  /** An idle sweep drops a prefix of each recency list: never a recent entry before an older one. */
  lemma {:induction false} SweepDropsPrefix<T>(list: Recency<UdpAddr, T>, t: Table<UdpAddr, T>, cutoff: nat)
    requires Refines(list, t)
    ensures |Stale(t, cutoff)| <= |list|
    ensures Refines(list[|Stale(t, cutoff)|..], t - Stale(t, cutoff))
    decreases |list|
  {
    if list == [] || t[list[0].0].lastActivity >= cutoff {
      NoneStale(list, t, cutoff);
      assert t - {} == t;
      assert list[0..] == list;
    } else {
      var t' := t - {list[0].0};
      SweepDropsPrefix(list[1..], t', cutoff);
      HeadStale(t, list[0].0, cutoff);
      var n := |Stale(t', cutoff)|;
      hide Refines, Stale;
      assert list[1..][n..] == list[n + 1..];
    }
  }

  /** How many of the least recent entries of each table go. */
  datatype Cut = Cut(handshakes: nat, established: nat)

  /** A step of the list host; without a clock, a sweep has to be told how far it cuts. */
  function ListStepAt(l: ListHost, op: Op, cut: Cut): Result<ListOutcome> {
    if op.EvictIdleOp? then
      Ok(ListOutcome(
           l.(handshakes := l.handshakes[Min(cut.handshakes, |l.handshakes|)..],
              established := l.established[Min(cut.established, |l.established|)..]), None, []))
    else ListStep(l, op)
  }

  function ListRun(l: ListHost, ops: seq<Op>, cuts: seq<Cut>): Result<(ListHost, seq<Trace>)>
    requires |cuts| == |ops|
    decreases |ops|
  {
    if ops == [] then Ok((l, []))
    else
      var out :- ListStepAt(l, ops[0], cuts[0]);
      var (last, trace) :- ListRun(out.host, ops[1..], cuts[1..]);
      Ok((last, [Trace(ops[0], out.event, out.sent)] + trace))
  }

  /** The numbers of stale entries a sweep of `h` finds. */
  function CutOf(h: Host, op: Op): Cut {
    if op.EvictIdleOp? then
      var cutoff := Cutoff(h.tick, op.maxIdle);
      Cut(|Stale(h.handshakes, cutoff)|, |Stale(h.established, cutoff)|)
    else Cut(0, 0)
  }

  ghost function CutsOf(h: Host, ops: seq<Op>): (r: seq<Cut>)
    ensures |r| == |ops|
    decreases |ops|
  {
    if ops == [] then []
    else [CutOf(h, ops[0])] + CutsOf(if Step(h, ops[0]).Ok? then Step(h, ops[0]).value.host else h, ops[1..])
  }

  lemma SweepRefines(l: ListHost, h: Host, maxIdle: nat)
    requires Models(l, h)
    ensures Agree(ListStepAt(l, EvictIdleOp(maxIdle), CutOf(h, EvictIdleOp(maxIdle))), Step(h, EvictIdleOp(maxIdle)))
  {
    hide Refines, Stale;
    var cutoff := Cutoff(h.tick, maxIdle);
    SweepDropsPrefix(l.handshakes, h.handshakes, cutoff);
    SweepDropsPrefix(l.established, h.established, cutoff);
  }

  lemma {:induction false} RunRefines(l: ListHost, h: Host, ops: seq<Op>)
    requires Models(l, h) && Inv(h)
    ensures var lr, hr := ListRun(l, ops, CutsOf(h, ops)), Run(h, ops);
            lr.Ok? == hr.Ok?
            && (lr.Ok? ==> Models(lr.value.0, hr.value.host) && lr.value.1 == hr.value.trace)
    decreases |ops|
  {
    hide Step, ListStep, ListStepAt, CutOf, Inv, Refines;
    if ops != [] {
      StepInv(h, ops[0]);
      StepRefinesAt(l, h, ops[0]);
      if Step(h, ops[0]).Ok? {
        var cuts := CutsOf(h, ops);
        assert cuts[1..] == CutsOf(Step(h, ops[0]).value.host, ops[1..]);
        RunRefines(ListStepAt(l, ops[0], cuts[0]).value.host, Step(h, ops[0]).value.host, ops[1..]);
      }
    }
  }

  lemma StepRefinesAt(l: ListHost, h: Host, op: Op)
    requires Models(l, h) && Inv(h)
    ensures Agree(ListStepAt(l, op, CutOf(h, op)), Step(h, op))
  {
    hide Step, ListStep, CutOf, Inv, Refines;
    if op.EvictIdleOp? {
      SweepRefines(l, h, op.maxIdle);
    } else {
      StepRefines(l, h, op);
    }
  }

  /**
   * The stamps implement true LRU: every run of a new host is a run of the
   * host whose tables are plain recency lists, with the same success, events
   * and datagrams, and ends with the stamps in exactly the order of those
   * lists.  All that the clock decides is how long a prefix a sweep cuts off.
   */
  lemma StampsAreLru(config: Config, ops: seq<Op>)
    ensures var h := NewHost(config);
            var lr, hr := ListRun(ListHost(config, [], []), ops, CutsOf(h, ops)), Run(h, ops);
            lr.Ok? == hr.Ok?
            && (lr.Ok? ==> Models(lr.value.0, hr.value.host) && lr.value.1 == hr.value.trace)
  {
    RunRefines(ListHost(config, [], []), NewHost(config), ops);
  }
}
