/** Junk changes nothing: a run with its junk deleted is the same run up to stamps. */
module HostJunk {
  import opened Prelude
  import opened LruTable
  import opened Transport
  import opened Handshake
  import opened HostModel
  import opened HostInvariant
  import opened HostRecency
  import Cookie

  /** Rejected, or a bare `msg1` from a stranger, answered only by a cookie challenge. */
  predicate Junk(h: Host, op: Op, event: Option<Event>) {
    && op.RecvOp?
    && (event == Some(Rejected(op.from)) || (!h.Knows(op.from) && |op.datagram| == MESSAGE_1_LEN))
  }

  /** The run's operations without the junk. */
  ghost function Scrub(h: Host, ops: seq<Op>): seq<Op>
    decreases |ops|
  {
    if ops == [] then []
    else
      match Step(h, ops[0])
      case Err(_) => ops
      case Ok(out) =>
        (if Junk(h, ops[0], out.event) then [] else [ops[0]]) + Scrub(out.host, ops[1..])
  }

  /** What the run showed, without the junk and the challenges it earned. */
  ghost function Visible(h: Host, ops: seq<Op>): seq<Trace>
    decreases |ops|
  {
    if ops == [] then []
    else
      match Step(h, ops[0])
      case Err(_) => []
      case Ok(out) =>
        (if Junk(h, ops[0], out.event) then [] else [Trace(ops[0], out.event, out.sent)])
          + Visible(out.host, ops[1..])
  }

  predicate NoIdleSweep(ops: seq<Op>) {
    forall i :: 0 <= i < |ops| ==> !ops[i].EvictIdleOp?
  }

  /** Same addresses, same protocol states, same recency order in both tables. */
  ghost predicate SameHost(h: Host, g: Host) {
    h.config == g.config && SameUpToStamps(h.handshakes, g.handshakes) && SameUpToStamps(h.established, g.established)
  }

  lemma ListRejectedUnchanged(l: ListHost, op: Op)
    requires op.RecvOp?
    ensures var r := ListStep(l, op);
            r.Ok? && (r.value.event == Some(Rejected(op.from))
                      || (Find(l.established, op.from).None? && Find(l.handshakes, op.from).None? && |op.datagram| == MESSAGE_1_LEN))
            ==> r.value.host == l
  {
    hide Decrypt, ConsumeMsg2, ConsumeMsg3, AnswerMsg1, Find, Used, Completed, Started, Cookie.Mint;
    hide Cookie.Challenge, Cookie.ValidEcho, Cookie.IsChallenge;
  }

  lemma JunkUnchanged(l: ListHost, h: Host, op: Op)
    requires Models(l, h) && Inv(h) && !op.EvictIdleOp?
    ensures Step(h, op).Ok? && Junk(h, op, Step(h, op).value.event) ==> Models(l, Step(h, op).value.host)
  {
    hide Step, ListStep, Inv, Refines;
    StepRefines(l, h, op);
    if op.RecvOp? {
      ListRejectedUnchanged(l, op);
      ModelsFind(l, h, op.from);
    }
  }

  lemma {:induction false} ScrubbedRun(l: ListHost, h: Host, g: Host, ops: seq<Op>)
    requires Models(l, h) && Models(l, g) && Inv(h) && Inv(g) && NoIdleSweep(ops)
    requires Run(h, ops).Ok?
    ensures var r := Run(g, Scrub(h, ops));
            r.Ok? && SameHost(Run(h, ops).value.host, r.value.host) && r.value.trace == Visible(h, ops)
    decreases |ops|
  {
    hide Step, ListStep, Inv, Refines, SameUpToStamps;
    if ops == [] {
      SameListSameTable(l.handshakes, h.handshakes, g.handshakes);
      SameListSameTable(l.established, h.established, g.established);
    } else {
      var op, rest := ops[0], ops[1..];
      StepInv(h, op);
      var out := Step(h, op).value;
      if Junk(h, op, out.event) {
        JunkUnchanged(l, h, op);
        ScrubbedRun(l, out.host, g, rest);
        assert Scrub(h, ops) == Scrub(out.host, rest);
        assert Visible(h, ops) == Visible(out.host, rest);
      } else {
        StepRefines(l, h, op);
        StepRefines(l, g, op);
        StepInv(g, op);
        ScrubbedRun(ListStep(l, op).value.host, out.host, Step(g, op).value.host, rest);
        var kept := Scrub(h, ops);
        assert kept[0] == op && kept[1..] == Scrub(out.host, rest);
      }
    }
  }

  /**
   * In any run of a new host without idle sweeps, deleting every rejected
   * datagram and every bare `msg1` answered only by a challenge gives a run
   * that succeeds, shows exactly the other events and datagrams, and ends in
   * the same host up to an order-preserving relabelling of stamps.
   */
  lemma JunkChangesNothing(config: Config, ops: seq<Op>)
    requires NoIdleSweep(ops) && Run(NewHost(config), ops).Ok?
    ensures var h := NewHost(config);
            var r := Run(h, Scrub(h, ops));
            r.Ok? && SameHost(Run(h, ops).value.host, r.value.host) && r.value.trace == Visible(h, ops)
  {
    ScrubbedRun(ListHost(config, [], []), NewHost(config), NewHost(config), ops);
  }
}
