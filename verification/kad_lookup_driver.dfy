/** The round driver: what it dials, what it asks, and when it stops. */
module KadLookupDriver {
  import opened Prelude
  import opened Addresses
  import opened KadIds
  import opened KadTable
  import opened KadRouting
  import opened KadLookup
  import opened KadLookupRun
  import Crypto
  import HostModel
  import KadCodec

  /** What the node reports for one datagram, as far as the lookup cares. */
  datatype Event =
    | FindNodeResponse(from: UdpAddr, peers: seq<Peer>)
    | HandshakeComplete(addr: UdpAddr)
    | OtherEvent

  datatype Arrival = Delivered(event: Event) | RecvFailed(error: Error)

  /**
   * The node during one round: its host at the start, the seeds it draws, at
   * which send its socket fails, if it does, and what it then receives.
   */
  datatype Round = Round(host: HostModel.Host, seeds: seq<Crypto.Key>, socketFails: Option<nat>, arrivals: seq<Arrival>)
  {
    function Established(): set<UdpAddr> {
      host.established.Keys
    }

    /** The host after the round's sends. */
    ghost function Sends(target: NodeId, marks: seq<LookupOp>): Result<HostModel.Host> {
      SendAll(host, target, marks, seeds, socketFails)
    }
  }

  function SeedFor(seeds: seq<Crypto.Key>): Crypto.Key {
    if seeds == [] then Crypto.Expand(Crypto.Mac([], []), Crypto.KEY_LEN) else seeds[0]
  }

  function Request(target: NodeId): Crypto.Bytes {
    Crypto.Literal(KadCodec.Encode(KadCodec.FindNodeReq(target)).value)
  }

  /** `find_node` or `dial` on the host, by its own rules. */
  ghost function SendOne(h: HostModel.Host, target: NodeId, mark: LookupOp, seed: Crypto.Key): Result<HostModel.Outcome> {
    match mark
    case MarkInFlight(p) => HostModel.Send(h, p.addr, Request(target))
    case MarkDialing(p) => HostModel.Dial(h, p.addr, seed)
    case _ => Ok(HostModel.Outcome(h, None, []))
  }

  /** The chain of sends; the first error ends it, and the node with it. */
  ghost function SendAll(h: HostModel.Host, target: NodeId, marks: seq<LookupOp>, seeds: seq<Crypto.Key>,
                         socketFails: Option<nat>): Result<HostModel.Host>
    decreases |marks|
  {
    if marks == [] then Ok(h)
    else
      var out :- SendOne(h, target, marks[0], SeedFor(seeds));
      if socketFails == Some(0) then Err(Io)
      else
        SendAll(out.host, target, marks[1..], if seeds == [] then [] else seeds[1..],
                if socketFails.Some? then Some(socketFails.value - 1) else None)
  }

  datatype Outcome =
    | Returned(roundsLeft: nat)
    | Failed(error: Error)
    /** Still waiting for a datagram. */
    | Blocked

  /** How a drive ended, and the transitions it took the lookup through. */
  datatype Driven = Driven(outcome: Outcome, ops: seq<LookupOp>)

  /** One action a picked peer: ask it if there is a session with its address, else dial it. */
  function Marks(picks: seq<Peer>, established: set<UdpAddr>): seq<LookupOp> {
    seq(|picks|, i requires 0 <= i < |picks| =>
      if picks[i].addr in established then MarkInFlight(picks[i]) else MarkDialing(picks[i]))
  }

  function React(l: Lookup, event: Event): seq<LookupOp> {
    match event
    case FindNodeResponse(from, peers) => [RecordResponse(from, peers)]
    case HandshakeComplete(addr) => if addr in l.pendingDials then [CompleteDial(addr)] else []
    case OtherEvent => []
  }

  /** The drain step; `None` means it ran its course. */
  function Drain(l: Lookup, budget: nat, arrivals: seq<Arrival>): (Option<Outcome>, seq<LookupOp>)
    decreases budget
  {
    if budget == 0 || !HasPending(l) then (None, [])
    else if arrivals == [] then (Some(Blocked), [])
    else if arrivals[0].RecvFailed? then (Some(Failed(arrivals[0].error)), [])
    else
      var ops := React(l, arrivals[0].event);
      var (stop, rest) := Drain(ApplyAll(l, ops), budget - 1, arrivals[1..]);
      (stop, ops + rest)
  }

  const SKIPS: seq<LookupOp> := [SkipPendingQueries, SkipPendingDials]

  ghost function Drive(l: Lookup, roundsLeft: nat, rounds: seq<Round>): Driven
    decreases roundsLeft
  {
    var picks := PickNextAlpha(l);
    if roundsLeft == 0 || IsDone(l) || picks == [] then Driven(Returned(roundsLeft), [])
    else if rounds == [] then Driven(Blocked, [])
    else
      var marks := Marks(picks, rounds[0].Established());
      var sends := rounds[0].Sends(l.target, marks);
      if sends.Err? then Driven(Failed(sends.error), marks)
      else
        var (stop, drained) := Drain(ApplyAll(l, marks), l.config.maxRecvPerRound, rounds[0].arrivals);
        if stop.Some? then Driven(stop.value, marks + drained)
        else
          var round := marks + drained + SKIPS;
          var rest := Drive(ApplyAll(l, round), roundsLeft - 1, rounds[1..]);
          Driven(rest.outcome, round + rest.ops)
  }

  ghost function RunLookup(selfId: NodeId, target: NodeId, config: Config, initial: seq<Peer>, rounds: seq<Round>): Driven {
    Drive(NewLookup(selfId, target, config, initial), config.maxRounds, rounds)
  }

  // --- The driver takes only allowed transitions ---

  predicate AllAllowed(l: Lookup, ops: seq<LookupOp>)
    decreases |ops|
  {
    ops == [] || (Allowed(l, ops[0]) && AllAllowed(Apply(l, ops[0]), ops[1..]))
  }

  lemma {:induction false} AllowedAppend(l: Lookup, a: seq<LookupOp>, b: seq<LookupOp>)
    requires AllAllowed(l, a) && AllAllowed(ApplyAll(l, a), b)
    ensures AllAllowed(l, a + b)
    decreases |a|
  {
    hide Apply, Allowed;
    if a == [] {
      assert a + b == b;
    } else {
      assert (a + b)[1..] == a[1..] + b;
      AllowedAppend(Apply(l, a[0]), a[1..], b);
    }
  }

  lemma {:induction false} RunTracks(l: Lookup, ops: seq<LookupOp>)
    requires Tracks(l) && AllAllowed(l, ops)
    ensures Tracks(ApplyAll(l, ops))
    decreases |ops|
  {
    hide Apply, Allowed, Tracks;
    if ops != [] {
      StepTracks(l, ops[0]);
      RunTracks(Apply(l, ops[0]), ops[1..]);
    }
  }

  predicate IsMark(op: LookupOp) {
    op.MarkInFlight? || op.MarkDialing?
  }

  lemma {:induction false} NoMarksAllowed(l: Lookup, ops: seq<LookupOp>)
    requires forall i :: 0 <= i < |ops| ==> !IsMark(ops[i])
    ensures AllAllowed(l, ops)
    decreases |ops|
  {
    hide Apply;
    if ops != [] { NoMarksAllowed(Apply(l, ops[0]), ops[1..]); }
  }

  lemma {:induction false} DrainTakesNoMarks(l: Lookup, budget: nat, arrivals: seq<Arrival>)
    ensures forall i :: 0 <= i < |Drain(l, budget, arrivals).1| ==> !IsMark(Drain(l, budget, arrivals).1[i])
    decreases budget
  {
    hide ApplyAll;
    if budget > 0 && HasPending(l) && arrivals != [] && arrivals[0].Delivered? {
      DrainTakesNoMarks(ApplyAll(l, React(l, arrivals[0].event)), budget - 1, arrivals[1..]);
    }
  }

  predicate OnePerId(es: seq<Entry>) {
    forall i, j :: 0 <= i < j < |es| ==> es[i].id != es[j].id
  }

  lemma {:induction false} UnaskedMembers(es: seq<Entry>)
    ensures forall e :: e in Unasked(es) <==> e in es && e.status.Unqueried?
  {
    if es != [] {
      UnaskedMembers(es[1..]);
      assert es == [es[0]] + es[1..];
    }
  }

  lemma {:induction false} UnaskedOnePerId(es: seq<Entry>)
    requires OnePerId(es)
    ensures OnePerId(Unasked(es))
  {
    if es != [] {
      var rest := Unasked(es[1..]);
      assert forall i :: 0 <= i < |es| - 1 ==> es[1..][i] == es[i + 1];
      UnaskedOnePerId(es[1..]);
      UnaskedMembers(es[1..]);
      forall j | 0 <= j < |rest|
        ensures rest[j].id != es[0].id
      {
        assert rest[j] in es[1..];
      }
    }
  }

  predicate Askable(l: Lookup, picks: seq<Peer>) {
    && (forall i :: 0 <= i < |picks| ==> Entry(picks[i].id, picks[i].addr, Unqueried) in l.entries)
    && (forall i, j :: 0 <= i < j < |picks| ==> picks[i].id != picks[j].id)
  }

  lemma PicksAskable(l: Lookup)
    requires Ordered(l.entries, l.target)
    ensures Askable(l, PickNextAlpha(l))
  {
    var top := TopEntries(l);
    UnaskedMembers(top);
    forall i, j | 0 <= i < j < |top|
      ensures top[i].id != top[j].id
    {
      assert Metric(l.entries[i].id, l.target) < Metric(l.entries[j].id, l.target);
    }
    UnaskedOnePerId(top);
    hide Metric, Unasked, Ordered;
    var (open, picks) := (Unasked(top), PickNextAlpha(l));
    forall i | 0 <= i < |picks|
      ensures Entry(picks[i].id, picks[i].addr, Unqueried) in l.entries
    {
      assert open[i] in top && open[i] == Entry(picks[i].id, picks[i].addr, Unqueried);
    }
  }

  lemma OthersStayAskable(l: Lookup, picks: seq<Peer>, op: LookupOp)
    requires Ordered(l.entries, l.target) && Askable(l, picks) && picks != [] && IsMark(op) && op.peer == picks[0]
    ensures Askable(Apply(l, op), picks[1..])
  {
    hide Apply, Ordered;
    var rest := picks[1..];
    forall i | 0 <= i < |rest|
      ensures Entry(rest[i].id, rest[i].addr, Unqueried) in Apply(l, op).entries
    {
      assert rest[i] == picks[i + 1];
      EntrySurvives(l, op, Entry(rest[i].id, rest[i].addr, Unqueried));
    }
  }

  lemma {:induction false} MarksAllowed(l: Lookup, picks: seq<Peer>, established: set<UdpAddr>)
    requires Ordered(l.entries, l.target) && Askable(l, picks)
    ensures AllAllowed(l, Marks(picks, established))
    decreases |picks|
  {
    hide Ordered, Apply;
    if picks != [] {
      var op := Marks(picks, established)[0];
      MarksTail(picks, established);
      hide Marks, Askable, Allowed;
      ApplyShape(l, op);
      OthersStayAskable(l, picks, op);
      MarksAllowed(Apply(l, op), picks[1..], established);
      MarkOfFirst(l, picks, op);
    }
  }

  lemma MarksTail(picks: seq<Peer>, established: set<UdpAddr>)
    requires picks != []
    ensures var marks := Marks(picks, established);
            marks != [] && IsMark(marks[0]) && marks[0].peer == picks[0] && marks[1..] == Marks(picks[1..], established)
  {
  }

  lemma MarkOfFirst(l: Lookup, picks: seq<Peer>, op: LookupOp)
    requires Askable(l, picks) && picks != [] && IsMark(op) && op.peer == picks[0]
    ensures Allowed(l, op)
  {
  }

  lemma {:induction false} DriveAllowed(l: Lookup, roundsLeft: nat, rounds: seq<Round>)
    requires Tracks(l)
    ensures AllAllowed(l, Drive(l, roundsLeft, rounds).ops)
    decreases roundsLeft
  {
    hide AllAllowed, Tracks, Drain, PickNextAlpha, Marks, IsDone, ApplyAll, SendAll;
    var picks := PickNextAlpha(l);
    if roundsLeft == 0 || IsDone(l) || picks == [] || rounds == [] {
      NoMarksAllowed(l, []);
    } else {
      var marks := Marks(picks, rounds[0].Established());
      TracksOrdered(l);
      PicksAskable(l);
      MarksAllowed(l, picks, rounds[0].Established());
      if rounds[0].Sends(l.target, marks).Ok? {
        RoundAllowed(l, marks, rounds[0].arrivals);
        var (stop, drained) := Drain(ApplyAll(l, marks), l.config.maxRecvPerRound, rounds[0].arrivals);
        if stop.None? {
          var round := marks + drained + SKIPS;
          RunTracks(l, round);
          DriveAllowed(ApplyAll(l, round), roundsLeft - 1, rounds[1..]);
          AllowedAppend(l, round, Drive(ApplyAll(l, round), roundsLeft - 1, rounds[1..]).ops);
        }
      }
    }
  }

  lemma RoundAllowed(l: Lookup, marks: seq<LookupOp>, arrivals: seq<Arrival>)
    requires AllAllowed(l, marks)
    ensures var drained := Drain(ApplyAll(l, marks), l.config.maxRecvPerRound, arrivals).1;
            AllAllowed(l, marks + drained) && AllAllowed(l, marks + drained + SKIPS)
  {
    var l1 := ApplyAll(l, marks);
    DrainTakesNoMarks(l1, l.config.maxRecvPerRound, arrivals);
    hide AllAllowed, Drain, ApplyAll;
    var drained := Drain(l1, l.config.maxRecvPerRound, arrivals).1;
    NoMarksAllowed(l1, drained);
    AllowedAppend(l, marks, drained);
    NoMarksAllowed(ApplyAll(l, marks + drained), SKIPS);
    AllowedAppend(l, marks + drained, SKIPS);
  }

  // --- Effort ---

  function Queries(ops: seq<LookupOp>, id: NodeId): nat {
    if ops == [] then 0
    else (if ops[0].MarkInFlight? && ops[0].peer.id == id then 1 else 0) + Queries(ops[1..], id)
  }

  function Dials(ops: seq<LookupOp>, id: NodeId): nat {
    if ops == [] then 0
    else (if ops[0].MarkDialing? && ops[0].peer.id == id then 1 else 0) + Dials(ops[1..], id)
  }

  /** Asked already: the query is out, answered or given up. */
  predicate Spent(l: Lookup, id: NodeId) {
    exists e :: e in l.entries && e.id == id && (e.status.InFlight? || e.status.Done? || e.status.Skipped?)
  }

  lemma StepSpent(l: Lookup, op: LookupOp, id: NodeId)
    requires Tracks(l) && Allowed(l, op)
    ensures Spent(l, id) ==> Spent(Apply(l, op), id)
    ensures op.MarkInFlight? && op.peer.id == id ==> !Spent(l, id) && Spent(Apply(l, op), id)
  {
    TracksOrdered(l);
    hide Tracks, Apply, Next, Ordered;
    if Spent(l, id) {
      var e :| e in l.entries && e.id == id && (e.status.InFlight? || e.status.Done? || e.status.Skipped?);
      NextFollowsDiagram(l, op, e);
      EntrySurvives(l, op, e);
      assert Spent(Apply(l, op), id);
    }
    if op.MarkInFlight? && op.peer.id == id {
      var e := Entry(id, op.peer.addr, Unqueried);
      MarkInFlightNext(l, op, e);
      EntrySurvives(l, op, e);
      assert Spent(Apply(l, op), id);
      forall x | x in l.entries && x.id == id
        ensures x.status.Unqueried?
      {
        OneEntryPerId(l.entries, l.target, x, e);
      }
    }
  }

  lemma MarkInFlightNext(l: Lookup, op: LookupOp, e: Entry)
    requires op.MarkInFlight? && op.peer.id == e.id
    ensures Next(l, op, e) == InFlight
  {
  }

  /** Nobody is asked twice, whatever the network does. */
  lemma {:induction false} RunQueriesOnce(l: Lookup, ops: seq<LookupOp>, id: NodeId)
    requires Tracks(l) && AllAllowed(l, ops)
    ensures Queries(ops, id) <= if Spent(l, id) then 0 else 1
    decreases |ops|
  {
    hide Apply, Allowed, Tracks, Spent;
    if ops != [] {
      StepTracks(l, ops[0]);
      StepSpent(l, ops[0], id);
      RunQueriesOnce(Apply(l, ops[0]), ops[1..], id);
    }
  }

  /** Addresses whose dial the lookup has seen complete. */
  function Completed(op: LookupOp): set<UdpAddr> {
    if op.CompleteDial? then {op.addr} else {}
  }

  /** No dial goes to an address in `known`, or to one seen to complete on the way. */
  predicate FreshDials(known: set<UdpAddr>, ops: seq<LookupOp>)
    decreases |ops|
  {
    ops == [] || ((ops[0].MarkDialing? ==> ops[0].peer.addr !in known)
                  && FreshDials(known + Completed(ops[0]), ops[1..]))
  }

  /** Dialled already, or with a session that makes dialling needless. */
  predicate Reached(l: Lookup, known: set<UdpAddr>, id: NodeId) {
    exists e :: e in l.entries && e.id == id && (!e.status.Unqueried? || e.addr in known)
  }

  lemma StepReached(l: Lookup, known: set<UdpAddr>, op: LookupOp, id: NodeId)
    requires Tracks(l) && Allowed(l, op)
    ensures Reached(l, known, id) ==> Reached(Apply(l, op), known + Completed(op), id)
    ensures op.MarkDialing? && op.peer.id == id && op.peer.addr !in known ==>
              !Reached(l, known, id) && Reached(Apply(l, op), known + Completed(op), id)
  {
    TracksOrdered(l);
    hide Tracks, Apply, Ordered;
    if Reached(l, known, id) {
      var e :| e in l.entries && e.id == id && (!e.status.Unqueried? || e.addr in known);
      NextFollowsDiagram(l, op, e);
      PendingEntry(l, e);
      EntrySurvives(l, op, e);
      assert !Next(l, op, e).Unqueried? || e.addr in known + Completed(op);
      assert Reached(Apply(l, op), known + Completed(op), id);
    }
    if op.MarkDialing? && op.peer.id == id && op.peer.addr !in known {
      DialReaches(l, known, op);
    }
  }

  lemma DialReaches(l: Lookup, known: set<UdpAddr>, op: LookupOp)
    requires Ordered(l.entries, l.target) && op.MarkDialing? && Allowed(l, op) && op.peer.addr !in known
    ensures !Reached(l, known, op.peer.id) && Reached(Apply(l, op), known + Completed(op), op.peer.id)
  {
    hide Apply, Ordered;
    var e := Entry(op.peer.id, op.peer.addr, Unqueried);
    EntrySurvives(l, op, e);
    assert Next(l, op, e) == Dialing;
    forall x | x in l.entries && x.id == op.peer.id
      ensures x == e
    {
      OneEntryPerId(l.entries, l.target, x, e);
    }
  }

  lemma {:induction false} RunDialsOnce(l: Lookup, known: set<UdpAddr>, ops: seq<LookupOp>, id: NodeId)
    requires Tracks(l) && AllAllowed(l, ops) && FreshDials(known, ops)
    ensures Dials(ops, id) <= if Reached(l, known, id) then 0 else 1
    decreases |ops|
  {
    hide Apply, Allowed, Tracks, Reached;
    if ops != [] {
      StepTracks(l, ops[0]);
      StepReached(l, known, ops[0], id);
      RunDialsOnce(Apply(l, ops[0]), known + Completed(ops[0]), ops[1..], id);
    }
  }

  // --- Sessions that stay ---

  function HandshakesIn(arrivals: seq<Arrival>): set<UdpAddr> {
    set i | 0 <= i < |arrivals| && arrivals[i].Delivered? && arrivals[i].event.HandshakeComplete?
      :: arrivals[i].event.addr
  }

  /** Every session, and every handshake completed, is still there in all later rounds. */
  predicate SessionsStay(known: set<UdpAddr>, rounds: seq<Round>)
    decreases |rounds|
  {
    rounds == [] || (known <= rounds[0].Established()
                     && SessionsStay(rounds[0].Established() + HandshakesIn(rounds[0].arrivals), rounds[1..]))
  }

  function AllCompleted(ops: seq<LookupOp>): set<UdpAddr> {
    if ops == [] then {} else Completed(ops[0]) + AllCompleted(ops[1..])
  }

  lemma {:induction false} FreshAppend(known: set<UdpAddr>, a: seq<LookupOp>, b: seq<LookupOp>)
    requires FreshDials(known, a) && FreshDials(known + AllCompleted(a), b)
    ensures FreshDials(known, a + b)
    decreases |a|
  {
    if a == [] {
      assert a + b == b && known + AllCompleted(a) == known;
    } else {
      assert (a + b)[1..] == a[1..] + b;
      assert known + Completed(a[0]) + AllCompleted(a[1..]) == known + AllCompleted(a);
      FreshAppend(known + Completed(a[0]), a[1..], b);
    }
  }

  lemma {:induction false} FreshForFewer(known: set<UdpAddr>, more: set<UdpAddr>, ops: seq<LookupOp>)
    requires known <= more && FreshDials(more, ops)
    ensures FreshDials(known, ops)
    decreases |ops|
  {
    if ops != [] { FreshForFewer(known + Completed(ops[0]), more + Completed(ops[0]), ops[1..]); }
  }

  lemma {:induction false} FreshWithoutMarks(known: set<UdpAddr>, ops: seq<LookupOp>)
    requires forall i :: 0 <= i < |ops| ==> !IsMark(ops[i])
    ensures FreshDials(known, ops)
    decreases |ops|
  {
    if ops != [] { FreshWithoutMarks(known + Completed(ops[0]), ops[1..]); }
  }

  lemma {:induction false} MarksFresh(picks: seq<Peer>, established: set<UdpAddr>)
    ensures FreshDials(established, Marks(picks, established))
    ensures AllCompleted(Marks(picks, established)) == {}
    decreases |picks|
  {
    if picks != [] {
      MarksFresh(picks[1..], established);
      assert Marks(picks, established)[1..] == Marks(picks[1..], established);
      assert established + Completed(Marks(picks, established)[0]) == established;
    }
  }

  lemma {:induction false} CompletedAppend(a: seq<LookupOp>, b: seq<LookupOp>)
    ensures AllCompleted(a + b) == AllCompleted(a) + AllCompleted(b)
    decreases |a|
  {
    if a == [] {
      assert a + b == b;
    } else {
      assert (a + b)[1..] == a[1..] + b;
      CompletedAppend(a[1..], b);
    }
  }

  lemma {:induction false} DrainCompletes(l: Lookup, budget: nat, arrivals: seq<Arrival>)
    ensures AllCompleted(Drain(l, budget, arrivals).1) <= HandshakesIn(arrivals)
    decreases budget
  {
    hide ApplyAll, HasPending;
    if budget > 0 && HasPending(l) && arrivals != [] && arrivals[0].Delivered? {
      var ops := React(l, arrivals[0].event);
      var rest := Drain(ApplyAll(l, ops), budget - 1, arrivals[1..]).1;
      DrainCompletes(ApplyAll(l, ops), budget - 1, arrivals[1..]);
      CompletedAppend(ops, rest);
      assert HandshakesIn(arrivals[1..]) <= HandshakesIn(arrivals) by {
        assert forall i :: 0 <= i < |arrivals| - 1 ==> arrivals[1..][i] == arrivals[i + 1];
      }
      assert AllCompleted(ops) <= HandshakesIn(arrivals);
    }
  }

  lemma {:induction false} DriveFresh(l: Lookup, known: set<UdpAddr>, roundsLeft: nat, rounds: seq<Round>)
    requires SessionsStay(known, rounds)
    ensures FreshDials(known, Drive(l, roundsLeft, rounds).ops)
    decreases roundsLeft
  {
    hide Drain, PickNextAlpha, Marks, IsDone, ApplyAll, FreshDials, HandshakesIn, AllCompleted, SendAll;
    var picks := PickNextAlpha(l);
    if roundsLeft == 0 || IsDone(l) || picks == [] || rounds == [] {
      FreshWithoutMarks(known, []);
    } else {
      var (live, arrivals) := (rounds[0].Established(), rounds[0].arrivals);
      var marks := Marks(picks, live);
      MarksFresh(picks, live);
      if rounds[0].Sends(l.target, marks).Err? {
        FreshForFewer(known, live, marks);
      } else {
        RoundFresh(l, marks, live, arrivals);
        var (stop, drained) := Drain(ApplyAll(l, marks), l.config.maxRecvPerRound, arrivals);
        if stop.Some? {
          FreshForFewer(known, live, marks + drained);
        } else {
          var round := marks + drained + SKIPS;
          var rest := Drive(ApplyAll(l, round), roundsLeft - 1, rounds[1..]).ops;
          DriveFresh(ApplyAll(l, round), live + HandshakesIn(arrivals), roundsLeft - 1, rounds[1..]);
          FreshForFewer(live + AllCompleted(round), live + HandshakesIn(arrivals), rest);
          FreshAppend(live, round, rest);
          FreshForFewer(known, live, round + rest);
        }
      }
    }
  }

  lemma RoundFresh(l: Lookup, marks: seq<LookupOp>, live: set<UdpAddr>, arrivals: seq<Arrival>)
    requires FreshDials(live, marks) && AllCompleted(marks) == {}
    ensures var drained := Drain(ApplyAll(l, marks), l.config.maxRecvPerRound, arrivals).1;
            && FreshDials(live, marks + drained) && FreshDials(live, marks + drained + SKIPS)
            && AllCompleted(marks + drained + SKIPS) <= HandshakesIn(arrivals)
  {
    var (l1, budget) := (ApplyAll(l, marks), l.config.maxRecvPerRound);
    var drained := Drain(l1, budget, arrivals).1;
    DrainTakesNoMarks(l1, budget, arrivals);
    DrainCompletes(l1, budget, arrivals);
    NoSkipCompletes();
    hide Drain, ApplyAll, FreshDials, HandshakesIn, AllCompleted;
    FreshWithoutMarks(live + AllCompleted(marks), drained);
    FreshAppend(live, marks, drained);
    CompletedAppend(marks, drained);
    FreshWithoutMarks(live + AllCompleted(marks + drained), SKIPS);
    FreshAppend(live, marks + drained, SKIPS);
    CompletedAppend(marks + drained, SKIPS);
  }

  lemma NoSkipCompletes()
    ensures AllCompleted(SKIPS) == {}
  {
    assert SKIPS[1..] == [SkipPendingDials];
  }

  lemma NewTracks(selfId: NodeId, target: NodeId, config: Config, initial: seq<Peer>)
    ensures Tracks(NewLookup(selfId, target, config, initial))
  {
    SeedsBook(selfId, target, initial);
  }

  /**
   * Lookup effort: whatever arrives, no peer is sent more than one query; and
   * while sessions stay, no peer is dialled more than once.
   */
  lemma EachPeerOnce(selfId: NodeId, target: NodeId, config: Config, initial: seq<Peer>, rounds: seq<Round>, id: NodeId)
    ensures Queries(RunLookup(selfId, target, config, initial, rounds).ops, id) <= 1
    ensures SessionsStay({}, rounds) ==> Dials(RunLookup(selfId, target, config, initial, rounds).ops, id) <= 1
  {
    hide Tracks, AllAllowed, Drive, Spent, Reached, NewLookup, SessionsStay, FreshDials;
    var l := NewLookup(selfId, target, config, initial);
    var ops := RunLookup(selfId, target, config, initial, rounds).ops;
    NewTracks(selfId, target, config, initial);
    DriveAllowed(l, config.maxRounds, rounds);
    RunQueriesOnce(l, ops, id);
    if SessionsStay({}, rounds) {
      DriveFresh(l, {}, config.maxRounds, rounds);
      RunDialsOnce(l, {}, ops, id);
    }
  }
}
