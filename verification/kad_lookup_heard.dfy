/** What a lookup hears: which arrivals a round reads, what each does, and whom it asks. */
module KadLookupHeard {
  import opened Prelude
  import opened Addresses
  import opened KadIds
  import opened KadTable
  import opened KadRouting
  import opened KadLookup
  import opened KadLookupRun
  import opened KadLookupDriver

  // --- Whom it asks ---

  lemma {:induction false} UnaskedAscending(es: seq<Entry>, target: NodeId)
    requires Ordered(es, target)
    ensures Ordered(Unasked(es), target)
  {
    hide Metric;
    if es != [] {
      var tail, rest := es[1..], Unasked(es[1..]);
      assert forall i :: 0 <= i < |tail| ==> tail[i] == es[i + 1];
      UnaskedAscending(tail, target);
      UnaskedMembers(tail);
      forall j | 0 <= j < |rest|
        ensures Metric(es[0].id, target) < Metric(rest[j].id, target)
      {
        assert rest[j] in tail;
      }
    }
  }

  /** The first `n` of an ascending list, and whoever is left out. */
  lemma PrefixNearest(open: seq<Entry>, target: NodeId, n: nat, picks: seq<Peer>)
    requires Ordered(open, target) && picks == AsPeers(open[..Min(n, |open|)])
    ensures |picks| <= n
    ensures forall i, j :: 0 <= i < j < |picks| ==> Metric(picks[i].id, target) < Metric(picks[j].id, target)
    ensures forall i :: 0 <= i < |picks| ==> Entry(picks[i].id, picks[i].addr, open[i].status) == open[i]
    ensures forall j :: 0 <= j < |open| ==>
              || Peer(open[j].id, open[j].addr) in picks
              || (|picks| == n && forall i :: 0 <= i < |picks| ==> Metric(picks[i].id, target) < Metric(open[j].id, target))
  {
    hide Metric;
    forall j | 0 <= j < |open|
      ensures Peer(open[j].id, open[j].addr) in picks || |picks| == n
      ensures j >= |picks| ==> forall i :: 0 <= i < |picks| ==> Metric(picks[i].id, target) < Metric(open[j].id, target)
    {
      assert j < |picks| ==> picks[j] == Peer(open[j].id, open[j].addr);
    }
  }

  /**
   * A round picks the nearest of the peers in the results that nobody has
   * asked, nearest first, and as many as `alpha` allows.
   */
  lemma PicksNearestUnqueried(l: Lookup)
    requires Ordered(l.entries, l.target)
    ensures var picks, top := PickNextAlpha(l), l.entries[..Min(l.config.k, |l.entries|)];
            && |picks| <= l.config.alpha
            && (forall i, j :: 0 <= i < j < |picks| ==> Metric(picks[i].id, l.target) < Metric(picks[j].id, l.target))
            && (forall p :: p in picks ==> Entry(p.id, p.addr, Unqueried) in top)
            && forall e :: e in top && e.status.Unqueried? ==>
                 || Peer(e.id, e.addr) in picks
                 || (|picks| == l.config.alpha
                     && forall i :: 0 <= i < |picks| ==> Metric(picks[i].id, l.target) < Metric(e.id, l.target))
  {
    hide Metric;
    var top, picks := TopEntries(l), PickNextAlpha(l);
    var open := Unasked(top);
    UnaskedAscending(top, l.target);
    UnaskedMembers(top);
    PrefixNearest(open, l.target, l.config.alpha, picks);
    hide Ordered, Unasked, PickNextAlpha, AsPeers;
    forall p | p in picks
      ensures Entry(p.id, p.addr, Unqueried) in top
    {
      var i :| 0 <= i < |picks| && picks[i] == p;
      assert open[i] in open;
    }
  }

  // --- What it reads ---

  /** What one event does to a lookup: a response is recorded, a handshake completes a pending dial. */
  function Taken(l: Lookup, event: Event): Lookup {
    match event
    case FindNodeResponse(from, peers) => Apply(l, RecordResponse(from, peers))
    case HandshakeComplete(addr) => Apply(l, CompleteDial(addr))
    case OtherEvent => l
  }

  function TakenAll(l: Lookup, arrivals: seq<Arrival>): Lookup
    decreases |arrivals|
  {
    if arrivals == [] then l
    else TakenAll(if arrivals[0].Delivered? then Taken(l, arrivals[0].event) else l, arrivals[1..])
  }

  /** The peers that the responses among `arrivals` advertise, in order. */
  function AdvertisedIn(arrivals: seq<Arrival>): seq<Peer>
    decreases |arrivals|
  {
    if arrivals == [] then []
    else (if arrivals[0].Delivered? && arrivals[0].event.FindNodeResponse? then arrivals[0].event.peers else [])
         + AdvertisedIn(arrivals[1..])
  }

  /** `n` arrivals are read: no more than the budget, while somebody is waited for, and up to a failure. */
  predicate ReadsUpTo(l: Lookup, budget: nat, arrivals: seq<Arrival>, n: nat) {
    && n <= budget && n <= |arrivals|
    && forall m :: 0 <= m < n ==> arrivals[m].Delivered? && HasPending(TakenAll(l, arrivals[..m]))
  }

  function Reads(l: Lookup, budget: nat, arrivals: seq<Arrival>): nat
    decreases budget
  {
    if budget == 0 || !HasPending(l) || arrivals == [] || arrivals[0].RecvFailed? then 0
    else 1 + Reads(Taken(l, arrivals[0].event), budget - 1, arrivals[1..])
  }

  lemma ReactTakes(l: Lookup, event: Event)
    ensures ApplyAll(l, React(l, event)) == Taken(l, event)
    ensures Heard(React(l, event)) == if event.FindNodeResponse? then event.peers else []
  {
    hide Merge, KadLookup.SetStatus;
    var ops := React(l, event);
    if ops != [] {
      assert ops[1..] == [];
      ApplyAll1(Apply(l, ops[0]));
    }
  }

  lemma ApplyAll1(l: Lookup)
    ensures ApplyAll(l, []) == l
  {
  }

  lemma {:induction false} HeardAppend(a: seq<LookupOp>, b: seq<LookupOp>)
    ensures Heard(a + b) == Heard(a) + Heard(b)
    decreases |a|
  {
    if a == [] {
      assert a + b == b;
    } else {
      assert (a + b)[1..] == a[1..] + b;
      HeardAppend(a[1..], b);
    }
  }

  lemma TakenMore(l: Lookup, arrivals: seq<Arrival>, m: nat)
    requires 0 < m <= |arrivals| && arrivals[0].Delivered?
    ensures TakenAll(l, arrivals[..m]) == TakenAll(Taken(l, arrivals[0].event), arrivals[1..][..m - 1])
    ensures AdvertisedIn(arrivals[..m])
         == (if arrivals[0].event.FindNodeResponse? then arrivals[0].event.peers else []) + AdvertisedIn(arrivals[1..][..m - 1])
  {
    assert arrivals[..m][1..] == arrivals[1..][..m - 1];
  }

  lemma {:induction false} ReadsSound(l: Lookup, budget: nat, arrivals: seq<Arrival>)
    ensures ReadsUpTo(l, budget, arrivals, Reads(l, budget, arrivals))
    decreases budget
  {
    hide Taken, HasPending;
    if budget > 0 && HasPending(l) && arrivals != [] && arrivals[0].Delivered? {
      var rest, next := arrivals[1..], Taken(l, arrivals[0].event);
      ReadsSound(next, budget - 1, rest);
      hide Reads, TakenAll;
      forall m | 0 <= m < Reads(next, budget - 1, rest) + 1
        ensures arrivals[m].Delivered? && HasPending(TakenAll(l, arrivals[..m]))
      {
        TakenNothing(l, arrivals);
        if m > 0 {
          TakenMore(l, arrivals, m);
          assert arrivals[m] == rest[m - 1];
        }
      }
    }
  }

  lemma TakenNothing(l: Lookup, arrivals: seq<Arrival>)
    ensures TakenAll(l, arrivals[..0]) == l && AdvertisedIn(arrivals[..0]) == []
  {
  }

  /** `n` arrivals are taken, and what that makes the drain do. */
  predicate DrainedTo(l: Lookup, budget: nat, arrivals: seq<Arrival>, n: nat, stop: Option<Outcome>, ops: seq<LookupOp>)
    requires n <= |arrivals|
  {
    var after := TakenAll(l, arrivals[..n]);
    && ApplyAll(l, ops) == after && Heard(ops) == AdvertisedIn(arrivals[..n])
    && (stop == None <==> n == budget || !HasPending(after))
    && (stop == Some(Blocked) <==> n < budget && HasPending(after) && n == |arrivals|)
    && forall e :: stop == Some(Failed(e)) <==>
         n < budget && HasPending(after) && n < |arrivals| && arrivals[n] == RecvFailed(e)
  }

  lemma DrainedMore(l: Lookup, budget: nat, arrivals: seq<Arrival>, n: nat, stop: Option<Outcome>, ops: seq<LookupOp>)
    requires budget > 0 && n < |arrivals| && arrivals[0].Delivered?
    requires DrainedTo(Taken(l, arrivals[0].event), budget - 1, arrivals[1..], n, stop, ops)
    ensures DrainedTo(l, budget, arrivals, n + 1, stop, React(l, arrivals[0].event) + ops)
  {
    hide Taken, HasPending, React;
    var event := arrivals[0].event;
    ReactTakes(l, event);
    ApplyAppend(l, React(l, event), ops);
    HeardAppend(React(l, event), ops);
    TakenMore(l, arrivals, n + 1);
    hide TakenAll, AdvertisedIn, ApplyAll, Heard;
    assert n + 1 < |arrivals| ==> arrivals[n + 1] == arrivals[1..][n];
  }

  /**
   * A drain reads arrivals one by one while its budget lasts and somebody is
   * waited for; it records exactly the responses among them and completes
   * exactly the pending dials whose handshakes they report.  It runs its
   * course, blocks on an empty socket or fails with the socket accordingly.
   */
  lemma {:induction false} DrainExactly(l: Lookup, budget: nat, arrivals: seq<Arrival>)
    ensures var n := Reads(l, budget, arrivals);
            && ReadsUpTo(l, budget, arrivals, n)
            && DrainedTo(l, budget, arrivals, n, Drain(l, budget, arrivals).0, Drain(l, budget, arrivals).1)
    decreases budget
  {
    ReadsSound(l, budget, arrivals);
    hide Taken, HasPending, React, TakenAll, DrainedTo, ApplyAll, Reads, ReadsUpTo;
    if budget > 0 && HasPending(l) && arrivals != [] && arrivals[0].Delivered? {
      var event, rest := arrivals[0].event, arrivals[1..];
      ReactTakes(l, event);
      DrainExactly(Taken(l, event), budget - 1, rest);
      ReadsStep(l, budget, arrivals);
      var (stop, ops) := Drain(Taken(l, event), budget - 1, rest);
      DrainedMore(l, budget, arrivals, Reads(Taken(l, event), budget - 1, rest), stop, ops);
    } else {
      DrainedAtOnce(l, budget, arrivals);
    }
  }

  lemma ReadsStep(l: Lookup, budget: nat, arrivals: seq<Arrival>)
    requires budget > 0 && HasPending(l) && arrivals != [] && arrivals[0].Delivered?
    ensures Reads(l, budget, arrivals) == Reads(Taken(l, arrivals[0].event), budget - 1, arrivals[1..]) + 1
    ensures Reads(Taken(l, arrivals[0].event), budget - 1, arrivals[1..]) < |arrivals|
  {
    ReadsSound(l, budget, arrivals);
    hide Taken, HasPending;
  }

  lemma DrainedAtOnce(l: Lookup, budget: nat, arrivals: seq<Arrival>)
    requires budget == 0 || !HasPending(l) || arrivals == [] || arrivals[0].RecvFailed?
    ensures Reads(l, budget, arrivals) == 0
    ensures DrainedTo(l, budget, arrivals, 0, Drain(l, budget, arrivals).0, Drain(l, budget, arrivals).1)
  {
    TakenNothing(l, arrivals);
    ApplyAll1(l);
    hide HasPending, TakenAll, ApplyAll;
  }

  // --- A whole lookup ---

  /** Everything the rounds that are carried out deliver: what the responses advertise that each of them reads. */
  ghost function DeliveredAlong(l: Lookup, roundsLeft: nat, rounds: seq<Round>): seq<Peer>
    decreases roundsLeft
  {
    var picks := PickNextAlpha(l);
    if roundsLeft == 0 || IsDone(l) || picks == [] || rounds == [] then []
    else
      var marked, arrivals := ApplyAll(l, Marks(picks, rounds[0].Established())), rounds[0].arrivals;
      if rounds[0].Sends(l.target, Marks(picks, rounds[0].Established())).Err? then []
      else
        var n := Reads(marked, l.config.maxRecvPerRound, arrivals);
        if n > |arrivals| then []
        else
          var after := TakenAll(marked, arrivals[..n]);
          AdvertisedIn(arrivals[..n])
          + (if n == l.config.maxRecvPerRound || !HasPending(after)
             then DeliveredAlong(ApplyAll(after, SKIPS), roundsLeft - 1, rounds[1..]) else [])
  }

  /** Rounds carried out to the end. */
  function RoundsIn(ops: seq<LookupOp>): nat
    decreases |ops|
  {
    if ops == [] then 0 else (if ops[0].SkipPendingDials? then 1 else 0) + RoundsIn(ops[1..])
  }

  lemma {:induction false} RoundsInAppend(a: seq<LookupOp>, b: seq<LookupOp>)
    ensures RoundsIn(a + b) == RoundsIn(a) + RoundsIn(b)
    decreases |a|
  {
    if a == [] {
      assert a + b == b;
    } else {
      assert (a + b)[1..] == a[1..] + b;
      RoundsInAppend(a[1..], b);
    }
  }

  /** Marks and reactions are neither responses nor the end of a round. */
  lemma {:induction false} MarksSilent(picks: seq<Peer>, established: set<UdpAddr>)
    ensures Heard(Marks(picks, established)) == [] && RoundsIn(Marks(picks, established)) == 0
    decreases |picks|
  {
    if picks != [] {
      MarksSilent(picks[1..], established);
      assert Marks(picks, established)[1..] == Marks(picks[1..], established);
    }
  }

  lemma {:induction false} DrainEndsNoRound(l: Lookup, budget: nat, arrivals: seq<Arrival>)
    ensures RoundsIn(Drain(l, budget, arrivals).1) == 0
    decreases budget
  {
    hide ApplyAll, HasPending;
    if budget > 0 && HasPending(l) && arrivals != [] && arrivals[0].Delivered? {
      var ops := React(l, arrivals[0].event);
      DrainEndsNoRound(ApplyAll(l, ops), budget - 1, arrivals[1..]);
      RoundsInAppend(ops, Drain(ApplyAll(l, ops), budget - 1, arrivals[1..]).1);
    }
  }

  lemma {:induction false} DrainNeverReturns(l: Lookup, budget: nat, arrivals: seq<Arrival>)
    ensures var stop := Drain(l, budget, arrivals).0; stop.Some? ==> !stop.value.Returned?
    decreases budget
  {
    hide ApplyAll, HasPending;
    if budget > 0 && HasPending(l) && arrivals != [] && arrivals[0].Delivered? {
      DrainNeverReturns(ApplyAll(l, React(l, arrivals[0].event)), budget - 1, arrivals[1..]);
    }
  }

  lemma SkipsEndOneRound()
    ensures RoundsIn(SKIPS) == 1 && Heard(SKIPS) == []
  {
    assert SKIPS[1..] == [SkipPendingDials] && SKIPS[1..][1..] == [];
  }

  lemma DrainHears(l: Lookup, budget: nat, arrivals: seq<Arrival>)
    ensures var n := Reads(l, budget, arrivals);
            var (stop, ops) := Drain(l, budget, arrivals);
            && n <= |arrivals| && ApplyAll(l, ops) == TakenAll(l, arrivals[..n])
            && Heard(ops) == AdvertisedIn(arrivals[..n])
            && (stop == None <==> n == budget || !HasPending(TakenAll(l, arrivals[..n])))
  {
    DrainExactly(l, budget, arrivals);
    hide Drain, Reads, TakenAll, AdvertisedIn, ApplyAll, Heard, HasPending;
  }

  /** Only the drain of a round hears anything, and only its end counts as a round. */
  lemma RoundSums(marks: seq<LookupOp>, drained: seq<LookupOp>)
    requires Heard(marks) == [] && RoundsIn(marks) == 0 && RoundsIn(drained) == 0
    ensures Heard(marks + drained) == Heard(drained) && RoundsIn(marks + drained) == 0
    ensures Heard(marks + drained + SKIPS) == Heard(drained) && RoundsIn(marks + drained + SKIPS) == 1
  {
    SkipsEndOneRound();
    HeardAppend(marks, drained);
    HeardAppend(marks + drained, SKIPS);
    RoundsInAppend(marks, drained);
    RoundsInAppend(marks + drained, SKIPS);
    hide Heard, RoundsIn;
    assert [] + Heard(drained) == Heard(drained) && Heard(drained) + [] == Heard(drained);
  }

  /** One round's transitions: what they hear, and where they lead. */
  lemma RoundHears(l: Lookup, established: set<UdpAddr>, arrivals: seq<Arrival>)
    ensures var marks := Marks(PickNextAlpha(l), established);
            var marked := ApplyAll(l, marks);
            var n := Reads(marked, l.config.maxRecvPerRound, arrivals);
            var (stop, drained) := Drain(marked, l.config.maxRecvPerRound, arrivals);
            && n <= |arrivals|
            && Heard(marks) == [] && RoundsIn(marks) == 0
            && Heard(marks + drained) == AdvertisedIn(arrivals[..n]) == Heard(marks + drained + SKIPS)
            && RoundsIn(marks + drained) == 0 && RoundsIn(marks + drained + SKIPS) == 1
            && (stop == None <==> n == l.config.maxRecvPerRound || !HasPending(TakenAll(marked, arrivals[..n])))
            && ApplyAll(l, marks + drained + SKIPS) == ApplyAll(TakenAll(marked, arrivals[..n]), SKIPS)
  {
    hide Marks, PickNextAlpha, Drain, Reads, TakenAll, AdvertisedIn, ApplyAll, Heard, RoundsIn, HasPending;
    var marks := Marks(PickNextAlpha(l), established);
    var marked := ApplyAll(l, marks);
    var drained := Drain(marked, l.config.maxRecvPerRound, arrivals).1;
    DrainHears(marked, l.config.maxRecvPerRound, arrivals);
    DrainEndsNoRound(marked, l.config.maxRecvPerRound, arrivals);
    MarksSilent(PickNextAlpha(l), established);
    RoundSums(marks, drained);
    ApplyAppend(l, marks, drained);
    ApplyAppend(l, marks + drained, SKIPS);
  }

  /** The driver hears exactly what its rounds deliver, and counts its rounds. */
  lemma {:induction false} DriveHears(l: Lookup, roundsLeft: nat, rounds: seq<Round>)
    ensures var d := Drive(l, roundsLeft, rounds);
            && Heard(d.ops) == DeliveredAlong(l, roundsLeft, rounds)
            && RoundsIn(d.ops) <= roundsLeft
            && (d.outcome.Returned? ==> RoundsIn(d.ops) + d.outcome.roundsLeft == roundsLeft)
    decreases roundsLeft
  {
    hide Marks, PickNextAlpha, Drain, Reads, TakenAll, AdvertisedIn, ApplyAll, HasPending, IsDone, SendAll;
    var picks := PickNextAlpha(l);
    if roundsLeft > 0 && !IsDone(l) && picks != [] && rounds != [] {
      var established, arrivals := rounds[0].Established(), rounds[0].arrivals;
      var marks := Marks(picks, established);
      RoundHears(l, established, arrivals);
      hide Heard, RoundsIn;
      var (stop, drained) := Drain(ApplyAll(l, marks), l.config.maxRecvPerRound, arrivals);
      if rounds[0].Sends(l.target, marks).Ok? {
        if stop.None? {
          var round := marks + drained + SKIPS;
          var next := ApplyAll(l, round);
          DriveHears(next, roundsLeft - 1, rounds[1..]);
          HeardAppend(round, Drive(next, roundsLeft - 1, rounds[1..]).ops);
          RoundsInAppend(round, Drive(next, roundsLeft - 1, rounds[1..]).ops);
        } else {
          DrainNeverReturns(ApplyAll(l, marks), l.config.maxRecvPerRound, arrivals);
        }
      }
    }
  }
}
