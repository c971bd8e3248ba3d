/** Where a lookup ends. */
module KadLookupConverge {
  import opened Addresses
  import opened KadIds
  import opened KadTable
  import opened KadRouting
  import opened KadLookup
  import opened KadLookupRun
  import opened KadLookupDriver
  import opened KadLookupHeard

  lemma SkipsLeaveNothingPending(l: Lookup)
    ensures !HasPending(ApplyAll(l, SKIPS))
  {
    assert SKIPS[1..] == [SkipPendingDials];
    assert SKIPS[1..][1..] == [];
  }

  lemma {:induction false} SomeUnasked(es: seq<Entry>)
    ensures Unasked(es) == [] <==> NoUnqueried(es)
  {
    if es != [] {
      SomeUnasked(es[1..]);
      assert es == [es[0]] + es[1..];
    }
  }

  lemma {:induction false} DriveEndsIdle(l: Lookup, roundsLeft: nat, rounds: seq<Round>)
    requires !HasPending(l)
    ensures var d := Drive(l, roundsLeft, rounds);
            d.outcome.Returned? ==>
              && !HasPending(ApplyAll(l, d.ops)) && d.outcome.roundsLeft <= roundsLeft
              && (d.outcome.roundsLeft > 0 ==> PickNextAlpha(ApplyAll(l, d.ops)) == [])
    decreases roundsLeft
  {
    hide Drain, PickNextAlpha, Marks, IsDone, ApplyAll, HasPending, SendAll;
    var picks := PickNextAlpha(l);
    if roundsLeft == 0 || IsDone(l) || picks == [] {
      ApplyNothing(l);
      NothingToPick(l);
    } else if rounds != [] && rounds[0].Sends(l.target, Marks(picks, rounds[0].Established())).Ok? {
      var marks := Marks(picks, rounds[0].Established());
      var (stop, drained) := Drain(ApplyAll(l, marks), l.config.maxRecvPerRound, rounds[0].arrivals);
      if stop.None? {
        var round := marks + drained + SKIPS;
        ApplyAppend(l, marks + drained, SKIPS);
        SkipsLeaveNothingPending(ApplyAll(l, marks + drained));
        DriveEndsIdle(ApplyAll(l, round), roundsLeft - 1, rounds[1..]);
        ApplyAppend(l, round, Drive(ApplyAll(l, round), roundsLeft - 1, rounds[1..]).ops);
      } else {
        DrainNeverReturns(ApplyAll(l, marks), l.config.maxRecvPerRound, rounds[0].arrivals);
      }
    }
  }

  lemma ApplyNothing(l: Lookup)
    ensures ApplyAll(l, []) == l
  {
  }

  lemma NothingToPick(l: Lookup)
    ensures IsDone(l) ==> PickNextAlpha(l) == []
  {
    SomeUnasked(TopEntries(l));
  }

  lemma {:induction false} NoSeeds(selfId: NodeId, target: NodeId, peers: seq<Peer>)
    ensures Seeds(selfId, target, peers) == [] <==> forall i :: 0 <= i < |peers| ==> peers[i].id == selfId
  {
    if peers != [] {
      var before, p := peers[..|peers| - 1], peers[|peers| - 1];
      NoSeeds(selfId, target, before);
      assert peers == before + [p];
      hide Insert;
      InsertKeepsSome(Seeds(selfId, target, before), target, Entry(p.id, p.addr, Unqueried));
    }
  }

  lemma InsertKeepsSome(es: seq<Entry>, target: NodeId, e: Entry)
    ensures Insert(es, target, e) != []
  {
    hide Metric;
  }

  /** Before anything happens the results hold nobody to ask exactly when nobody is known or no results are wanted. */
  lemma NobodyToAsk(selfId: NodeId, target: NodeId, config: Config, initial: seq<Peer>)
    ensures NoUnqueried(TopEntries(NewLookup(selfId, target, config, initial)))
       <==> config.k == 0 || forall i :: 0 <= i < |initial| ==> initial[i].id == selfId
  {
    NoSeeds(selfId, target, initial);
    SeedsUnqueried(selfId, target, initial);
    hide Seeds;
    var l := NewLookup(selfId, target, config, initial);
    if TopEntries(l) != [] { assert TopEntries(l)[0] in l.entries; }
  }

  /**
   * Convergence.  A lookup that returns waits for nobody, and has carried out
   * all its rounds but those it says it has to spare.  If it has any to spare
   * it is done exactly when it was allowed to ask somebody, or had nobody to
   * ask from the start.  Its results are the nearest of the seeds and all the
   * peers advertised by the responses its rounds read, so none of those is
   * nearer than a result and missing.
   */
  lemma LookupConverges(selfId: NodeId, target: NodeId, config: Config, initial: seq<Peer>, rounds: seq<Round>)
    requires RunLookup(selfId, target, config, initial, rounds).outcome.Returned?
    ensures var d := RunLookup(selfId, target, config, initial, rounds);
            var l := ApplyAll(NewLookup(selfId, target, config, initial), d.ops);
            && !HasPending(l)
            && (d.outcome.roundsLeft > 0 ==>
                  (IsDone(l)
                   <==> config.alpha > 0 || config.k == 0 || forall i :: 0 <= i < |initial| ==> initial[i].id == selfId))
            && RoundsIn(d.ops) + d.outcome.roundsLeft == config.maxRounds
            && NearestLearned(selfId, target, config.k, initial,
                              DeliveredAlong(NewLookup(selfId, target, config, initial), config.maxRounds, rounds), TopK(l))
  {
    hide NewLookup, ApplyAll, Drive, TopEntries, Metric, NearestLearned, DeliveredAlong, RoundsIn, Heard;
    var l0 := NewLookup(selfId, target, config, initial);
    var d := RunLookup(selfId, target, config, initial, rounds);
    var l := ApplyAll(l0, d.ops);
    FreshLookup(selfId, target, config, initial);
    DriveEndsIdle(l0, config.maxRounds, rounds);
    DriveHears(l0, config.maxRounds, rounds);
    ResultsAreNearestLearned(selfId, target, config, initial, d.ops);
    RunKeepsTerms(l0, d.ops);
    SomeUnasked(TopEntries(l));
    NobodyToAsk(selfId, target, config, initial);
    if config.alpha == 0 {
      NoParallelismNoProgress(l0, config.maxRounds, rounds);
      ApplyNothing(l0);
    } else if config.k == 0 {
      NoResultsWanted(l);
    } else if forall i :: 0 <= i < |initial| ==> initial[i].id == selfId {
      DoneAtOnce(l0, config.maxRounds, rounds);
      ApplyNothing(l0);
    }
  }

  lemma NoResultsWanted(l: Lookup)
    requires l.config.k == 0
    ensures NoUnqueried(TopEntries(l))
  {
  }

  lemma DoneAtOnce(l: Lookup, roundsLeft: nat, rounds: seq<Round>)
    requires IsDone(l)
    ensures Drive(l, roundsLeft, rounds) == Driven(Returned(roundsLeft), [])
  {
  }

  lemma FreshLookup(selfId: NodeId, target: NodeId, config: Config, initial: seq<Peer>)
    ensures !HasPending(NewLookup(selfId, target, config, initial))
    ensures NewLookup(selfId, target, config, initial).config == config
  {
  }

  /** With `alpha` zero the driver gives up at once, before asking anybody. */
  lemma NoParallelismNoProgress(l: Lookup, roundsLeft: nat, rounds: seq<Round>)
    requires l.config.alpha == 0
    ensures Drive(l, roundsLeft, rounds) == Driven(Returned(roundsLeft), [])
  {
    assert PickNextAlpha(l) == [];
  }

  // --- Final states ---

  /** A peer that has answered, or was given up, stays so. */
  lemma {:induction false} FinalStays(l: Lookup, ops: seq<LookupOp>, e: Entry)
    requires Tracks(l) && AllAllowed(l, ops) && e in l.entries && (e.status.Done? || e.status.Skipped?)
    ensures e in ApplyAll(l, ops).entries
    decreases |ops|
  {
    hide Tracks, Apply, Allowed;
    if ops != [] {
      TracksOrdered(l);
      NextFollowsDiagram(l, ops[0], e);
      EntrySurvives(l, ops[0], e);
      assert e.(status := e.status) == e;
      StepTracks(l, ops[0]);
      FinalStays(Apply(l, ops[0]), ops[1..], e);
    }
  }

  // --- Peers that share an address ---

  /** Everyone with an action out is waited for, under its own address. */
  predicate Followed(l: Lookup) {
    && (forall e :: e in l.entries && e.status.InFlight? ==>
          e.addr in l.pendingQueries && l.pendingQueries[e.addr] == e.id)
    && (forall e :: e in l.entries && e.status.Dialing? ==>
          e.addr in l.pendingDials && l.pendingDials[e.addr] == e.id)
  }

  predicate Active(e: Entry) {
    e.status.InFlight? || e.status.Dialing?
  }

  /** Nobody has an action out at `addr`. */
  predicate Free(l: Lookup, addr: UdpAddr) {
    forall e :: e in l.entries && Active(e) ==> e.addr != addr
  }

  /** What following says of one entry. */
  lemma EntryAwaited(l: Lookup, e: Entry)
    requires Followed(l) && (e in l.entries || IsNew(l, e))
    ensures e.status.InFlight? ==> e.addr in l.pendingQueries && l.pendingQueries[e.addr] == e.id
    ensures e.status.Dialing? ==> e.addr in l.pendingDials && l.pendingDials[e.addr] == e.id
  {
  }

  lemma MarkedEntry(l: Lookup, op: LookupOp, e: Entry)
    requires Ordered(l.entries, l.target) && Allowed(l, op) && IsMark(op) && Free(l, op.peer.addr)
    requires e in l.entries || IsNew(l, e)
    ensures e.id == op.peer.id ==> e == Entry(op.peer.id, op.peer.addr, Unqueried)
    ensures Active(e) ==> e.addr != op.peer.addr
  {
    hide Ordered;
    var x := Entry(op.peer.id, op.peer.addr, Unqueried);
    if e.id == x.id { OwnEntry(l, e, x); }
  }

  lemma StillInFlight(l: Lookup, op: LookupOp, e: Entry)
    requires e.status.InFlight? ==> e.addr in l.pendingQueries && l.pendingQueries[e.addr] == e.id
    requires op.MarkInFlight? && e.id == op.peer.id ==> e.addr == op.peer.addr
    requires op.MarkInFlight? && e.status.InFlight? && e.addr == op.peer.addr ==> e.id == op.peer.id
    ensures Next(l, op, e).InFlight? ==> e.addr in NextQueries(l, op) && NextQueries(l, op)[e.addr] == e.id
  {
  }

  lemma StillDialing(l: Lookup, op: LookupOp, e: Entry)
    requires e.status.Dialing? ==> e.addr in l.pendingDials && l.pendingDials[e.addr] == e.id
    requires op.MarkDialing? && e.id == op.peer.id ==> e.addr == op.peer.addr
    requires op.MarkDialing? && e.status.Dialing? && e.addr == op.peer.addr ==> e.id == op.peer.id
    ensures Next(l, op, e).Dialing? ==> e.addr in NextDials(l, op) && NextDials(l, op)[e.addr] == e.id
  {
  }

  lemma EntryFollowed(l: Lookup, op: LookupOp, e: Entry)
    requires Tracks(l) && Followed(l) && Allowed(l, op) && (IsMark(op) ==> Free(l, op.peer.addr))
    requires e in l.entries || IsNew(l, e)
    ensures Next(l, op, e).InFlight? ==>
              e.addr in Apply(l, op).pendingQueries && Apply(l, op).pendingQueries[e.addr] == e.id
    ensures Next(l, op, e).Dialing? ==>
              e.addr in Apply(l, op).pendingDials && Apply(l, op).pendingDials[e.addr] == e.id
  {
    hide Tracks, Ordered, Apply, Followed, Free, Allowed, Known, Next, NextQueries, NextDials;
    TracksOrdered(l);
    PendingExactly(l, op);
    EntryAwaited(l, e);
    if IsMark(op) { MarkedEntry(l, op, e); }
    StillInFlight(l, op, e);
    StillDialing(l, op, e);
  }

  lemma StepFollowed(l: Lookup, op: LookupOp)
    requires Tracks(l) && Followed(l) && Allowed(l, op) && (IsMark(op) ==> Free(l, op.peer.addr))
    ensures Followed(Apply(l, op))
  {
    TracksOrdered(l);
    hide Tracks, Apply, Ordered, Free, Allowed, Next;
    var l' := Apply(l, op);
    forall x | x in l'.entries
      ensures x.status.InFlight? ==> x.addr in l'.pendingQueries && l'.pendingQueries[x.addr] == x.id
      ensures x.status.Dialing? ==> x.addr in l'.pendingDials && l'.pendingDials[x.addr] == x.id
    {
      SurvivorFollowed(l, op, x);
    }
  }

  lemma SurvivorFollowed(l: Lookup, op: LookupOp, x: Entry)
    requires Tracks(l) && Followed(l) && Allowed(l, op) && (IsMark(op) ==> Free(l, op.peer.addr))
    requires x in Apply(l, op).entries
    ensures x.status.InFlight? ==>
              x.addr in Apply(l, op).pendingQueries && Apply(l, op).pendingQueries[x.addr] == x.id
    ensures x.status.Dialing? ==>
              x.addr in Apply(l, op).pendingDials && Apply(l, op).pendingDials[x.addr] == x.id
  {
    TracksOrdered(l);
    ApplyMembers(l, op);
    hide Tracks, Apply, Ordered, Free, Allowed, Next, Followed;
    var e: Entry :| x == e.(status := Next(l, op, e)) && (e in l.entries || IsNew(l, e));
    EntryFollowed(l, op, e);
  }

  predicate Apart(picks: seq<Peer>) {
    forall i, j :: 0 <= i < j < |picks| ==> picks[i].addr != picks[j].addr
  }

  /** After a mark only its own address is newly taken. */
  lemma MarkLeavesFree(l: Lookup, op: LookupOp, addr: UdpAddr)
    requires Ordered(l.entries, l.target) && Allowed(l, op) && IsMark(op) && Free(l, addr) && op.peer.addr != addr
    ensures Free(Apply(l, op), addr)
  {
    ApplyMembers(l, op);
    hide Apply, Ordered, Known;
    forall x | x in Apply(l, op).entries && Active(x)
      ensures x.addr != addr
    {
      var e: Entry :| x == e.(status := Next(l, op, e)) && (e in l.entries || IsNew(l, e));
      if e.id == op.peer.id { OwnEntry(l, e, Entry(op.peer.id, op.peer.addr, Unqueried)); }
    }
  }

  lemma {:induction false} MarksFollowed(l: Lookup, picks: seq<Peer>, established: set<UdpAddr>)
    requires Tracks(l) && Followed(l) && Askable(l, picks) && Apart(picks)
    requires forall i :: 0 <= i < |picks| ==> Free(l, picks[i].addr)
    ensures Followed(ApplyAll(l, Marks(picks, established)))
    decreases |picks|
  {
    hide Apply, Ordered, Tracks, Followed, Free, Allowed;
    if picks != [] {
      MarksTail(picks, established);
      var op, rest := Marks(picks, established)[0], picks[1..];
      hide Marks;
      TracksOrdered(l);
      MarkOfFirst(l, picks, op);
      StepTracks(l, op);
      StepFollowed(l, op);
      OthersStayAskable(l, picks, op);
      forall i | 0 <= i < |rest|
        ensures Free(Apply(l, op), rest[i].addr)
      {
        assert rest[i] == picks[i + 1];
        MarkLeavesFree(l, op, rest[i].addr);
      }
      MarksFollowed(Apply(l, op), rest, established);
    }
  }

  lemma {:induction false} QuietFollowed(l: Lookup, ops: seq<LookupOp>)
    requires Tracks(l) && Followed(l) && forall i :: 0 <= i < |ops| ==> !IsMark(ops[i])
    ensures Followed(ApplyAll(l, ops))
    decreases |ops|
  {
    hide Apply, Tracks, Followed;
    if ops != [] {
      StepTracks(l, ops[0]);
      StepFollowed(l, ops[0]);
      QuietFollowed(Apply(l, ops[0]), ops[1..]);
    }
  }

  /** Nobody is left with an action out. */
  predicate Settled(l: Lookup) {
    forall e :: e in l.entries ==> !Active(e)
  }

  lemma IdleFollowedSettled(l: Lookup)
    requires !HasPending(l)
    ensures Followed(l) <==> Settled(l)
  {
  }

  lemma MarkedRoundFollowed(l: Lookup, established: set<UdpAddr>)
    requires Tracks(l) && !HasPending(l) && Settled(l) && Apart(PickNextAlpha(l))
    ensures var l1 := ApplyAll(l, Marks(PickNextAlpha(l), established)); Tracks(l1) && Followed(l1)
  {
    hide PickNextAlpha, Marks, ApplyAll, Apart, Tracks, HasPending, Followed, AllAllowed, Askable;
    var picks := PickNextAlpha(l);
    TracksOrdered(l);
    PicksAskable(l);
    IdleFollowedSettled(l);
    assert forall i :: 0 <= i < |picks| ==> Free(l, picks[i].addr);
    hide Free, Settled;
    MarksFollowed(l, picks, established);
    MarksAllowed(l, picks, established);
    RunTracks(l, Marks(picks, established));
  }

  lemma QuietSettles(l: Lookup, drained: seq<LookupOp>)
    requires Tracks(l) && Followed(l) && forall i :: 0 <= i < |drained| ==> !IsMark(drained[i])
    ensures Settled(ApplyAll(l, drained + SKIPS))
  {
    hide ApplyAll, Tracks, HasPending, Followed, Settled;
    var quiet := drained + SKIPS;
    assert forall i :: 0 <= i < |quiet| ==> !IsMark(quiet[i]);
    QuietFollowed(l, quiet);
    ApplyAppend(l, drained, SKIPS);
    SkipsLeaveNothingPending(ApplyAll(l, drained));
    IdleFollowedSettled(ApplyAll(l, quiet));
  }

  /** A round whose picks have addresses of their own ends with everyone settled, if it began so. */
  lemma RoundSettles(l: Lookup, established: set<UdpAddr>, drained: seq<LookupOp>)
    requires Tracks(l) && !HasPending(l) && Settled(l) && Apart(PickNextAlpha(l))
    requires forall i :: 0 <= i < |drained| ==> !IsMark(drained[i])
    ensures Settled(ApplyAll(l, Marks(PickNextAlpha(l), established) + drained + SKIPS))
  {
    hide PickNextAlpha, Marks, ApplyAll, Apart, Tracks, HasPending, Followed, Settled;
    var marks := Marks(PickNextAlpha(l), established);
    MarkedRoundFollowed(l, established);
    QuietSettles(ApplyAll(l, marks), drained);
    ApplyAppend(l, marks, drained + SKIPS);
    assert marks + (drained + SKIPS) == marks + drained + SKIPS;
  }

  // --- What a collision does ---

  /** With an action out, and no pending address that leads back to it. */
  predicate Stranded(l: Lookup, e: Entry) {
    && e in l.entries && Active(e)
    && (e.status.InFlight? ==> forall a :: a in l.pendingQueries ==> l.pendingQueries[a] != e.id)
    && (e.status.Dialing? ==> forall a :: a in l.pendingDials ==> l.pendingDials[a] != e.id)
  }

  /** A mark never falls on a peer with an action out. */
  lemma MarksSpare(l: Lookup, op: LookupOp, e: Entry)
    requires Tracks(l) && Allowed(l, op) && IsMark(op) && e in l.entries && Active(e)
    ensures e.id != op.peer.id
  {
    TracksOrdered(l);
    hide Tracks, Ordered;
    if e.id == op.peer.id { OwnEntry(l, e, Entry(op.peer.id, op.peer.addr, Unqueried)); }
  }

  lemma StrandedStays(l: Lookup, op: LookupOp, e: Entry)
    requires Tracks(l) && Allowed(l, op) && Stranded(l, e)
    ensures Next(l, op, e) == e.status
  {
    PendingEntry(l, e);
    if IsMark(op) { MarksSpare(l, op, e); }
    hide Tracks, Allowed;
  }

  lemma StepStranded(l: Lookup, op: LookupOp, e: Entry)
    requires Tracks(l) && Allowed(l, op) && Stranded(l, e)
    ensures Stranded(Apply(l, op), e)
  {
    TracksOrdered(l);
    StrandedStays(l, op, e);
    EntrySurvives(l, op, e);
    PendingExactly(l, op);
    if IsMark(op) { MarksSpare(l, op, e); }
    hide Tracks, Ordered, Apply, Allowed, Next;
  }

  lemma {:induction false} StrandedForever(l: Lookup, ops: seq<LookupOp>, e: Entry)
    requires Tracks(l) && AllAllowed(l, ops) && Stranded(l, e)
    ensures Stranded(ApplyAll(l, ops), e)
    decreases |ops|
  {
    hide Tracks, Apply, Allowed, Stranded;
    if ops != [] {
      StepTracks(l, ops[0]);
      StepStranded(l, ops[0], e);
      StrandedForever(Apply(l, ops[0]), ops[1..], e);
    }
  }

  /** A second mark at the address of an active peer hides it for good. */
  lemma MarkStrands(l: Lookup, op: LookupOp, e: Entry)
    requires Tracks(l) && Allowed(l, op) && IsMark(op) && e in l.entries && op.peer.addr == e.addr
    requires if op.MarkInFlight? then e.status.InFlight? else e.status.Dialing?
    ensures Stranded(Apply(l, op), e)
  {
    TracksOrdered(l);
    PendingEntry(l, e);
    EntrySurvives(l, op, e);
    PendingExactly(l, op);
    MarksSpare(l, op, e);
    hide Tracks, Ordered, Apply, Allowed;
    assert Next(l, op, e) == e.status;
  }

  /** So does any later mark of the round. */
  lemma {:induction false} LaterMarkStrands(l: Lookup, picks: seq<Peer>, established: set<UdpAddr>, e: Entry, j: nat)
    requires Tracks(l) && Askable(l, picks) && j < |picks| && e in l.entries && picks[j].addr == e.addr
    requires e.status == if e.addr in established then InFlight else Dialing
    ensures Stranded(ApplyAll(l, Marks(picks, established)), e)
    decreases |picks|
  {
    hide Apply, Ordered, Tracks, Allowed, AllAllowed, Stranded;
    MarksTail(picks, established);
    MarkKind(picks, established);
    var op, rest := Marks(picks, established)[0], picks[1..];
    hide Marks;
    TracksOrdered(l);
    MarkOfFirst(l, picks, op);
    StepTracks(l, op);
    TracksOrdered(Apply(l, op));
    OthersStayAskable(l, picks, op);
    if j == 0 {
      MarkStrands(l, op, e);
      MarksAllowed(Apply(l, op), rest, established);
      StrandedForever(Apply(l, op), Marks(rest, established), e);
    } else {
      MarkSparesActive(l, op, e);
      LaterMarkStrands(Apply(l, op), rest, established, e, j - 1);
    }
  }

  lemma MarkKind(picks: seq<Peer>, established: set<UdpAddr>)
    requires picks != []
    ensures Marks(picks, established)[0]
         == if picks[0].addr in established then MarkInFlight(picks[0]) else MarkDialing(picks[0])
  {
  }

  lemma MarkSparesActive(l: Lookup, op: LookupOp, e: Entry)
    requires Tracks(l) && Allowed(l, op) && IsMark(op) && e in l.entries && Active(e)
    ensures e in Apply(l, op).entries
  {
    TracksOrdered(l);
    EntrySurvives(l, op, e);
    MarksSpare(l, op, e);
    hide Tracks, Ordered, Apply, Allowed;
    assert Next(l, op, e) == e.status;
  }

  /** Of two picks at one address the earlier is stranded by the end of the marks. */
  lemma {:induction false} TwinsStrand(l: Lookup, picks: seq<Peer>, established: set<UdpAddr>, i: nat, j: nat)
    returns (e: Entry)
    requires Tracks(l) && Askable(l, picks) && i < j < |picks| && picks[i].addr == picks[j].addr
    ensures e == Entry(picks[i].id, picks[i].addr, if picks[i].addr in established then InFlight else Dialing)
    ensures Stranded(ApplyAll(l, Marks(picks, established)), e)
    decreases |picks|
  {
    hide Apply, Ordered, Tracks, Allowed, Stranded;
    MarksTail(picks, established);
    MarkKind(picks, established);
    var op, rest := Marks(picks, established)[0], picks[1..];
    TracksOrdered(l);
    MarkOfFirst(l, picks, op);
    StepTracks(l, op);
    OthersStayAskable(l, picks, op);
    if i == 0 {
      var before := Entry(picks[0].id, picks[0].addr, Unqueried);
      EntrySurvives(l, op, before);
      e := before.(status := if op.MarkInFlight? then InFlight else Dialing);
      assert Next(l, op, before) == e.status;
      assert rest[j - 1] == picks[j];
      LaterMarkStrands(Apply(l, op), rest, established, e, j - 1);
    } else {
      assert rest[i - 1] == picks[i] && rest[j - 1] == picks[j];
      e := TwinsStrand(Apply(l, op), rest, established, i - 1, j - 1);
    }
  }

  // --- The exact condition ---

  /** In every round the driver carries out, the peers it picks have addresses of their own. */
  ghost predicate ApartAlong(l: Lookup, roundsLeft: nat, rounds: seq<Round>)
    decreases roundsLeft
  {
    var picks := PickNextAlpha(l);
    if roundsLeft == 0 || IsDone(l) || picks == [] || rounds == [] then true
    else
      var marks := Marks(picks, rounds[0].Established());
      var (stop, drained) := Drain(ApplyAll(l, marks), l.config.maxRecvPerRound, rounds[0].arrivals);
      && Apart(picks)
      && (rounds[0].Sends(l.target, marks).Ok? && stop.None? ==>
            ApartAlong(ApplyAll(l, marks + drained + SKIPS), roundsLeft - 1, rounds[1..]))
  }

  lemma {:induction false} ApartSettles(l: Lookup, roundsLeft: nat, rounds: seq<Round>)
    requires Tracks(l) && !HasPending(l) && Settled(l) && ApartAlong(l, roundsLeft, rounds)
    requires Drive(l, roundsLeft, rounds).outcome.Returned?
    ensures Settled(ApplyAll(l, Drive(l, roundsLeft, rounds).ops))
    decreases roundsLeft
  {
    hide Drain, PickNextAlpha, Marks, IsDone, ApplyAll, HasPending, SendAll, Settled, Tracks, Apart, AllAllowed;
    var picks := PickNextAlpha(l);
    if roundsLeft == 0 || IsDone(l) || picks == [] {
      ApplyNothing(l);
    } else if rounds != [] {
      var marks := Marks(picks, rounds[0].Established());
      var (stop, drained) := Drain(ApplyAll(l, marks), l.config.maxRecvPerRound, rounds[0].arrivals);
      DrainTakesNoMarks(ApplyAll(l, marks), l.config.maxRecvPerRound, rounds[0].arrivals);
      DrainNeverReturns(ApplyAll(l, marks), l.config.maxRecvPerRound, rounds[0].arrivals);
      if rounds[0].Sends(l.target, marks).Ok? && stop.None? {
        var round := marks + drained + SKIPS;
        RoundSettles(l, rounds[0].Established(), drained);
        RoundEnds(l, rounds[0].Established(), rounds[0].arrivals);
        ApartSettles(ApplyAll(l, round), roundsLeft - 1, rounds[1..]);
        ApplyAppend(l, round, Drive(ApplyAll(l, round), roundsLeft - 1, rounds[1..]).ops);
      }
    }
  }

  /** A whole round keeps the pending tables in step and leaves nothing pending. */
  lemma RoundEnds(l: Lookup, established: set<UdpAddr>, arrivals: seq<Arrival>)
    requires Tracks(l)
    ensures var marks := Marks(PickNextAlpha(l), established);
            var drained := Drain(ApplyAll(l, marks), l.config.maxRecvPerRound, arrivals).1;
            var next := ApplyAll(l, marks + drained + SKIPS);
            && AllAllowed(l, marks) && AllAllowed(l, marks + drained + SKIPS)
            && Tracks(next) && !HasPending(next)
  {
    hide Drain, PickNextAlpha, Marks, ApplyAll, HasPending, Tracks, AllAllowed;
    var marks := Marks(PickNextAlpha(l), established);
    var drained := Drain(ApplyAll(l, marks), l.config.maxRecvPerRound, arrivals).1;
    TracksOrdered(l);
    PicksAskable(l);
    MarksAllowed(l, PickNextAlpha(l), established);
    RoundAllowed(l, marks, arrivals);
    RunTracks(l, marks + drained + SKIPS);
    ApplyAppend(l, marks + drained, SKIPS);
    SkipsLeaveNothingPending(ApplyAll(l, marks + drained));
  }

  lemma {:induction false} CollisionUnsettles(l: Lookup, roundsLeft: nat, rounds: seq<Round>)
    requires Tracks(l) && !ApartAlong(l, roundsLeft, rounds)
    requires Drive(l, roundsLeft, rounds).outcome.Returned?
    ensures !Settled(ApplyAll(l, Drive(l, roundsLeft, rounds).ops))
    decreases roundsLeft
  {
    hide Drain, PickNextAlpha, Marks, IsDone, ApplyAll, HasPending, SendAll, Settled, Tracks, Apart, AllAllowed;
    var picks := PickNextAlpha(l);
    var established := rounds[0].Established();
    var marks := Marks(picks, established);
    var (stop, drained) := Drain(ApplyAll(l, marks), l.config.maxRecvPerRound, rounds[0].arrivals);
    DrainNeverReturns(ApplyAll(l, marks), l.config.maxRecvPerRound, rounds[0].arrivals);
    var round := marks + drained + SKIPS;
    var next := ApplyAll(l, round);
    var rest := Drive(next, roundsLeft - 1, rounds[1..]).ops;
    RoundEnds(l, established, rounds[0].arrivals);
    ApplyAppend(l, round, rest);
    if Apart(picks) {
      CollisionUnsettles(next, roundsLeft - 1, rounds[1..]);
    } else {
      DriveAllowed(next, roundsLeft - 1, rounds[1..]);
      DrainTakesNoMarks(ApplyAll(l, marks), l.config.maxRecvPerRound, rounds[0].arrivals);
      RoundStrands(l, established, drained + SKIPS);
      assert marks + (drained + SKIPS) == round;
      var e :| Stranded(next, e);
      StrandedForever(next, rest, e);
      StrandedUnsettled(ApplyAll(next, rest), e);
    }
  }

  lemma StrandedUnsettled(l: Lookup, e: Entry)
    requires Stranded(l, e)
    ensures !Settled(l)
  {
  }

  lemma RoundStrands(l: Lookup, established: set<UdpAddr>, after: seq<LookupOp>)
    requires Tracks(l) && !Apart(PickNextAlpha(l))
    requires AllAllowed(l, Marks(PickNextAlpha(l), established))
    requires forall i :: 0 <= i < |after| ==> !IsMark(after[i])
    ensures exists e :: Stranded(ApplyAll(l, Marks(PickNextAlpha(l), established) + after), e)
  {
    hide PickNextAlpha, Marks, ApplyAll, Tracks, AllAllowed, Stranded;
    var picks := PickNextAlpha(l);
    var marks := Marks(picks, established);
    TracksOrdered(l);
    PicksAskable(l);
    var i, j :| 0 <= i < j < |picks| && picks[i].addr == picks[j].addr;
    var e := TwinsStrand(l, picks, established, i, j);
    RunTracks(l, marks);
    NoMarksAllowed(ApplyAll(l, marks), after);
    StrandedForever(ApplyAll(l, marks), after, e);
    ApplyAppend(l, marks, after);
  }

  /**
   * Who is left hanging.  When a lookup returns, everyone it contacted has
   * answered or was given up exactly when no round picked two peers at one
   * address: the pending tables are keyed by address, so asking or dialling a
   * second peer there loses track of the first for good.  If nobody is left
   * hanging and the lookup had rounds to spare and peers to ask, everyone in
   * the results has answered or was given up.
   */
  lemma SettledExactly(selfId: NodeId, target: NodeId, config: Config, initial: seq<Peer>, rounds: seq<Round>)
    requires RunLookup(selfId, target, config, initial, rounds).outcome.Returned?
    ensures var l0 := NewLookup(selfId, target, config, initial);
            var d := RunLookup(selfId, target, config, initial, rounds);
            var l := ApplyAll(l0, d.ops);
            && ((forall e :: e in l.entries ==> e.status.Unqueried? || e.status.Done? || e.status.Skipped?)
                <==> ApartAlong(l0, config.maxRounds, rounds))
            && (ApartAlong(l0, config.maxRounds, rounds) && d.outcome.roundsLeft > 0 && config.alpha > 0 ==>
                  forall e :: e in TopEntries(l) ==> e.status.Done? || e.status.Skipped?)
  {
    hide NewLookup, ApplyAll, Drive, Tracks, ApartAlong, NearestLearned, Metric, HasPending;
    var l0 := NewLookup(selfId, target, config, initial);
    NewTracks(selfId, target, config, initial);
    FreshLookup(selfId, target, config, initial);
    NewSettled(selfId, target, config, initial);
    if ApartAlong(l0, config.maxRounds, rounds) {
      ApartSettles(l0, config.maxRounds, rounds);
    } else {
      CollisionUnsettles(l0, config.maxRounds, rounds);
    }
    LookupConverges(selfId, target, config, initial, rounds);
  }

  lemma {:induction false} SeedsUnqueried(selfId: NodeId, target: NodeId, peers: seq<Peer>)
    ensures forall e :: e in Seeds(selfId, target, peers) ==> e.status.Unqueried?
  {
    if peers != [] {
      var (before, p) := (peers[..|peers| - 1], peers[|peers| - 1]);
      SeedsUnqueried(selfId, target, before);
      SeedsBook(selfId, target, before);
      InsertExactly(Seeds(selfId, target, before), target, Entry(p.id, p.addr, Unqueried));
      hide Insert, Ordered, Metric, Known, Place;
    }
  }

  lemma NewSettled(selfId: NodeId, target: NodeId, config: Config, initial: seq<Peer>)
    ensures Settled(NewLookup(selfId, target, config, initial))
  {
    hide Seeds;
    SeedsUnqueried(selfId, target, initial);
  }
}
