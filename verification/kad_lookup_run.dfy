/** What holds of a lookup over every sequence of transitions. */
module KadLookupRun {
  import opened Prelude
  import opened Addresses
  import opened KadIds
  import opened KadTable
  import opened KadRouting
  import opened KadLookup

  lemma {:induction false} ApplyAppend(l: Lookup, a: seq<LookupOp>, b: seq<LookupOp>)
    ensures ApplyAll(l, a + b) == ApplyAll(ApplyAll(l, a), b)
    decreases |a|
  {
    hide Apply;
    if a == [] {
      assert a + b == b;
    } else {
      assert (a + b)[1..] == a[1..] + b;
      ApplyAppend(Apply(l, a[0]), a[1..], b);
    }
  }

  function Advertised(op: LookupOp): seq<Peer> {
    if op.RecordResponse? then op.peers else []
  }

  lemma MarkShape(l: Lookup, op: LookupOp)
    requires Ordered(l.entries, l.target) && (op.MarkInFlight? || op.MarkDialing?)
    ensures Ordered(Apply(l, op).entries, l.target) && SamePeers(l.entries, Apply(l, op).entries)
  {
    hide Merge, SkipAll, Ordered, SamePeers, KadLookup.SetStatus;
    SetStatusExactly(l.entries, l.target, op.peer.id, if op.MarkInFlight? then InFlight else Dialing);
  }

  lemma CompleteShape(l: Lookup, op: LookupOp)
    requires Ordered(l.entries, l.target) && op.CompleteDial?
    ensures Ordered(Apply(l, op).entries, l.target) && SamePeers(l.entries, Apply(l, op).entries)
  {
    hide Merge, SkipAll, Ordered, KadLookup.SetStatus;
    if op.addr in l.pendingDials { SetStatusExactly(l.entries, l.target, l.pendingDials[op.addr], Unqueried); }
  }

  lemma ResponseShape(l: Lookup, op: LookupOp)
    requires Ordered(l.entries, l.target) && op.RecordResponse?
    ensures Ordered(Apply(l, op).entries, l.target)
    ensures SamePeers(Merge(l.entries, l.selfId, l.target, op.peers), Apply(l, op).entries)
  {
    hide Merge, SkipAll, Ordered, KadLookup.SetStatus, Nearer;
    var merged := Merge(l.entries, l.selfId, l.target, op.peers);
    MergeKeeps(l.entries, l.selfId, l.target, op.peers);
    if op.from in l.pendingQueries { SetStatusExactly(merged, l.target, l.pendingQueries[op.from], Done); }
  }

  lemma SkipShape(l: Lookup, op: LookupOp)
    requires Ordered(l.entries, l.target) && (op.SkipPendingQueries? || op.SkipPendingDials?)
    ensures Ordered(Apply(l, op).entries, l.target) && SamePeers(l.entries, Apply(l, op).entries)
  {
    hide Merge, SkipAll, Ordered, SamePeers, KadLookup.SetStatus;
    SkipAllExactly(l.entries, l.target, if op.SkipPendingQueries? then l.pendingQueries else l.pendingDials);
  }

  lemma ApplyKeepsTerms(l: Lookup, op: LookupOp)
    ensures var l' := Apply(l, op); l'.selfId == l.selfId && l'.target == l.target && l'.config == l.config
  {
    hide Merge, SkipAll, KadLookup.SetStatus;
  }

  /** Outside a response, a transition changes statuses alone. */
  lemma ApplyShape(l: Lookup, op: LookupOp)
    requires Ordered(l.entries, l.target)
    ensures Ordered(Apply(l, op).entries, l.target)
    ensures var l' := Apply(l, op); l'.selfId == l.selfId && l'.target == l.target && l'.config == l.config
    ensures SamePeers(if op.RecordResponse? then Merge(l.entries, l.selfId, l.target, op.peers) else l.entries,
                      Apply(l, op).entries)
  {
    hide Apply, Merge, Ordered, SamePeers;
    ApplyKeepsTerms(l, op);
    match op
    case MarkInFlight(_) => MarkShape(l, op);
    case MarkDialing(_) => MarkShape(l, op);
    case CompleteDial(_) => CompleteShape(l, op);
    case RecordResponse(_, _) => ResponseShape(l, op);
    case SkipPendingQueries => SkipShape(l, op);
    case SkipPendingDials => SkipShape(l, op);
  }

  lemma StepBook(l: Lookup, initial: seq<Peer>, heard: seq<Peer>, op: LookupOp)
    requires IsBook(l, initial, heard)
    ensures IsBook(Apply(l, op), initial, heard + Advertised(op))
  {
    ApplyShape(l, op);
    if op.RecordResponse? {
      MergeBook(l, initial, heard, op.peers);
      SamePeersBook(l.(entries := Merge(l.entries, l.selfId, l.target, op.peers)), initial, heard + op.peers,
                    Apply(l, op).entries);
    } else {
      assert heard + [] == heard;
      SamePeersBook(l, initial, heard, Apply(l, op).entries);
    }
  }

  lemma {:induction false} RunBook(l: Lookup, initial: seq<Peer>, heard: seq<Peer>, ops: seq<LookupOp>)
    requires IsBook(l, initial, heard)
    ensures IsBook(ApplyAll(l, ops), initial, heard + Heard(ops))
    decreases |ops|
  {
    hide IsBook, Apply;
    if ops == [] {
      assert heard + [] == heard;
    } else {
      StepBook(l, initial, heard, ops[0]);
      RunBook(Apply(l, ops[0]), initial, heard + Advertised(ops[0]), ops[1..]);
      assert heard + Advertised(ops[0]) + Heard(ops[1..]) == heard + Heard(ops);
    }
  }

  /**
   * Whatever transitions a lookup takes, its shortlist is exactly the peers it
   * has learned, one entry an id, never itself, each at the address the seeds
   * gave last or else the responses gave first.
   */
  lemma ShortlistIsBook(selfId: NodeId, target: NodeId, config: Config, initial: seq<Peer>, ops: seq<LookupOp>)
    ensures IsBook(ApplyAll(NewLookup(selfId, target, config, initial), ops), initial, Heard(ops))
  {
    var l := NewLookup(selfId, target, config, initial);
    SeedsBook(selfId, target, initial);
    assert IsBook(l, initial, []);
    RunBook(l, initial, [], ops);
    assert [] + Heard(ops) == Heard(ops);
  }

  /** `r` is the `k` nearest of the peers learned, nearest first. */
  ghost predicate NearestLearned(selfId: NodeId, target: NodeId, k: nat, initial: seq<Peer>, heard: seq<Peer>,
                                 r: seq<Peer>)
  {
    && |r| <= k && Ascending(r, target)
    && (forall i :: 0 <= i < |r| ==> r[i].id != selfId && AddressOf(initial, heard, r[i].id) == Some(r[i].addr))
    && forall id :: id != selfId && AddressOf(initial, heard, id).Some? ==>
         || (exists i :: 0 <= i < |r| && r[i].id == id)
         || (|r| == k && forall i :: 0 <= i < |r| ==> Metric(r[i].id, target) < Metric(id, target))
  }

  lemma BookResults(l: Lookup, initial: seq<Peer>, heard: seq<Peer>)
    requires IsBook(l, initial, heard)
    ensures NearestLearned(l.selfId, l.target, l.config.k, initial, heard, TopK(l))
  {
    hide Metric, AddressOf;
    var r, es := TopK(l), l.entries;
    forall i | 0 <= i < |r|
      ensures r[i].id != l.selfId && AddressOf(initial, heard, r[i].id) == Some(r[i].addr)
    {
      assert Lists(es, es[i].id, es[i].addr);
    }
    forall id | id != l.selfId && AddressOf(initial, heard, id).Some? && forall i :: 0 <= i < |r| ==> r[i].id != id
      ensures |r| == l.config.k && forall i :: 0 <= i < |r| ==> Metric(r[i].id, l.target) < Metric(id, l.target)
    {
      assert Lists(es, id, AddressOf(initial, heard, id).value);
      var j :| 0 <= j < |es| && es[j].id == id;
      assert forall i :: 0 <= i < |r| ==> es[i].id != id by {
        assert forall i :: 0 <= i < |r| ==> r[i].id == es[i].id;
      }
    }
  }

  lemma ResultsAreNearestLearned(selfId: NodeId, target: NodeId, config: Config, initial: seq<Peer>,
                                 ops: seq<LookupOp>)
    ensures NearestLearned(selfId, target, config.k, initial, Heard(ops),
                           TopK(ApplyAll(NewLookup(selfId, target, config, initial), ops)))
  {
    var l := NewLookup(selfId, target, config, initial);
    ShortlistIsBook(selfId, target, config, initial, ops);
    BookResults(ApplyAll(l, ops), initial, Heard(ops));
    RunKeepsTerms(l, ops);
  }

  lemma {:induction false} RunKeepsTerms(l: Lookup, ops: seq<LookupOp>)
    ensures var m := ApplyAll(l, ops); m.selfId == l.selfId && m.target == l.target && m.config == l.config
    decreases |ops|
  {
    if ops != [] { RunKeepsTerms(Apply(l, ops[0]), ops[1..]); }
  }

  lemma SamePeersNearer(es: seq<Entry>, fs: seq<Entry>, gs: seq<Entry>, target: NodeId)
    requires Nearer(es, fs, target) && SamePeers(fs, gs)
    ensures Nearer(es, gs, target)
  {
    hide Metric;
  }

  lemma {:induction false} RunNearer(l: Lookup, ops: seq<LookupOp>)
    requires Ordered(l.entries, l.target)
    ensures Ordered(ApplyAll(l, ops).entries, l.target) && Nearer(l.entries, ApplyAll(l, ops).entries, l.target)
    decreases |ops|
  {
    hide Metric, Ordered, Apply, Merge;
    if ops != [] {
      var l' := Apply(l, ops[0]);
      ApplyShape(l, ops[0]);
      if ops[0].RecordResponse? { MergeKeeps(l.entries, l.selfId, l.target, ops[0].peers); }
      SamePeersNearer(l.entries, if ops[0].RecordResponse? then Merge(l.entries, l.selfId, l.target, ops[0].peers)
                                 else l.entries, l'.entries, l.target);
      RunNearer(l', ops[1..]);
    }
  }

  /** As a lookup goes on, its results never get fewer and the i-th never gets farther. */
  lemma ResultsOnlyImprove(l: Lookup, ops: seq<LookupOp>)
    requires Ordered(l.entries, l.target)
    ensures var (r, s) := (TopK(l), TopK(ApplyAll(l, ops)));
            |r| <= |s| && forall i :: 0 <= i < |r| ==> Metric(s[i].id, l.target) <= Metric(r[i].id, l.target)
  {
    RunNearer(l, ops);
    RunKeepsTerms(l, ops);
    hide Metric;
  }

  // --- Which peers are waited for ---

  /** Every address waited on belongs to a peer in the matching state. */
  predicate Tracks(l: Lookup) {
    && Ordered(l.entries, l.target)
    && (forall a :: a in l.pendingQueries ==> Entry(l.pendingQueries[a], a, InFlight) in l.entries)
    && (forall a :: a in l.pendingDials ==> Entry(l.pendingDials[a], a, Dialing) in l.entries)
  }

  /** The driver marks only peers it has picked, and picks only unqueried ones. */
  predicate Allowed(l: Lookup, op: LookupOp) {
    match op
    case MarkInFlight(p) => Entry(p.id, p.addr, Unqueried) in l.entries
    case MarkDialing(p) => Entry(p.id, p.addr, Unqueried) in l.entries
    case _ => true
  }

  lemma OneEntryPerId(es: seq<Entry>, target: NodeId, x: Entry, y: Entry)
    requires Ordered(es, target) && x in es && y in es && x.id == y.id
    ensures x == y
  {
    hide Metric;
  }

  /** The shortlist with the newcomers of `op` merged in. */
  function Joined(l: Lookup, op: LookupOp): seq<Entry> {
    if op.RecordResponse? then Merge(l.entries, l.selfId, l.target, op.peers) else l.entries
  }

  /** The status a transition leaves an entry with. */
  function Next(l: Lookup, op: LookupOp, e: Entry): Status {
    match op
    case MarkInFlight(p) => if e.id == p.id then InFlight else e.status
    case MarkDialing(p) => if e.id == p.id then Dialing else e.status
    case CompleteDial(a) => if a in l.pendingDials && e.id == l.pendingDials[a] then Unqueried else e.status
    case RecordResponse(a, _) => if a in l.pendingQueries && e.id == l.pendingQueries[a] then Done else e.status
    case SkipPendingQueries => if e.id in l.pendingQueries.Values then Skipped else e.status
    case SkipPendingDials => if e.id in l.pendingDials.Values then Skipped else e.status
  }

  /** Every transition is the merge followed by `Next`, entry by entry. */
  lemma ApplyExactly(l: Lookup, op: LookupOp)
    requires Ordered(l.entries, l.target)
    ensures var (es, fs) := (Joined(l, op), Apply(l, op).entries);
            |fs| == |es| && forall i :: 0 <= i < |es| ==> fs[i] == es[i].(status := Next(l, op, es[i]))
    ensures Ordered(Joined(l, op), l.target) && Ordered(Apply(l, op).entries, l.target)
  {
    hide Ordered, Metric;
    if op.RecordResponse? { MergeKeeps(l.entries, l.selfId, l.target, op.peers); }
    var es := Joined(l, op);
    match op
    case MarkInFlight(p) => SetStatusExactly(es, l.target, p.id, InFlight);
    case MarkDialing(p) => SetStatusExactly(es, l.target, p.id, Dialing);
    case CompleteDial(addr) =>
      if addr in l.pendingDials { SetStatusExactly(es, l.target, l.pendingDials[addr], Unqueried); }
    case RecordResponse(from, peers) =>
      if from in l.pendingQueries { SetStatusExactly(es, l.target, l.pendingQueries[from], Done); }
    case SkipPendingQueries => SkipAllExactly(es, l.target, l.pendingQueries);
    case SkipPendingDials => SkipAllExactly(es, l.target, l.pendingDials);
  }

  predicate IsNew(l: Lookup, e: Entry) {
    e.status.Unqueried? && !Known(l.entries, e.id)
  }

  /** Entries before and after: each old entry survives with its next status; the rest are newcomers. */
  lemma ApplyMembers(l: Lookup, op: LookupOp)
    requires Ordered(l.entries, l.target)
    ensures forall e :: e in l.entries ==> e.(status := Next(l, op, e)) in Apply(l, op).entries
    ensures forall x :: x in Apply(l, op).entries ==>
              exists e: Entry :: x == e.(status := Next(l, op, e)) && (e in l.entries || IsNew(l, e))
  {
    hide Next, Apply, Ordered, Metric, Merge;
    ApplyExactly(l, op);
    if op.RecordResponse? { MergeMembers(l.entries, l.selfId, l.target, op.peers); }
    var (es, fs) := (Joined(l, op), Apply(l, op).entries);
    forall e | e in l.entries
      ensures e.(status := Next(l, op, e)) in fs
    {
      var i :| 0 <= i < |es| && es[i] == e;
      assert fs[i] == e.(status := Next(l, op, e));
    }
    forall x | x in fs
      ensures exists e: Entry :: x == e.(status := Next(l, op, e)) && (e in l.entries || IsNew(l, e))
    {
      var i :| 0 <= i < |fs| && fs[i] == x;
      assert es[i] in es && x == es[i].(status := Next(l, op, es[i]));
    }
  }

  /** The status diagram of one peer. */
  predicate Edge(before: Status, after: Status) {
    match before
    case Unqueried => after.InFlight? || after.Dialing?
    case Dialing => after.Unqueried? || after.Skipped?
    case InFlight => after.Done? || after.Skipped?
    case Done => false
    case Skipped => false
  }

  /** Whom a pending address stands for. */
  lemma PendingEntry(l: Lookup, e: Entry)
    requires Tracks(l) && (e in l.entries || IsNew(l, e))
    ensures forall a :: a in l.pendingQueries && l.pendingQueries[a] == e.id ==> e.addr == a && e.status.InFlight?
    ensures forall a :: a in l.pendingDials && l.pendingDials[a] == e.id ==> e.addr == a && e.status.Dialing?
  {
    hide Ordered;
    forall a | a in l.pendingQueries && l.pendingQueries[a] == e.id
      ensures e.addr == a && e.status.InFlight?
    {
      OwnEntry(l, e, Entry(e.id, a, InFlight));
    }
    forall a | a in l.pendingDials && l.pendingDials[a] == e.id
      ensures e.addr == a && e.status.Dialing?
    {
      OwnEntry(l, e, Entry(e.id, a, Dialing));
    }
  }

  lemma OwnEntry(l: Lookup, e: Entry, x: Entry)
    requires Ordered(l.entries, l.target) && x in l.entries && (e in l.entries || IsNew(l, e)) && x.id == e.id
    ensures e == x
  {
    var i :| 0 <= i < |l.entries| && l.entries[i] == x;
    assert Known(l.entries, e.id);
    OneEntryPerId(l.entries, l.target, e, x);
  }

  /** An allowed transition moves an entry only along an edge of the diagram; done and skipped are final. */
  lemma NextFollowsDiagram(l: Lookup, op: LookupOp, e: Entry)
    requires Tracks(l) && Allowed(l, op) && (e in l.entries || IsNew(l, e))
    ensures Next(l, op, e) == e.status || Edge(e.status, Next(l, op, e))
  {
    hide Tracks;
    PendingEntry(l, e);
    if (op.MarkInFlight? || op.MarkDialing?) && op.peer.id == e.id {
      TracksOrdered(l);
      OwnEntry(l, e, Entry(op.peer.id, op.peer.addr, Unqueried));
    }
  }

  lemma TracksOrdered(l: Lookup)
    requires Tracks(l)
    ensures Ordered(l.entries, l.target)
  {
  }

  lemma EntrySurvives(l: Lookup, op: LookupOp, e: Entry)
    requires Ordered(l.entries, l.target) && e in l.entries
    ensures e.(status := Next(l, op, e)) in Apply(l, op).entries
  {
    hide Next, Apply, Ordered;
    ApplyMembers(l, op);
  }

  lemma StepTracks(l: Lookup, op: LookupOp)
    requires Tracks(l) && Allowed(l, op)
    ensures Tracks(Apply(l, op))
  {
    ApplyShape(l, op);
    hide Apply, Ordered;
    var l' := Apply(l, op);
    forall a | a in l'.pendingQueries
      ensures Entry(l'.pendingQueries[a], a, InFlight) in l'.entries
    {
      StillAwaited(l, op, a);
    }
    forall a | a in l'.pendingDials
      ensures Entry(l'.pendingDials[a], a, Dialing) in l'.entries
    {
      StillDialled(l, op, a);
    }
  }

  /** The pending tables after a transition. */
  function NextQueries(l: Lookup, op: LookupOp): map<UdpAddr, NodeId> {
    match op
    case MarkInFlight(p) => l.pendingQueries[p.addr := p.id]
    case RecordResponse(from, _) => l.pendingQueries - {from}
    case SkipPendingQueries => map[]
    case _ => l.pendingQueries
  }

  function NextDials(l: Lookup, op: LookupOp): map<UdpAddr, NodeId> {
    match op
    case MarkDialing(p) => l.pendingDials[p.addr := p.id]
    case CompleteDial(addr) => l.pendingDials - {addr}
    case SkipPendingDials => map[]
    case _ => l.pendingDials
  }

  lemma PendingExactly(l: Lookup, op: LookupOp)
    ensures Apply(l, op).pendingQueries == NextQueries(l, op)
    ensures Apply(l, op).pendingDials == NextDials(l, op)
  {
    hide Merge, KadLookup.SetStatus, SkipAll;
    match op
    case CompleteDial(addr) => assert addr !in l.pendingDials ==> l.pendingDials - {addr} == l.pendingDials;
    case RecordResponse(from, _) => assert from !in l.pendingQueries ==> l.pendingQueries - {from} == l.pendingQueries;
    case _ =>
  }

  /** Where a pending query comes from: it was pending before, or has just been marked. */
  lemma AwaitedBefore(l: Lookup, op: LookupOp, a: UdpAddr)
    requires a in NextQueries(l, op)
    ensures if op.MarkInFlight? && op.peer.addr == a then NextQueries(l, op)[a] == op.peer.id
            else a in l.pendingQueries && NextQueries(l, op)[a] == l.pendingQueries[a]
  {
  }

  lemma DialledBefore(l: Lookup, op: LookupOp, a: UdpAddr)
    requires a in NextDials(l, op)
    ensures if op.MarkDialing? && op.peer.addr == a then NextDials(l, op)[a] == op.peer.id
            else a in l.pendingDials && NextDials(l, op)[a] == l.pendingDials[a]
  {
  }

  lemma MarkedUnqueried(l: Lookup, op: LookupOp, e: Entry)
    requires Ordered(l.entries, l.target) && (op.MarkInFlight? || op.MarkDialing?) && Allowed(l, op) && e in l.entries
    ensures e.id == op.peer.id ==> e == Entry(op.peer.id, op.peer.addr, Unqueried)
  {
    hide Ordered;
    if e.id == op.peer.id { OneEntryPerId(l.entries, l.target, e, Entry(op.peer.id, op.peer.addr, Unqueried)); }
  }

  lemma AwaitedStatus(l: Lookup, op: LookupOp, e: Entry)
    requires Tracks(l) && Allowed(l, op) && e in l.entries && e.addr in NextQueries(l, op) && NextQueries(l, op)[e.addr] == e.id
    requires if op.MarkInFlight? && op.peer.addr == e.addr then e.status.Unqueried? else e.status.InFlight?
    ensures Next(l, op, e) == InFlight
  {
    TracksOrdered(l);
    PendingEntry(l, e);
    if op.MarkInFlight? || op.MarkDialing? { MarkedUnqueried(l, op, e); }
    hide Tracks, Ordered, Allowed, Known;
  }

  lemma DialledStatus(l: Lookup, op: LookupOp, e: Entry)
    requires Tracks(l) && Allowed(l, op) && e in l.entries && e.addr in NextDials(l, op) && NextDials(l, op)[e.addr] == e.id
    requires if op.MarkDialing? && op.peer.addr == e.addr then e.status.Unqueried? else e.status.Dialing?
    ensures Next(l, op, e) == Dialing
  {
    TracksOrdered(l);
    PendingEntry(l, e);
    if op.MarkInFlight? || op.MarkDialing? { MarkedUnqueried(l, op, e); }
    hide Tracks, Ordered, Allowed, Known;
  }

  lemma StillAwaited(l: Lookup, op: LookupOp, a: UdpAddr)
    requires Tracks(l) && Allowed(l, op) && a in Apply(l, op).pendingQueries
    ensures Entry(Apply(l, op).pendingQueries[a], a, InFlight) in Apply(l, op).entries
  {
    hide Apply, Ordered, NextQueries, NextDials, Next;
    TracksOrdered(l);
    PendingExactly(l, op);
    AwaitedBefore(l, op, a);
    var e := Entry(NextQueries(l, op)[a], a, if op.MarkInFlight? && op.peer.addr == a then Unqueried else InFlight);
    assert e in l.entries;
    AwaitedStatus(l, op, e);
    EntrySurvives(l, op, e);
  }

  lemma StillDialled(l: Lookup, op: LookupOp, a: UdpAddr)
    requires Tracks(l) && Allowed(l, op) && a in Apply(l, op).pendingDials
    ensures Entry(Apply(l, op).pendingDials[a], a, Dialing) in Apply(l, op).entries
  {
    hide Apply, Ordered, NextQueries, NextDials, Next;
    TracksOrdered(l);
    PendingExactly(l, op);
    DialledBefore(l, op, a);
    var e := Entry(NextDials(l, op)[a], a, if op.MarkDialing? && op.peer.addr == a then Unqueried else Dialing);
    assert e in l.entries;
    DialledStatus(l, op, e);
    EntrySurvives(l, op, e);
  }
}
