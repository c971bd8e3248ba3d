/** What holds of every routing table that a run of inserts, removals and kad events can reach. */
module KadRouting {
  import opened Prelude
  import opened KadIds
  import opened KadMetric
  import opened KadTable

  lemma NewTableOk(selfId: NodeId, k: nat)
    ensures TableInv(NewTable(selfId, k)) && TableMru(NewTable(selfId, k), [])
  {
  }

  lemma InsertKeepsSelf(t: RoutingTable, peer: Peer)
    ensures TableInsert(t, peer).0.selfId == t.selfId && TableInsert(t, peer).0.k == t.k
  {
    hide BucketIndex, DistanceTo, BucketInsert;
  }

  lemma {:induction false} OfferAllKeeps(t: RoutingTable, touched: seq<NodeId>, peers: seq<Peer>)
    requires TableInv(t) && TableMru(t, touched)
    ensures var (t', more) := OfferAll(t, peers);
            TableInv(t') && TableMru(t', touched + more) && t'.selfId == t.selfId && t'.k == t.k
    decreases |peers|
  {
    hide TableInv, TableMru, TableInsert, Touch;
    if peers == [] {
      assert touched + [] == touched;
    } else {
      OfferAllKeeps(t, touched, peers[..|peers| - 1]);
      var (t1, more) := OfferAll(t, peers[..|peers| - 1]);
      var last := peers[|peers| - 1];
      InsertKeepsMru(t1, touched + more, last);
      TableInsertInv(t1, last);
      InsertKeepsSelf(t1, last);
      assert touched + (more + Touch(t1, last)) == touched + more + Touch(t1, last);
    }
  }

  lemma {:induction false} WithoutOrder(entries: seq<Peer>, id: NodeId, touched: seq<NodeId>)
    requires MruOrder(entries, touched)
    ensures MruOrder(Without(entries, id), touched)
  {
    hide LastSeen;
    if entries != [] {
      var tail := entries[1..];
      assert forall i :: 0 <= i < |tail| ==> tail[i] == entries[i + 1];
      WithoutOrder(tail, id, touched);
      WithoutMembers(tail, id);
      var rest := Without(tail, id);
      forall j | 0 <= j < |rest|
        ensures LastSeen(touched, entries[0].id) > LastSeen(touched, rest[j].id)
      {
        assert rest[j] in tail;
        var m :| 0 <= m < |tail| && tail[m] == rest[j];
        assert entries[m + 1] == rest[j];
      }
    }
  }

  lemma RemoveKeepsMru(t: RoutingTable, touched: seq<NodeId>, id: NodeId)
    requires TableMru(t, touched)
    ensures TableMru(TableRemove(t, id), touched)
  {
    hide BucketIndex, DistanceTo, MruOrder;
    var index := BucketIndex(DistanceTo(t.selfId, id));
    if index.Some? && index.value < |t.buckets| {
      WithoutOrder(t.buckets[index.value].entries, id, touched);
    }
  }

  lemma RemoveKeepsSelf(t: RoutingTable, id: NodeId)
    ensures TableRemove(t, id).selfId == t.selfId && TableRemove(t, id).k == t.k
  {
    hide BucketIndex, DistanceTo;
  }

  /**
   * Over any run, each peer sits only in the bucket of its distance to self,
   * buckets hold at most k distinct ids, and each bucket lists its peers in
   * the order in which they were last seen, most recent first.
   */
  lemma {:induction false} RunPlacement(selfId: NodeId, k: nat, ops: seq<TableOp>)
    ensures var (t, touched) := TableRun(selfId, k, ops);
            TableInv(t) && TableMru(t, touched) && t.selfId == selfId && t.k == k
    decreases |ops|
  {
    hide TableInv, TableMru, TableRemove, OfferAll, Offers;
    if ops == [] {
      NewTableOk(selfId, k);
    } else {
      var before := ops[..|ops| - 1];
      RunPlacement(selfId, k, before);
      var (t, touched) := TableRun(selfId, k, before);
      match ops[|ops| - 1]
      case Drop(id) =>
        TableRemoveInv(t, id);
        RemoveKeepsMru(t, touched, id);
        RemoveKeepsSelf(t, id);
        assert touched + [] == touched;
      case op => OfferAllKeeps(t, touched, Offers(t.selfId, op));
    }
  }

  predicate InItsBucket(t: RoutingTable, id: NodeId) {
    match BucketIndex(DistanceTo(t.selfId, id))
    case None => false
    case Some(i) => i < |t.buckets| && t.buckets[i].Contains(id)
  }

  /** Scanning every bucket finds an id exactly when its own bucket holds it; the local node is never held. */
  lemma ContainsIsLocal(t: RoutingTable, id: NodeId)
    requires TableInv(t)
    ensures TableContains(t, id) <==> InItsBucket(t, id)
    ensures !TableContains(t, t.selfId)
  {
    hide BucketIndex, DistanceTo;
    SelfHasNoBucket(t.selfId);
    if TableContains(t, id) {
      var i :| 0 <= i < |t.buckets| && t.buckets[i].Contains(id);
      assert BucketOk(t, i, t.buckets[i]);
    }
    forall i | 0 <= i < |t.buckets|
      ensures !t.buckets[i].Contains(t.selfId)
    {
      assert BucketOk(t, i, t.buckets[i]);
    }
  }

  lemma SelfHasNoBucket(id: NodeId)
    ensures BucketIndex(DistanceTo(id, id)) == None
  {
    DistanceZero(id, id);
  }

  /**
   * A full bucket changes nothing and, when it holds anyone at all, names the
   * member that was seen least recently of all; with k = 0 it names the
   * all-zero id.
   */
  lemma FullBucketNamesLeastRecent(selfId: NodeId, k: nat, ops: seq<TableOp>, peer: Peer)
    requires TableInsert(TableRun(selfId, k, ops).0, peer).1.BucketFull?
    ensures var (t, touched) := TableRun(selfId, k, ops);
            var candidate := TableInsert(t, peer).1.lruCandidate;
            && TableInsert(t, peer).0 == t
            && (k == 0 ==> candidate == ZeroId())
            && (k > 0 ==>
                 var i := BucketIndex(DistanceTo(selfId, peer.id));
                 && i.Some? && i.value < |t.buckets|
                 && t.buckets[i.value].Contains(candidate)
                 && forall p :: p in t.buckets[i.value].entries && p.id != candidate ==>
                      LastSeen(touched, candidate) < LastSeen(touched, p.id))
  {
    hide LastSeen, TableRun, DistanceTo, BucketIndex;
    RunPlacement(selfId, k, ops);
    var (t, touched) := TableRun(selfId, k, ops);
    UnchangedWithoutTouch(t, peer);
    var i := BucketIndex(DistanceTo(selfId, peer.id)).value;
    var b := t.buckets[i];
    assert BucketOk(t, i, b) && MruOrder(b.entries, touched);
    if k > 0 { assert b.entries[|b.entries| - 1].id == TableInsert(t, peer).1.lruCandidate; }
  }

  // --- closest_to ---

  function Flatten(buckets: seq<Bucket>): seq<Peer> {
    if buckets == [] then [] else buckets[0].entries + Flatten(buckets[1..])
  }

  function AllPeers(t: RoutingTable): seq<Peer> {
    Flatten(t.buckets)
  }

  function Metric(id: NodeId, target: NodeId): nat {
    Value(DistanceTo(id, target))
  }

  predicate Ascending(peers: seq<Peer>, target: NodeId) {
    forall i, j :: 0 <= i < j < |peers| ==> Metric(peers[i].id, target) < Metric(peers[j].id, target)
  }

  /** The brute-force answer: as many peers as asked for, distinct, nearest first, nobody nearer left out. */
  ghost predicate IsClosest(all: seq<Peer>, target: NodeId, count: nat, r: seq<Peer>) {
    && |r| == Min(count, |all|)
    && (forall i :: 0 <= i < |r| ==> r[i] in all)
    && Ascending(r, target)
    && (forall p, i :: p in all && p !in r && 0 <= i < |r| ==> Metric(r[i].id, target) < Metric(p.id, target))
  }

  lemma {:induction false} FlattenMembers(buckets: seq<Bucket>, p: Peer)
    ensures p in Flatten(buckets) <==> exists i :: 0 <= i < |buckets| && p in buckets[i].entries
  {
    if buckets != [] {
      FlattenMembers(buckets[1..], p);
      if i :| 0 <= i < |buckets| && p in buckets[i].entries && i > 0 {
        assert buckets[1..][i - 1] == buckets[i];
      }
      if j :| 0 <= j < |buckets[1..]| && p in buckets[1..][j].entries {
        assert buckets[j + 1] == buckets[1..][j];
      }
    }
  }

  lemma {:induction false} FlattenDistinct(t: RoutingTable, from: nat)
    requires TableInv(t) && from <= |t.buckets|
    ensures DistinctIds(Flatten(t.buckets[from..]))
    ensures forall p :: p in Flatten(t.buckets[from..]) ==>
              BucketIndex(DistanceTo(t.selfId, p.id)).Some? && BucketIndex(DistanceTo(t.selfId, p.id)).value >= from
    decreases |t.buckets| - from
  {
    hide BucketIndex, DistanceTo;
    if from < |t.buckets| {
      FlattenDistinct(t, from + 1);
      var here, rest := t.buckets[from].entries, Flatten(t.buckets[from + 1..]);
      assert t.buckets[from..][1..] == t.buckets[from + 1..];
      assert BucketOk(t, from, t.buckets[from]);
      assert Flatten(t.buckets[from..]) == here + rest;
      forall i, j | 0 <= i < |here| && 0 <= j < |rest|
        ensures here[i].id != rest[j].id
      {
        assert rest[j] in rest;
      }
    }
  }

  /** Every reachable table lists each of its peers once. */
  lemma AllPeersDistinct(t: RoutingTable)
    requires TableInv(t)
    ensures DistinctIds(AllPeers(t))
    ensures forall p :: p in AllPeers(t) ==> InItsBucket(t, p.id)
  {
    FlattenDistinct(t, 0);
    assert t.buckets[0..] == t.buckets;
    forall p | p in AllPeers(t)
      ensures InItsBucket(t, p.id)
    {
      hide BucketIndex, DistanceTo;
      FlattenMembers(t.buckets, p);
      var i :| 0 <= i < |t.buckets| && p in t.buckets[i].entries;
      assert BucketOk(t, i, t.buckets[i]);
    }
  }

  lemma MetricInjective(a: NodeId, b: NodeId, target: NodeId)
    requires Metric(a, target) == Metric(b, target)
    ensures a == b
  {
    hide DistanceTo;
    Octets.FromBeInjective(DistanceTo(a, target), DistanceTo(b, target));
    DistanceInjective(a, b, target);
  }

  predicate Sorted(peers: seq<Peer>, target: NodeId) {
    forall i, j :: 0 <= i < j < |peers| ==> Metric(peers[i].id, target) <= Metric(peers[j].id, target)
  }

  /** A strictly ascending list, cut off: everything left out is farther than everything kept. */
  lemma PrefixIsClosest(all: seq<Peer>, target: NodeId, count: nat, sorted: seq<Peer>)
    requires Ascending(sorted, target) && |all| == |sorted| && forall p :: p in all <==> p in sorted
    ensures IsClosest(all, target, count, sorted[..Min(count, |sorted|)])
  {
    hide Metric;
    var n := Min(count, |sorted|);
    forall p, i | p in all && p !in sorted[..n] && 0 <= i < n
      ensures Metric(sorted[i].id, target) < Metric(p.id, target)
    {
      var j :| 0 <= j < |sorted| && sorted[j] == p;
      assert forall m :: 0 <= m < n ==> sorted[..n][m] == sorted[m];
    }
  }

  /** A sort of the whole table, cut off at `count`, is the brute-force answer. */
  lemma SortedPrefixIsClosest(t: RoutingTable, target: NodeId, count: nat, sorted: seq<Peer>)
    requires TableInv(t) && Sorted(sorted, target) && multiset(sorted) == multiset(AllPeers(t))
    ensures IsClosest(AllPeers(t), target, count, sorted[..Min(count, |sorted|)])
  {
    hide Metric, TableInv, AllPeers, Sorted, DistinctIds, Ascending, IsClosest;
    AllPeersDistinct(t);
    DistinctSurvivesPermutation(AllPeers(t), sorted);
    StrictlySorted(sorted, target);
    PermutationMembers(AllPeers(t), sorted);
    PrefixIsClosest(AllPeers(t), target, count, sorted);
  }

  lemma StrictlySorted(sorted: seq<Peer>, target: NodeId)
    requires Sorted(sorted, target) && DistinctIds(sorted)
    ensures Ascending(sorted, target)
  {
    hide Metric;
    forall i, j | 0 <= i < j < |sorted|
      ensures Metric(sorted[i].id, target) != Metric(sorted[j].id, target)
    {
      if Metric(sorted[i].id, target) == Metric(sorted[j].id, target) {
        MetricInjective(sorted[i].id, sorted[j].id, target);
      }
    }
  }

  lemma PermutationMembers(a: seq<Peer>, b: seq<Peer>)
    requires multiset(a) == multiset(b)
    ensures |a| == |b| && forall p :: p in a <==> p in b
  {
    assert |multiset(a)| == |multiset(b)|;
    forall p: Peer
      ensures p in a <==> p in b
    {
      assert p in a <==> p in multiset(a);
      assert p in b <==> p in multiset(b);
    }
  }

  lemma TakeOne(a: seq<Peer>, m: nat)
    requires m < |a|
    ensures multiset(a) == multiset(a[..m] + a[m + 1..]) + multiset{a[m]}
  {
    assert a == a[..m] + [a[m]] + a[m + 1..];
  }

  lemma PlaceOfHead(a: seq<Peer>, b: seq<Peer>) returns (m: nat)
    requires b != [] && multiset(a) == multiset(b)
    ensures m < |a| && a[m] == b[0]
  {
    PermutationMembers(a, b);
    assert b[0] in b;
    m :| 0 <= m < |a| && a[m] == b[0];
  }

  lemma RestsMatch(a: seq<Peer>, b: seq<Peer>, m: nat)
    requires b != [] && multiset(a) == multiset(b) && m < |a| && a[m] == b[0]
    ensures multiset(a[..m] + a[m + 1..]) == multiset(b[1..])
  {
    TakeOne(a, m);
    TakeOne(b, 0);
    assert b[..0] + b[1..] == b[1..];
    CancelOne(multiset(a[..m] + a[m + 1..]), multiset(b[1..]), b[0]);
  }

  lemma {:induction false} DistinctSurvivesPermutation(a: seq<Peer>, b: seq<Peer>)
    requires DistinctIds(a) && multiset(a) == multiset(b)
    ensures DistinctIds(b)
    decreases |b|
  {
    if b != [] {
      hide DistinctIds;
      var m := PlaceOfHead(a, b);
      var rest := a[..m] + a[m + 1..];
      RestsMatch(a, b, m);
      OthersDistinct(a, m);
      PermutationMembers(rest, b[1..]);
      DistinctSurvivesPermutation(rest, b[1..]);
      HeadAndTail(b);
    }
  }

  lemma CancelOne(m: multiset<Peer>, n: multiset<Peer>, p: Peer)
    requires m + multiset{p} == n + multiset{p}
    ensures m == n
  {
    assert m == m + multiset{p} - multiset{p};
    assert n == n + multiset{p} - multiset{p};
  }

  lemma OthersDistinct(a: seq<Peer>, m: nat)
    requires DistinctIds(a) && m < |a|
    ensures DistinctIds(a[..m] + a[m + 1..])
    ensures forall p :: p in a[..m] + a[m + 1..] ==> p.id != a[m].id
  {
  }

  lemma HeadAndTail(b: seq<Peer>)
    requires b != [] && DistinctIds(b[1..]) && forall p :: p in b[1..] ==> p.id != b[0].id
    ensures DistinctIds(b)
  {
    forall i, j | 0 <= i < j < |b|
      ensures b[i].id != b[j].id
    {
      assert b[j] == b[1..][j - 1];
      if i > 0 { assert b[i] == b[1..][i - 1]; }
    }
  }

  /** There is only one brute-force answer. */
  lemma ClosestUnique(all: seq<Peer>, target: NodeId, count: nat, r: seq<Peer>, s: seq<Peer>)
    requires DistinctIds(all) && IsClosest(all, target, count, r) && IsClosest(all, target, count, s)
    ensures r == s
  {
    hide Metric, DistinctIds;
    forall n | 0 <= n <= |r|
      ensures r[..n] == s[..n]
    {
      PrefixUnique(all, target, count, r, s, n);
    }
    assert r[..|r|] == r && s[..|s|] == s;
  }

  lemma {:induction false} PrefixUnique(all: seq<Peer>, target: NodeId, count: nat, r: seq<Peer>, s: seq<Peer>, n: nat)
    requires DistinctIds(all) && IsClosest(all, target, count, r) && IsClosest(all, target, count, s) && n <= |r|
    ensures r[..n] == s[..n]
  {
    if n > 0 {
      PrefixUnique(all, target, count, r, s, n - 1);
      NotNearer(all, target, count, r, s, n - 1);
      NotNearer(all, target, count, s, r, n - 1);
      MetricInjective(r[n - 1].id, s[n - 1].id, target);
      SameIdSamePeer(all, r[n - 1], s[n - 1]);
      assert r[..n] == r[..n - 1] + [r[n - 1]] && s[..n] == s[..n - 1] + [s[n - 1]];
    }
  }

  lemma SameIdSamePeer(all: seq<Peer>, p: Peer, q: Peer)
    requires DistinctIds(all) && p in all && q in all && p.id == q.id
    ensures p == q
  {
  }

  lemma NotNearer(all: seq<Peer>, target: NodeId, count: nat, r: seq<Peer>, s: seq<Peer>, n: nat)
    requires IsClosest(all, target, count, r) && IsClosest(all, target, count, s) && n < |r| && r[..n] == s[..n]
    ensures Metric(r[n].id, target) <= Metric(s[n].id, target)
  {
    hide Metric;
    forall i | 0 <= i < n
      ensures r[i] != s[n]
    {
      assert r[i] == r[..n][i] == s[..n][i] == s[i];
      assert Metric(s[i].id, target) < Metric(s[n].id, target);
    }
  }

  /** The fold over the buckets: every bucket is pushed, the one at `index` after the insert. */
  method InsertIntoBucket(t: RoutingTable, index: nat, peer: Peer) returns (next: RoutingTable, outcome: InsertOutcome)
    requires index < |t.buckets|
    ensures next == t.(buckets := t.buckets[index := BucketInsert(t.buckets[index], peer).0])
    ensures outcome == BucketInsert(t.buckets[index], peer).1
  {
    var acc: seq<Bucket> := [];
    outcome := Updated;
    for i := 0 to |t.buckets|
      invariant |acc| == i
      invariant forall j :: 0 <= j < i ==>
                  acc[j] == if j == index then BucketInsert(t.buckets[j], peer).0 else t.buckets[j]
      invariant outcome == if i <= index then Updated else BucketInsert(t.buckets[index], peer).1
    {
      if i == index {
        var (updated, o) := BucketInsert(t.buckets[i], peer);
        acc := acc + [updated];
        outcome := o;
      } else {
        acc := acc + [t.buckets[i]];
      }
    }
    next := t.(buckets := acc);
    assert acc == t.buckets[index := BucketInsert(t.buckets[index], peer).0];
  }

  /** Sort by distance, by insertion. */
  method SortByDistance(peers: seq<Peer>, target: NodeId) returns (sorted: seq<Peer>)
    ensures Sorted(sorted, target) && multiset(sorted) == multiset(peers)
  {
    hide Sorted;
    sorted := [];
    NothingToSort(target);
    for i := 0 to |peers|
      invariant Sorted(sorted, target) && multiset(sorted) == multiset(peers[..i])
    {
      assert peers[..i + 1] == peers[..i] + [peers[i]];
      sorted := InsertSorted(sorted, peers[i], target);
    }
    assert peers[..|peers|] == peers;
  }

  lemma NothingToSort(target: NodeId)
    ensures Sorted([], target)
  {
  }

  /** Insert behind every peer that is not farther away. */
  method InsertSorted(sorted: seq<Peer>, p: Peer, target: NodeId) returns (next: seq<Peer>)
    requires Sorted(sorted, target)
    ensures Sorted(next, target) && multiset(next) == multiset(sorted) + multiset{p}
  {
    hide Metric, Sorted;
    var at := |sorted|;
    while at > 0 && Metric(sorted[at - 1].id, target) > Metric(p.id, target)
      invariant 0 <= at <= |sorted|
      invariant forall j :: at <= j < |sorted| ==> Metric(p.id, target) < Metric(sorted[j].id, target)
    {
      at := at - 1;
    }
    next := sorted[..at] + [p] + sorted[at..];
    InsertedSorted(sorted, at, p, target);
    TakeOne(next, at);
    assert next[..at] + next[at + 1..] == sorted;
  }

  lemma InsertedSorted(sorted: seq<Peer>, at: nat, p: Peer, target: NodeId)
    requires Sorted(sorted, target) && at <= |sorted|
    requires at == 0 || Metric(sorted[at - 1].id, target) <= Metric(p.id, target)
    requires forall j :: at <= j < |sorted| ==> Metric(p.id, target) < Metric(sorted[j].id, target)
    ensures Sorted(sorted[..at] + [p] + sorted[at..], target)
  {
    hide Metric;
    var next := sorted[..at] + [p] + sorted[at..];
    forall i, j | 0 <= i < j < |next|
      ensures Metric(next[i].id, target) <= Metric(next[j].id, target)
    {
      assert next[i] == if i < at then sorted[i] else if i == at then p else sorted[i - 1];
      assert next[j] == if j < at then sorted[j] else if j == at then p else sorted[j - 1];
    }
  }

  /** Up to `count` peers nearest to `target`: pull from every bucket, sort, cut off. */
  method ClosestTo(t: RoutingTable, target: NodeId, count: nat) returns (r: seq<Peer>)
    requires TableInv(t)
    ensures IsClosest(AllPeers(t), target, count, r)
  {
    hide TableInv, IsClosest, Sorted;
    var all: seq<Peer> := [];
    for i := 0 to |t.buckets|
      invariant all + Flatten(t.buckets[i..]) == AllPeers(t)
    {
      assert t.buckets[i..][1..] == t.buckets[i + 1..];
      all := all + t.buckets[i].entries;
    }
    assert all == AllPeers(t);
    var sorted := SortByDistance(all, target);
    r := sorted[..Min(count, |sorted|)];
    SortedPrefixIsClosest(t, target, count, sorted);
  }
}
