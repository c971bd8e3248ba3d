/** A node's lookup from its own routing table: the results are the nearest of all it knew and all it was told. */
module KadLookupNode {
  import opened Prelude
  import opened KadIds
  import opened KadTable
  import opened KadRouting
  import opened KadMembership
  import opened KadLookup
  import opened KadLookupRun
  import opened KadLookupDriver
  import opened KadLookupHeard
  import opened KadLookupConverge

  /** `id` is among `r`, or `r` is full of nearer peers. */
  predicate Beaten(r: seq<Peer>, target: NodeId, k: nat, id: NodeId) {
    || (exists i :: 0 <= i < |r| && r[i].id == id)
    || (|r| == k && forall i :: 0 <= i < |r| ==> Metric(r[i].id, target) < Metric(id, target))
  }

  lemma AscendingDistinct(r: seq<Peer>, target: NodeId)
    requires Ascending(r, target)
    ensures DistinctIds(r)
  {
    hide Metric;
    forall i, j | 0 <= i < j < |r|
      ensures r[i].id != r[j].id
    {
      assert Metric(r[i].id, target) != Metric(r[j].id, target);
    }
  }

  lemma FewerIds(fewer: seq<Peer>, more: seq<Peer>)
    requires DistinctIds(fewer) && DistinctIds(more) && IdsOf(fewer) <= IdsOf(more)
    ensures |fewer| <= |more|
    ensures |fewer| == |more| ==> IdsOf(fewer) == IdsOf(more)
  {
    IdsCounted(fewer);
    IdsCounted(more);
    Subset(IdsOf(fewer), IdsOf(more));
  }

  lemma Subset(a: set<NodeId>, b: set<NodeId>)
    requires a <= b
    ensures |a| <= |b| && (|a| == |b| ==> a == b)
  {
    assert |b - a| == |b| - |a|;
  }

  lemma InIds(r: seq<Peer>, id: NodeId)
    ensures id in IdsOf(r) <==> exists i :: 0 <= i < |r| && r[i].id == id
  {
    if i :| 0 <= i < |r| && r[i].id == id { assert r[i] in r; }
  }

  /** Whoever the seeds beat, the results beat too. */
  lemma SeedsBeat(target: NodeId, k: nat, initial: seq<Peer>, r: seq<Peer>, id: NodeId)
    requires |initial| == k && |r| <= k && Ascending(initial, target) && Ascending(r, target)
    requires forall j :: 0 <= j < k ==> Beaten(r, target, k, initial[j].id)
    requires forall j :: 0 <= j < k ==> Metric(initial[j].id, target) < Metric(id, target)
    ensures Beaten(r, target, k, id)
  {
    hide Metric;
    AscendingDistinct(initial, target);
    AscendingDistinct(r, target);
    if !Beaten(r, target, k, id) {
      forall x | x in IdsOf(initial)
        ensures x in IdsOf(r)
      {
        InIds(initial, x);
        InIds(r, x);
        var j :| 0 <= j < k && initial[j].id == x;
        assert Beaten(r, target, k, initial[j].id);
      }
      FewerIds(initial, r);
      forall i | 0 <= i < |r|
        ensures Metric(r[i].id, target) < Metric(id, target)
      {
        assert r[i] in r;
        InIds(initial, r[i].id);
      }
    }
  }

  /** A table peer that is not a seed is farther than a full set of seeds. */
  lemma LeftOut(t: RoutingTable, target: NodeId, k: nat, initial: seq<Peer>, p: Peer)
    requires TableInv(t) && IsClosest(AllPeers(t), target, k, initial) && p in AllPeers(t) && p !in initial
    ensures |initial| == k && forall j :: 0 <= j < k ==> Metric(initial[j].id, target) < Metric(p.id, target)
  {
    AllPeersDistinct(t);
    hide Metric, AllPeers, TableInv, InItsBucket;
    var all := AllPeers(t);
    AscendingDistinct(initial, target);
    assert IdsOf(initial) <= IdsOf(all);
    FewerIds(initial, all);
    OtherId(all, initial, p);
    InIds(all, p.id);
    assert p.id in IdsOf(all);
  }

  lemma OtherId(all: seq<Peer>, some: seq<Peer>, p: Peer)
    requires DistinctIds(all) && (forall q :: q in some ==> q in all) && p in all && p !in some
    ensures p.id !in IdsOf(some)
  {
    forall q | q in some
      ensures q.id != p.id
    {
      var i, j :| 0 <= i < |all| && all[i] == q && 0 <= j < |all| && all[j] == p;
    }
  }

  /**
   * A node's lookup.  Whatever brought the routing table where it is, a
   * lookup that starts from the table's nearest peers and returns has the
   * nearest of all the node holds and all its responses advertised: whoever
   * is missing from the results is farther than all of a full set of them.
   */
  lemma LookupFromTable(selfId: NodeId, k: nat, ops: seq<TableOp>, target: NodeId, config: Config, initial: seq<Peer>,
                        rounds: seq<Round>, id: NodeId)
    requires IsClosest(AllPeers(TableRun(selfId, k, ops).0), target, config.k, initial)
    requires RunLookup(selfId, target, config, initial, rounds).outcome.Returned?
    ensures var l := NewLookup(selfId, target, config, initial);
            var r := TopK(ApplyAll(l, RunLookup(selfId, target, config, initial, rounds).ops));
            && |r| <= config.k && Ascending(r, target)
            && (id in BookOf(selfId, k, ops) ==> Beaten(r, target, config.k, id))
            && (id != selfId && FirstAddr(DeliveredAlong(l, config.maxRounds, rounds), id).Some? ==>
                  Beaten(r, target, config.k, id))
  {
    var t, m := TableRun(selfId, k, ops).0, BookOf(selfId, k, ops);
    var l := NewLookup(selfId, target, config, initial);
    var r := TopK(ApplyAll(l, RunLookup(selfId, target, config, initial, rounds).ops));
    TableIsBook(selfId, k, ops);
    NeverHoldsSelf(t, m);
    LookupConverges(selfId, target, config, initial, rounds);
    var delivered := DeliveredAlong(l, config.maxRounds, rounds);
    hide *;
    LearnedBeaten(selfId, target, config.k, initial, delivered, r, id);
    if id in m {
      forall j | 0 <= j < |initial|
        ensures Beaten(r, target, config.k, initial[j].id)
      {
        ClosestListed(t, target, config.k, initial, j);
        SeedIsOther(t, m, initial[j]);
        LearnedBeaten(selfId, target, config.k, initial, delivered, r, initial[j].id);
        LastAddrSome(initial, initial[j]);
      }
      HeldBeaten(t, m, target, config.k, initial, r, id);
    }
  }

  /** Whoever is learned is beaten by the results. */
  lemma LearnedBeaten(selfId: NodeId, target: NodeId, k: nat, initial: seq<Peer>, heard: seq<Peer>, r: seq<Peer>, id: NodeId)
    requires NearestLearned(selfId, target, k, initial, heard, r)
    ensures |r| <= k && Ascending(r, target)
    ensures id != selfId && (LastAddr(initial, id).Some? || FirstAddr(heard, id).Some?) ==> Beaten(r, target, k, id)
  {
    hide Metric, LastAddr, FirstAddr;
    assert LastAddr(initial, id).Some? || FirstAddr(heard, id).Some? <==> AddressOf(initial, heard, id).Some?;
  }

  lemma ClosestListed(t: RoutingTable, target: NodeId, k: nat, r: seq<Peer>, j: nat)
    requires IsClosest(AllPeers(t), target, k, r) && j < |r|
    ensures r[j] in AllPeers(t)
  {
  }

  lemma HeldBeaten(t: RoutingTable, m: Book, target: NodeId, k: nat, initial: seq<Peer>, r: seq<Peer>, id: NodeId)
    requires Holds(t, m) && id in m && IsClosest(AllPeers(t), target, k, initial)
    requires |r| <= k && Ascending(r, target) && forall j :: 0 <= j < |initial| ==> Beaten(r, target, k, initial[j].id)
    ensures Beaten(r, target, k, id)
  {
    hide Metric, AllPeers, TableInv;
    var p := Peer(id, m[id]);
    assert InTable(t, p);
    ListedPeers(t, p);
    if p !in initial {
      LeftOut(t, target, k, initial, p);
      SeedsBeat(target, k, initial, r, id);
    }
  }

  lemma {:induction false} LastAddrSome(peers: seq<Peer>, p: Peer)
    requires p in peers
    ensures LastAddr(peers, p.id).Some?
    decreases |peers|
  {
    if peers[|peers| - 1].id != p.id { LastAddrSome(peers[..|peers| - 1], p); }
  }

  lemma ListedPeers(t: RoutingTable, p: Peer)
    ensures p in AllPeers(t) <==> InTable(t, p)
  {
    FlattenMembers(t.buckets, p);
  }

  lemma SeedIsOther(t: RoutingTable, m: Book, p: Peer)
    requires Holds(t, m) && p in AllPeers(t)
    ensures p.id != t.selfId
  {
    NeverHoldsSelf(t, m);
    ListedPeers(t, p);
  }
}
