/** The lookup as an object: its shortlist and pending tables are updated in place. */
module KadLookupMachine {
  import opened Addresses
  import opened KadIds
  import opened KadTable
  import opened KadRouting
  import opened KadLookup

  class Machine {
    const selfId: NodeId
    const target: NodeId
    const config: Config
    var entries: seq<Entry>
    var pendingQueries: map<UdpAddr, NodeId>
    var pendingDials: map<UdpAddr, NodeId>

    function Value(): Lookup
      reads this
    {
      Lookup(selfId, target, config, entries, pendingQueries, pendingDials)
    }

    constructor (selfId: NodeId, target: NodeId, config: Config, initial: seq<Peer>)
      ensures Value() == NewLookup(selfId, target, config, initial)
    {
      this.selfId, this.target, this.config := selfId, target, config;
      pendingQueries, pendingDials := map[], map[];
      var es: seq<Entry> := [];
      for i := 0 to |initial|
        invariant es == Seeds(selfId, target, initial[..i])
      {
        assert initial[..i + 1][..i] == initial[..i];
        if initial[i].id != selfId {
          es := Insert(es, target, Entry(initial[i].id, initial[i].addr, Unqueried));
        }
      }
      assert initial[..|initial|] == initial;
      entries := es;
    }

    /** `entries.get_mut`: a walk along the ordered map to the peer's key. */
    method SetStatus(id: NodeId, status: Status)
      modifies this`entries
      ensures entries == KadLookup.SetStatus(old(entries), target, id, status)
    {
      hide Metric;
      var p := 0;
      while p < |entries| && Metric(entries[p].id, target) < Metric(id, target)
        invariant p <= |entries| && entries == old(entries)
        invariant forall i :: 0 <= i < p ==> Metric(entries[i].id, target) < Metric(id, target)
      {
        p := p + 1;
      }
      PlaceUnique(entries, target, id, p);
      if p < |entries| && Metric(entries[p].id, target) == Metric(id, target) {
        entries := entries[p := entries[p].(status := status)];
      }
    }

    method MarkInFlight(peer: Peer)
      modifies this
      ensures Value() == Apply(old(Value()), LookupOp.MarkInFlight(peer))
    {
      SetStatus(peer.id, InFlight);
      pendingQueries := pendingQueries[peer.addr := peer.id];
    }

    method MarkDialing(peer: Peer)
      modifies this
      ensures Value() == Apply(old(Value()), LookupOp.MarkDialing(peer))
    {
      SetStatus(peer.id, Dialing);
      pendingDials := pendingDials[peer.addr := peer.id];
    }

    method CompleteDial(addr: UdpAddr)
      modifies this
      ensures Value() == Apply(old(Value()), LookupOp.CompleteDial(addr))
    {
      if addr in pendingDials {
        var id := pendingDials[addr];
        pendingDials := pendingDials - {addr};
        SetStatus(id, Unqueried);
      }
    }

    method RecordResponse(from: UdpAddr, peers: seq<Peer>) returns (matched: bool)
      modifies this
      ensures Value() == Apply(old(Value()), LookupOp.RecordResponse(from, peers))
      ensures matched <==> from in old(pendingQueries)
    {
      hide KadLookup.SetStatus, OrInsert;
      matched := from in pendingQueries;
      var es := entries;
      for i := 0 to |peers|
        invariant es == Merge(entries, selfId, target, peers[..i])
      {
        assert peers[..i + 1][..i] == peers[..i];
        if peers[i].id != selfId {
          es := OrInsert(es, target, Entry(peers[i].id, peers[i].addr, Unqueried));
        }
      }
      assert peers[..|peers|] == peers;
      entries := es;
      if matched {
        var id := pendingQueries[from];
        pendingQueries := pendingQueries - {from};
        SetStatus(id, Done);
      }
    }

    method SkipPendingQueries()
      requires Ordered(entries, target)
      modifies this
      ensures Value() == Apply(old(Value()), LookupOp.SkipPendingQueries)
    {
      SkipEach(pendingQueries);
      pendingQueries := map[];
    }

    method SkipPendingDials()
      requires Ordered(entries, target)
      modifies this
      ensures Value() == Apply(old(Value()), LookupOp.SkipPendingDials)
    {
      SkipEach(pendingDials);
      pendingDials := map[];
    }

    /** The fold over the pending table, one peer at a time, in any order. */
    method SkipEach(pending: map<UdpAddr, NodeId>)
      requires Ordered(entries, target)
      modifies this`entries
      ensures entries == SkipAll(old(entries), target, pending)
    {
      hide Metric, KadLookup.SetStatus, SkipAll, Ordered;
      var left := pending.Keys;
      ghost var done: map<UdpAddr, NodeId> := map[];
      SkipNobody(entries, target);
      while left != {}
        invariant left <= pending.Keys && done == pending - left
        invariant entries == SkipAll(old(entries), target, done)
        invariant Ordered(entries, target)
        decreases left
      {
        var a :| a in left;
        left := left - {a};
        SkipOneMore(old(entries), target, done, a, pending[a]);
        SetStatusExactly(entries, target, pending[a], Skipped);
        SetStatus(pending[a], Skipped);
        done := done[a := pending[a]];
      }
      assert done == pending;
    }

    method IsDone() returns (done: bool)
      ensures done == KadLookup.IsDone(Value())
    {
      done := pendingQueries == map[] && pendingDials == map[] && NoUnqueried(TopEntries(Value()));
    }
  }

  lemma PlaceUnique(es: seq<Entry>, target: NodeId, id: NodeId, p: nat)
    requires p <= |es| && (forall i :: 0 <= i < p ==> Metric(es[i].id, target) < Metric(id, target))
    requires p < |es| ==> Metric(id, target) <= Metric(es[p].id, target)
    ensures Place(es, target, id) == p
  {
    hide Metric;
  }

  lemma SkipNobody(es: seq<Entry>, target: NodeId)
    ensures SkipAll(es, target, map[]) == es
  {
    hide Metric;
  }

  lemma SkipOneMore(es: seq<Entry>, target: NodeId, done: map<UdpAddr, NodeId>, a: UdpAddr, id: NodeId)
    requires Ordered(SkipAll(es, target, done), target)
    requires a !in done
    ensures KadLookup.SetStatus(SkipAll(es, target, done), target, id, Skipped) == SkipAll(es, target, done[a := id])
  {
    hide Metric, KadLookup.SetStatus;
    var fs := SkipAll(es, target, done);
    SetStatusExactly(fs, target, id, Skipped);
    var keys := set b | b in done.Keys :: Metric(done[b], target);
    var more := done[a := id];
    var moreKeys := set b | b in more.Keys :: Metric(more[b], target);
    assert moreKeys == keys + {Metric(id, target)} by {
      assert a in more.Keys && more[a] == id;
      forall b | b in done.Keys
        ensures Metric(done[b], target) in moreKeys
      {
        assert b in more.Keys && more[b] == done[b];
      }
    }
    forall i | 0 <= i < |es|
      ensures Metric(es[i].id, target) == Metric(id, target) <==> es[i].id == id
    {
      if Metric(es[i].id, target) == Metric(id, target) { MetricInjective(es[i].id, id, target); }
    }
  }
}
