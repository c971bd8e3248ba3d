/** Who is in the routing table after a run, told without buckets. */
module KadMembership {
  import opened Prelude
  import opened Addresses
  import opened KadIds
  import opened KadMetric
  import opened KadTable
  import opened KadRouting

  /** The peers a node holds, by id. */
  type Book = map<NodeId, UdpAddr>

  function Band(selfId: NodeId, id: NodeId): Option<nat> {
    BucketIndex(DistanceTo(selfId, id))
  }

  /** The ids held at distances of the same power of two. */
  function InBand(m: Book, selfId: NodeId, band: Option<nat>): set<NodeId> {
    set id | id in m && Band(selfId, id) == band
  }

  /** A peer seen is held at its latest address, if it was held before or its band has room; the node never holds itself. */
  function See(m: Book, selfId: NodeId, k: nat, p: Peer): Book {
    if p.id != selfId && (p.id in m || |InBand(m, selfId, Band(selfId, p.id))| < k) then m[p.id := p.addr] else m
  }

  function SeeAll(m: Book, selfId: NodeId, k: nat, peers: seq<Peer>): Book
    decreases |peers|
  {
    if peers == [] then m else See(SeeAll(m, selfId, k, peers[..|peers| - 1]), selfId, k, peers[|peers| - 1])
  }

  /** What a run leaves a node holding. */
  function BookOf(selfId: NodeId, k: nat, ops: seq<TableOp>): Book
    decreases |ops|
  {
    if ops == [] then map[]
    else
      var m := BookOf(selfId, k, ops[..|ops| - 1]);
      match ops[|ops| - 1]
      case Offer(p) => See(m, selfId, k, p)
      case HandshakeDone(p) => See(m, selfId, k, p)
      case Drop(id) => m - {id}
      case FrameSeen(sender, peers) =>
        SeeAll(if sender.Some? then See(m, selfId, k, sender.value) else m, selfId, k, peers)
  }

  predicate InTable(t: RoutingTable, p: Peer) {
    exists i :: 0 <= i < |t.buckets| && p in t.buckets[i].entries
  }

  ghost predicate Holds(t: RoutingTable, m: Book) {
    TableInv(t) && forall p: Peer :: InTable(t, p) <==> p.id in m && m[p.id] == p.addr
  }

  // --- One bucket ---

  /** A successful insert holds the peer as given, and everybody else as before. */
  lemma BucketInsertMembers(b: Bucket, peer: Peer)
    requires DistinctIds(b.entries) && !BucketInsert(b, peer).1.BucketFull?
    ensures forall q :: q in BucketInsert(b, peer).0.entries <==> q == peer || (q in b.entries && q.id != peer.id)
  {
    match Position(b.entries, peer.id)
    case None =>
    case Some(i) => assert b.entries == b.entries[..i] + [b.entries[i]] + b.entries[i + 1..];
  }

  function IdsOf(entries: seq<Peer>): set<NodeId> {
    set p | p in entries :: p.id
  }

  lemma IdsOneMore(before: seq<Peer>, last: Peer)
    ensures IdsOf(before + [last]) == IdsOf(before) + {last.id}
  {
  }

  lemma {:induction false} IdsCounted(entries: seq<Peer>)
    requires DistinctIds(entries)
    ensures |IdsOf(entries)| == |entries|
  {
    if entries != [] {
      var last, before := entries[|entries| - 1], entries[..|entries| - 1];
      IdsCounted(before);
      assert entries == before + [last];
      IdsOneMore(before, last);
      assert last.id !in IdsOf(before);
    }
  }

  /** The bucket of a peer holds exactly its band. */
  lemma BucketIsBand(t: RoutingTable, m: Book, i: nat)
    requires Holds(t, m) && i < |t.buckets|
    ensures IsBand(t.buckets[i].entries, m, t.selfId, i)
    ensures |InBand(m, t.selfId, Some(i))| == |t.buckets[i].entries|
  {
    hide BucketIndex, DistanceTo;
    var entries := t.buckets[i].entries;
    assert BucketOk(t, i, t.buckets[i]);
    forall p
      ensures p in entries <==> p.id in m && m[p.id] == p.addr && Band(t.selfId, p.id) == Some(i)
    {
      if p in entries {
        assert InTable(t, p);
      }
      if p.id in m && m[p.id] == p.addr && Band(t.selfId, p.id) == Some(i) {
        var j :| 0 <= j < |t.buckets| && p in t.buckets[j].entries;
        assert BucketOk(t, j, t.buckets[j]);
      }
    }
    IdsCounted(entries);
    assert InBand(m, t.selfId, Some(i)) == IdsOf(entries) by {
      forall id | id in InBand(m, t.selfId, Some(i))
        ensures id in IdsOf(entries)
      {
        assert Peer(id, m[id]) in entries;
      }
    }
  }

  // --- One operation ---

  lemma InsertHolds(t: RoutingTable, m: Book, p: Peer)
    requires Holds(t, m)
    ensures Holds(TableInsert(t, p).0, See(m, t.selfId, t.k, p))
  {
    TableInsertInv(t, p);
    DistanceZero(t.selfId, p.id);
    hide Holds, BucketInsert, InBand;
    if p.id != t.selfId {
      var i := BucketIndex(DistanceTo(t.selfId, p.id)).value;
      assert i < |t.buckets| by { BandExists(t, m); }
      BandInserts(t, m, p, i);
      hide BucketIndex, DistanceTo;
      var b := BucketInsert(t.buckets[i], p).0;
      assert TableInsert(t, p).0 == t.(buckets := t.buckets[i := b]);
      if b == t.buckets[i] {
        assert t.buckets[i := b] == t.buckets;
      }
    }
  }

  lemma BandExists(t: RoutingTable, m: Book)
    requires Holds(t, m)
    ensures |t.buckets| == NODE_ID_BITS
  {
  }

  lemma HeldIsPlaced(t: RoutingTable, m: Book, id: NodeId, i: nat)
    requires i < |t.buckets| && Band(t.selfId, id) == Some(i)
    requires IsBand(t.buckets[i].entries, m, t.selfId, i)
    ensures id in m <==> Position(t.buckets[i].entries, id).Some?
  {
    hide BucketIndex, DistanceTo;
    if id in m { assert Peer(id, m[id]) in t.buckets[i].entries; }
  }

  /** `entries` is what the book holds in band `i`. */
  ghost predicate IsBand(entries: seq<Peer>, m: Book, selfId: NodeId, i: nat) {
    forall p :: p in entries <==> p.id in m && m[p.id] == p.addr && Band(selfId, p.id) == Some(i)
  }

  lemma BandWith(b: Bucket, m: Book, selfId: NodeId, i: nat, p: Peer)
    requires DistinctIds(b.entries) && !BucketInsert(b, p).1.BucketFull?
    requires IsBand(b.entries, m, selfId, i) && Band(selfId, p.id) == Some(i)
    ensures IsBand(BucketInsert(b, p).0.entries, m[p.id := p.addr], selfId, i)
  {
    BucketInsertMembers(b, p);
    hide BucketInsert, Band, DistinctIds;
  }

  lemma BandInserts(t: RoutingTable, m: Book, p: Peer, i: nat)
    requires Holds(t, m) && p.id != t.selfId && Band(t.selfId, p.id) == Some(i) && i < |t.buckets|
    requires TableInv(t.(buckets := t.buckets[i := BucketInsert(t.buckets[i], p).0]))
    ensures Holds(t.(buckets := t.buckets[i := BucketInsert(t.buckets[i], p).0]), See(m, t.selfId, t.k, p))
  {
    BucketIsBand(t, m, i);
    hide BucketIndex, DistanceTo;
    var b := t.buckets[i];
    assert BucketOk(t, i, b);
    hide TableInv, InBand, Holds, Band, BucketOk;
    HeldIsPlaced(t, m, p.id, i);
    RoomExactly(b, p);
    if p.id in m || |b.entries| < b.capacity {
      BandWith(b, m, t.selfId, i, p);
      hide BucketInsert, IsBand;
      OneBucketChanged(t, m, i, BucketInsert(b, p).0, m[p.id := p.addr]);
    } else {
      hide BucketInsert;
      assert t.buckets[i := b] == t.buckets;
    }
  }

  lemma RoomExactly(b: Bucket, p: Peer)
    ensures BucketInsert(b, p).1.BucketFull? <==> Position(b.entries, p.id).None? && |b.entries| >= b.capacity
    ensures BucketInsert(b, p).1.BucketFull? ==> BucketInsert(b, p).0 == b
  {
  }

  /** Changing one bucket changes the book in its band alone. */
  lemma OneBucketChanged(t: RoutingTable, m: Book, i: nat, b: Bucket, m': Book)
    requires Holds(t, m) && i < |t.buckets| && TableInv(t.(buckets := t.buckets[i := b]))
    requires IsBand(b.entries, m', t.selfId, i)
    requires forall id :: Band(t.selfId, id) != Some(i) ==> (id in m <==> id in m') && (id in m ==> m[id] == m'[id])
    ensures Holds(t.(buckets := t.buckets[i := b]), m')
  {
    hide BucketIndex, DistanceTo;
    var u := t.(buckets := t.buckets[i := b]);
    forall p: Peer
      ensures InTable(u, p) <==> p.id in m' && m'[p.id] == p.addr
    {
      if InTable(u, p) {
        var j :| 0 <= j < |u.buckets| && p in u.buckets[j].entries;
        assert BucketOk(u, j, u.buckets[j]);
        assert j != i ==> InTable(t, p) by { assert j != i ==> u.buckets[j] == t.buckets[j]; }
      }
      if p.id in m' && m'[p.id] == p.addr {
        if Band(t.selfId, p.id) == Some(i) {
          assert u.buckets[i] == b;
        } else {
          var j :| 0 <= j < |t.buckets| && p in t.buckets[j].entries;
          assert BucketOk(t, j, t.buckets[j]);
          assert u.buckets[j] == t.buckets[j];
        }
      }
    }
  }

  lemma RemoveHolds(t: RoutingTable, m: Book, id: NodeId)
    requires Holds(t, m)
    ensures Holds(TableRemove(t, id), m - {id})
  {
    TableRemoveInv(t, id);
    DistanceZero(t.selfId, id);
    if id != t.selfId {
      var i := BucketIndex(DistanceTo(t.selfId, id)).value;
      BucketIsBand(t, m, i);
      hide BucketIndex, DistanceTo;
      WithoutMembers(t.buckets[i].entries, id);
      OneBucketChanged(t, m, i, BucketRemove(t.buckets[i], id), m - {id});
    } else {
      NeverHoldsSelf(t, m);
      assert m - {id} == m;
    }
  }

  lemma NeverHoldsSelf(t: RoutingTable, m: Book)
    requires Holds(t, m)
    ensures t.selfId !in m
  {
    ContainsIsLocal(t, t.selfId);
    HeldIsContained(t, m, t.selfId);
  }

  lemma HeldIsContained(t: RoutingTable, m: Book, id: NodeId)
    requires Holds(t, m)
    ensures id in m ==> TableContains(t, id)
  {
    hide TableInv;
    if id in m {
      var p := Peer(id, m[id]);
      assert InTable(t, p);
      var i :| 0 <= i < |t.buckets| && p in t.buckets[i].entries;
      var j :| 0 <= j < |t.buckets[i].entries| && t.buckets[i].entries[j] == p;
      assert t.buckets[i].Contains(id);
    }
  }

  lemma {:induction false} OfferAllHolds(t: RoutingTable, m: Book, peers: seq<Peer>)
    requires Holds(t, m)
    ensures var t' := OfferAll(t, peers).0;
            Holds(t', SeeAll(m, t.selfId, t.k, peers)) && t'.selfId == t.selfId && t'.k == t.k
    decreases |peers|
  {
    hide Holds, TableInsert, See, Touch;
    if peers != [] {
      var before, p := peers[..|peers| - 1], peers[|peers| - 1];
      OfferAllHolds(t, m, before);
      InsertHolds(OfferAll(t, before).0, SeeAll(m, t.selfId, t.k, before), p);
      InsertKeepsSelf(OfferAll(t, before).0, p);
    }
  }

  lemma SeeOne(m: Book, selfId: NodeId, k: nat, p: Peer)
    ensures SeeAll(m, selfId, k, [p]) == See(m, selfId, k, p)
  {
    assert [p][..0] == [];
    hide See;
    assert SeeAll(m, selfId, k, []) == m;
  }

  lemma {:induction false} SeeAppend(m: Book, selfId: NodeId, k: nat, a: seq<Peer>, b: seq<Peer>)
    ensures SeeAll(m, selfId, k, a + b) == SeeAll(SeeAll(m, selfId, k, a), selfId, k, b)
    decreases |b|
  {
    hide See;
    if b == [] {
      assert a + b == a;
    } else {
      assert (a + b)[..|a + b| - 1] == a + b[..|b| - 1];
      SeeAppend(m, selfId, k, a, b[..|b| - 1]);
    }
  }

  /** Leaving out the node itself makes no difference. */
  lemma {:induction false} SeeOthers(m: Book, selfId: NodeId, k: nat, peers: seq<Peer>)
    ensures SeeAll(m, selfId, k, NotSelf(selfId, peers)) == SeeAll(m, selfId, k, peers)
    decreases |peers|
  {
    if peers != [] {
      var p, rest := peers[0], peers[1..];
      assert peers == [p] + rest;
      SeeAppend(m, selfId, k, [p], rest);
      SeeAppend(m, selfId, k, [p], NotSelf(selfId, rest));
      SeeOne(m, selfId, k, p);
      SeeOthers(See(m, selfId, k, p), selfId, k, rest);
      assert NotSelf(selfId, peers) == if p.id == selfId then NotSelf(selfId, rest) else [p] + NotSelf(selfId, rest);
      hide SeeAll, NotSelf;
    }
  }

  /**
   * Membership.  After any run the table holds exactly the peers of the book:
   * whoever was offered, completed a handshake, sent a frame or was advertised
   * is held, at the latest address given, from when its band had room until it
   * is dropped; nobody is ever pushed out by a newcomer.
   */
  lemma {:induction false} TableIsBook(selfId: NodeId, k: nat, ops: seq<TableOp>)
    ensures var t := TableRun(selfId, k, ops).0;
            Holds(t, BookOf(selfId, k, ops)) && t.selfId == selfId && t.k == k
    decreases |ops|
  {
    hide Holds, TableRemove, OfferAll, See, SeeAll, NotSelf;
    if ops == [] {
      NewHolds(selfId, k);
    } else {
      var before := ops[..|ops| - 1];
      TableIsBook(selfId, k, before);
      var t, m := TableRun(selfId, k, before).0, BookOf(selfId, k, before);
      match ops[|ops| - 1]
      case Drop(id) =>
        RemoveHolds(t, m, id);
        RemoveKeepsSelf(t, id);
      case Offer(p) =>
        OfferAllHolds(t, m, [p]);
        SeeOne(m, selfId, k, p);
      case HandshakeDone(p) =>
        OfferAllHolds(t, m, [p]);
        SeeOne(m, selfId, k, p);
      case FrameSeen(sender, peers) =>
        FrameHolds(t, m, sender, peers);
    }
  }

  lemma FrameHolds(t: RoutingTable, m: Book, sender: Option<Peer>, peers: seq<Peer>)
    requires Holds(t, m)
    ensures var t' := OfferAll(t, Offers(t.selfId, FrameSeen(sender, peers))).0;
            && Holds(t', SeeAll(if sender.Some? then See(m, t.selfId, t.k, sender.value) else m, t.selfId, t.k, peers))
            && t'.selfId == t.selfId && t'.k == t.k
  {
    hide Holds, OfferAll, See, SeeAll, NotSelf;
    var first := if sender.Some? then [sender.value] else [];
    OfferAllHolds(t, m, first + NotSelf(t.selfId, peers));
    SeeAppend(m, t.selfId, t.k, first, NotSelf(t.selfId, peers));
    SeeOthers(SeeAll(m, t.selfId, t.k, first), t.selfId, t.k, peers);
    if sender.Some? { SeeOne(m, t.selfId, t.k, sender.value); } else { SeeNone(m, t.selfId, t.k); }
  }

  lemma SeeNone(m: Book, selfId: NodeId, k: nat)
    ensures SeeAll(m, selfId, k, []) == m
  {
  }

  lemma NewHolds(selfId: NodeId, k: nat)
    ensures Holds(NewTable(selfId, k), map[])
  {
    NewTableOk(selfId, k);
  }
}
