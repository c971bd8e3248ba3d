/** K-buckets and the routing table built of them. */
module KadTable {
  import opened Prelude
  import opened Addresses
  import opened KadIds
  import opened KadMetric

  datatype Peer = Peer(id: NodeId, addr: UdpAddr)

  datatype InsertOutcome = Added | Updated | BucketFull(lruCandidate: NodeId)

  /** Most recently seen first. */
  datatype Bucket = Bucket(capacity: nat, entries: seq<Peer>)
  {
    predicate Contains(id: NodeId) {
      exists i :: 0 <= i < |entries| && entries[i].id == id
    }
  }

  function ZeroId(): NodeId {
    seq(NODE_ID_LEN, i => 0)
  }

  function Position(entries: seq<Peer>, id: NodeId): (r: Option<nat>)
    ensures r.Some? ==> r.value < |entries| && entries[r.value].id == id
    ensures r.None? ==> forall i :: 0 <= i < |entries| ==> entries[i].id != id
  {
    if entries == [] then None
    else if entries[0].id == id then Some(0)
    else
      match Position(entries[1..], id)
      case None => None
      case Some(i) => Some(i + 1)
  }

  function BucketInsert(b: Bucket, peer: Peer): (Bucket, InsertOutcome) {
    match Position(b.entries, peer.id)
    case Some(i) => (b.(entries := [peer] + (b.entries[..i] + b.entries[i + 1..])), Updated)
    case None =>
      if |b.entries| < b.capacity then (b.(entries := [peer] + b.entries), Added)
      else (b, BucketFull(if b.entries == [] then ZeroId() else b.entries[|b.entries| - 1].id))
  }

  function Without(entries: seq<Peer>, id: NodeId): (r: seq<Peer>)
    ensures |r| <= |entries|
  {
    if entries == [] then []
    else (if entries[0].id == id then [] else [entries[0]]) + Without(entries[1..], id)
  }

  function BucketRemove(b: Bucket, id: NodeId): Bucket {
    b.(entries := Without(b.entries, id))
  }

  datatype RoutingTable = RoutingTable(selfId: NodeId, k: nat, buckets: seq<Bucket>)

  function NewTable(selfId: NodeId, k: nat): RoutingTable {
    RoutingTable(selfId, k, seq(NODE_ID_BITS, i => Bucket(k, [])))
  }

  predicate TableContains(t: RoutingTable, id: NodeId) {
    exists i :: 0 <= i < |t.buckets| && t.buckets[i].Contains(id)
  }

  function TableInsert(t: RoutingTable, peer: Peer): (RoutingTable, InsertOutcome) {
    match BucketIndex(DistanceTo(t.selfId, peer.id))
    case None => (t, Updated)
    case Some(i) =>
      if i < |t.buckets| then
        var (bucket, outcome) := BucketInsert(t.buckets[i], peer);
        (t.(buckets := t.buckets[i := bucket]), outcome)
      else (t, Updated)
  }

  function TableRemove(t: RoutingTable, id: NodeId): RoutingTable {
    match BucketIndex(DistanceTo(t.selfId, id))
    case None => t
    case Some(i) =>
      if i < |t.buckets| then t.(buckets := t.buckets[i := BucketRemove(t.buckets[i], id)]) else t
  }

  // --- Placement ---

  predicate DistinctIds(entries: seq<Peer>) {
    forall i, j :: 0 <= i < j < |entries| ==> entries[i].id != entries[j].id
  }

  predicate BucketOk(t: RoutingTable, i: nat, b: Bucket) {
    && b.capacity == t.k && |b.entries| <= t.k
    && DistinctIds(b.entries)
    && (forall j :: 0 <= j < |b.entries| ==> BucketIndex(DistanceTo(t.selfId, b.entries[j].id)) == Some(i))
  }

  /** Each peer sits in the bucket of its distance to self, and no bucket overflows or repeats an id. */
  predicate TableInv(t: RoutingTable) {
    |t.buckets| == NODE_ID_BITS && forall i :: 0 <= i < NODE_ID_BITS ==> BucketOk(t, i, t.buckets[i])
  }

  lemma {:induction false} WithoutMembers(entries: seq<Peer>, id: NodeId)
    ensures forall p :: p in Without(entries, id) <==> p in entries && p.id != id
  {
    if entries != [] {
      WithoutMembers(entries[1..], id);
      assert entries == [entries[0]] + entries[1..];
    }
  }

  lemma {:induction false} WithoutDistinct(entries: seq<Peer>, id: NodeId)
    requires DistinctIds(entries)
    ensures DistinctIds(Without(entries, id))
  {
    if entries != [] {
      var tail, rest := entries[1..], Without(entries[1..], id);
      assert forall i :: 0 <= i < |tail| ==> tail[i] == entries[i + 1];
      WithoutDistinct(tail, id);
      WithoutMembers(tail, id);
      forall j | 0 <= j < |rest|
        ensures rest[j].id != entries[0].id
      {
        assert rest[j] in tail;
      }
    }
  }

  lemma BucketInsertOk(t: RoutingTable, i: nat, peer: Peer)
    requires i < |t.buckets| && BucketOk(t, i, t.buckets[i])
    requires BucketIndex(DistanceTo(t.selfId, peer.id)) == Some(i)
    ensures BucketOk(t, i, BucketInsert(t.buckets[i], peer).0)
  {
    hide BucketIndex, DistanceTo;
  }

  lemma TableInsertInv(t: RoutingTable, peer: Peer)
    requires TableInv(t)
    ensures TableInv(TableInsert(t, peer).0)
  {
    hide BucketOk, BucketInsert;
    var index := BucketIndex(DistanceTo(t.selfId, peer.id));
    if index.Some? && index.value < |t.buckets| {
      BucketInsertOk(t, index.value, peer);
      SameShape(t, TableInsert(t, peer).0);
    }
  }

  lemma SameShape(t: RoutingTable, u: RoutingTable)
    requires t.selfId == u.selfId && t.k == u.k
    ensures forall i: nat, b :: BucketOk(t, i, b) <==> BucketOk(u, i, b)
  {
    hide BucketIndex, DistanceTo;
  }

  lemma TableRemoveInv(t: RoutingTable, id: NodeId)
    requires TableInv(t)
    ensures TableInv(TableRemove(t, id))
  {
    hide BucketIndex, DistanceTo;
    var index := BucketIndex(DistanceTo(t.selfId, id));
    if index.Some? && index.value < |t.buckets| {
      var b := t.buckets[index.value];
      WithoutMembers(b.entries, id);
      WithoutDistinct(b.entries, id);
      var kept := Without(b.entries, id);
      forall j | 0 <= j < |kept|
        ensures BucketIndex(DistanceTo(t.selfId, kept[j].id)) == Some(index.value)
      {
        assert kept[j] in b.entries;
      }
    }
  }

  // --- Runs: everything that reaches the table ---

  datatype TableOp =
    | Offer(peer: Peer)
    | Drop(id: NodeId)
    /** A completed handshake with a verified peer. */
    | HandshakeDone(peer: Peer)
    /** A decoded frame from `sender`, if its identity is known, advertising `peers`. */
    | FrameSeen(sender: Option<Peer>, peers: seq<Peer>)

  /** The inserts one operation makes, in order; the node never offers itself as an advertised peer. */
  function Offers(selfId: NodeId, op: TableOp): seq<Peer> {
    match op
    case Offer(peer) => [peer]
    case Drop(_) => []
    case HandshakeDone(peer) => [peer]
    case FrameSeen(sender, peers) =>
      (if sender.Some? then [sender.value] else []) + NotSelf(selfId, peers)
  }

  function NotSelf(selfId: NodeId, peers: seq<Peer>): seq<Peer> {
    if peers == [] then []
    else (if peers[0].id == selfId then [] else [peers[0]]) + NotSelf(selfId, peers[1..])
  }

  /** The table after offering `peers` in order, and the ids that were added or refreshed, oldest first. */
  function OfferAll(t: RoutingTable, peers: seq<Peer>): (r: (RoutingTable, seq<NodeId>))
    decreases |peers|
  {
    if peers == [] then (t, [])
    else
      var (t1, touched) := OfferAll(t, peers[..|peers| - 1]);
      var (t2, outcome) := TableInsert(t1, peers[|peers| - 1]);
      (t2, touched + Touch(t1, peers[|peers| - 1]))
  }

  /** The id, if offering it added or refreshed an entry. */
  function Touch(t: RoutingTable, peer: Peer): seq<NodeId> {
    if TableInsert(t, peer).1.BucketFull? || peer.id == t.selfId then [] else [peer.id]
  }

  function TableStep(t: RoutingTable, op: TableOp): (RoutingTable, seq<NodeId>) {
    match op
    case Drop(id) => (TableRemove(t, id), [])
    case _ => OfferAll(t, Offers(t.selfId, op))
  }

  function TableRun(selfId: NodeId, k: nat, ops: seq<TableOp>): (RoutingTable, seq<NodeId>)
    decreases |ops|
  {
    if ops == [] then (NewTable(selfId, k), [])
    else
      var (t, touched) := TableRun(selfId, k, ops[..|ops| - 1]);
      var (t', more) := TableStep(t, ops[|ops| - 1]);
      (t', touched + more)
  }

  /** One past the last place where `id` occurs; 0 if it never does. */
  function LastSeen(touched: seq<NodeId>, id: NodeId): nat {
    if touched == [] then 0
    else if touched[|touched| - 1] == id then |touched|
    else LastSeen(touched[..|touched| - 1], id)
  }

  predicate MruOrder(entries: seq<Peer>, touched: seq<NodeId>) {
    forall i, j :: 0 <= i < j < |entries| ==> LastSeen(touched, entries[i].id) > LastSeen(touched, entries[j].id)
  }

  predicate TableMru(t: RoutingTable, touched: seq<NodeId>) {
    forall i :: 0 <= i < |t.buckets| ==> MruOrder(t.buckets[i].entries, touched)
  }

  lemma {:induction false} LastSeenBound(touched: seq<NodeId>, id: NodeId)
    ensures LastSeen(touched, id) <= |touched|
  {
    if touched != [] { LastSeenBound(touched[..|touched| - 1], id); }
  }

  lemma LastSeenAppend(touched: seq<NodeId>, more: NodeId, id: NodeId)
    ensures LastSeen(touched + [more], id) == if id == more then |touched| + 1 else LastSeen(touched, id)
  {
    assert (touched + [more])[..|touched|] == touched;
  }

  /** A peer that is seen moves in front of everyone else in its bucket; nobody else moves. */
  lemma InsertKeepsMru(t: RoutingTable, touched: seq<NodeId>, peer: Peer)
    requires TableInv(t) && TableMru(t, touched)
    ensures TableMru(TableInsert(t, peer).0, touched + Touch(t, peer))
  {
    DistanceZero(t.selfId, peer.id);
    if Touch(t, peer) == [] {
      assert touched + [] == touched;
      UnchangedWithoutTouch(t, peer);
    } else {
      forall i | 0 <= i < |t.buckets|
        ensures MruOrder(TableInsert(t, peer).0.buckets[i].entries, touched + [peer.id])
      {
        BucketMru(t, touched, peer, i);
      }
    }
  }

  lemma UnchangedWithoutTouch(t: RoutingTable, peer: Peer)
    requires Touch(t, peer) == []
    ensures TableInsert(t, peer).0 == t
  {
    DistanceZero(t.selfId, peer.id);
    var index := BucketIndex(DistanceTo(t.selfId, peer.id));
    if index.Some? && index.value < |t.buckets| {
      assert t.buckets[index.value := t.buckets[index.value]] == t.buckets;
    }
  }

  lemma BucketMru(t: RoutingTable, touched: seq<NodeId>, peer: Peer, i: nat)
    requires TableInv(t) && TableMru(t, touched) && i < |t.buckets| && peer.id != t.selfId
    requires !TableInsert(t, peer).1.BucketFull?
    ensures MruOrder(TableInsert(t, peer).0.buckets[i].entries, touched + [peer.id])
  {
    DistanceZero(t.selfId, peer.id);
    hide BucketIndex, DistanceTo, LastSeen;
    var was, now := t.buckets[i].entries, TableInsert(t, peer).0.buckets[i].entries;
    assert BucketOk(t, i, t.buckets[i]);
    forall id: NodeId
      ensures LastSeen(touched + [peer.id], id) == if id == peer.id then |touched| + 1 else LastSeen(touched, id)
      ensures LastSeen(touched, id) <= |touched|
    {
      LastSeenAppend(touched, peer.id, id);
      LastSeenBound(touched, id);
    }
    var index := BucketIndex(DistanceTo(t.selfId, peer.id));
    if index == Some(i) {
      BucketInsertShape(t.buckets[i], peer);
    } else {
      assert now == was;
    }
  }

  predicate InThatOrder(was: seq<Peer>, x: Peer, y: Peer) {
    exists m, n :: 0 <= m < n < |was| && was[m] == x && was[n] == y
  }

  /** `e` keeps the order of `was` behind its first element. */
  predicate TailInOrder(was: seq<Peer>, e: seq<Peer>) {
    forall i, j :: 0 < i < j < |e| ==> InThatOrder(was, e[i], e[j])
  }

  lemma FrontInOrder(was: seq<Peer>, peer: Peer)
    ensures TailInOrder(was, [peer] + was)
  {
    var e := [peer] + was;
    forall i, j | 0 < i < j < |e|
      ensures InThatOrder(was, e[i], e[j])
    {
      assert was[i - 1] == e[i] && was[j - 1] == e[j];
    }
  }

  lemma MovedInOrder(was: seq<Peer>, p: nat, peer: Peer)
    requires p < |was|
    ensures TailInOrder(was, [peer] + (was[..p] + was[p + 1..]))
  {
    var e := [peer] + (was[..p] + was[p + 1..]);
    forall i, j | 0 < i < j < |e|
      ensures InThatOrder(was, e[i], e[j])
    {
      var m, n := if i <= p then i - 1 else i, if j <= p then j - 1 else j;
      assert was[m] == e[i] && was[n] == e[j];
    }
  }

  /** What a successful insert does to the order of a bucket. */
  lemma BucketInsertShape(b: Bucket, peer: Peer)
    requires DistinctIds(b.entries) && !BucketInsert(b, peer).1.BucketFull?
    ensures var e := BucketInsert(b, peer).0.entries;
            && e != [] && e[0] == peer
            && (forall j :: 0 < j < |e| ==> e[j].id != peer.id)
            && TailInOrder(b.entries, e)
  {
    hide TailInOrder;
    match Position(b.entries, peer.id)
    case None => FrontInOrder(b.entries, peer);
    case Some(p) => MovedInOrder(b.entries, p, peer);
  }
}
