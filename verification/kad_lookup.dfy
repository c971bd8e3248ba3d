/** The iterative FIND_NODE lookup: its shortlist and its transitions. */
module KadLookup {
  import opened Prelude
  import opened Addresses
  import opened KadIds
  import opened KadTable
  import opened KadRouting

  datatype Status = Unqueried | Dialing | InFlight | Done | Skipped

  datatype Entry = Entry(id: NodeId, addr: UdpAddr, status: Status)

  datatype Config = Config(alpha: nat, k: nat, maxRounds: nat, maxRecvPerRound: nat)

  /**
   * `entries` is the map from distance to entry in its iteration order,
   * nearest first; an entry's key is the distance of its id to the target.
   */
  datatype Lookup = Lookup(
    selfId: NodeId,
    target: NodeId,
    config: Config,
    entries: seq<Entry>,
    pendingQueries: map<UdpAddr, NodeId>,
    pendingDials: map<UdpAddr, NodeId>)

  predicate Ordered(es: seq<Entry>, target: NodeId) {
    forall i, j :: 0 <= i < j < |es| ==> Metric(es[i].id, target) < Metric(es[j].id, target)
  }

  /** The place of `id`: everything before it is strictly nearer. */
  function Place(es: seq<Entry>, target: NodeId, id: NodeId): (p: nat)
    ensures p <= |es|
    ensures forall i :: 0 <= i < p ==> Metric(es[i].id, target) < Metric(id, target)
    ensures p < |es| ==> Metric(id, target) <= Metric(es[p].id, target)
  {
    if es == [] || Metric(id, target) <= Metric(es[0].id, target) then 0
    else 1 + Place(es[1..], target, id)
  }

  predicate Occupied(es: seq<Entry>, target: NodeId, id: NodeId) {
    var p := Place(es, target, id);
    p < |es| && Metric(es[p].id, target) == Metric(id, target)
  }

  /** `entries.insert`: a later entry replaces an earlier one at the same distance. */
  function Insert(es: seq<Entry>, target: NodeId, e: Entry): seq<Entry> {
    var p := Place(es, target, e.id);
    if Occupied(es, target, e.id) then es[p := e] else es[..p] + [e] + es[p..]
  }

  /** `entries.entry(..).or_insert(..)`: an earlier entry stays. */
  function OrInsert(es: seq<Entry>, target: NodeId, e: Entry): seq<Entry> {
    if Occupied(es, target, e.id) then es else Insert(es, target, e)
  }

  /** `entries.get_mut(..)` followed by an assignment to the status. */
  function SetStatus(es: seq<Entry>, target: NodeId, id: NodeId, status: Status): seq<Entry> {
    var p := Place(es, target, id);
    if Occupied(es, target, id) then es[p := es[p].(status := status)] else es
  }

  function Seeds(selfId: NodeId, target: NodeId, peers: seq<Peer>): seq<Entry> {
    if peers == [] then []
    else
      var (rest, p) := (Seeds(selfId, target, peers[..|peers| - 1]), peers[|peers| - 1]);
      if p.id == selfId then rest else Insert(rest, target, Entry(p.id, p.addr, Unqueried))
  }

  function NewLookup(selfId: NodeId, target: NodeId, config: Config, initial: seq<Peer>): Lookup {
    Lookup(selfId, target, config, Seeds(selfId, target, initial), map[], map[])
  }

  function Merge(es: seq<Entry>, selfId: NodeId, target: NodeId, peers: seq<Peer>): seq<Entry> {
    if peers == [] then es
    else
      var (rest, p) := (Merge(es, selfId, target, peers[..|peers| - 1]), peers[|peers| - 1]);
      if p.id == selfId then rest else OrInsert(rest, target, Entry(p.id, p.addr, Unqueried))
  }

  function SkipAll(es: seq<Entry>, target: NodeId, pending: map<UdpAddr, NodeId>): seq<Entry> {
    var keys := set a | a in pending.Keys :: Metric(pending[a], target);
    seq(|es|, i requires 0 <= i < |es| =>
      if Metric(es[i].id, target) in keys then es[i].(status := Skipped) else es[i])
  }

  // --- Queries ---

  predicate HasPending(l: Lookup) {
    l.pendingQueries != map[] || l.pendingDials != map[]
  }

  function TopEntries(l: Lookup): seq<Entry> {
    l.entries[..Min(l.config.k, |l.entries|)]
  }

  function AsPeers(es: seq<Entry>): seq<Peer> {
    seq(|es|, i requires 0 <= i < |es| => Peer(es[i].id, es[i].addr))
  }

  function TopK(l: Lookup): seq<Peer> {
    AsPeers(TopEntries(l))
  }

  predicate NoUnqueried(es: seq<Entry>) {
    forall i :: 0 <= i < |es| ==> !es[i].status.Unqueried?
  }

  predicate IsDone(l: Lookup) {
    !HasPending(l) && NoUnqueried(TopEntries(l))
  }

  function Unasked(es: seq<Entry>): seq<Entry> {
    if es == [] then []
    else (if es[0].status.Unqueried? then [es[0]] else []) + Unasked(es[1..])
  }

  function PickNextAlpha(l: Lookup): seq<Peer> {
    var open := Unasked(TopEntries(l));
    AsPeers(open[..Min(l.config.alpha, |open|)])
  }

  // --- Transitions ---

  datatype LookupOp =
    | MarkInFlight(peer: Peer)
    | MarkDialing(peer: Peer)
    | CompleteDial(addr: UdpAddr)
    | RecordResponse(from: UdpAddr, peers: seq<Peer>)
    | SkipPendingQueries
    | SkipPendingDials

  function Apply(l: Lookup, op: LookupOp): Lookup {
    match op
    case MarkInFlight(p) =>
      l.(entries := SetStatus(l.entries, l.target, p.id, InFlight),
         pendingQueries := l.pendingQueries[p.addr := p.id])
    case MarkDialing(p) =>
      l.(entries := SetStatus(l.entries, l.target, p.id, Dialing),
         pendingDials := l.pendingDials[p.addr := p.id])
    case CompleteDial(addr) =>
      if addr in l.pendingDials then
        l.(entries := SetStatus(l.entries, l.target, l.pendingDials[addr], Unqueried),
           pendingDials := l.pendingDials - {addr})
      else l
    case RecordResponse(from, peers) =>
      var merged := Merge(l.entries, l.selfId, l.target, peers);
      if from in l.pendingQueries then
        l.(entries := SetStatus(merged, l.target, l.pendingQueries[from], Done),
           pendingQueries := l.pendingQueries - {from})
      else l.(entries := merged)
    case SkipPendingQueries =>
      l.(entries := SkipAll(l.entries, l.target, l.pendingQueries), pendingQueries := map[])
    case SkipPendingDials =>
      l.(entries := SkipAll(l.entries, l.target, l.pendingDials), pendingDials := map[])
  }

  function ApplyAll(l: Lookup, ops: seq<LookupOp>): Lookup
    decreases |ops|
  {
    if ops == [] then l else ApplyAll(Apply(l, ops[0]), ops[1..])
  }

  // --- What the transitions do to one entry ---

  /** Same ids and addresses, in the same order. */
  predicate SamePeers(es: seq<Entry>, fs: seq<Entry>) {
    |es| == |fs| && forall i :: 0 <= i < |es| ==> es[i].id == fs[i].id && es[i].addr == fs[i].addr
  }

  predicate Known(es: seq<Entry>, id: NodeId) {
    exists i :: 0 <= i < |es| && es[i].id == id
  }

  lemma OccupiedMeansKnown(es: seq<Entry>, target: NodeId, id: NodeId)
    requires Ordered(es, target)
    ensures Occupied(es, target, id) <==> Known(es, id)
    ensures Occupied(es, target, id) ==> es[Place(es, target, id)].id == id
  {
    hide Metric;
    var p := Place(es, target, id);
    if Occupied(es, target, id) {
      MetricInjective(es[p].id, id, target);
    }
  }

  lemma SetStatusExactly(es: seq<Entry>, target: NodeId, id: NodeId, status: Status)
    requires Ordered(es, target)
    ensures var fs := SetStatus(es, target, id, status);
            && Ordered(fs, target) && SamePeers(es, fs)
            && forall i :: 0 <= i < |es| ==> fs[i] == if es[i].id == id then es[i].(status := status) else es[i]
  {
    OccupiedMeansKnown(es, target, id);
    var p := Place(es, target, id);
    if Occupied(es, target, id) {
      MetricDistinct(es, target, p);
      SameIdsOrdered(es, es[p := es[p].(status := status)], target);
    }
    hide Metric, Place, Ordered;
  }

  lemma SameIdsOrdered(es: seq<Entry>, fs: seq<Entry>, target: NodeId)
    requires Ordered(es, target) && |es| == |fs| && forall i :: 0 <= i < |es| ==> es[i].id == fs[i].id
    ensures Ordered(fs, target)
  {
    hide Metric;
  }

  lemma SkipAllExactly(es: seq<Entry>, target: NodeId, pending: map<UdpAddr, NodeId>)
    requires Ordered(es, target)
    ensures var fs := SkipAll(es, target, pending);
            && Ordered(fs, target) && SamePeers(es, fs)
            && forall i :: 0 <= i < |es| ==>
                 fs[i] == if es[i].id in pending.Values then es[i].(status := Skipped) else es[i]
  {
    hide Metric;
    var keys := set a | a in pending.Keys :: Metric(pending[a], target);
    forall i | 0 <= i < |es|
      ensures Metric(es[i].id, target) in keys <==> es[i].id in pending.Values
    {
      if Metric(es[i].id, target) in keys {
        var a :| a in pending.Keys && Metric(pending[a], target) == Metric(es[i].id, target);
        MetricInjective(pending[a], es[i].id, target);
      }
      if es[i].id in pending.Values {
        var a :| a in pending.Keys && pending[a] == es[i].id;
        assert Metric(pending[a], target) in keys;
      }
    }
  }

  /** A new peer goes in at its place; a known one is left, or replaced. */
  lemma InsertExactly(es: seq<Entry>, target: NodeId, e: Entry)
    requires Ordered(es, target)
    ensures Ordered(Insert(es, target, e), target) && Ordered(OrInsert(es, target, e), target)
    ensures Known(es, e.id) ==>
              var p := Place(es, target, e.id);
              && p < |es| && es[p].id == e.id
              && Insert(es, target, e) == es[p := e] && OrInsert(es, target, e) == es
    ensures !Known(es, e.id) ==>
              var p := Place(es, target, e.id);
              Insert(es, target, e) == OrInsert(es, target, e) == es[..p] + [e] + es[p..]
  {
    OccupiedMeansKnown(es, target, e.id);
    hide Metric, Known;
    var p := Place(es, target, e.id);
    if !Occupied(es, target, e.id) {
      var fs := es[..p] + [e] + es[p..];
      forall i, j | 0 <= i < j < |fs|
        ensures Metric(fs[i].id, target) < Metric(fs[j].id, target)
      {
        assert p < |es| ==> Metric(e.id, target) < Metric(es[p].id, target);
      }
    }
  }

  /** Every known peer moves back by at most the newcomers, so the i-th nearest only gets nearer. */
  predicate Nearer(es: seq<Entry>, fs: seq<Entry>, target: NodeId) {
    |es| <= |fs| && forall i :: 0 <= i < |es| ==> Metric(fs[i].id, target) <= Metric(es[i].id, target)
  }

  lemma OrInsertNearer(es: seq<Entry>, target: NodeId, e: Entry)
    requires Ordered(es, target)
    ensures Nearer(es, OrInsert(es, target, e), target)
  {
    InsertExactly(es, target, e);
    hide Metric, Known;
    if !Occupied(es, target, e.id) {
      var p := Place(es, target, e.id);
      var fs := es[..p] + [e] + es[p..];
      forall i | 0 <= i < |es|
        ensures Metric(fs[i].id, target) <= Metric(es[i].id, target)
      {
        if i > p { assert fs[i] == es[i - 1]; }
      }
    }
  }

  lemma {:induction false} MergeKeeps(es: seq<Entry>, selfId: NodeId, target: NodeId, peers: seq<Peer>)
    requires Ordered(es, target)
    ensures Ordered(Merge(es, selfId, target, peers), target)
    ensures Nearer(es, Merge(es, selfId, target, peers), target)
  {
    hide Metric;
    if peers != [] {
      var (rest, p) := (Merge(es, selfId, target, peers[..|peers| - 1]), peers[|peers| - 1]);
      MergeKeeps(es, selfId, target, peers[..|peers| - 1]);
      InsertExactly(rest, target, Entry(p.id, p.addr, Unqueried));
      OrInsertNearer(rest, target, Entry(p.id, p.addr, Unqueried));
      hide OrInsert, Insert, Ordered;
    }
  }

  lemma SpliceMembers(es: seq<Entry>, p: nat, e: Entry, x: Entry)
    requires p <= |es|
    ensures x in es[..p] + [e] + es[p..] <==> x in es || x == e
  {
    assert es == es[..p] + es[p..];
  }

  lemma OrInsertMembers(es: seq<Entry>, target: NodeId, e: Entry, x: Entry)
    requires Ordered(es, target)
    ensures x in OrInsert(es, target, e) <==> x in es || (x == e && !Known(es, e.id))
  {
    InsertExactly(es, target, e);
    var p := Place(es, target, e.id);
    hide Metric, Place, Occupied, Insert, OrInsert, Known, Ordered;
    SpliceMembers(es, p, e, x);
  }

  lemma MembersKnown(es: seq<Entry>, fs: seq<Entry>, id: NodeId)
    requires (forall e :: e in es ==> e in fs) && Known(es, id)
    ensures Known(fs, id)
  {
    var i :| 0 <= i < |es| && es[i].id == id;
    assert es[i] in fs;
  }

  /** Every entry the merge leaves was there before, or is a newly advertised peer nobody has asked. */
  lemma {:induction false} MergeMembers(es: seq<Entry>, selfId: NodeId, target: NodeId, peers: seq<Peer>)
    requires Ordered(es, target)
    ensures forall e :: e in es ==> e in Merge(es, selfId, target, peers)
    ensures forall e :: e in Merge(es, selfId, target, peers) ==> e in es || (e.status.Unqueried? && !Known(es, e.id))
  {
    hide Metric, OrInsert, Insert, Ordered, Known;
    if peers != [] {
      var before := peers[..|peers| - 1];
      var (rest, p) := (Merge(es, selfId, target, before), peers[|peers| - 1]);
      var e := Entry(p.id, p.addr, Unqueried);
      MergeMembers(es, selfId, target, before);
      MergeKeeps(es, selfId, target, before);
      forall x
        ensures x in OrInsert(rest, target, e) <==> x in rest || (x == e && !Known(rest, p.id))
      {
        OrInsertMembers(rest, target, e, x);
      }
      if Known(es, p.id) { MembersKnown(es, rest, p.id); }
    }
  }

  // --- The shortlist over any sequence of transitions ---

  /** The address given last among the seeds. */
  function LastAddr(peers: seq<Peer>, id: NodeId): Option<UdpAddr> {
    if peers == [] then None
    else if peers[|peers| - 1].id == id then Some(peers[|peers| - 1].addr)
    else LastAddr(peers[..|peers| - 1], id)
  }

  /** The address given first among the advertised peers. */
  function FirstAddr(peers: seq<Peer>, id: NodeId): Option<UdpAddr> {
    if peers == [] then None
    else
      var earlier := FirstAddr(peers[..|peers| - 1], id);
      if earlier.Some? then earlier
      else if peers[|peers| - 1].id == id then Some(peers[|peers| - 1].addr)
      else None
  }

  /** The address the lookup should hold for `id`: the seeds' word before any response's. */
  function AddressOf(initial: seq<Peer>, heard: seq<Peer>, id: NodeId): Option<UdpAddr> {
    var seed := LastAddr(initial, id);
    if seed.Some? then seed else FirstAddr(heard, id)
  }

  /** Every peer some response advertised, in order of arrival. */
  function Heard(ops: seq<LookupOp>): seq<Peer> {
    if ops == [] then []
    else (if ops[0].RecordResponse? then ops[0].peers else []) + Heard(ops[1..])
  }

  predicate Lists(es: seq<Entry>, id: NodeId, addr: UdpAddr) {
    exists i :: 0 <= i < |es| && es[i].id == id && es[i].addr == addr
  }

  /** The shortlist is the address book: the non-self peers learned, each once, at its first address. */
  ghost predicate IsBook(l: Lookup, initial: seq<Peer>, heard: seq<Peer>) {
    && Ordered(l.entries, l.target)
    && forall id, addr ::
         Lists(l.entries, id, addr) <==> id != l.selfId && AddressOf(initial, heard, id) == Some(addr)
  }

  lemma ListsAfterReplace(es: seq<Entry>, p: nat, e: Entry, id: NodeId, addr: UdpAddr)
    requires p < |es| && es[p].id == e.id && forall i :: 0 <= i < |es| && i != p ==> es[i].id != e.id
    ensures Lists(es[p := e], id, addr) <==> if id == e.id then addr == e.addr else Lists(es, id, addr)
  {
    var fs := es[p := e];
    if id == e.id {
      assert fs[p] == e;
    } else if Lists(es, id, addr) {
      var i :| 0 <= i < |es| && es[i].id == id && es[i].addr == addr;
      assert fs[i] == es[i];
    }
  }

  lemma ListsAfterSplice(es: seq<Entry>, p: nat, e: Entry, id: NodeId, addr: UdpAddr)
    requires p <= |es| && !Known(es, e.id)
    ensures Lists(es[..p] + [e] + es[p..], id, addr) <==> if id == e.id then addr == e.addr else Lists(es, id, addr)
  {
    var fs := es[..p] + [e] + es[p..];
    assert fs[p] == e;
    if Lists(es, id, addr) {
      var i :| 0 <= i < |es| && es[i].id == id && es[i].addr == addr;
      assert fs[if i < p then i else i + 1] == es[i];
    }
    if Lists(fs, id, addr) && id != e.id {
      var i :| 0 <= i < |fs| && fs[i].id == id && fs[i].addr == addr;
      assert es[if i < p then i else i - 1] == fs[i];
    }
  }

  lemma ListsAfterInsert(es: seq<Entry>, target: NodeId, e: Entry, id: NodeId, addr: UdpAddr)
    requires Ordered(es, target)
    ensures Lists(Insert(es, target, e), id, addr)
       <==> if id == e.id then addr == e.addr else Lists(es, id, addr)
    ensures Lists(OrInsert(es, target, e), id, addr)
       <==> if id == e.id && !Known(es, id) then addr == e.addr else Lists(es, id, addr)
  {
    InsertExactly(es, target, e);
    var p := Place(es, target, e.id);
    hide Metric, Place, Occupied, Insert, OrInsert, Lists, Known;
    if Known(es, e.id) {
      MetricDistinct(es, target, p);
      ListsAfterReplace(es, p, e, id, addr);
    } else {
      ListsAfterSplice(es, p, e, id, addr);
    }
  }

  lemma MetricDistinct(es: seq<Entry>, target: NodeId, p: nat)
    requires Ordered(es, target) && p < |es|
    ensures forall i :: 0 <= i < |es| && i != p ==> es[i].id != es[p].id
  {
    hide Metric;
    forall i | 0 <= i < |es| && i != p
      ensures es[i].id != es[p].id
    {
      assert Metric(es[i].id, target) != Metric(es[p].id, target);
    }
  }

  lemma {:induction false} SeedsBook(selfId: NodeId, target: NodeId, peers: seq<Peer>)
    ensures Ordered(Seeds(selfId, target, peers), target)
    ensures forall id, addr ::
              Lists(Seeds(selfId, target, peers), id, addr) <==> id != selfId && LastAddr(peers, id) == Some(addr)
  {
    if peers != [] {
      var (rest, p) := (Seeds(selfId, target, peers[..|peers| - 1]), peers[|peers| - 1]);
      SeedsBook(selfId, target, peers[..|peers| - 1]);
      var e := Entry(p.id, p.addr, Unqueried);
      InsertExactly(rest, target, e);
      forall id, addr
        ensures Lists(Seeds(selfId, target, peers), id, addr) <==> id != selfId && LastAddr(peers, id) == Some(addr)
      {
        ListsAfterInsert(rest, target, e, id, addr);
        hide Insert, Lists, Metric;
      }
    }
  }

  lemma KnownMeansListed(es: seq<Entry>, id: NodeId)
    ensures Known(es, id) <==> exists addr :: Lists(es, id, addr)
  {
    if Known(es, id) {
      var i :| 0 <= i < |es| && es[i].id == id;
      assert Lists(es, id, es[i].addr);
    }
  }

  lemma HeardOneMore(initial: seq<Peer>, heard: seq<Peer>, peers: seq<Peer>, id: NodeId)
    requires peers != []
    ensures var before, p := heard + peers[..|peers| - 1], peers[|peers| - 1];
            AddressOf(initial, heard + peers, id)
            == if AddressOf(initial, before, id).None? && id == p.id then Some(p.addr)
               else AddressOf(initial, before, id)
  {
    assert (heard + peers)[..|heard + peers| - 1] == heard + peers[..|peers| - 1];
  }

  lemma {:induction false} MergeBook(l: Lookup, initial: seq<Peer>, heard: seq<Peer>, peers: seq<Peer>)
    requires IsBook(l, initial, heard)
    ensures IsBook(l.(entries := Merge(l.entries, l.selfId, l.target, peers)), initial, heard + peers)
    decreases |peers|
  {
    hide OrInsert, Insert, Lists, Metric, Known, AddressOf, Ordered;
    if peers == [] {
      assert heard + peers == heard;
    } else {
      var before, p := peers[..|peers| - 1], peers[|peers| - 1];
      MergeBook(l, initial, heard, before);
      var rest := Merge(l.entries, l.selfId, l.target, before);
      var e := Entry(p.id, p.addr, Unqueried);
      InsertExactly(rest, l.target, e);
      forall id, addr
        ensures Lists(Merge(l.entries, l.selfId, l.target, peers), id, addr)
           <==> id != l.selfId && AddressOf(initial, heard + peers, id) == Some(addr)
      {
        HeardOneMore(initial, heard, peers, id);
        ListsAfterInsert(rest, l.target, e, id, addr);
        KnownMeansListed(rest, id);
      }
    }
  }

  lemma SamePeersBook(l: Lookup, initial: seq<Peer>, heard: seq<Peer>, fs: seq<Entry>)
    requires IsBook(l, initial, heard) && SamePeers(l.entries, fs) && Ordered(fs, l.target)
    ensures IsBook(l.(entries := fs), initial, heard)
  {
    hide Metric, Ordered, AddressOf;
    forall id, addr
      ensures Lists(fs, id, addr) <==> Lists(l.entries, id, addr)
    {
      if Lists(fs, id, addr) {
        var i :| 0 <= i < |fs| && fs[i].id == id && fs[i].addr == addr;
        assert l.entries[i].id == id;
      }
      if Lists(l.entries, id, addr) {
        var i :| 0 <= i < |fs| && l.entries[i].id == id && l.entries[i].addr == addr;
        assert fs[i].id == id;
      }
    }
  }
}
