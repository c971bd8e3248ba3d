/** How a round's sends end on a real host: exactly which rounds abort a lookup, and a round that collides. */
module KadLookupSends {
  import opened Prelude
  import opened Addresses
  import opened KadIds
  import opened KadTable
  import opened KadRouting
  import opened KadLookup
  import opened KadLookupRun
  import opened KadLookupDriver
  import opened KadLookupConverge
  import opened LruTable
  import opened Words
  import Agreement
  import Crypto
  import Handshake
  import HostInvariant
  import HostModel
  import HostRecency
  import KadCodec
  import Octets
  import Transport

  // --- Which pick fails ---

  function LastOf<T>(s: seq<T>, n: nat): seq<T> {
    s[|s| - Min(n, |s|)..]
  }

  function Keys<T>(list: Recency<UdpAddr, T>): seq<UdpAddr> {
    seq(|list|, i requires 0 <= i < |list| => list[i].0)
  }

  predicate HasSession(l: HostRecency.ListHost, addr: UdpAddr) {
    Find(l.established, addr).Some?
  }

  function PicksAt(picks: seq<Peer>, addr: UdpAddr): nat {
    if picks == [] then 0 else (if picks[0].addr == addr then 1 else 0) + PicksAt(picks[1..], addr)
  }

  /** The addresses of `picks` that get dialled, in order. */
  function Dialled(l: HostRecency.ListHost, picks: seq<Peer>): seq<UdpAddr> {
    if picks == [] then []
    else (if HasSession(l, picks[0].addr) then [] else [picks[0].addr]) + Dialled(l, picks[1..])
  }

  const REQUEST_DATAGRAM_LEN: nat := Transport.TRANSPORT_OVERHEAD + 1 + NODE_ID_LEN

  /**
   * A query fails if its datagram is too large or the session's nonces run
   * out; a dial fails if its datagram is too large or its address is in
   * flight: among the last `maxHandshakes` of the addresses in flight at the
   * start, oldest first, followed by those this round dialled before.
   */
  predicate PickFails(l: HostRecency.ListHost, picks: seq<Peer>, i: nat)
    requires i < |picks|
  {
    var addr := picks[i].addr;
    match Find(l.established, addr)
    case Some(link) =>
      l.config.maxPayload < REQUEST_DATAGRAM_LEN
      || link.transport.sendNonce + PicksAt(picks[..i], addr) >= U64_MAX
    case None =>
      l.config.maxPayload < Handshake.MESSAGE_1_LEN
      || addr in LastOf(Keys(l.handshakes) + Dialled(l, picks[..i]), l.config.capacity.maxHandshakes)
  }

  predicate SomePickFails(l: HostRecency.ListHost, picks: seq<Peer>) {
    exists i :: 0 <= i < |picks| && PickFails(l, picks, i)
  }

  predicate Within(l: HostRecency.ListHost) {
    |l.handshakes| <= l.config.capacity.maxHandshakes
  }

  lemma {:induction false} FindIsKey<T>(list: Recency<UdpAddr, T>, a: UdpAddr)
    ensures Find(list, a).Some? <==> a in Keys(list)
  {
    if list != [] {
      FindIsKey(list[1..], a);
      assert Keys(list) == [list[0].0] + Keys(list[1..]);
    }
  }

  lemma PushedKeys<T>(list: Recency<UdpAddr, T>, a: UdpAddr, v: T, cap: nat)
    requires |list| <= cap && cap > 0
    ensures Keys(PushRecent(list, a, v, cap)) == LastOf(Keys(list) + [a], cap)
    ensures |PushRecent(list, a, v, cap)| <= cap
  {
  }

  lemma LastOfLast<T>(s: seq<T>, t: seq<T>, n: nat)
    ensures LastOf(LastOf(s, n) + t, n) == LastOf(s + t, n)
  {
  }

  /** The mark a pick gets. */
  function MarkOf(h: HostModel.Host, p: Peer): LookupOp {
    if p.addr in h.established then MarkInFlight(p) else MarkDialing(p)
  }

  lemma RequestLength(target: NodeId)
    ensures |Request(target)| == 1 + NODE_ID_LEN
  {
  }

  /**
   * What a pick puts on the wire: one datagram to its address, which is the
   * host's message 1 if it is dialled, and otherwise a ciphertext of the
   * session, under its next nonce, whose plaintext decodes to FIND_NODE for
   * the target.
   */
  lemma PickSays(h: HostModel.Host, target: NodeId, p: Peer, seed: Crypto.Key) returns (request: seq<Octets.byte>)
    requires SendOne(h, target, MarkOf(h, p), seed).Ok?
    ensures KadCodec.Decode(request) == Ok(KadCodec.FindNodeReq(target))
    ensures var sent := SendOne(h, target, MarkOf(h, p), seed).value.sent;
            && |sent| == 1 && sent[0].to == p.addr
            && if p.addr in h.established then
                 var t := h.established[p.addr].value.transport;
                 sent[0].payload == Transport.NoncePrefix(t.sendNonce)
                                    + Crypto.Seal(t.sendKey, t.sendNonce, [], Crypto.Literal(request))
               else sent[0].payload == Crypto.PublicOf(seed)
  {
    request := KadCodec.Encode(KadCodec.FindNodeReq(target)).value;
    KadCodec.DecodeEncode(KadCodec.FindNodeReq(target));
    Agreement.MessageOne(h.config.identity.staticPrivate, seed, seed);
    hide Crypto.Seal, Crypto.PublicOf, Crypto.Literal, Transport.NoncePrefix, KadCodec.Decode;
  }

  /** A socket that fails at one of the sends ends the round there; one that would fail later is as good as any. */
  lemma {:induction false} SocketEnds(h: HostModel.Host, target: NodeId, marks: seq<LookupOp>, seeds: seq<Crypto.Key>, n: nat)
    ensures n < |marks| ==> SendAll(h, target, marks, seeds, Some(n)).Err?
    ensures n >= |marks| ==> SendAll(h, target, marks, seeds, Some(n)) == SendAll(h, target, marks, seeds, None)
    decreases |marks|
  {
    hide SendOne;
    if marks != [] && n > 0 && SendOne(h, target, marks[0], SeedFor(seeds)).Ok? {
      SocketEnds(SendOne(h, target, marks[0], SeedFor(seeds)).value.host, target, marks[1..],
                 if seeds == [] then [] else seeds[1..], n - 1);
    }
  }

  lemma WithinCap(l: HostRecency.ListHost, h: HostModel.Host)
    requires HostRecency.Models(l, h) && HostInvariant.Inv(h)
    ensures Within(l)
  {
    hide Distinct, Refines;
    RefinesSize(l.handshakes, h.handshakes);
  }

  /** The first send fails exactly if the first pick does. */
  lemma FirstSendFails(l: HostRecency.ListHost, h: HostModel.Host, target: NodeId, p: Peer, seed: Crypto.Key)
    requires HostRecency.Models(l, h) && HostInvariant.Inv(h)
    ensures SendOne(h, target, MarkOf(h, p), seed).Err? <==> PickFails(l, [p], 0)
  {
    HostRecency.ModelsFind(l, h, p.addr);
    WithinCap(l, h);
    RequestLength(target);
    FindIsKey(l.handshakes, p.addr);
    hide HostInvariant.Inv, Refines, Request, Find, Crypto.Expand;
    assert [p][..0] == [];
    assert Keys(l.handshakes) + [] == Keys(l.handshakes);
    if p.addr in h.established {
      var t := h.established[p.addr].value.transport;
      if t.sendNonce < U64_MAX {
        assert |Transport.Encrypt(t, Request(target)).value.1| == REQUEST_DATAGRAM_LEN;
      }
    } else {
      assert |Handshake.WriteE(h.config.identity.staticPrivate, seed).1| == Handshake.MESSAGE_1_LEN;
    }
  }

  lemma PicksAtMore(p: Peer, rest: seq<Peer>, i: nat, addr: UdpAddr)
    requires i <= |rest|
    ensures ([p] + rest)[..i + 1] == [p] + rest[..i]
    ensures PicksAt(([p] + rest)[..i + 1], addr) == (if p.addr == addr then 1 else 0) + PicksAt(rest[..i], addr)
  {
    assert ([p] + rest[..i])[1..] == rest[..i];
  }

  lemma {:induction false} SameDials(l: HostRecency.ListHost, m: HostRecency.ListHost, picks: seq<Peer>)
    requires forall a :: HasSession(l, a) <==> HasSession(m, a)
    ensures Dialled(l, picks) == Dialled(m, picks)
  {
    if picks != [] { SameDials(l, m, picks[1..]); }
  }

  /** What the host and its lists look like after a query has gone out. */
  lemma AfterQuery(l: HostRecency.ListHost, h: HostModel.Host, target: NodeId, p: Peer, seed: Crypto.Key)
    returns (m: HostRecency.ListHost, g: HostModel.Host)
    requires HostRecency.Models(l, h) && HostInvariant.Inv(h)
    requires p.addr in h.established && SendOne(h, target, MarkInFlight(p), seed).Ok?
    ensures g == SendOne(h, target, MarkInFlight(p), seed).value.host
    ensures HostRecency.Models(m, g) && HostInvariant.Inv(g) && m.config == l.config && m.handshakes == l.handshakes
    ensures g.established.Keys == h.established.Keys
    ensures forall b :: b in g.established ==>
              g.established[b].value.transport.sendNonce
              == h.established[b].value.transport.sendNonce + if b == p.addr then 1 else 0
  {
    var op := HostModel.SendOp(p.addr, Request(target));
    HostRecency.StepRefines(l, h, op);
    HostInvariant.StepInv(h, op);
    HostRecency.ModelsFind(l, h, p.addr);
    hide HostInvariant.Inv, Refines, Request, Find, MoveToBack;
    g := HostModel.Send(h, p.addr, Request(target)).value.host;
    m := HostRecency.ListSend(l, p.addr, Request(target)).value.host;
  }

  lemma AfterDial(l: HostRecency.ListHost, h: HostModel.Host, target: NodeId, p: Peer, seed: Crypto.Key)
    returns (m: HostRecency.ListHost, g: HostModel.Host)
    requires HostRecency.Models(l, h) && HostInvariant.Inv(h)
    requires p.addr !in h.established && SendOne(h, target, MarkDialing(p), seed).Ok?
    ensures g == SendOne(h, target, MarkDialing(p), seed).value.host
    ensures HostRecency.Models(m, g) && HostInvariant.Inv(g) && m.config == l.config
    ensures m.established == l.established && g.established == h.established
    ensures Keys(m.handshakes) == LastOf(Keys(l.handshakes) + [p.addr], l.config.capacity.maxHandshakes)
  {
    var op := HostModel.DialOp(p.addr, seed);
    HostRecency.StepRefines(l, h, op);
    HostInvariant.StepInv(h, op);
    HostRecency.ModelsFind(l, h, p.addr);
    WithinCap(l, h);
    hide HostInvariant.Inv, Refines, Find, PushRecent, Keys, LastOf;
    g := HostModel.Dial(h, p.addr, seed).value.host;
    m := HostRecency.ListDial(l, p.addr, seed).value.host;
    var (a, msg1) := Handshake.WriteE(h.config.identity.staticPrivate, seed);
    PushedKeys(l.handshakes, p.addr, HostModel.InitiatorAwaitingResponse(a, msg1), l.config.capacity.maxHandshakes);
  }

  lemma DialledMore(l: HostRecency.ListHost, p: Peer, rest: seq<Peer>)
    ensures Dialled(l, [p] + rest) == (if HasSession(l, p.addr) then [] else [p.addr]) + Dialled(l, rest)
  {
    assert ([p] + rest)[1..] == rest;
  }

  lemma LaterThanQuery(l: HostRecency.ListHost, m: HostRecency.ListHost, p: Peer, rest: seq<Peer>, i: nat)
    requires i < |rest| && m.config == l.config && m.handshakes == l.handshakes && HasSession(l, p.addr)
    requires forall a :: HasSession(l, a) <==> HasSession(m, a)
    requires HasSession(l, rest[i].addr) ==>
               HasSession(m, rest[i].addr) &&
               Find(m.established, rest[i].addr).value.transport.sendNonce
               == Find(l.established, rest[i].addr).value.transport.sendNonce + if rest[i].addr == p.addr then 1 else 0
    ensures PickFails(m, rest, i) <==> PickFails(l, [p] + rest, i + 1)
  {
    hide Find, Keys, LastOf;
    PicksAtMore(p, rest, i, rest[i].addr);
    DialledMore(l, p, rest[..i]);
    SameDials(l, m, rest[..i]);
    assert [] + Dialled(l, rest[..i]) == Dialled(l, rest[..i]);
    hide PicksAt, Dialled;
  }

  lemma LaterThanDial(l: HostRecency.ListHost, m: HostRecency.ListHost, p: Peer, rest: seq<Peer>, i: nat)
    requires i < |rest| && m.config == l.config && m.established == l.established && !HasSession(l, p.addr)
    requires Keys(m.handshakes) == LastOf(Keys(l.handshakes) + [p.addr], l.config.capacity.maxHandshakes)
    ensures PickFails(m, rest, i) <==> PickFails(l, [p] + rest, i + 1)
  {
    hide Find, Keys, LastOf;
    var before := Dialled(l, rest[..i]);
    PicksAtMore(p, rest, i, rest[i].addr);
    DialledMore(l, p, rest[..i]);
    SameDials(l, m, rest[..i]);
    hide PicksAt, Dialled;
    assert Keys(l.handshakes) + [p.addr] + before == Keys(l.handshakes) + ([p.addr] + before);
    LastOfLast(Keys(l.handshakes) + [p.addr], before, l.config.capacity.maxHandshakes);
    if rest[i].addr == p.addr { assert !HasSession(l, rest[i].addr); }
  }

  /** A later pick fails from the next state exactly if it fails in place. */
  lemma LaterPickFails(l: HostRecency.ListHost, h: HostModel.Host, m: HostRecency.ListHost, g: HostModel.Host,
                       p: Peer, rest: seq<Peer>, i: nat)
    requires HostRecency.Models(l, h) && HostRecency.Models(m, g) && i < |rest| && m.config == l.config
    requires if p.addr in h.established then
               && m.handshakes == l.handshakes && g.established.Keys == h.established.Keys
               && forall b :: b in g.established ==>
                    g.established[b].value.transport.sendNonce
                    == h.established[b].value.transport.sendNonce + if b == p.addr then 1 else 0
             else
               && m.established == l.established
               && Keys(m.handshakes) == LastOf(Keys(l.handshakes) + [p.addr], l.config.capacity.maxHandshakes)
    ensures PickFails(m, rest, i) <==> PickFails(l, [p] + rest, i + 1)
  {
    hide Find, HostRecency.Models, PickFails, Keys, LastOf;
    HostRecency.ModelsFind(l, h, p.addr);
    HostRecency.ModelsFind(l, h, rest[i].addr);
    HostRecency.ModelsFind(m, g, rest[i].addr);
    if p.addr in h.established {
      forall a
        ensures HasSession(l, a) <==> HasSession(m, a)
      {
        HostRecency.ModelsFind(l, h, a);
        HostRecency.ModelsFind(m, g, a);
      }
      LaterThanQuery(l, m, p, rest, i);
    } else {
      LaterThanDial(l, m, p, rest, i);
    }
  }

  lemma LaterPicksFail(l: HostRecency.ListHost, m: HostRecency.ListHost, p: Peer, rest: seq<Peer>)
    requires forall i :: 0 <= i < |rest| ==> (PickFails(m, rest, i) <==> PickFails(l, [p] + rest, i + 1))
    ensures SomePickFails(l, [p] + rest) <==> PickFails(l, [p] + rest, 0) || SomePickFails(m, rest)
  {
    hide PickFails;
    if SomePickFails(l, [p] + rest) && !PickFails(l, [p] + rest, 0) {
      var i :| 0 <= i < |[p] + rest| && PickFails(l, [p] + rest, i);
      assert PickFails(m, rest, i - 1);
    }
    if SomePickFails(m, rest) {
      var i :| 0 <= i < |rest| && PickFails(m, rest, i);
      assert PickFails(l, [p] + rest, i + 1);
    }
  }

  lemma FirstPickAlone(l: HostRecency.ListHost, p: Peer, rest: seq<Peer>)
    ensures PickFails(l, [p] + rest, 0) <==> PickFails(l, [p], 0)
  {
    assert ([p] + rest)[..0] == [p][..0];
  }

  /**
   * Which rounds abort a lookup.  Unless the socket itself fails, the sends of
   * a round fail exactly if one of its picks does, and then the node is gone.
   */
  lemma {:induction false} RoundAbortsExactly(l: HostRecency.ListHost, h: HostModel.Host, target: NodeId, picks: seq<Peer>,
                                              seeds: seq<Crypto.Key>)
    requires HostRecency.Models(l, h) && HostInvariant.Inv(h)
    ensures SendAll(h, target, Marks(picks, h.established.Keys), seeds, None).Err? <==> SomePickFails(l, picks)
    decreases |picks|
  {
    hide HostRecency.Models, HostInvariant.Inv, SendOne, PickFails, Keys, LastOf;
    if picks != [] {
      var p, rest := picks[0], picks[1..];
      var seed, more := SeedFor(seeds), if seeds == [] then [] else seeds[1..];
      assert picks == [p] + rest;
      MarksTail(picks, h.established.Keys);
      MarkKind(picks, h.established.Keys);
      hide Marks;
      FirstSendFails(l, h, target, p, seed);
      FirstPickAlone(l, p, rest);
      if SendOne(h, target, MarkOf(h, p), seed).Ok? {
        var m, g := l, h;
        if p.addr in h.established {
          m, g := AfterQuery(l, h, target, p, seed);
        } else {
          m, g := AfterDial(l, h, target, p, seed);
        }
        forall i | 0 <= i < |rest|
          ensures PickFails(m, rest, i) <==> PickFails(l, [p] + rest, i + 1)
        {
          LaterPickFails(l, h, m, g, p, rest, i);
        }
        LaterPicksFail(l, m, p, rest);
        assert g.established.Keys == h.established.Keys;
        RoundAbortsExactly(m, g, target, rest, more);
      }
    }
  }

  lemma {:induction false} DialledAt(l: HostRecency.ListHost, picks: seq<Peer>, i: nat) returns (k: nat)
    requires i < |picks| && !HasSession(l, picks[i].addr)
    ensures k < |Dialled(l, picks)| && Dialled(l, picks)[k] == picks[i].addr && |Dialled(l, picks)| - k <= |picks| - i
    decreases |picks|
  {
    DialledBound(l, picks);
    if i == 0 {
      k := 0;
    } else {
      assert picks[1..][i - 1] == picks[i];
      k := DialledAt(l, picks[1..], i - 1);
      if !HasSession(l, picks[0].addr) { k := k + 1; }
    }
  }

  lemma {:induction false} DialledBound(l: HostRecency.ListHost, picks: seq<Peer>)
    ensures |Dialled(l, picks)| <= |picks|
  {
    if picks != [] { DialledBound(l, picks[1..]); }
  }

  /**
   * Two picks at one address without a session abort the lookup, if the
   * in-flight table has room for the dials from the one to the other: the
   * second dial finds the first in flight.
   */
  lemma TwinDialsAbort(l: HostRecency.ListHost, h: HostModel.Host, target: NodeId, picks: seq<Peer>,
                       seeds: seq<Crypto.Key>, i: nat, j: nat)
    requires HostRecency.Models(l, h) && HostInvariant.Inv(h)
    requires i < j < |picks| && picks[i].addr == picks[j].addr && picks[i].addr !in h.established
    requires j - i <= l.config.capacity.maxHandshakes
    ensures SendAll(h, target, Marks(picks, h.established.Keys), seeds, None).Err?
  {
    var addr, before := picks[j].addr, picks[..j];
    HostRecency.ModelsFind(l, h, addr);
    RoundAbortsExactly(l, h, target, picks, seeds);
    hide HostRecency.Models, HostInvariant.Inv, SendAll, Marks, Find, Keys;
    var k := DialledAt(l, before, i);
    var all, cap := Keys(l.handshakes) + Dialled(l, before), l.config.capacity.maxHandshakes;
    assert all[|Keys(l.handshakes)| + k] == addr;
    assert LastOf(all, cap)[|Keys(l.handshakes)| + k - (|all| - Min(cap, |all|))] == addr;
    assert PickFails(l, picks, j);
  }

  // --- A run that collides ---

  lemma {:induction false} AllUnasked(es: seq<Entry>)
    requires forall i :: 0 <= i < |es| ==> es[i].status.Unqueried?
    ensures Unasked(es) == es
  {
    if es != [] { AllUnasked(es[1..]); }
  }

  lemma OneKnown(e: Entry, id: NodeId)
    ensures Known([e], id) <==> e.id == id
  {
    assert [e][0] == e;
  }

  lemma OneEntry(selfId: NodeId, target: NodeId, p: Peer)
    requires p.id != selfId
    ensures Seeds(selfId, target, [p]) == [Entry(p.id, p.addr, Unqueried)]
    ensures Ordered([Entry(p.id, p.addr, Unqueried)], target)
  {
    hide Metric, Place, Insert;
    assert [p][..0] == [];
    assert Seeds(selfId, target, []) == [];
    InsertExactly([], target, Entry(p.id, p.addr, Unqueried));
  }

  /** The peer nearer to the target. */
  function NearerOf(target: NodeId, p: Peer, q: Peer): Peer {
    if Metric(p.id, target) < Metric(q.id, target) then p else q
  }

  lemma TwoEntries(selfId: NodeId, target: NodeId, p: Peer, q: Peer)
    requires p.id != q.id && p.id != selfId && q.id != selfId
    ensures var near, es := NearerOf(target, p, q), Seeds(selfId, target, [p, q]);
            var far := if near == p then q else p;
            es == [Entry(near.id, near.addr, Unqueried), Entry(far.id, far.addr, Unqueried)]
  {
    var first, second := Entry(p.id, p.addr, Unqueried), Entry(q.id, q.addr, Unqueried);
    hide Metric, Place, Insert;
    OneEntry(selfId, target, p);
    InsertExactly([first], target, second);
    hide Known;
    assert !Known([first], q.id) by { OneKnown(first, q.id); }
    assert [p, q][..1] == [p];
    assert Seeds(selfId, target, [p, q]) == Insert([first], target, second);
    if Metric(p.id, target) == Metric(q.id, target) { MetricInjective(p.id, q.id, target); }
    var at := Place([first], target, q.id);
    assert Metric([first][0].id, target) == Metric(p.id, target);
    assert at == if Metric(p.id, target) < Metric(q.id, target) then 1 else 0;
    assert [first][..at] + [second] + [first][at..] == if at == 1 then [first, second] else [second, first];
  }

  /** Two seeds make a shortlist of two, both picked when there is room, the nearer first. */
  lemma TwoSeeds(selfId: NodeId, target: NodeId, config: Config, p: Peer, q: Peer)
    requires p.id != q.id && p.id != selfId && q.id != selfId && config.k >= 2 && config.alpha >= 2
    ensures var l := NewLookup(selfId, target, config, [p, q]);
            && |PickNextAlpha(l)| == 2 && !IsDone(l)
            && PickNextAlpha(l)[0] == NearerOf(target, p, q) && PickNextAlpha(l)[1].addr in {p.addr, q.addr}
  {
    hide Seeds, NearerOf;
    var l := NewLookup(selfId, target, config, [p, q]);
    TwoEntries(selfId, target, p, q);
    assert TopEntries(l) == l.entries;
    AllUnasked(l.entries);
  }

  lemma {:induction false} DrainQuiet(l: Lookup, n: nat)
    ensures Drain(l, n, seq(n, _ => Delivered(OtherEvent))) == (None, [])
  {
    var quiet := seq(n, _ => Delivered(OtherEvent));
    if n > 0 && HasPending(l) {
      assert quiet[1..] == seq(n - 1, _ => Delivered(OtherEvent));
      assert ApplyAll(l, []) == l;
      DrainQuiet(l, n - 1);
      assert [] + Drain(l, n - 1, quiet[1..]).1 == [];
    }
  }

  /**
   * The failing family.  Two peers learned at one address that has a session,
   * both asked in the only round, with nothing relevant arriving: the lookup
   * returns, and the nearer of the two is still in flight, for good.
   */
  lemma TwinQueriesUnsettled(selfId: NodeId, target: NodeId, config: Config, p: Peer, q: Peer,
                             l: HostRecency.ListHost, h: HostModel.Host)
    requires p.id != q.id && p.id != selfId && q.id != selfId && p.addr == q.addr
    requires config.k >= 2 && config.alpha >= 2 && config.maxRounds == 1
    requires HostRecency.Models(l, h) && HostInvariant.Inv(h) && p.addr in h.established
    requires h.config.maxPayload >= REQUEST_DATAGRAM_LEN
    requires h.established[p.addr].value.transport.sendNonce + 2 < U64_MAX
    ensures var rounds := [Round(h, [], None, seq(config.maxRecvPerRound, _ => Delivered(OtherEvent)))];
            var d := RunLookup(selfId, target, config, [p, q], rounds);
            var final := ApplyAll(NewLookup(selfId, target, config, [p, q]), d.ops);
            && d.outcome == Returned(0) && !HasPending(final)
            && Entry(NearerOf(target, p, q).id, p.addr, InFlight) in final.entries
            && !ApartAlong(NewLookup(selfId, target, config, [p, q]), config.maxRounds, rounds)
  {
    hide NewLookup, PickNextAlpha, Marks, ApplyAll, IsDone, HostRecency.Models, HostInvariant.Inv, SendAll, Tracks, Drive, Drain;
    hide SomePickFails, ApartAlong, Stranded, NearerOf, HasPending;
    var round := Round(h, [], None, seq(config.maxRecvPerRound, _ => Delivered(OtherEvent)));
    var l0 := NewLookup(selfId, target, config, [p, q]);
    var picks := PickNextAlpha(l0);
    NewTerms(selfId, target, config, [p, q]);
    TwoSeeds(selfId, target, config, p, q);
    assert NearerOf(target, p, q).addr == p.addr by { NearerAddress(target, p, q); }
    RoundAbortsExactly(l, h, target, picks, []);
    TwinQueriesSent(l, h, picks, p.addr);
    DrainQuiet(ApplyAll(l0, Marks(picks, h.established.Keys)), config.maxRecvPerRound);
    OneRound(l0, round);
    NewTracks(selfId, target, config, [p, q]);
    TwinsNotApart(l0, round);
    TwinLeft(l0, round, p.addr);
  }

  lemma NearerAddress(target: NodeId, p: Peer, q: Peer)
    requires p.addr == q.addr
    ensures NearerOf(target, p, q).addr == p.addr
  {
  }

  /** After marks at one address and the skips, the first pick is in flight and nothing is pending. */
  lemma TwinLeft(l: Lookup, round: Round, addr: UdpAddr)
    requires Tracks(l) && |PickNextAlpha(l)| == 2 && addr in round.Established()
    requires PickNextAlpha(l)[0].addr == addr && PickNextAlpha(l)[1].addr == addr
    ensures var final := ApplyAll(l, Marks(PickNextAlpha(l), round.Established()) + SKIPS);
            Entry(PickNextAlpha(l)[0].id, addr, InFlight) in final.entries && !HasPending(final)
  {
    hide PickNextAlpha, Marks, ApplyAll, Tracks, Stranded, HasPending, AllAllowed;
    var picks := PickNextAlpha(l);
    var marks := Marks(picks, round.Established());
    TracksOrdered(l);
    PicksAskable(l);
    MarksAllowed(l, picks, round.Established());
    RunTracks(l, marks);
    var e := TwinsStrand(l, picks, round.Established(), 0, 1);
    NoMarksAllowed(ApplyAll(l, marks), SKIPS);
    StrandedForever(ApplyAll(l, marks), SKIPS, e);
    StrandedListed(ApplyAll(ApplyAll(l, marks), SKIPS), e);
    ApplyAppend(l, marks, SKIPS);
    SkipsLeaveNothingPending(ApplyAll(l, marks));
  }

  lemma StrandedListed(l: Lookup, e: Entry)
    requires Stranded(l, e)
    ensures e in l.entries
  {
  }

  lemma OneRound(l: Lookup, round: Round)
    requires !IsDone(l) && PickNextAlpha(l) != []
    requires var marks := Marks(PickNextAlpha(l), round.Established());
             round.Sends(l.target, marks).Ok?
             && Drain(ApplyAll(l, marks), l.config.maxRecvPerRound, round.arrivals) == (None, [])
    ensures Drive(l, 1, [round]) == Driven(Returned(0), Marks(PickNextAlpha(l), round.Established()) + SKIPS)
  {
    hide PickNextAlpha, Marks, ApplyAll, IsDone, SendAll, Drain;
    var marks := Marks(PickNextAlpha(l), round.Established());
    assert marks + [] + SKIPS == marks + SKIPS;
    assert Drive(ApplyAll(l, marks + SKIPS), 0, [round][1..]) == Driven(Returned(0), []);
    assert marks + SKIPS + [] == marks + SKIPS;
  }

  lemma TwinsNotApart(l: Lookup, round: Round)
    requires !IsDone(l) && |PickNextAlpha(l)| == 2 && PickNextAlpha(l)[0].addr == PickNextAlpha(l)[1].addr
    ensures !ApartAlong(l, 1, [round])
  {
    hide PickNextAlpha, Marks, ApplyAll, IsDone, SendAll, Drain;
  }

  lemma NewTerms(selfId: NodeId, target: NodeId, config: Config, initial: seq<Peer>)
    ensures NewLookup(selfId, target, config, initial).config == config
    ensures NewLookup(selfId, target, config, initial).target == target
  {
  }

  lemma TwinQueriesSent(l: HostRecency.ListHost, h: HostModel.Host, picks: seq<Peer>, addr: UdpAddr)
    requires HostRecency.Models(l, h) && |picks| == 2 && picks[0].addr == addr && picks[1].addr == addr
    requires addr in h.established && h.config.maxPayload >= REQUEST_DATAGRAM_LEN
    requires h.established[addr].value.transport.sendNonce + 2 < U64_MAX
    ensures !SomePickFails(l, picks)
  {
    HostRecency.ModelsFind(l, h, addr);
    hide Find, Refines;
    forall i | 0 <= i < 2
      ensures !PickFails(l, picks, i)
    {
      PicksAtBound(picks[..i], addr);
    }
  }

  lemma {:induction false} PicksAtBound(picks: seq<Peer>, addr: UdpAddr)
    ensures PicksAt(picks, addr) <= |picks|
  {
    if picks != [] { PicksAtBound(picks[1..], addr); }
  }
}
