/** Two linked hosts as a secure channel over a hostile network. */
module HostChannel {
  import opened Prelude
  import opened Crypto
  import opened Words
  import opened Addresses
  import opened LruTable
  import opened ReplayWindow
  import opened Transport
  import opened Agreement
  import opened HostModel
  import opened HostInvariant
  import Channel
  import HostDial

  /** What one operation of a host may do to an established link. */
  lemma LinkAfter(h: Host, op: Op, b: UdpAddr)
    requires b in h.established && Step(h, op).Ok? && b in Step(h, op).value.host.established
    ensures var was, now := h.established[b].value.transport, Step(h, op).value.host.established[b].value.transport;
            match op
            case SendOp(addr, plaintext) =>
              if addr == b then
                && Encrypt(was, plaintext).Ok? && now == Encrypt(was, plaintext).value.0
                && Step(h, op).value.sent == [Packet(b, Encrypt(was, plaintext).value.1)]
              else now == was
            case RecvOp(from, d, _) =>
              if from == b then
                && now == Decrypt(was, d).0
                && Step(h, op).value.event
                   == Some(if Decrypt(was, d).1.Ok? then DatagramDelivered(b, Decrypt(was, d).1.value) else Rejected(b))
              else now == was
            case _ => now == was
  {
    match op
    case SendOp(_, _) => hide Encrypt;
    case RecvOp(from, d, seed) => RecvLinkAfter(h, from, d, seed, b);
    case DialOp(_, _) => hide Handshake.WriteE, InsertLru;
    case _ =>
  }

  lemma RecvLinkAfter(h: Host, from: UdpAddr, d: Bytes, seed: Key, b: UdpAddr)
    requires b in h.established && RecvOne(h, from, d, seed).Ok? && b in RecvOne(h, from, d, seed).value.host.established
    ensures var was, out := h.established[b].value.transport, RecvOne(h, from, d, seed).value;
            var now := out.host.established[b].value.transport;
            if from == b then
              && now == Decrypt(was, d).0
              && out.event == Some(if Decrypt(was, d).1.Ok? then DatagramDelivered(b, Decrypt(was, d).1.value) else Rejected(b))
            else now == was
  {
    hide Decrypt, ConsumeMsg2, ConsumeMsg3, AnswerMsg1, InsertLru;
    forall link: Link
      ensures var g := h.WithEstablished(from, link);
              from != b && b in g.established ==> g.established[b] == h.established[b]
    {
      InsertLruEntries(h.established, from, Stamped(link, h.tick + 1), h.config.capacity.maxEstablished);
    }
    assert forall state :: h.WithHandshake(from, state).established == h.established;
    DecryptErrorKeeps(h.established[b].value.transport, d);
  }

  // --- A pair of hosts, watched from the left one's side ---

  datatype PairOp = OnLeft(op: Op) | OnRight(op: Op)

  /**
   * What `left` has sent over its link to `b`, as plaintexts and datagrams,
   * and what `right` has delivered from its link to `a`, with the nonces.
   */
  datatype Watch = Watch(
    left: Host, right: Host, sent: seq<Bytes>, wire: seq<Bytes>, delivered: seq<Bytes>, receipts: seq<Channel.Receipt>)

  predicate Linked(w: Watch, a: UdpAddr, b: UdpAddr) {
    b in w.left.established && a in w.right.established
  }

  function SessionOf(w: Watch, a: UdpAddr, b: UdpAddr): Channel.Session
    requires Linked(w, a, b)
  {
    Channel.Session(w.left.established[b].value.transport, w.right.established[a].value.transport,
                    w.sent, w.wire, w.receipts)
  }

  ghost function PairStep(w: Watch, a: UdpAddr, b: UdpAddr, pop: PairOp): Result<Watch>
    requires Linked(w, a, b)
  {
    match pop
    case OnLeft(op) =>
      var out :- Step(w.left, op);
      if op.SendOp? && op.addr == b && out.sent != []
      then Ok(w.(left := out.host, sent := w.sent + [op.plaintext], wire := w.wire + [out.sent[0].payload]))
      else Ok(w.(left := out.host))
    case OnRight(op) =>
      var out :- Step(w.right, op);
      if op.RecvOp? && op.from == a then
        Ok(w.(right := out.host,
              delivered := w.delivered + (if out.event.Some? && out.event.value.DatagramDelivered?
                                          then [out.event.value.plaintext] else []),
              receipts := w.receipts + Channel.Delivery(w.right.established[a].value.transport, op.datagram)))
      else Ok(w.(right := out.host))
  }

  /** Every operation succeeds, the link stays up on both sides, and no ciphertext under its key is forged. */
  ghost predicate Proper(w: Watch, a: UdpAddr, b: UdpAddr, pops: seq<PairOp>)
    requires Linked(w, a, b)
    decreases |pops|
  {
    pops == [] || (
      && (pops[0].OnRight? && pops[0].op.RecvOp? && pops[0].op.from == a ==>
            Channel.Unforged(SessionOf(w, a, b), pops[0].op.datagram))
      && PairStep(w, a, b, pops[0]).Ok?
      && Linked(PairStep(w, a, b, pops[0]).value, a, b)
      && Proper(PairStep(w, a, b, pops[0]).value, a, b, pops[1..]))
  }

  ghost function Watched(w: Watch, a: UdpAddr, b: UdpAddr, pops: seq<PairOp>): (r: Watch)
    requires Linked(w, a, b) && Proper(w, a, b, pops)
    ensures Linked(r, a, b)
    decreases |pops|
  {
    if pops == [] then w else Watched(PairStep(w, a, b, pops[0]).value, a, b, pops[1..])
  }

  predicate Plaintexts(delivered: seq<Bytes>, receipts: seq<Channel.Receipt>) {
    |delivered| == |receipts| && forall i :: 0 <= i < |delivered| ==> delivered[i] == receipts[i].plaintext
  }

  ghost predicate PairInv(w: Watch, a: UdpAddr, b: UdpAddr, key: Key)
    requires Linked(w, a, b)
  {
    Channel.SessionInv(SessionOf(w, a, b), key) && Plaintexts(w.delivered, w.receipts)
  }

  lemma SameSides(s: Channel.Session, t: Channel.Session, key: Key)
    requires Channel.SessionInv(s, key)
    requires t.sent == s.sent && t.wire == s.wire && t.receipts == s.receipts
    requires t.sender.sendKey == s.sender.sendKey && t.sender.sendNonce == s.sender.sendNonce
    requires t.receiver.recvKey == s.receiver.recvKey
    requires t.receiver.recvMax == s.receiver.recvMax && t.receiver.recvWindow == s.receiver.recvWindow
    ensures Channel.SessionInv(t, key)
  {
    hide Records, Channel.Nonces, Channel.NoncesOnce, Seal, NoncePrefix;
  }

  lemma LeftKeeps(w: Watch, a: UdpAddr, b: UdpAddr, key: Key, op: Op)
    requires Linked(w, a, b) && PairInv(w, a, b, key) && PairStep(w, a, b, OnLeft(op)).Ok?
    requires Linked(PairStep(w, a, b, OnLeft(op)).value, a, b)
    ensures PairInv(PairStep(w, a, b, OnLeft(op)).value, a, b, key)
  {
    hide Step, Decrypt, Encrypt, Channel.SessionInv;
    var s, w' := SessionOf(w, a, b), PairStep(w, a, b, OnLeft(op)).value;
    var was := w.left.established[b].value.transport;
    LinkAfter(w.left, op, b);
    if op.SendOp? && op.addr == b {
      Channel.SendKeeps(s, key, op.plaintext);
      assert SessionOf(w', a, b) == Channel.Act(s, Channel.Send(op.plaintext));
    } else {
      HalvesApart(was, [], if op.RecvOp? then op.datagram else []);
      SameSides(s, SessionOf(w', a, b), key);
    }
  }

  lemma RightKeeps(w: Watch, a: UdpAddr, b: UdpAddr, key: Key, op: Op)
    requires Linked(w, a, b) && PairInv(w, a, b, key) && PairStep(w, a, b, OnRight(op)).Ok?
    requires Linked(PairStep(w, a, b, OnRight(op)).value, a, b)
    requires op.RecvOp? && op.from == a ==> Channel.Unforged(SessionOf(w, a, b), op.datagram)
    ensures PairInv(PairStep(w, a, b, OnRight(op)).value, a, b, key)
  {
    hide Step, Decrypt, Encrypt, Channel.SessionInv, Channel.Unforged;
    var s, w' := SessionOf(w, a, b), PairStep(w, a, b, OnRight(op)).value;
    var was := w.right.established[a].value.transport;
    LinkAfter(w.right, op, a);
    if op.RecvOp? && op.from == a {
      Channel.ArriveKeeps(s, key, op.datagram);
      assert SessionOf(w', a, b) == Channel.Act(s, Channel.Arrive(op.datagram));
      DeliveryIsEvent(was, op.datagram);
      DeliveredAppend(w.delivered, w.receipts, was, op.datagram);
    } else {
      HalvesApart(was, if op.SendOp? then op.plaintext else [], []);
      SameSides(s, SessionOf(w', a, b), key);
    }
  }

  /** The event carries what the transport delivered. */
  lemma DeliveryIsEvent(t: TransportState, d: Bytes)
    ensures Channel.Delivery(t, d) != [] <==> Decrypt(t, d).1.Ok?
    ensures |Channel.Delivery(t, d)| <= 1
    ensures Decrypt(t, d).1.Ok? ==> Channel.Delivery(t, d)[0].plaintext == Decrypt(t, d).1.value
  {
    hide Open, NonceAcceptable, ParseNonce, AdvanceWindow;
  }

  lemma DeliveredAppend(delivered: seq<Bytes>, receipts: seq<Channel.Receipt>, t: TransportState, d: Bytes)
    requires Plaintexts(delivered, receipts)
    ensures Plaintexts(delivered + (if Decrypt(t, d).1.Ok? then [Decrypt(t, d).1.value] else []),
                       receipts + Channel.Delivery(t, d))
  {
    DeliveryIsEvent(t, d);
    hide Decrypt, Channel.Delivery;
  }

  lemma {:induction false} RunKeeps(w: Watch, a: UdpAddr, b: UdpAddr, key: Key, pops: seq<PairOp>)
    requires Linked(w, a, b) && PairInv(w, a, b, key) && Proper(w, a, b, pops)
    ensures PairInv(Watched(w, a, b, pops), a, b, key)
    decreases |pops|
  {
    hide PairInv, PairStep, Channel.Unforged;
    if pops != [] {
      if pops[0].OnLeft? {
        assert pops[0] == OnLeft(pops[0].op);
        LeftKeeps(w, a, b, key, pops[0].op);
      } else {
        assert pops[0] == OnRight(pops[0].op);
        RightKeeps(w, a, b, key, pops[0].op);
      }
      RunKeeps(PairStep(w, a, b, pops[0]).value, a, b, key, pops[1..]);
    }
  }

  /** Every delivery is one of the sends, exactly, and no send is delivered twice. */
  ghost predicate DeliversOnce(sent: seq<Bytes>, delivered: seq<Bytes>) {
    exists which: seq<nat> :: |which| == |delivered| && NoRepeats(which)
      && forall i :: 0 <= i < |delivered| ==> which[i] < |sent| && delivered[i] == sent[which[i]]
  }

  function Start(left: Host, right: Host): Watch {
    Watch(left, right, [], [], [], [])
  }

  ghost predicate MirroredHosts(left: Host, right: Host, a: UdpAddr, b: UdpAddr) {
    && b in left.established && a in right.established
    && Mirrored(left.established[b].value.transport, right.established[a].value.transport)
  }

  lemma StartInv(left: Host, right: Host, a: UdpAddr, b: UdpAddr)
    requires MirroredHosts(left, right, a, b)
    ensures PairInv(Start(left, right), a, b, left.established[b].value.transport.sendKey)
  {
    var t := left.established[b].value.transport;
    Channel.FreshSession(t.sendKey, t.recvKey);
    assert SessionOf(Start(left, right), a, b) == Channel.Opened(t.sendKey, t.recvKey);
    hide Channel.SessionInv;
  }

  /**
   * The secure channel between hosts.  From a freshly completed handshake on,
   * whatever either host is made to do and whatever arrives at it, from
   * anywhere and in any order, as long as the link stays up: the plaintexts
   * the right host reports from the left one are plaintexts that the left one
   * sent, exactly, and none is reported twice.
   */
  lemma HostsFormChannel(left: Host, right: Host, a: UdpAddr, b: UdpAddr, pops: seq<PairOp>)
    requires MirroredHosts(left, right, a, b) && Proper(Start(left, right), a, b, pops)
    ensures var w := Watched(Start(left, right), a, b, pops); DeliversOnce(w.sent, w.delivered)
  {
    hide Channel.SessionInv, PairStep, Proper, Mirrored, Watched;
    var key := left.established[b].value.transport.sendKey;
    StartInv(left, right, a, b);
    RunKeeps(Start(left, right), a, b, key, pops);
    var w := Watched(Start(left, right), a, b, pops);
    SoundSession(SessionOf(w, a, b), key);
    SoundDelivers(SessionOf(w, a, b), w.delivered);
  }

  lemma SoundSession(s: Channel.Session, key: Key)
    requires Channel.SessionInv(s, key)
    ensures Channel.Sound(s)
  {
  }

  lemma SoundDelivers(s: Channel.Session, delivered: seq<Bytes>)
    requires Channel.Sound(s) && Plaintexts(delivered, s.receipts)
    ensures DeliversOnce(s.sent, delivered)
  {
    var which: seq<nat> := seq(|s.receipts|, i requires 0 <= i < |s.receipts| => s.receipts[i].nonce);
    assert NoRepeats(which);
    assert forall i :: 0 <= i < |delivered| ==> which[i] < |s.sent| && delivered[i] == s.sent[which[i]];
  }

  /**
   * And nothing can stop an intact first arrival: whenever the n-th datagram
   * of the link reaches the right host it is reported, unless it was before or
   * n is 64 or more below the highest accepted nonce.
   */
  lemma IntactArrivalReported(left: Host, right: Host, a: UdpAddr, b: UdpAddr, pops: seq<PairOp>, n: nat, seed: Key)
    requires MirroredHosts(left, right, a, b) && Proper(Start(left, right), a, b, pops)
    requires n < |Watched(Start(left, right), a, b, pops).wire| && n <= U64_MAX
    ensures var w := Watched(Start(left, right), a, b, pops);
            var out := RecvOne(w.right, a, w.wire[n], seed);
            && |w.sent| == |w.wire| && out.Ok?
            && out.value.event
               == Some(if n !in Channel.Nonces(w.receipts)
                          && n + WINDOW_BITS > w.right.established[a].value.transport.recvMax
                       then DatagramDelivered(a, w.sent[n]) else Rejected(a))
  {
    hide Channel.SenderInv, Records, PairStep, Proper, Mirrored, Watched, Channel.SessionInv, Decrypt;
    var key := left.established[b].value.transport.sendKey;
    StartInv(left, right, a, b);
    RunKeeps(Start(left, right), a, b, key, pops);
    var w := Watched(Start(left, right), a, b, pops);
    Channel.IntactArrival(SessionOf(w, a, b), key, n);
    DeliveryIsEvent(w.right.established[a].value.transport, w.wire[n]);
  }

  // --- From the first dial on ---

  predicate CanDial(left: Host, right: Host, a: UdpAddr, b: UdpAddr) {
    && !left.Knows(b) && !right.Knows(a)
    && left.config.maxPayload >= Handshake.MESSAGE_2_OVERHEAD_LEN + Identity.SIGNED_STATIC_KEY_LEN
    && right.config.maxPayload >= Handshake.MESSAGE_2_OVERHEAD_LEN + Identity.SIGNED_STATIC_KEY_LEN
  }

  /** The two hosts after the five datagrams of a dial, with junk in between. */
  ghost function Dialled(left: Host, right: Host, a: UdpAddr, b: UdpAddr, iSeed: Key, rSeed: Key, spare: Key,
                         noise: HostDial.Noise): (r: (Host, Host))
    requires Inv(left) && Inv(right) && CanDial(left, right, a, b)
    ensures MirroredHosts(r.0, r.1, a, b)
  {
    HostDial.TwoHostDial(left, right, a, b, iSeed, rSeed, spare, noise);
    var o1 := HostModel.Dial(left, b, iSeed).value;
    var o2 := RecvOne(HostDial.Noisy(right, noise, 1), a, o1.sent[0].payload, spare).value;
    var o3 := RecvOne(HostDial.Noisy(o1.host, noise, 2), b, o2.sent[0].payload, spare).value;
    var o4 := RecvOne(HostDial.Noisy(o2.host, noise, 3), a, o3.sent[0].payload, rSeed).value;
    var o5 := RecvOne(HostDial.Noisy(o3.host, noise, 4), b, o4.sent[0].payload, spare).value;
    var o6 := RecvOne(HostDial.Noisy(o4.host, noise, 5), a, o5.sent[0].payload, spare).value;
    (o5.host, o6.host)
  }

  /**
   * From dial to delivery.  Two hosts that dial over a junk-ridden network
   * have a secure channel in both directions for as long as the link stays up.
   */
  lemma DialGivesChannel(left: Host, right: Host, a: UdpAddr, b: UdpAddr, iSeed: Key, rSeed: Key, spare: Key,
                         noise: HostDial.Noise, pops: seq<PairOp>)
    requires Inv(left) && Inv(right) && CanDial(left, right, a, b)
    ensures var (l, r) := Dialled(left, right, a, b, iSeed, rSeed, spare, noise);
            && MirroredHosts(l, r, a, b) && MirroredHosts(r, l, b, a)
            && (Proper(Start(l, r), a, b, pops) ==>
                  var w := Watched(Start(l, r), a, b, pops); DeliversOnce(w.sent, w.delivered))
            && (Proper(Start(r, l), b, a, pops) ==>
                  var w := Watched(Start(r, l), b, a, pops); DeliversOnce(w.sent, w.delivered))
  {
    hide Dialled, Inv, DeliversOnce, Proper, Watched;
    var (l, r) := Dialled(left, right, a, b, iSeed, rSeed, spare, noise);
    assert MirroredHosts(r, l, b, a);
    if Proper(Start(l, r), a, b, pops) { HostsFormChannel(l, r, a, b, pops); }
    if Proper(Start(r, l), b, a, pops) { HostsFormChannel(r, l, b, a, pops); }
  }
}
