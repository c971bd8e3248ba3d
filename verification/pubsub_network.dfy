/** A finite network of pubsub nodes: the rank gate makes circulation terminate. */
module PubsubNetwork {
  import opened Prelude
  import opened Addresses
  import opened Topics
  import opened Sums
  import opened PubsubModel
  import opened PubsubHistory

  datatype Message = Message(from: UdpAddr, to: UdpAddr, frame: Frame)

  datatype Net = Net(nodes: map<UdpAddr, Node>, flight: multiset<Message>)

  /**
   * A message is delivered or lost in any order; `peers` are the addresses
   * the receiving node has established connections with at that moment.
   * Sources inject, and nodes may change roles, except that no relay is
   * registered again.
   */
  datatype NetStep =
    | Deliver(message: Message, answers: Answers, peers: set<UdpAddr>)
    | Lose(message: Message)
    | Inject(message: Message)
    | Local(at: UdpAddr, op: Op)

  predicate Allowed(net: Net, step: NetStep) {
    match step
    case Deliver(m, _, _) => m in net.flight
    case Lose(m) => m in net.flight
    case Inject(_) => true
    case Local(at, op) => at in net.nodes && !op.RegisterRelayOp? && !op.FrameOp?
  }

  /** One copy to every established peer except the one the piece came from. */
  ghost function FanOut(self: UdpAddr, source: UdpAddr, peers: set<UdpAddr>, frame: Frame): multiset<Message> {
    Copies(self, peers - {source}, frame)
  }

  ghost function Copies(self: UdpAddr, targets: set<UdpAddr>, frame: Frame): (r: multiset<Message>)
    ensures |r| == |targets|
    decreases targets
  {
    if targets == {} then multiset{}
    else
      var p :| p in targets;
      Copies(self, targets - {p}, frame) + multiset{Message(self, p, frame)}
  }

  ghost function NetApply(net: Net, step: NetStep): Result<Net>
    requires Allowed(net, step)
  {
    match step
    case Deliver(m, answers, peers) =>
      var rest := net.flight - multiset{m};
      if m.to !in net.nodes then Ok(net.(flight := rest))
      else
        var (node, event) :- HandleFrame(net.nodes[m.to], m.frame, answers);
        var copies := if event.Relayed?
                      then FanOut(m.to, m.from, peers, Frame(event.topic, event.recoded))
                      else multiset{};
        Ok(Net(net.nodes[m.to := node], rest + copies))
    case Lose(m) => Ok(net.(flight := net.flight - multiset{m}))
    case Inject(m) => Ok(net.(flight := net.flight + multiset{m}))
    case Local(at, op) =>
      var (node, _) :- Step(net.nodes[at], op);
      Ok(net.(nodes := net.nodes[at := node]))
  }

  /** The net after the steps, if each was allowed and none ended the run. */
  ghost function NetRun(net: Net, steps: seq<NetStep>): Option<Net>
    decreases |steps|
  {
    if steps == [] then Some(net)
    else if !Allowed(net, steps[0]) || NetApply(net, steps[0]).Err? then None
    else NetRun(NetApply(net, steps[0]).value, steps[1..])
  }

  // --- The measure ---

  function Missing(e: RecoderEntry): nat {
    if e.tracker.rank <= e.tracker.pieceCount then e.tracker.pieceCount - e.tracker.rank else 0
  }

  function MissingByTopic(n: Node): map<Topic, nat> {
    map t | t in n.recoders :: Missing(n.recoders[t])
  }

  ghost function NodeDeficit(n: Node): nat {
    Sum(MissingByTopic(n))
  }

  ghost function DeficitByNode(net: Net): map<UdpAddr, nat> {
    map a | a in net.nodes :: NodeDeficit(net.nodes[a])
  }

  /** Ranks still to be gained, over all relays of all nodes. */
  ghost function Deficit(net: Net): nat {
    Sum(DeficitByNode(net))
  }

  ghost function Potential(net: Net, fanout: nat): nat {
    |net.flight| + fanout * Deficit(net)
  }

  lemma RecoderUpdate(n: Node, n': Node, topic: Topic)
    requires topic in n.recoders && topic in n'.recoders && n'.recoders == n.recoders[topic := n'.recoders[topic]]
    ensures NodeDeficit(n') == NodeDeficit(n) - Missing(n.recoders[topic]) + Missing(n'.recoders[topic])
    ensures Missing(n.recoders[topic]) <= NodeDeficit(n)
  {
    assert MissingByTopic(n') == MissingByTopic(n)[topic := Missing(n'.recoders[topic])];
    SumUpdate(MissingByTopic(n), topic, Missing(n'.recoders[topic]));
    SumWithout(MissingByTopic(n), topic);
  }

  /** A frame is relayed exactly when it lowers the node's deficit, and then by one. */
  lemma FrameDeficit(n: Node, frame: Frame, answers: Answers)
    requires HandleFrame(n, frame, answers).Ok?
    ensures var (n', event) := HandleFrame(n, frame, answers).value;
            NodeDeficit(n') + (if event.Relayed? then 1 else 0) == NodeDeficit(n)
  {
    hide NodeDeficit;
    var (n', event) := HandleFrame(n, frame, answers).value;
    if answers.parses && frame.topic in n.recoders {
      RecoderUpdate(n, n', frame.topic);
    } else {
      SameRecoders(n, n');
    }
  }

  lemma SameRecoders(n: Node, n': Node)
    requires n'.recoders == n.recoders
    ensures NodeDeficit(n') == NodeDeficit(n)
  {
    assert MissingByTopic(n') == MissingByTopic(n);
  }

  lemma {:induction false} FewerRecoders(n: Node, n': Node, gone: set<Topic>)
    requires n'.recoders == n.recoders - gone
    ensures NodeDeficit(n') <= NodeDeficit(n)
    decreases |gone|
  {
    if gone == {} {
      assert n.recoders - gone == n.recoders;
      SameRecoders(n, n');
    } else {
      var t :| t in gone;
      var mid := n.(recoders := n.recoders - {t});
      assert n'.recoders == mid.recoders - (gone - {t});
      FewerRecoders(mid, n', gone - {t});
      if t in n.recoders {
        SumWithout(MissingByTopic(n), t);
        assert MissingByTopic(mid) == MissingByTopic(n) - {t};
      } else {
        assert mid.recoders == n.recoders;
        SameRecoders(n, mid);
      }
    }
  }

  lemma LocalDeficit(n: Node, op: Op)
    requires !op.RegisterRelayOp? && !op.FrameOp? && Step(n, op).Ok?
    ensures NodeDeficit(Step(n, op).value.0) <= NodeDeficit(n)
  {
    hide NodeDeficit;
    var n' := Step(n, op).value.0;
    match op
    case UnregisterRelayOp(topic) => FewerRecoders(n, n', {topic});
    case EvictRelaysOp(maxIdle) => FewerRecoders(n, n', EvictIdleRelays(n, maxIdle).1);
    case _ => SameRecoders(n, n');
  }

  lemma NodeUpdate(net: Net, at: UdpAddr, node: Node, flight: multiset<Message>)
    requires at in net.nodes
    ensures Deficit(Net(net.nodes[at := node], flight)) == Deficit(net) - NodeDeficit(net.nodes[at]) + NodeDeficit(node)
    ensures NodeDeficit(net.nodes[at]) <= Deficit(net)
  {
    hide NodeDeficit;
    var net' := Net(net.nodes[at := node], flight);
    assert DeficitByNode(net') == DeficitByNode(net)[at := NodeDeficit(node)];
    SumUpdate(DeficitByNode(net), at, NodeDeficit(node));
    SumWithout(DeficitByNode(net), at);
  }

  function Fanout(step: NetStep): nat {
    if step.Deliver? then |step.peers| else 0
  }

  /** How many messages a step takes out of the network without a rank to show for it, at least. */
  function Consumes(step: NetStep): nat {
    if step.Deliver? || step.Lose? then 1 else 0
  }

  function Adds(step: NetStep): nat {
    if step.Inject? then 1 else 0
  }

  lemma CopiesBounded(self: UdpAddr, source: UdpAddr, peers: set<UdpAddr>, frame: Frame)
    ensures |FanOut(self, source, peers, frame)| <= |peers|
  {
    if source in peers {
      assert |peers - {source}| == |peers| - 1;
    } else {
      assert peers - {source} == peers;
    }
  }

  lemma {:induction false} CopiesExactly(self: UdpAddr, targets: set<UdpAddr>, frame: Frame, x: Message)
    ensures Copies(self, targets, frame)[x] == if x.from == self && x.to in targets && x.frame == frame then 1 else 0
    decreases targets
  {
    if targets != {} {
      var p :| p in targets && Copies(self, targets, frame)
                               == Copies(self, targets - {p}, frame) + multiset{Message(self, p, frame)};
      CopiesExactly(self, targets - {p}, frame, x);
    }
  }

  /**
   * A delivery takes its message off the network and, exactly when the
   * receiving relay verifies the piece and gains from it, puts one copy of the
   * recoded piece on its way to each established peer but the sender; no other
   * message and no other node is touched.
   */
  lemma DeliverySpreadsExactly(net: Net, m: Message, answers: Answers, peers: set<UdpAddr>, x: Message)
    requires Allowed(net, Deliver(m, answers, peers)) && NetApply(net, Deliver(m, answers, peers)).Ok?
    ensures var net' := NetApply(net, Deliver(m, answers, peers)).value;
            var spread := m.to in net.nodes && Gains(net.nodes[m.to], m.frame, answers)
                          && answers.recoded.Some? && x.from == m.to && x.to in peers && x.to != m.from
                          && x.frame == Frame(m.frame.topic, answers.recoded.value);
            && net'.flight[x] + (if x == m then 1 else 0) == net.flight[x] + (if spread then 1 else 0)
            && net'.nodes.Keys == net.nodes.Keys
            && forall a :: a in net.nodes && a != m.to ==> net'.nodes[a] == net.nodes[a]
  {
    if m.to in net.nodes {
      var event := HandleFrame(net.nodes[m.to], m.frame, answers).value.1;
      hide HandleFrame, Gains;
      if event.Relayed? {
        RelayedExactly(net.nodes[m.to], m.frame, answers, event.topic, event.recoded);
        CopiesExactly(m.to, peers - {m.from}, Frame(event.topic, event.recoded), x);
      }
      if answers.recoded.Some? {
        RelayedExactly(net.nodes[m.to], m.frame, answers, m.frame.topic, answers.recoded.value);
      }
    }
  }

  lemma FanoutStep(fanout: nat, deficit: nat)
    requires deficit > 0
    ensures fanout * (deficit - 1) == fanout * deficit - fanout
  {
  }

  lemma FanoutMonotone(fanout: nat, less: nat, more: nat)
    requires less <= more
    ensures fanout * less <= fanout * more
  {
  }

  /** Every delivery or loss lowers the potential by at least one. */
  lemma StepLowersPotential(net: Net, step: NetStep, fanout: nat)
    requires Allowed(net, step) && NetApply(net, step).Ok? && Fanout(step) <= fanout
    ensures Potential(NetApply(net, step).value, fanout) + Consumes(step) <= Potential(net, fanout) + Adds(step)
  {
    hide Deficit, HandleFrame, FanOut, NodeDeficit, Step;
    var net' := NetApply(net, step).value;
    match step
    case Deliver(m, answers, peers) =>
      if m.to in net.nodes {
        var (node, event) := HandleFrame(net.nodes[m.to], m.frame, answers).value;
        FrameDeficit(net.nodes[m.to], m.frame, answers);
        NodeUpdate(net, m.to, node, net'.flight);
        if event.Relayed? {
          CopiesBounded(m.to, m.from, peers, Frame(event.topic, event.recoded));
          FanoutStep(fanout, Deficit(net));
        }
      } else {
        SameNodes(net, net');
      }
    case Lose(_) => SameNodes(net, net');
    case Inject(_) => SameNodes(net, net');
    case Local(at, op) =>
      LocalDeficit(net.nodes[at], op);
      NodeUpdate(net, at, Step(net.nodes[at], op).value.0, net.flight);
      FanoutMonotone(fanout, Deficit(net'), Deficit(net));
  }

  lemma SameNodes(net: Net, net': Net)
    requires net'.nodes == net.nodes
    ensures Deficit(net') == Deficit(net)
  {
    assert DeficitByNode(net') == DeficitByNode(net);
  }

  function Count(steps: seq<NetStep>, weight: NetStep -> nat): nat {
    if steps == [] then 0 else weight(steps[0]) + Count(steps[1..], weight)
  }

  /**
   * Circulation terminates.  In any network, over any topology and in any
   * delivery order, the number of deliveries and losses never exceeds the
   * messages in flight and injected plus, for each rank still to be gained,
   * one fan-out.
   */
  lemma {:induction false} CirculationTerminates(net: Net, steps: seq<NetStep>, fanout: nat)
    requires NetRun(net, steps).Some?
    requires forall i :: 0 <= i < |steps| ==> Fanout(steps[i]) <= fanout
    ensures Count(steps, Consumes) + Potential(NetRun(net, steps).value, fanout)
         <= Potential(net, fanout) + Count(steps, Adds)
    decreases |steps|
  {
    hide Allowed, NetApply, Potential, Fanout, Consumes, Adds;
    if steps != [] {
      assert forall i :: 0 <= i < |steps[1..]| ==> steps[1..][i] == steps[i + 1];
      StepLowersPotential(net, steps[0], fanout);
      CirculationTerminates(NetApply(net, steps[0]).value, steps[1..], fanout);
    }
  }
}
