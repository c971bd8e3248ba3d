/**
 * A pubsub node as a state and its operations: one decoder or relay per topic.
 *
 * Coding and authentication are foreign code.  Each arrival comes with the
 * answers they give, about which only this is known: a tracker starts at rank
 * 0, absorbing adds 0 or 1 to the rank and never takes it past the piece count.
 */
module PubsubModel {
  import opened Prelude
  import opened Octets
  import opened Topics

  type Piece = seq<byte>

  type Commitment = seq<byte>

  /** Incremental rank of the pieces absorbed so far. */
  datatype Tracker = Tracker(pieceCount: nat, rank: nat)
  {
    predicate IsComplete() { rank == pieceCount }

    function Absorb(innovative: bool): Tracker {
      if innovative && rank < pieceCount then this.(rank := rank + 1) else this
    }
  }

  datatype DecoderEntry = DecoderEntry(decoder: Tracker, commitment: Commitment, lastActivity: nat)

  datatype RecoderEntry = RecoderEntry(
    buffered: seq<Piece>, tracker: Tracker, commitment: Commitment, lastActivity: nat)

  datatype Node = Node(decoders: map<Topic, DecoderEntry>, recoders: map<Topic, RecoderEntry>, tick: nat)

  /** How the foreign code answers for one arriving frame; `None` is its error. */
  datatype Answers = Answers(
    parses: bool, verifies: bool, innovative: Option<bool>, adds: bool,
    recoded: Option<Piece>, decoded: Option<seq<byte>>)

  datatype Frame = Frame(topic: Topic, piece: Piece)

  datatype MuxEvent =
    | Absorbed(topic: Topic)
    | Redundant(topic: Topic)
    | Delivered(topic: Topic, data: seq<byte>)
    | Relayed(topic: Topic, recoded: Piece)
    | Refused

  function NewNode(): Node {
    Node(map[], map[], 0)
  }

  function RegisterTopic(n: Node, topic: Topic, pieceCount: nat, commitment: Commitment): Node {
    n.(decoders := n.decoders[topic := DecoderEntry(Tracker(pieceCount, 0), commitment, n.tick + 1)],
       tick := n.tick + 1)
  }

  function RegisterRelay(n: Node, topic: Topic, pieceCount: nat, commitment: Commitment): Node {
    n.(recoders := n.recoders[topic := RecoderEntry([], Tracker(pieceCount, 0), commitment, n.tick + 1)],
       tick := n.tick + 1)
  }

  function UnregisterTopic(n: Node, topic: Topic): Node {
    n.(decoders := n.decoders - {topic}, tick := n.tick + 1)
  }

  function UnregisterRelay(n: Node, topic: Topic): Node {
    n.(recoders := n.recoders - {topic}, tick := n.tick + 1)
  }

  function EvictIdleTopics(n: Node, maxIdle: nat): (Node, set<Topic>) {
    var gone := set t | t in n.decoders && n.decoders[t].lastActivity < Cutoff(n.tick, maxIdle);
    (n.(decoders := n.decoders - gone, tick := n.tick + 1), gone)
  }

  function EvictIdleRelays(n: Node, maxIdle: nat): (Node, set<Topic>) {
    var gone := set t | t in n.recoders && n.recoders[t].lastActivity < Cutoff(n.tick, maxIdle);
    (n.(recoders := n.recoders - gone, tick := n.tick + 1), gone)
  }

  /** Relay, then decoder, then no role at all. */
  function HandleFrame(n: Node, frame: Frame, answers: Answers): Result<(Node, MuxEvent)> {
    if !answers.parses then Ok((n, Refused))
    else if frame.topic in n.recoders then RelayPath(n, frame, answers)
    else if frame.topic in n.decoders then Ok(DecoderPath(n, frame, answers))
    else Ok((n, Refused))
  }

  /** The decoder is dropped both when it completes and when absorbing fails. */
  function DecoderPath(n: Node, frame: Frame, answers: Answers): (Node, MuxEvent)
    requires frame.topic in n.decoders
  {
    var entry := n.decoders[frame.topic];
    if !answers.verifies then (n, Refused)
    else
      match answers.innovative
      case None => (n.(decoders := n.decoders - {frame.topic}), Refused)
      case Some(innovative) =>
        var next := entry.decoder.Absorb(innovative);
        if next.IsComplete() then
          (n.(decoders := n.decoders - {frame.topic}, tick := n.tick + 1),
           if answers.decoded.Some? then Delivered(frame.topic, answers.decoded.value) else Refused)
        else
          (n.(decoders := n.decoders[frame.topic := entry.(decoder := next, lastActivity := n.tick + 1)],
              tick := n.tick + 1),
           Absorbed(frame.topic))
  }

  function Refresh(n: Node, topic: Topic, entry: RecoderEntry): Node {
    n.(recoders := n.recoders[topic := entry.(lastActivity := n.tick + 1)], tick := n.tick + 1)
  }

  /** The rank gate: only a piece that raises the rank is stored and re-broadcast. */
  function RelayPath(n: Node, frame: Frame, answers: Answers): Result<(Node, MuxEvent)>
    requires frame.topic in n.recoders
  {
    var entry := n.recoders[frame.topic];
    if !answers.verifies then Ok((n, Refused))
    else if entry.tracker.IsComplete() then Ok((Refresh(n, frame.topic, entry), Redundant(frame.topic)))
    else if answers.innovative.None? then Ok((n, Refused))
    else
      var tracker := entry.tracker.Absorb(answers.innovative.value);
      if tracker.rank == entry.tracker.rank then Ok((Refresh(n, frame.topic, entry), Redundant(frame.topic)))
      else if !answers.adds then Ok((n, Refused))
      else
        match answers.recoded
        case None => Err(RlncLayer)
        case Some(piece) =>
          Ok((Refresh(n, frame.topic, entry.(buffered := entry.buffered + [frame.piece], tracker := tracker)),
              Relayed(frame.topic, piece)))
  }

  // --- Runs of one node ---

  datatype Op =
    | RegisterTopicOp(topic: Topic, pieceCount: nat, commitment: Commitment)
    | RegisterRelayOp(topic: Topic, pieceCount: nat, commitment: Commitment)
    | UnregisterTopicOp(topic: Topic)
    | UnregisterRelayOp(topic: Topic)
    | EvictTopicsOp(maxIdle: nat)
    | EvictRelaysOp(maxIdle: nat)
    | FrameOp(frame: Frame, answers: Answers)

  function Step(n: Node, op: Op): Result<(Node, Option<MuxEvent>)> {
    match op
    case RegisterTopicOp(topic, pieceCount, commitment) => Ok((RegisterTopic(n, topic, pieceCount, commitment), None))
    case RegisterRelayOp(topic, pieceCount, commitment) => Ok((RegisterRelay(n, topic, pieceCount, commitment), None))
    case UnregisterTopicOp(topic) => Ok((UnregisterTopic(n, topic), None))
    case UnregisterRelayOp(topic) => Ok((UnregisterRelay(n, topic), None))
    case EvictTopicsOp(maxIdle) => Ok((EvictIdleTopics(n, maxIdle).0, None))
    case EvictRelaysOp(maxIdle) => Ok((EvictIdleRelays(n, maxIdle).0, None))
    case FrameOp(frame, answers) =>
      var (next, event) :- HandleFrame(n, frame, answers);
      Ok((next, Some(event)))
  }

  datatype Shown = Shown(op: Op, event: Option<MuxEvent>)

  function Run(n: Node, ops: seq<Op>): Result<(Node, seq<Shown>)>
    decreases |ops|
  {
    if ops == [] then Ok((n, []))
    else
      var last := ops[|ops| - 1];
      var (before, shown) :- Run(n, ops[..|ops| - 1]);
      var (after, event) :- Step(before, last);
      Ok((after, shown + [Shown(last, event)]))
  }

  /** Pieces re-broadcast for `topic` since its relay was last registered. */
  function Emissions(shown: seq<Shown>, topic: Topic): nat
    decreases |shown|
  {
    if shown == [] then 0
    else
      var last, before := shown[|shown| - 1], shown[..|shown| - 1];
      match last.op
      case RegisterRelayOp(t, _, _) => if t == topic then 0 else Emissions(before, topic)
      case _ =>
        Emissions(before, topic)
          + (if last.event.Some? && last.event.value.Relayed? && last.event.value.topic == topic then 1 else 0)
  }

  predicate GateHolds(n: Node, topic: Topic, emissions: nat) {
    topic in n.recoders ==>
      var e := n.recoders[topic];
      |e.buffered| == e.tracker.rank == emissions && e.tracker.rank <= e.tracker.pieceCount
  }

  /** What one operation adds to the emissions for `topic` since registration. */
  function Emitted(emissions: nat, op: Op, event: Option<MuxEvent>, topic: Topic): nat {
    if op.RegisterRelayOp? && op.topic == topic then 0
    else emissions + (if event.Some? && event.value.Relayed? && event.value.topic == topic then 1 else 0)
  }

  lemma RelayGate(n: Node, frame: Frame, answers: Answers, topic: Topic, emissions: nat)
    requires frame.topic in n.recoders && GateHolds(n, topic, emissions) && RelayPath(n, frame, answers).Ok?
    ensures var (next, event) := RelayPath(n, frame, answers).value;
            GateHolds(next, topic, Emitted(emissions, FrameOp(frame, answers), Some(event), topic))
  {
  }

  lemma StepGate(n: Node, op: Op, topic: Topic, emissions: nat)
    requires GateHolds(n, topic, emissions) && Step(n, op).Ok?
    ensures var (next, event) := Step(n, op).value; GateHolds(next, topic, Emitted(emissions, op, event, topic))
  {
    hide RelayPath;
    match op
    case FrameOp(frame, answers) =>
      if answers.parses && frame.topic in n.recoders { RelayGate(n, frame, answers, topic, emissions); }
    case _ =>
  }

  /**
   * Per generation a relay stores and re-broadcasts at most `pieceCount`
   * pieces: in every run its buffered pieces, its rank and its emissions since
   * registration are equal, and at most the piece count.
   */
  lemma {:induction false} RankGateBounds(ops: seq<Op>, topic: Topic)
    requires Run(NewNode(), ops).Ok?
    ensures var (n, shown) := Run(NewNode(), ops).value;
            topic in n.recoders ==>
              var e := n.recoders[topic];
              |e.buffered| == e.tracker.rank == Emissions(shown, topic) && e.tracker.rank <= e.tracker.pieceCount
    decreases |ops|
  {
    if ops != [] {
      hide Step;
      var last := ops[|ops| - 1];
      var (before, shown) := Run(NewNode(), ops[..|ops| - 1]).value;
      var (after, event) := Step(before, last).value;
      RankGateBounds(ops[..|ops| - 1], topic);
      StepGate(before, last, topic, Emissions(shown, topic));
      var all := shown + [Shown(last, event)];
      assert all[..|all| - 1] == shown;
      assert Emissions(all, topic) == Emitted(Emissions(shown, topic), last, event, topic);
    }
  }

  /** Pieces re-broadcast for `topic` in all of `shown`. */
  function Relays(shown: seq<Shown>, topic: Topic): nat
    decreases |shown|
  {
    if shown == [] then 0
    else
      var last, before := shown[|shown| - 1], shown[..|shown| - 1];
      Relays(before, topic)
        + (if last.event.Some? && last.event.value.Relayed? && last.event.value.topic == topic then 1 else 0)
  }

  predicate NotRegisteredAgain(ops: seq<Op>, topic: Topic) {
    forall i :: 0 <= i < |ops| ==> !(ops[i].RegisterRelayOp? && ops[i].topic == topic)
  }

  /** `relays` pieces of the generation are out, one for each rank gained, if the relay is still there. */
  predicate Generation(n: Node, topic: Topic, pieceCount: nat, relays: nat) {
    && relays <= pieceCount
    && (topic in n.recoders ==>
          var t := n.recoders[topic].tracker; t.pieceCount == pieceCount && t.rank == relays)
  }

  lemma RelayGeneration(n: Node, frame: Frame, answers: Answers, topic: Topic, pieceCount: nat, relays: nat)
    requires frame.topic in n.recoders && Generation(n, topic, pieceCount, relays) && RelayPath(n, frame, answers).Ok?
    ensures var (next, event) := RelayPath(n, frame, answers).value;
            Generation(next, topic, pieceCount, relays + if event.Relayed? && event.topic == topic then 1 else 0)
  {
  }

  lemma StepGeneration(n: Node, op: Op, topic: Topic, pieceCount: nat, relays: nat)
    requires Generation(n, topic, pieceCount, relays) && Step(n, op).Ok?
    requires !(op.RegisterRelayOp? && op.topic == topic)
    ensures var (next, event) := Step(n, op).value;
            Generation(next, topic, pieceCount,
                       relays + if event.Some? && event.value.Relayed? && event.value.topic == topic then 1 else 0)
  {
    hide RelayPath;
    match op
    case FrameOp(frame, answers) =>
      if answers.parses && frame.topic in n.recoders {
        RelayGeneration(n, frame, answers, topic, pieceCount, relays);
      }
    case _ =>
  }

  lemma {:induction false} RunGeneration(n: Node, ops: seq<Op>, topic: Topic, pieceCount: nat)
    requires Generation(n, topic, pieceCount, 0) && NotRegisteredAgain(ops, topic) && Run(n, ops).Ok?
    ensures var (last, shown) := Run(n, ops).value; Generation(last, topic, pieceCount, Relays(shown, topic))
    decreases |ops|
  {
    if ops != [] {
      hide Step, Generation;
      var last := ops[|ops| - 1];
      var (before, shown) := Run(n, ops[..|ops| - 1]).value;
      var (after, event) := Step(before, last).value;
      RunGeneration(n, ops[..|ops| - 1], topic, pieceCount);
      StepGeneration(before, last, topic, pieceCount, Relays(shown, topic));
      var all := shown + [Shown(last, event)];
      assert all[..|all| - 1] == shown;
    }
  }

  /**
   * Registering a relay starts a generation: whatever the node held before and
   * whatever happens after, short of registering the topic again, at most
   * `pieceCount` pieces go out for it; and while the relay lives its rank says
   * how many have.
   */
  lemma RegistrationBoundsEmissions(n: Node, topic: Topic, pieceCount: nat, commitment: Commitment, ops: seq<Op>)
    requires NotRegisteredAgain(ops, topic) && Run(RegisterRelay(n, topic, pieceCount, commitment), ops).Ok?
    ensures var (last, shown) := Run(RegisterRelay(n, topic, pieceCount, commitment), ops).value;
            && Relays(shown, topic) <= pieceCount
            && (topic in last.recoders ==> last.recoders[topic].tracker == Tracker(pieceCount, Relays(shown, topic)))
  {
    RunGeneration(RegisterRelay(n, topic, pieceCount, commitment), ops, topic, pieceCount);
  }

  ghost predicate StampsPast(n: Node) {
    && (forall t :: t in n.decoders ==> n.decoders[t].lastActivity <= n.tick)
    && (forall t :: t in n.recoders ==> n.recoders[t].lastActivity <= n.tick)
  }

  lemma StepStamps(n: Node, op: Op)
    requires StampsPast(n) && Step(n, op).Ok?
    ensures StampsPast(Step(n, op).value.0)
  {
    match op
    case FrameOp(frame, answers) =>
      if frame.topic in n.recoders {
        RelayStamps(n, frame, answers);
      } else if frame.topic in n.decoders {
        DecoderStamps(n, frame, answers);
      }
    case _ =>
  }

  lemma RelayStamps(n: Node, frame: Frame, answers: Answers)
    requires StampsPast(n) && frame.topic in n.recoders
    ensures RelayPath(n, frame, answers).Ok? ==> StampsPast(RelayPath(n, frame, answers).value.0)
  {
  }

  lemma DecoderStamps(n: Node, frame: Frame, answers: Answers)
    requires StampsPast(n) && frame.topic in n.decoders
    ensures StampsPast(DecoderPath(n, frame, answers).0)
  {
  }

  lemma {:induction false} RunStamps(ops: seq<Op>)
    requires Run(NewNode(), ops).Ok?
    ensures StampsPast(Run(NewNode(), ops).value.0)
    decreases |ops|
  {
    hide Step, StampsPast;
    if ops != [] {
      RunStamps(ops[..|ops| - 1]);
      StepStamps(Run(NewNode(), ops[..|ops| - 1]).value.0, ops[|ops| - 1]);
    } else {
      NewStamps();
    }
  }

  lemma NewStamps()
    ensures StampsPast(NewNode())
  {
  }

  /**
   * In any reachable state an idle sweep returns exactly the topics more than
   * `maxIdle` ticks behind, and the map keeps exactly the others, unchanged.
   */
  lemma IdleSweepsExactly(ops: seq<Op>, maxIdle: nat)
    requires Run(NewNode(), ops).Ok?
    ensures var n := Run(NewNode(), ops).value.0;
            var (n', gone) := EvictIdleTopics(n, maxIdle);
            && (forall t :: t in gone <==> t in n.decoders && n.tick - n.decoders[t].lastActivity > maxIdle)
            && (forall t :: t in n'.decoders <==> t in n.decoders && t !in gone)
            && (forall t :: t in n'.decoders ==> n'.decoders[t] == n.decoders[t])
            && n'.recoders == n.recoders
    ensures var n := Run(NewNode(), ops).value.0;
            var (n', gone) := EvictIdleRelays(n, maxIdle);
            && (forall t :: t in gone <==> t in n.recoders && n.tick - n.recoders[t].lastActivity > maxIdle)
            && (forall t :: t in n'.recoders <==> t in n.recoders && t !in gone)
            && (forall t :: t in n'.recoders ==> n'.recoders[t] == n.recoders[t])
            && n'.decoders == n.decoders
  {
    hide Run;
    RunStamps(ops);
  }
}
