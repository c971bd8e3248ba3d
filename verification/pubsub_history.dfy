/** What a pubsub node holds and says, told by the frames it was given: authenticity, delivery and roles. */
module PubsubHistory {
  import opened Prelude
  import opened Octets
  import opened Topics
  import opened PubsubModel

  // --- One frame ---

  /** A frame that does not parse, has no role here or does not verify is refused and changes nothing at all. */
  lemma UnauthenticRefused(n: Node, frame: Frame, answers: Answers)
    requires !answers.parses || !answers.verifies || (frame.topic !in n.recoders && frame.topic !in n.decoders)
    ensures HandleFrame(n, frame, answers) == Ok((n, Refused))
  {
  }

  /** The relay of the frame's topic can still use the piece: verified, innovative and well-formed. */
  predicate Gains(n: Node, frame: Frame, answers: Answers) {
    && answers.parses && answers.verifies && answers.innovative == Some(true) && answers.adds
    && frame.topic in n.recoders && n.recoders[frame.topic].tracker.rank < n.recoders[frame.topic].tracker.pieceCount
  }

  /**
   * A piece is re-broadcast exactly when its frame verified and raised the
   * rank of a live relay; the handler errs exactly when recoding such a piece
   * does.
   */
  lemma RelayedExactly(n: Node, frame: Frame, answers: Answers, topic: Topic, piece: Piece)
    ensures (HandleFrame(n, frame, answers).Ok? && HandleFrame(n, frame, answers).value.1 == Relayed(topic, piece))
       <==> Gains(n, frame, answers) && answers.recoded == Some(piece) && topic == frame.topic
    ensures HandleFrame(n, frame, answers).Err? <==> Gains(n, frame, answers) && answers.recoded.None?
  {
  }

  /** How many pieces the decoder of the frame's topic has with this one. */
  function RankWith(n: Node, frame: Frame, answers: Answers): nat
    requires frame.topic in n.decoders
  {
    var d := n.decoders[frame.topic].decoder;
    d.rank + if answers.innovative == Some(true) && d.rank < d.pieceCount then 1 else 0
  }

  /** Content is delivered exactly when a verified frame brings a decoder to full rank and decoding works. */
  lemma DeliveredExactly(n: Node, frame: Frame, answers: Answers, topic: Topic, data: seq<byte>)
    ensures (HandleFrame(n, frame, answers).Ok? && HandleFrame(n, frame, answers).value.1 == Delivered(topic, data))
       <==> && answers.parses && answers.verifies && answers.innovative.Some? && answers.decoded == Some(data)
            && topic == frame.topic && topic !in n.recoders && topic in n.decoders
            && RankWith(n, frame, answers) == n.decoders[topic].decoder.pieceCount
  {
  }

  /** A verified piece is redundant to a relay that is full or gains nothing, and absorbed by a decoder that needs more. */
  lemma AbsorbedExactly(n: Node, frame: Frame, answers: Answers, topic: Topic)
    ensures (HandleFrame(n, frame, answers).Ok? && HandleFrame(n, frame, answers).value.1 == Redundant(topic))
       <==> && answers.parses && answers.verifies && topic == frame.topic && topic in n.recoders
            && var t := n.recoders[topic].tracker;
               t.rank == t.pieceCount || (answers.innovative.Some? && !(answers.innovative.value && t.rank < t.pieceCount))
    ensures (HandleFrame(n, frame, answers).Ok? && HandleFrame(n, frame, answers).value.1 == Absorbed(topic))
       <==> && answers.parses && answers.verifies && topic == frame.topic && topic !in n.recoders
            && topic in n.decoders && answers.innovative.Some?
            && RankWith(n, frame, answers) != n.decoders[topic].decoder.pieceCount
  {
  }

  // --- Which roles a node has ---

  /** `op` removes the decoder of `topic`: asked to, idle, absorbing fails, or all pieces are in. */
  predicate DropsDecoder(n: Node, op: Op, topic: Topic)
    requires topic in n.decoders
  {
    match op
    case UnregisterTopicOp(t) => t == topic
    case EvictTopicsOp(maxIdle) => n.tick > maxIdle + n.decoders[topic].lastActivity
    case FrameOp(frame, answers) =>
      && frame.topic == topic && topic !in n.recoders && answers.parses && answers.verifies
      && (answers.innovative.None? || RankWith(n, frame, answers) == n.decoders[topic].decoder.pieceCount)
    case _ => false
  }

  predicate DropsRelay(n: Node, op: Op, topic: Topic)
    requires topic in n.recoders
  {
    match op
    case UnregisterRelayOp(t) => t == topic
    case EvictRelaysOp(maxIdle) => n.tick > maxIdle + n.recoders[topic].lastActivity
    case _ => false
  }

  /** The topic an operation is about. */
  predicate About(op: Op, topic: Topic) {
    match op
    case RegisterTopicOp(t, _, _) => t == topic
    case RegisterRelayOp(t, _, _) => t == topic
    case UnregisterTopicOp(t) => t == topic
    case UnregisterRelayOp(t) => t == topic
    case FrameOp(frame, _) => frame.topic == topic
    case _ => false
  }

  /** Who has a role after an operation, exactly; and an operation on one topic leaves every other alone. */
  lemma RolesExactly(n: Node, op: Op, topic: Topic)
    requires Step(n, op).Ok?
    ensures var n' := Step(n, op).value.0;
            && (topic in n'.decoders <==>
                  (op.RegisterTopicOp? && op.topic == topic) || (topic in n.decoders && !DropsDecoder(n, op, topic)))
            && (topic in n'.recoders <==>
                  (op.RegisterRelayOp? && op.topic == topic) || (topic in n.recoders && !DropsRelay(n, op, topic)))
            && (!About(op, topic) && topic in n'.decoders ==> n'.decoders[topic] == n.decoders[topic])
            && (!About(op, topic) && topic in n'.recoders ==> n'.recoders[topic] == n.recoders[topic])
  {
  }

  // --- The clock ---

  /** A frame that the node makes nothing of: unauthentic, or the tracker or recoder fails on its piece. */
  predicate Unused(n: Node, frame: Frame, answers: Answers) {
    || !answers.parses || !answers.verifies || (frame.topic !in n.recoders && frame.topic !in n.decoders)
    || (if frame.topic in n.recoders then
          var t := n.recoders[frame.topic].tracker;
          t.rank != t.pieceCount
          && (answers.innovative.None? || (answers.innovative.value && t.rank < t.pieceCount && !answers.adds))
        else answers.innovative.None?)
  }

  /**
   * Every operation costs one tick, but an unused frame, which costs none; the
   * entry an operation is about, if it is left, is stamped with the new tick,
   * and every other entry keeps its stamp.
   */
  lemma ClockExactly(n: Node, op: Op, topic: Topic)
    requires Step(n, op).Ok?
    ensures var n' := Step(n, op).value.0;
            var unused := op.FrameOp? && Unused(n, op.frame, op.answers);
            && n'.tick == n.tick + (if unused then 0 else 1)
            && (topic in n'.recoders ==>
                  var renewed := !unused && About(op, topic) && (op.RegisterRelayOp? || op.FrameOp?);
                  n'.recoders[topic].lastActivity == if renewed then n'.tick else n.recoders[topic].lastActivity)
            && (topic in n'.decoders ==>
                  var renewed := !unused && About(op, topic)
                                 && (op.RegisterTopicOp? || (op.FrameOp? && topic !in n.recoders));
                  n'.decoders[topic].lastActivity == if renewed then n'.tick else n.decoders[topic].lastActivity)
  {
    RolesExactly(n, op, topic);
  }

  // --- Runs ---

  /** The last operation of a run, on the state the others leave. */
  lemma RunLast(ops: seq<Op>)
    requires ops != [] && Run(NewNode(), ops).Ok?
    ensures var before, last := ops[..|ops| - 1], ops[|ops| - 1];
            && Run(NewNode(), before).Ok?
            && var (n, shown) := Run(NewNode(), before).value;
            && Step(n, last).Ok?
            && Run(NewNode(), ops).value == (Step(n, last).value.0, shown + [Shown(last, Step(n, last).value.1)])
            && before + [last] == ops
  {
    hide Step;
  }

  datatype Terms = Terms(pieceCount: nat, commitment: Commitment)

  /** What the relay of `topic` was last registered with. */
  function RelayTerms(ops: seq<Op>, topic: Topic): Option<Terms>
    decreases |ops|
  {
    if ops == [] then None
    else
      var last := ops[|ops| - 1];
      if last.RegisterRelayOp? && last.topic == topic then Some(Terms(last.pieceCount, last.commitment))
      else RelayTerms(ops[..|ops| - 1], topic)
  }

  /** The pieces of the frames for `topic` since then that parsed, verified and were innovative, in order. */
  function AuthenticPieces(ops: seq<Op>, topic: Topic): seq<Piece>
    decreases |ops|
  {
    if ops == [] then []
    else
      var last, before := ops[|ops| - 1], AuthenticPieces(ops[..|ops| - 1], topic);
      match last
      case RegisterRelayOp(t, _, _) => if t == topic then [] else before
      case FrameOp(frame, answers) =>
        if frame.topic == topic && answers.parses && answers.verifies && answers.innovative == Some(true) && answers.adds
        then before + [frame.piece] else before
      case _ => before
  }

  predicate RelayTold(n: Node, topic: Topic, terms: Option<Terms>, pieces: seq<Piece>) {
    topic in n.recoders ==>
      var e := n.recoders[topic];
      && terms == Some(Terms(e.tracker.pieceCount, e.commitment)) && e.tracker.rank == |e.buffered|
      && e.buffered == pieces[..Min(e.tracker.pieceCount, |pieces|)]
  }

  lemma StepRelay(n: Node, ops: seq<Op>, op: Op, topic: Topic)
    requires Step(n, op).Ok? && RelayTold(n, topic, RelayTerms(ops, topic), AuthenticPieces(ops, topic))
    ensures RelayTold(Step(n, op).value.0, topic, RelayTerms(ops + [op], topic), AuthenticPieces(ops + [op], topic))
  {
    assert (ops + [op])[..|ops|] == ops;
    RolesExactly(n, op, topic);
    match op
    case FrameOp(frame, answers) =>
      if frame.topic == topic && topic in n.recoders { RelayFrameTold(n, frame, answers, ops); }
    case _ =>
  }

  lemma RelayFrameTold(n: Node, frame: Frame, answers: Answers, ops: seq<Op>)
    requires frame.topic in n.recoders && HandleFrame(n, frame, answers).Ok?
    requires RelayTold(n, frame.topic, RelayTerms(ops, frame.topic), AuthenticPieces(ops, frame.topic))
    ensures RelayTold(HandleFrame(n, frame, answers).value.0, frame.topic,
                      RelayTerms(ops + [FrameOp(frame, answers)], frame.topic),
                      AuthenticPieces(ops + [FrameOp(frame, answers)], frame.topic))
  {
    assert (ops + [FrameOp(frame, answers)])[..|ops|] == ops;
    var pieces := AuthenticPieces(ops, frame.topic);
    var e := n.recoders[frame.topic];
    hide RelayTerms, AuthenticPieces;
    if Gains(n, frame, answers) {
      assert (pieces + [frame.piece])[..|pieces| + 1] == pieces + [frame.piece];
    } else if e.tracker.IsComplete() {
      assert (pieces + [frame.piece])[..e.tracker.pieceCount] == pieces[..e.tracker.pieceCount];
    }
  }

  /**
   * Authenticity.  In every run a relay holds exactly the pieces of the first
   * frames since its registration that verified and were innovative, in order
   * and at most as many as it was registered for, and its rank counts them:
   * nothing else is ever stored, or mixed into what is re-broadcast.
   */
  lemma RelayHoldsAuthenticPieces(ops: seq<Op>, topic: Topic)
    requires Run(NewNode(), ops).Ok? && topic in Run(NewNode(), ops).value.0.recoders
    ensures var e := Run(NewNode(), ops).value.0.recoders[topic];
            var pieces := AuthenticPieces(ops, topic);
            && RelayTerms(ops, topic) == Some(Terms(e.tracker.pieceCount, e.commitment))
            && e.buffered == pieces[..Min(e.tracker.pieceCount, |pieces|)] && e.tracker.rank == |e.buffered|
  {
    RunRelay(ops, topic);
  }

  lemma {:induction false} RunRelay(ops: seq<Op>, topic: Topic)
    requires Run(NewNode(), ops).Ok?
    ensures RelayTold(Run(NewNode(), ops).value.0, topic, RelayTerms(ops, topic), AuthenticPieces(ops, topic))
    decreases |ops|
  {
    if ops != [] {
      hide Run, Step, RelayTold, RelayTerms, AuthenticPieces;
      var before, last := ops[..|ops| - 1], ops[|ops| - 1];
      RunLast(ops);
      RunRelay(before, topic);
      StepRelay(Run(NewNode(), before).value.0, before, last, topic);
    }
  }

  // --- Delivery ---

  /** What the decoder of `topic` was last registered with. */
  function DecoderTerms(ops: seq<Op>, topic: Topic): Option<Terms>
    decreases |ops|
  {
    if ops == [] then None
    else
      var last := ops[|ops| - 1];
      if last.RegisterTopicOp? && last.topic == topic then Some(Terms(last.pieceCount, last.commitment))
      else DecoderTerms(ops[..|ops| - 1], topic)
  }

  /** The frame verified, was innovative, and the decoder of `topic` is waiting for more. */
  predicate Feeds(shown: Shown, topic: Topic) {
    && shown.op.FrameOp? && shown.op.frame.topic == topic && shown.event == Some(Absorbed(topic))
    && shown.op.answers.verifies && shown.op.answers.innovative == Some(true)
  }

  predicate Delivers(shown: Shown, topic: Topic) {
    shown.event.Some? && shown.event.value.Delivered? && shown.event.value.topic == topic
  }

  /** Innovative frames absorbed for `topic` since its decoder was last registered. */
  function Fed(shown: seq<Shown>, topic: Topic): nat
    decreases |shown|
  {
    if shown == [] then 0
    else
      var last, before := shown[|shown| - 1], shown[..|shown| - 1];
      if last.op.RegisterTopicOp? && last.op.topic == topic then 0
      else Fed(before, topic) + if Feeds(last, topic) then 1 else 0
  }

  /** Deliveries for `topic` since then. */
  function Deliveries(shown: seq<Shown>, topic: Topic): nat
    decreases |shown|
  {
    if shown == [] then 0
    else
      var last, before := shown[|shown| - 1], shown[..|shown| - 1];
      if last.op.RegisterTopicOp? && last.op.topic == topic then 0
      else Deliveries(before, topic) + if Delivers(last, topic) then 1 else 0
  }

  predicate DecoderTold(n: Node, topic: Topic, terms: Option<Terms>, fed: nat, deliveries: nat) {
    && (topic in n.decoders ==>
          var e := n.decoders[topic];
          && terms == Some(Terms(e.decoder.pieceCount, e.commitment))
          && e.decoder.rank == fed <= e.decoder.pieceCount && deliveries == 0)
    && deliveries <= 1
  }

  lemma FrameDecoderTold(n: Node, frame: Frame, answers: Answers, topic: Topic, terms: Option<Terms>, fed: nat,
                         deliveries: nat)
    requires HandleFrame(n, frame, answers).Ok? && DecoderTold(n, topic, terms, fed, deliveries)
    ensures var (n', event) := HandleFrame(n, frame, answers).value;
            var shown := Shown(FrameOp(frame, answers), Some(event));
            DecoderTold(n', topic, terms, fed + (if Feeds(shown, topic) then 1 else 0),
                        deliveries + if Delivers(shown, topic) then 1 else 0)
  {
  }

  lemma StepDecoder(n: Node, ops: seq<Op>, shown: seq<Shown>, op: Op, topic: Topic)
    requires Step(n, op).Ok?
    requires DecoderTold(n, topic, DecoderTerms(ops, topic), Fed(shown, topic), Deliveries(shown, topic))
    ensures var (n', event) := Step(n, op).value;
            var all := shown + [Shown(op, event)];
            DecoderTold(n', topic, DecoderTerms(ops + [op], topic), Fed(all, topic), Deliveries(all, topic))
  {
    var event := Step(n, op).value.1;
    assert (ops + [op])[..|ops|] == ops && (shown + [Shown(op, event)])[..|shown|] == shown;
    match op
    case FrameOp(frame, answers) =>
      FrameDecoderTold(n, frame, answers, topic, DecoderTerms(ops, topic), Fed(shown, topic), Deliveries(shown, topic));
      hide HandleFrame, Feeds, Delivers, DecoderTold;
    case _ =>
  }

  /** What a run says of the decoder of `topic`. */
  predicate ToldAfter(ops: seq<Op>, topic: Topic) {
    Run(NewNode(), ops).Ok? ==>
      var (n, shown) := Run(NewNode(), ops).value;
      DecoderTold(n, topic, DecoderTerms(ops, topic), Fed(shown, topic), Deliveries(shown, topic))
  }

  lemma {:induction false} RunDecoder(ops: seq<Op>, topic: Topic)
    ensures ToldAfter(ops, topic)
    decreases |ops|
  {
    hide Run, Step, DecoderTold, DecoderTerms, Fed, Deliveries;
    if ops == [] {
      NothingTold(topic);
    } else if Run(NewNode(), ops).Ok? {
      var before, last := ops[..|ops| - 1], ops[|ops| - 1];
      RunDecoder(before, topic);
      RunLast(ops);
      var (n, shown) := Run(NewNode(), before).value;
      StepDecoder(n, before, shown, last, topic);
    }
  }

  lemma NothingTold(topic: Topic)
    ensures ToldAfter([], topic)
  {
  }

  /**
   * Delivery.  In every run a decoder's rank is the number of verified,
   * innovative frames it has absorbed since its registration, and content is
   * delivered at most once a registration: on the frame that makes that number
   * the piece count it was registered with.
   */
  lemma DeliveredAtFullRank(ops: seq<Op>, topic: Topic)
    requires Run(NewNode(), ops).Ok?
    ensures var (n, shown) := Run(NewNode(), ops).value;
            && Deliveries(shown, topic) <= 1
            && (topic in n.decoders ==>
                  var e := n.decoders[topic];
                  && e.decoder.rank == Fed(shown, topic) && Deliveries(shown, topic) == 0
                  && DecoderTerms(ops, topic) == Some(Terms(e.decoder.pieceCount, e.commitment)))
            && (ops != [] && Delivers(shown[|shown| - 1], topic) ==>
                  var (before, last) := (ops[..|ops| - 1], ops[|ops| - 1]);
                  && last.FrameOp? && last.frame.topic == topic && last.answers.verifies
                  && last.answers.decoded == Some(shown[|shown| - 1].event.value.data)
                  && Run(NewNode(), before).Ok? && DecoderTerms(before, topic).Some?
                  && var was := Fed(Run(NewNode(), before).value.1, topic);
                  && (was == DecoderTerms(before, topic).value.pieceCount
                      || (was + 1 == DecoderTerms(before, topic).value.pieceCount
                          && last.answers.innovative == Some(true))))
  {
    RunDecoder(ops, topic);
    if ops != [] {
      var before, last := ops[..|ops| - 1], ops[|ops| - 1];
      RunDecoder(before, topic);
      RunLast(ops);
      var n := Run(NewNode(), before).value.0;
      var (n', shown) := Run(NewNode(), ops).value;
      hide Run, Fed, Deliveries, DecoderTerms;
      if Delivers(shown[|shown| - 1], topic) {
        DeliveredExactly(n, last.frame, last.answers, topic, shown[|shown| - 1].event.value.data);
      }
    }
  }
}
