/** The pubsub state as an object whose topic maps are updated in place. */
module PubsubMux {
  import opened Prelude
  import opened Topics
  import opened PubsubModel

  class Mux {
    var decoders: map<Topic, DecoderEntry>
    var recoders: map<Topic, RecoderEntry>
    var tick: nat

    function Value(): Node
      reads this
    {
      Node(decoders, recoders, tick)
    }

    constructor ()
      ensures Value() == NewNode()
    {
      decoders, recoders, tick := map[], map[], 0;
    }

    method RegisterTopic(topic: Topic, pieceCount: nat, commitment: Commitment)
      modifies this
      ensures Value() == PubsubModel.RegisterTopic(old(Value()), topic, pieceCount, commitment)
    {
      tick := tick + 1;
      decoders := decoders[topic := DecoderEntry(Tracker(pieceCount, 0), commitment, tick)];
    }

    method RegisterRelay(topic: Topic, pieceCount: nat, commitment: Commitment)
      modifies this
      ensures Value() == PubsubModel.RegisterRelay(old(Value()), topic, pieceCount, commitment)
      ensures topic in recoders && recoders[topic].buffered == [] && recoders[topic].tracker == Tracker(pieceCount, 0)
      ensures forall t :: t != topic ==> (t in recoders <==> t in old(recoders))
      ensures forall t :: t != topic && t in recoders ==> recoders[t] == old(recoders)[t]
      ensures decoders == old(decoders) && recoders[topic].lastActivity == tick == old(tick) + 1
    {
      tick := tick + 1;
      recoders := recoders[topic := RecoderEntry([], Tracker(pieceCount, 0), commitment, tick)];
    }

    method UnregisterTopic(topic: Topic)
      modifies this
      ensures Value() == PubsubModel.UnregisterTopic(old(Value()), topic)
    {
      decoders := decoders - {topic};
      tick := tick + 1;
    }

    method UnregisterRelay(topic: Topic)
      modifies this
      ensures Value() == PubsubModel.UnregisterRelay(old(Value()), topic)
    {
      recoders := recoders - {topic};
      tick := tick + 1;
    }

    /** After an error there is no state left to speak of. */
    method HandleFrame(frame: Frame, answers: Answers) returns (r: Result<MuxEvent>)
      modifies this
      ensures match PubsubModel.HandleFrame(old(Value()), frame, answers)
              case Err(e) => r == Err(e)
              case Ok((next, event)) => r == Ok(event) && Value() == next
    {
      if !answers.parses {
        return Ok(Refused);
      }
      if frame.topic in recoders {
        r := RelayPath(frame, answers);
      } else if frame.topic in decoders {
        var event := DecoderPath(frame, answers);
        r := Ok(event);
      } else {
        r := Ok(Refused);
      }
    }

    /** The entry is taken out, and goes back unless the decoder completes or cannot absorb. */
    method DecoderPath(frame: Frame, answers: Answers) returns (event: MuxEvent)
      requires frame.topic in decoders
      modifies this
      ensures (Value(), event) == PubsubModel.DecoderPath(old(Value()), frame, answers)
    {
      ghost var was := decoders;
      var topic := frame.topic;
      var entry := decoders[topic];
      decoders := decoders - {topic};
      if !answers.verifies {
        decoders := decoders[topic := entry];
        assert decoders == was;
        return Refused;
      }
      if answers.innovative.None? {
        return Refused;
      }
      var next := entry.decoder.Absorb(answers.innovative.value);
      tick := tick + 1;
      if next.IsComplete() {
        event := if answers.decoded.Some? then Delivered(topic, answers.decoded.value) else Refused;
      } else {
        decoders := decoders[topic := entry.(decoder := next, lastActivity := tick)];
        assert decoders == was[topic := entry.(decoder := next, lastActivity := tick)];
        event := Absorbed(topic);
      }
    }

    /** Put the entry of `topic` back, touched or not. */
    method PutBack(ghost was: map<Topic, RecoderEntry>, topic: Topic, entry: RecoderEntry)
      requires topic in was && recoders == was - {topic}
      modifies this`recoders
      ensures recoders == was[topic := entry]
    {
      recoders := recoders[topic := entry];
    }

    method RelayPath(frame: Frame, answers: Answers) returns (r: Result<MuxEvent>)
      requires frame.topic in recoders
      modifies this
      ensures match PubsubModel.RelayPath(old(Value()), frame, answers)
              case Err(e) => r == Err(e)
              case Ok((next, event)) => r == Ok(event) && Value() == next
    {
      ghost var was := recoders;
      var topic := frame.topic;
      var entry := recoders[topic];
      assert was[topic := entry] == was;
      recoders := recoders - {topic};
      if !answers.verifies {
        PutBack(was, topic, entry);
        return Ok(Refused);
      }
      if entry.tracker.IsComplete() {
        tick := tick + 1;
        PutBack(was, topic, entry.(lastActivity := tick));
        return Ok(Redundant(topic));
      }
      if answers.innovative.None? {
        PutBack(was, topic, entry);
        return Ok(Refused);
      }
      var tracker := entry.tracker.Absorb(answers.innovative.value);
      if tracker.rank == entry.tracker.rank {
        tick := tick + 1;
        PutBack(was, topic, entry.(lastActivity := tick));
        return Ok(Redundant(topic));
      }
      if !answers.adds {
        PutBack(was, topic, entry);
        return Ok(Refused);
      }
      tick := tick + 1;
      PutBack(was, topic, entry.(buffered := entry.buffered + [frame.piece], tracker := tracker, lastActivity := tick));
      match answers.recoded
      case None => r := Err(RlncLayer);
      case Some(piece) => r := Ok(Relayed(topic, piece));
    }
  }
}
