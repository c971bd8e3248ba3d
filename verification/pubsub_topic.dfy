/** Validated topic names: 1 to 255 printable ASCII bytes. */
module Topics {
  import opened Octets

  const MAX_TOPIC_LEN: nat := 255

  predicate ValidTopic(name: seq<byte>) {
    0 < |name| <= MAX_TOPIC_LEN && forall i :: 0 <= i < |name| ==> 0x21 <= name[i] <= 0x7E
  }

  type Topic = name: seq<byte> | ValidTopic(name) witness [0x21]
}
