/** The cookie gate: who may occupy a table slot, and how much a stranger can make the host send. */
module HostGate {
  import opened Crypto
  import opened Addresses
  import opened Transport
  import opened Handshake
  import opened HostModel
  import Cookie

  /** `datagram` is an ephemeral key followed by the cookie minted for that key and that very address. */
  predicate EchoesCookie(secret: Key, a: UdpAddr, datagram: Bytes) {
    && |datagram| == MESSAGE_1_LEN + Cookie.COOKIE_MAC_LEN
    && datagram[MESSAGE_1_LEN..] == Cookie.Mint(secret, a, datagram[..MESSAGE_1_LEN])
  }

  /** The caller dialled `a`, or `a` echoed a cookie minted for it. */
  predicate Admits(secret: Key, op: Op, a: UdpAddr) {
    match op
    case DialOp(addr, _) => addr == a
    case RecvOp(from, datagram, _) => from == a && EchoesCookie(secret, a, datagram)
    case _ => false
  }

  predicate Admitted(secret: Key, ops: seq<Op>, a: UdpAddr) {
    exists i :: 0 <= i < |ops| && Admits(secret, ops[i], a)
  }

  function SentTo(sent: seq<Packet>, a: UdpAddr): nat {
    if sent == [] then 0
    else (if sent[0].to == a then |sent[0].payload| else 0) + SentTo(sent[1..], a)
  }

  /** Bytes that receiving made the host send to `a`. */
  function RepliedTo(trace: seq<Trace>, a: UdpAddr): nat {
    if trace == [] then 0
    else (if trace[0].op.RecvOp? then SentTo(trace[0].sent, a) else 0) + RepliedTo(trace[1..], a)
  }

  function ReceivedFrom(ops: seq<Op>, a: UdpAddr): nat {
    if ops == [] then 0
    else (if ops[0].RecvOp? && ops[0].from == a then |ops[0].datagram| else 0) + ReceivedFrom(ops[1..], a)
  }

  lemma RecvGate(h: Host, from: UdpAddr, datagram: Bytes, seed: Key, a: UdpAddr)
    requires !h.Knows(a) && RecvOne(h, from, datagram, seed).Ok?
    requires !(from == a && EchoesCookie(h.config.identity.cookieSecret, a, datagram))
    ensures var out := RecvOne(h, from, datagram, seed).value;
            && !out.host.Knows(a)
            && SentTo(out.sent, a) <= if from == a then |datagram| else 0
  {
    hide Decrypt, ConsumeMsg2, ConsumeMsg3, AnswerMsg1, Cookie.Mint;
    var out := RecvOne(h, from, datagram, seed).value;
    assert out.sent == [] || (|out.sent| == 1 && out.sent[0].to == from);
    if out.sent != [] { assert SentTo(out.sent, a) == if from == a then |out.sent[0].payload| else 0; }
  }

  lemma StepGate(h: Host, op: Op, a: UdpAddr)
    requires !h.Knows(a) && !Admits(h.config.identity.cookieSecret, op, a) && Step(h, op).Ok?
    ensures var out := Step(h, op).value;
            && out.host.config == h.config
            && !out.host.Knows(a)
            && (op.RecvOp? ==> SentTo(out.sent, a) <= if op.from == a then |op.datagram| else 0)
  {
    hide WriteE, Encrypt, Decrypt, ConsumeMsg2, ConsumeMsg3, AnswerMsg1, Cookie.Mint, SentTo, Cookie.ValidEcho, Cookie.Verify;
    if op.RecvOp? { RecvGate(h, op.from, op.datagram, op.seed, a); }
  }

  lemma {:induction false} RunGate(h: Host, ops: seq<Op>, a: UdpAddr)
    requires !h.Knows(a) && !Admitted(h.config.identity.cookieSecret, ops, a) && Run(h, ops).Ok?
    ensures var r := Run(h, ops).value;
            !r.host.Knows(a) && RepliedTo(r.trace, a) <= ReceivedFrom(ops, a)
    decreases |ops|
  {
    hide Step, SentTo, Admits;
    if ops != [] {
      var rest := ops[1..];
      assert forall i :: 0 <= i < |rest| ==> rest[i] == ops[i + 1];
      StepGate(h, ops[0], a);
      RunGate(Step(h, ops[0]).value.host, rest, a);
      var r := Run(h, ops).value;
      assert r.trace[1..] == Run(Step(h, ops[0]).value.host, rest).value.trace;
    }
  }

  /** Every entry of either table belongs to an address that was dialled or echoed its own cookie. */
  lemma OnlyAdmittedAreKnown(config: Config, ops: seq<Op>, a: UdpAddr)
    requires Run(NewHost(config), ops).Ok? && Run(NewHost(config), ops).value.host.Knows(a)
    ensures Admitted(config.identity.cookieSecret, ops, a)
  {
    if !Admitted(config.identity.cookieSecret, ops, a) { RunGate(NewHost(config), ops, a); }
  }

  /** No amplification: an address that was neither dialled nor validated gets back at most what it sent. */
  lemma NoAmplification(config: Config, ops: seq<Op>, a: UdpAddr)
    requires Run(NewHost(config), ops).Ok? && !Admitted(config.identity.cookieSecret, ops, a)
    ensures RepliedTo(Run(NewHost(config), ops).value.trace, a) <= ReceivedFrom(ops, a)
  {
    RunGate(NewHost(config), ops, a);
  }
}
