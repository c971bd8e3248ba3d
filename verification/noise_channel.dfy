/** The transport as a secure channel over a hostile network. */
module Channel {
  import opened Prelude
  import opened Crypto
  import opened Words
  import opened ReplayWindow
  import opened Transport

  // --- The receiver alone, against any datagrams ---

  datatype Receipt = Receipt(nonce: u64, plaintext: Bytes)

  /** What decrypting one datagram delivers, if anything. */
  function Delivery(t: TransportState, datagram: Bytes): seq<Receipt> {
    var r := Decrypt(t, datagram).1;
    if r.Ok? && |datagram| >= TRANSPORT_OVERHEAD
    then [Receipt(ParseNonce(datagram[..NONCE_PREFIX_LEN]), r.value)]
    else []
  }

  function ReceiveAll(t: TransportState, datagrams: seq<Bytes>): (TransportState, seq<Receipt>)
    decreases |datagrams|
  {
    if datagrams == [] then (t, [])
    else
      var (t', receipts) := ReceiveAll(t, datagrams[..|datagrams| - 1]);
      var d := datagrams[|datagrams| - 1];
      (Decrypt(t', d).0, receipts + Delivery(t', d))
  }

  ghost function Nonces(receipts: seq<Receipt>): set<u64> {
    set i | 0 <= i < |receipts| :: receipts[i].nonce
  }

  predicate NoncesOnce(receipts: seq<Receipt>) {
    forall i, j :: 0 <= i < j < |receipts| ==> receipts[i].nonce != receipts[j].nonce
  }

  /** One datagram: accepted exactly when its nonce is fresh and in the window and its ciphertext opens. */
  lemma DecryptStep(t: TransportState, accepted: set<u64>, d: Bytes)
    requires Records(t.recvWindow, t.recvMax, accepted)
    ensures var (t', r) := Decrypt(t, d);
            && t'.sendKey == t.sendKey && t'.sendNonce == t.sendNonce && t'.recvKey == t.recvKey
            && (r.Err? ==> t' == t)
            && (r.Ok? <==>
                 && |d| >= TRANSPORT_OVERHEAD
                 && var n := ParseNonce(d[..NONCE_PREFIX_LEN]);
                 && (n > t.recvMax || (t.recvMax - n < WINDOW_BITS && n !in accepted))
                 && Open(t.recvKey, n, [], d[NONCE_PREFIX_LEN..]).Ok?)
            && (r.Ok? ==>
                 var n := ParseNonce(d[..NONCE_PREFIX_LEN]);
                 && n !in accepted && r == Open(t.recvKey, n, [], d[NONCE_PREFIX_LEN..])
                 && Records(t'.recvWindow, t'.recvMax, accepted + {n}))
  {
    hide Open, NonceAcceptable, AdvanceWindow, Records, ParseNonce;
    if |d| >= TRANSPORT_OVERHEAD {
      var n := ParseNonce(d[..NONCE_PREFIX_LEN]);
      AcceptsExactly(t.recvWindow, t.recvMax, accepted, n);
      if NonceAcceptable(t.recvWindow, t.recvMax, n) { AdvanceRecords(t.recvWindow, t.recvMax, accepted, n); }
      RecordsBelow(t.recvWindow, t.recvMax, accepted, n);
    }
  }

  lemma RecordsBelow(window: u64, max: u64, accepted: set<u64>, n: u64)
    requires Records(window, max, accepted)
    ensures n in accepted ==> n <= max
  {
  }

  /**
   * After any datagrams whatever, in any order, the window of a fresh
   * transport records exactly the nonces it accepted, none of them twice.
   */
  lemma {:induction false} WindowOverRun(sendKey: Key, recvKey: Key, datagrams: seq<Bytes>)
    ensures var (t, receipts) := ReceiveAll(NewTransport(sendKey, recvKey), datagrams);
            && t.recvKey == recvKey && t.sendKey == sendKey
            && Records(t.recvWindow, t.recvMax, Nonces(receipts))
            && NoncesOnce(receipts)
    decreases |datagrams|
  {
    hide Decrypt, Records, ParseNonce;
    if datagrams == [] {
      FreshRecords();
      assert Nonces([]) == {};
    } else {
      var before := datagrams[..|datagrams| - 1];
      WindowOverRun(sendKey, recvKey, before);
      var (t, receipts) := ReceiveAll(NewTransport(sendKey, recvKey), before);
      var d := datagrams[|datagrams| - 1];
      DecryptStep(t, Nonces(receipts), d);
      if Delivery(t, d) == [] {
        assert receipts + Delivery(t, d) == receipts;
      } else {
        NoncesAppend(receipts, Delivery(t, d)[0]);
      }
    }
  }

  lemma NoncesAppend(receipts: seq<Receipt>, r: Receipt)
    ensures Nonces(receipts + [r]) == Nonces(receipts) + {r.nonce}
  {
    var all := receipts + [r];
    assert all[|receipts|] == r;
    assert forall i :: 0 <= i < |receipts| ==> all[i] == receipts[i];
    forall n | n in Nonces(receipts) + {r.nonce}
      ensures n in Nonces(all)
    {
      if n != r.nonce {
        var i :| 0 <= i < |receipts| && receipts[i].nonce == n;
        assert all[i].nonce == n;
      }
    }
  }

  // --- A sender, a receiver and the network between them ---

  datatype Action = Send(plaintext: Bytes) | Arrive(datagram: Bytes)

  /** `sent[n]` and `wire[n]` are the n-th plaintext and its datagram; `arrived` is everything that reached the receiver. */
  datatype Session = Session(
    sender: TransportState, receiver: TransportState,
    sent: seq<Bytes>, wire: seq<Bytes>, receipts: seq<Receipt>)

  function Act(s: Session, action: Action): Session {
    match action
    case Send(plaintext) => (
      match Encrypt(s.sender, plaintext)
      case Err(_) => s
      case Ok((sender, datagram)) =>
        s.(sender := sender, sent := s.sent + [plaintext], wire := s.wire + [datagram])
    )
    case Arrive(datagram) =>
      s.(receiver := Decrypt(s.receiver, datagram).0, receipts := s.receipts + Delivery(s.receiver, datagram))
  }

  function Acts(s: Session, actions: seq<Action>): Session
    decreases |actions|
  {
    if actions == [] then s else Act(Acts(s, actions[..|actions| - 1]), actions[|actions| - 1])
  }

  predicate Carries(datagram: Bytes, ciphertext: Bytes) {
    |datagram| >= NONCE_PREFIX_LEN && datagram[NONCE_PREFIX_LEN..] == ciphertext
  }

  /**
   * The network may deliver any bytes at all, except that it cannot seal under
   * the session key: a ciphertext under that key was sent, though it may come
   * back behind a different nonce prefix.
   */
  ghost predicate Unforged(s: Session, datagram: Bytes) {
    forall n: nat, aad, p :: Carries(datagram, Seal(s.receiver.recvKey, n, aad, p)) ==>
      exists i :: 0 <= i < |s.wire| && Carries(s.wire[i], Seal(s.receiver.recvKey, n, aad, p))
  }

  ghost predicate Hostile(s: Session, actions: seq<Action>)
    decreases |actions|
  {
    actions == [] || (
      var before := actions[..|actions| - 1];
      && Hostile(s, before)
      && (actions[|actions| - 1].Arrive? ==> Unforged(Acts(s, before), actions[|actions| - 1].datagram)))
  }

  /** A fresh pair: what the sender seals under, the receiver opens under. */
  function Opened(key: Key, back: Key): Session {
    Session(NewTransport(key, back), NewTransport(back, key), [], [], [])
  }

  ghost predicate Sound(s: Session) {
    && (forall i :: 0 <= i < |s.receipts| ==>
          s.receipts[i].nonce < |s.sent| && s.receipts[i].plaintext == s.sent[s.receipts[i].nonce])
    && NoncesOnce(s.receipts)
  }

  ghost predicate SenderInv(s: Session, key: Key) {
    && s.sender.sendKey == key && s.sender.sendNonce == |s.sent| == |s.wire|
    && (forall i: nat :: i < |s.wire| ==> i <= U64_MAX && s.wire[i] == NoncePrefix(i) + Seal(key, i, [], s.sent[i]))
  }

  ghost predicate SessionInv(s: Session, key: Key) {
    && SenderInv(s, key) && s.receiver.recvKey == key
    && Records(s.receiver.recvWindow, s.receiver.recvMax, Nonces(s.receipts))
    && Sound(s)
  }

  lemma SendKeeps(s: Session, key: Key, plaintext: Bytes)
    requires SessionInv(s, key)
    ensures SessionInv(Act(s, Send(plaintext)), key)
  {
    hide Records, NoncePrefix, Seal, NoncesOnce;
  }

  /** A ciphertext that opens under the session key was sent under that very nonce. */
  lemma OpenedWasSent(s: Session, key: Key, datagram: Bytes, nonce: u64, plaintext: Bytes)
    requires SenderInv(s, key) && s.receiver.recvKey == key && Unforged(s, datagram)
    requires |datagram| >= NONCE_PREFIX_LEN && Open(key, nonce, [], datagram[NONCE_PREFIX_LEN..]) == Ok(plaintext)
    ensures nonce < |s.sent| && plaintext == s.sent[nonce]
  {
    OpenExactly(key, nonce, [], datagram[NONCE_PREFIX_LEN..], plaintext);
    assert Carries(datagram, Seal(key, nonce, [], plaintext));
    var i :| 0 <= i < |s.wire| && Carries(s.wire[i], Seal(key, nonce, [], plaintext));
    assert s.wire[i][NONCE_PREFIX_LEN..] == Seal(key, i, [], s.sent[i]);
    SealInjective(key, i, [], s.sent[i], key, nonce, [], plaintext);
  }

  lemma ArriveKeeps(s: Session, key: Key, datagram: Bytes)
    requires SessionInv(s, key) && Unforged(s, datagram)
    ensures SessionInv(Act(s, Arrive(datagram)), key)
  {
    hide Decrypt, Records, ParseNonce, Open, Unforged;
    DecryptStep(s.receiver, Nonces(s.receipts), datagram);
    var s' := Act(s, Arrive(datagram));
    var extra := Delivery(s.receiver, datagram);
    if extra == [] {
      assert s.receipts + extra == s.receipts;
    } else {
      var r := extra[0];
      OpenedWasSent(s, key, datagram, r.nonce, r.plaintext);
      NoncesAppend(s.receipts, r);
      assert r.nonce !in Nonces(s.receipts);
      assert s'.receipts == s.receipts + [r];
    }
  }

  lemma {:induction false} ReachableInv(key: Key, back: Key, actions: seq<Action>)
    requires Hostile(Opened(key, back), actions)
    ensures SessionInv(Acts(Opened(key, back), actions), key)
    decreases |actions|
  {
    hide Act, SessionInv;
    if actions == [] {
      FreshSession(key, back);
    } else {
      var before := actions[..|actions| - 1];
      ReachableInv(key, back, before);
      match actions[|actions| - 1]
      case Send(p) => SendKeeps(Acts(Opened(key, back), before), key, p);
      case Arrive(d) =>
        SessionInvKey(Acts(Opened(key, back), before), key);
        ArriveKeeps(Acts(Opened(key, back), before), key, d);
    }
  }

  lemma FreshSession(key: Key, back: Key)
    ensures SessionInv(Opened(key, back), key)
  {
    FreshRecords();
    assert Nonces([]) == {};
  }

  lemma SessionInvKey(s: Session, key: Key)
    requires SessionInv(s, key)
    ensures s.receiver.recvKey == key
  {
  }

  /**
   * Safety.  Whatever the network drops, reorders, duplicates or corrupts,
   * every delivered plaintext is the one that was sent under its nonce, and no
   * sent datagram is delivered twice.
   */
  lemma DeliversOnlyWhatWasSentOnce(key: Key, back: Key, actions: seq<Action>)
    requires Hostile(Opened(key, back), actions)
    ensures Sound(Acts(Opened(key, back), actions))
  {
    ReachableInv(key, back, actions);
  }

  lemma IntactArrival(s: Session, key: Key, n: nat)
    requires SessionInv(s, key) && n < |s.wire| && n <= U64_MAX
    ensures |s.sent| == |s.wire|
    ensures Delivery(s.receiver, s.wire[n])
         == if n !in Nonces(s.receipts) && n + WINDOW_BITS > s.receiver.recvMax then [Receipt(n, s.sent[n])] else []
  {
    var d := s.wire[n];
    assert d == NoncePrefix(n) + Seal(key, n, [], s.sent[n]);
    assert d[..NONCE_PREFIX_LEN] == NoncePrefix(n) && d[NONCE_PREFIX_LEN..] == Seal(key, n, [], s.sent[n]);
    ParsePrefix(n);
    OpenExactly(key, n, [], d[NONCE_PREFIX_LEN..], s.sent[n]);
    DecryptStep(s.receiver, Nonces(s.receipts), d);
    RecordsBelow(s.receiver.recvWindow, s.receiver.recvMax, Nonces(s.receipts), n);
  }

  /**
   * Liveness.  When the n-th datagram arrives intact it is delivered exactly
   * if it has not been delivered yet and n is above the highest accepted nonce
   * minus 64; nothing else that happened before can get in its way.
   */
  lemma IntactArrivalDelivered(key: Key, back: Key, actions: seq<Action>, n: nat)
    requires Hostile(Opened(key, back), actions)
    requires n < |Acts(Opened(key, back), actions).wire| && n <= U64_MAX
    ensures var s := Acts(Opened(key, back), actions);
            |s.sent| == |s.wire|
            && Delivery(s.receiver, s.wire[n]) ==
              if n !in Nonces(s.receipts) && n + WINDOW_BITS > s.receiver.recvMax
              then [Receipt(n, s.sent[n])] else []
  {
    hide SessionInv, Delivery, Act;
    ReachableInv(key, back, actions);
    IntactArrival(Acts(Opened(key, back), actions), key, n);
  }
}
