/** Which AEAD (key, nonce) pairs the protocol encrypts under, and where their keys come from. */
module NonceUses {
  import opened Prelude
  import opened Crypto
  import opened Symmetric
  import opened Transport
  import opened Handshake
  import opened Words

  /** One AEAD encryption. */
  datatype Use = Use(key: Bytes, nonce: nat)

  // --- Key derivation as a tree ---

  function InputsOf(b: Byte): seq<Bytes>
    decreases b
  {
    match b
    case Piece(Chain(key, input), _) => (if key == [] then [] else InputsOf(key[0])) + [input]
    case Piece(Cipher(key, input), _) => (if key == [] then [] else InputsOf(key[0])) + [input]
    case _ => []
  }

  /** The inputs mixed into a chaining or cipher key since the protocol name. */
  function Inputs(b: Bytes): seq<Bytes> {
    if b == [] then [] else InputsOf(b[0])
  }

  predicate IsChain(b: Bytes) {
    b != [] && b[0].Piece? && b[0].term.Chain?
  }

  lemma ProtocolNameUnderived()
    ensures Inputs(ProtocolName()) == []
  {
    assert ProtocolName()[0].Lit?;
  }

  lemma InputsGrow(key: Key, input: Bytes)
    ensures Inputs(KdfFirst(key, input)) == Inputs(key) + [input] && IsChain(KdfFirst(key, input))
    ensures Inputs(KdfSecond(key, input)) == Inputs(key) + [input] && !IsChain(KdfSecond(key, input))
  {
    assert KdfFirst(key, input)[0] == Piece(Chain(key, input), 0);
    assert KdfSecond(key, input)[0] == Piece(Cipher(key, input), 0);
  }

  datatype Role = Responder | Initiator

  /** How many inputs a key has taken: 1 to 3 in a handshake, 4 after the split. */
  function Level(b: Bytes): nat {
    |Inputs(b)|
  }

  /** The ephemeral-ephemeral secret a key starts from. */
  function Root(b: Bytes): Bytes {
    if Inputs(b) == [] then [] else Inputs(b)[0]
  }

  /** The party that encrypts under `u`, if the protocol ever does. */
  function RoleOf(u: Use): Option<Role> {
    match Level(u.key)
    case 1 => if u.nonce == 0 then Some(Responder) else None
    case 2 => if u.nonce == 0 then Some(Responder) else if u.nonce == 1 then Some(Initiator) else None
    case 3 => if u.nonce == 0 then Some(Initiator) else None
    case 4 => if IsChain(u.key) then Some(Initiator) else Some(Responder)
    case _ => None
  }

  // --- The protocol's encryptions ---

  /** Message 2 seals the static key and the trailer. */
  function AnswerUses(s: ResponderAfterE, seed: Key): seq<Use> {
    var ck, ee, es := s.sym.chainingKey, Dh(seed, s.remoteEph), Dh(s.ownStatic, s.remoteEph);
    [Use(KdfSecond(ck, ee), 0), Use(KdfSecond(KdfFirst(ck, ee), es), 0)]
  }

  /** Message 3 seals the static key under the key in force, and the trailer under a new one. */
  function FinishUses(s: InitiatorAfterResponse): seq<Use> {
    match s.sym.cipherKey
    case None => []
    case Some(key) => [Use(key, s.sym.nonce), Use(KdfSecond(s.sym.chainingKey, Dh(s.ownStatic, s.remoteEph)), 0)]
  }

  /** The ciphertext is made before the counter is checked, so the last nonce is used as well, once. */
  function SendUses(t: TransportState): seq<Use> {
    [Use(t.sendKey, t.sendNonce)]
  }

  /** One encryption and what it encrypts. */
  datatype Sealing = Sealing(use: Use, plaintext: Bytes)

  function AnswerMade(s: ResponderAfterE, seed: Key, payload: Bytes): set<Sealing> {
    var u := AnswerUses(s, seed);
    {Sealing(u[0], PublicOf(s.ownStatic)), Sealing(u[1], payload)}
  }

  function FinishMade(s: InitiatorAfterResponse, payload: Bytes): set<Sealing>
    requires s.sym.cipherKey.Some?
  {
    var u := FinishUses(s);
    {Sealing(u[0], PublicOf(s.ownStatic)), Sealing(u[1], payload)}
  }

  function SendMade(t: TransportState, plaintext: Bytes): set<Sealing> {
    {Sealing(SendUses(t)[0], plaintext)}
  }

  /** `c` is a ciphertext made under `u`. */
  ghost predicate SealedUnder(u: Use, c: Bytes, plaintext: Bytes) {
    |u.key| == KEY_LEN && exists aad :: c == Seal(u.key, u.nonce, aad, plaintext)
  }

  /** The listed uses are exactly the ciphertexts of message 2, in order. */
  lemma AnswerSeals(s: ResponderAfterE, seed: Key, payload: Bytes)
    ensures var msg := WriteResponse(s, seed, payload).1;
            var n := EPH_PUBLIC_LEN + ENC_STATIC_LEN;
            && |msg| == MESSAGE_2_OVERHEAD_LEN + |payload|
            && SealedUnder(AnswerUses(s, seed)[0], msg[EPH_PUBLIC_LEN..n], PublicOf(s.ownStatic))
            && SealedUnder(AnswerUses(s, seed)[1], msg[n..], payload)
  {
    var sym1 := s.sym.MixHash(PublicOf(seed)).MixKey(Dh(seed, s.remoteEph));
    var (sym2, encStatic) := sym1.EncryptAndHash(PublicOf(s.ownStatic));
    var sym3 := sym2.MixKey(Dh(s.ownStatic, s.remoteEph));
    var (sym4, encPayload) := sym3.EncryptAndHash(payload);
    var msg := WriteResponse(s, seed, payload).1;
    hide Seal, Dh, PublicOf;
    assert msg == PublicOf(seed) + encStatic + encPayload;
    assert msg[EPH_PUBLIC_LEN..EPH_PUBLIC_LEN + ENC_STATIC_LEN] == encStatic;
    assert msg[EPH_PUBLIC_LEN + ENC_STATIC_LEN..] == encPayload;
    assert encStatic == Seal(AnswerUses(s, seed)[0].key, 0, sym1.hash, PublicOf(s.ownStatic));
    assert encPayload == Seal(AnswerUses(s, seed)[1].key, 0, sym3.hash, payload);
  }

  lemma FinishSeals(s: InitiatorAfterResponse, payload: Bytes)
    requires s.sym.cipherKey.Some?
    ensures var msg := FinishS(s, payload).1;
            && |msg| == MESSAGE_3_OVERHEAD_LEN + |payload|
            && SealedUnder(FinishUses(s)[0], msg[..ENC_STATIC_LEN], PublicOf(s.ownStatic))
            && SealedUnder(FinishUses(s)[1], msg[ENC_STATIC_LEN..], payload)
  {
    var (sym1, encStatic) := s.sym.EncryptAndHash(PublicOf(s.ownStatic));
    var sym2 := sym1.MixKey(Dh(s.ownStatic, s.remoteEph));
    var (sym3, encPayload) := sym2.EncryptAndHash(payload);
    var msg := FinishS(s, payload).1;
    hide Seal, Dh, PublicOf;
    assert msg[..ENC_STATIC_LEN] == encStatic && msg[ENC_STATIC_LEN..] == encPayload;
    assert encStatic == Seal(FinishUses(s)[0].key, FinishUses(s)[0].nonce, s.sym.hash, PublicOf(s.ownStatic));
    assert encPayload == Seal(FinishUses(s)[1].key, 0, sym2.hash, payload);
  }

  /** A transport datagram is one ciphertext under the next nonce; at the last nonce it is made but never leaves. */
  lemma SendSeals(t: TransportState, plaintext: Bytes)
    ensures SealedUnder(SendUses(t)[0], Seal(t.sendKey, t.sendNonce, [], plaintext), plaintext)
    ensures Encrypt(t, plaintext).Err? <==> t.sendNonce == U64_MAX
    ensures Encrypt(t, plaintext).Ok? ==>
              var (t', d) := Encrypt(t, plaintext).value;
              && SealedUnder(SendUses(t)[0], d[NONCE_PREFIX_LEN..], plaintext)
              && t' == t.(sendNonce := t.sendNonce + 1)
  {
    if Encrypt(t, plaintext).Ok? {
      var (t', d) := Encrypt(t, plaintext).value;
      assert d[NONCE_PREFIX_LEN..] == Seal(t.sendKey, t.sendNonce, [], plaintext);
    }
  }

  /** A byte that belongs to no ciphertext, or to one that was made. */
  predicate Accounted(made: set<Sealing>, b: Byte) {
    b.Piece? && b.term.Sealed? ==> Sealing(Use(b.term.key, b.term.nonce), b.term.plaintext) in made
  }

  predicate AllAccounted(made: set<Sealing>, d: Bytes) {
    forall i :: 0 <= i < |d| ==> Accounted(made, d[i])
  }

  lemma SealAccounted(made: set<Sealing>, u: Use, c: Bytes, plaintext: Bytes)
    requires SealedUnder(u, c, plaintext) && Sealing(u, plaintext) in made
    ensures AllAccounted(made, c)
  {
    var aad :| c == Seal(u.key, u.nonce, aad, plaintext);
    assert forall i :: 0 <= i < |c| ==> c[i] == Piece(Sealed(u.key, u.nonce, aad, plaintext), i);
  }

  lemma AccountedAppend(made: set<Sealing>, c: Bytes, d: Bytes)
    requires AllAccounted(made, c) && AllAccounted(made, d)
    ensures AllAccounted(made, c + d)
  {
    hide Accounted;
  }

  /** The sealings listed for message 2 are all the ciphertexts in it, with what they hold. */
  lemma AnswerAccounted(s: ResponderAfterE, seed: Key, trailer: Bytes)
    ensures AllAccounted(AnswerMade(s, seed, trailer), WriteResponse(s, seed, trailer).1)
  {
    AnswerSeals(s, seed, trailer);
    var made, d, n := AnswerMade(s, seed, trailer), WriteResponse(s, seed, trailer).1, EPH_PUBLIC_LEN + ENC_STATIC_LEN;
    assert d[..EPH_PUBLIC_LEN] == PublicOf(seed) && AllAccounted(made, PublicOf(seed));
    hide WriteResponse, SealedUnder, AllAccounted;
    SealAccounted(made, AnswerUses(s, seed)[0], d[EPH_PUBLIC_LEN..n], PublicOf(s.ownStatic));
    SealAccounted(made, AnswerUses(s, seed)[1], d[n..], trailer);
    AccountedAppend(made, d[EPH_PUBLIC_LEN..n], d[n..]);
    AccountedAppend(made, d[..EPH_PUBLIC_LEN], d[EPH_PUBLIC_LEN..n] + d[n..]);
    assert d == d[..EPH_PUBLIC_LEN] + (d[EPH_PUBLIC_LEN..n] + d[n..]);
  }

  lemma FinishAccounted(s: InitiatorAfterResponse, trailer: Bytes)
    requires s.sym.cipherKey.Some?
    ensures AllAccounted(FinishMade(s, trailer), FinishS(s, trailer).1)
  {
    FinishSeals(s, trailer);
    var made, d := FinishMade(s, trailer), FinishS(s, trailer).1;
    hide FinishS, SealedUnder, AllAccounted;
    SealAccounted(made, FinishUses(s)[0], d[..ENC_STATIC_LEN], PublicOf(s.ownStatic));
    SealAccounted(made, FinishUses(s)[1], d[ENC_STATIC_LEN..], trailer);
    AccountedAppend(made, d[..ENC_STATIC_LEN], d[ENC_STATIC_LEN..]);
    assert d == d[..ENC_STATIC_LEN] + d[ENC_STATIC_LEN..];
  }

  lemma SendAccounted(t: TransportState, plaintext: Bytes)
    requires Encrypt(t, plaintext).Ok?
    ensures AllAccounted(SendMade(t, plaintext), Encrypt(t, plaintext).value.1)
  {
    SendSeals(t, plaintext);
    var made, d := SendMade(t, plaintext), Encrypt(t, plaintext).value.1;
    assert d[..NONCE_PREFIX_LEN] == NoncePrefix(t.sendNonce) && AllAccounted(made, NoncePrefix(t.sendNonce));
    hide Encrypt, SealedUnder, AllAccounted;
    SealAccounted(made, SendUses(t)[0], d[NONCE_PREFIX_LEN..], plaintext);
    AccountedAppend(made, d[..NONCE_PREFIX_LEN], d[NONCE_PREFIX_LEN..]);
    assert d == d[..NONCE_PREFIX_LEN] + d[NONCE_PREFIX_LEN..];
  }

  // --- Where the protocol's keys sit in the tree ---

  lemma AnswerKeys(s: ResponderAfterE, seed: Key, payload: Bytes)
    requires s.sym.chainingKey == ProtocolName()
    ensures var u := AnswerUses(s, seed);
            var ee := Dh(seed, s.remoteEph);
            && Level(u[0].key) == 1 && Level(u[1].key) == 2 && u[0].nonce == 0 && u[1].nonce == 0
            && Root(u[0].key) == ee && Root(u[1].key) == ee
    ensures var b := WriteResponse(s, seed, payload).0;
            Level(b.sym.chainingKey) == 2 && Root(b.sym.chainingKey) == Dh(seed, s.remoteEph)
            && b.sym.cipherKey.Some?
  {
    hide Dh, KdfFirst, KdfSecond, Inputs, HashTwo, Seal, PublicOf;
    var ck, ee, es := s.sym.chainingKey, Dh(seed, s.remoteEph), Dh(s.ownStatic, s.remoteEph);
    ProtocolNameUnderived();
    InputsGrow(ck, ee);
    InputsGrow(KdfFirst(ck, ee), es);
  }

  /** Message 2 opens under a key rooted in the secret shared with its own ephemeral key. */
  lemma ResponseKeys(a: InitiatorAfterE, d: Bytes)
    requires a.sym.chainingKey == ProtocolName() && ReadResponse(a, d).Ok?
    ensures |d| >= MESSAGE_2_OVERHEAD_LEN
    ensures var s := ReadResponse(a, d).value.0;
            var ee := Dh(a.ephemeral, d[..EPH_PUBLIC_LEN]);
            && s.remoteEph == d[..EPH_PUBLIC_LEN] && s.ownStatic == a.ownStatic
            && Level(s.sym.chainingKey) == 2 && Root(s.sym.chainingKey) == ee
            && s.sym.cipherKey.Some? && s.sym.nonce == 1
            && Level(s.sym.cipherKey.value) == 2 && Root(s.sym.cipherKey.value) == ee
            && var u := FinishUses(s);
            && |u| == 2 && Level(u[0].key) == 2 && u[0].nonce == 1 && Level(u[1].key) == 3 && u[1].nonce == 0
            && Root(u[0].key) == ee && Root(u[1].key) == ee
    ensures d[EPH_PUBLIC_LEN].Piece? && d[EPH_PUBLIC_LEN].term.Sealed?
    ensures var t := d[EPH_PUBLIC_LEN].term;
            Level(t.key) == 1 && t.nonce == 0 && Root(t.key) == Dh(a.ephemeral, d[..EPH_PUBLIC_LEN])
  {
    hide Dh, KdfFirst, KdfSecond, Inputs, HashTwo, Seal, PublicOf;
    var e: Key := d[..EPH_PUBLIC_LEN];
    var ee := Dh(a.ephemeral, e);
    var sealed := d[EPH_PUBLIC_LEN..EPH_PUBLIC_LEN + ENC_STATIC_LEN];
    var s1 := a.sym.MixHash(e).MixKey(ee);
    assert Open(KdfSecond(ProtocolName(), ee), 0, s1.hash, sealed).Ok?;
    OpenHead(KdfSecond(ProtocolName(), ee), 0, s1.hash, sealed);
    assert sealed[0] == d[EPH_PUBLIC_LEN];
    ProtocolNameUnderived();
    InputsGrow(ProtocolName(), ee);
    var s := ReadResponse(a, d).value.0;
    var es := Dh(a.ephemeral, s.remoteStatic);
    InputsGrow(KdfFirst(ProtocolName(), ee), es);
    InputsGrow(KdfFirst(KdfFirst(ProtocolName(), ee), es), Dh(a.ownStatic, e));
  }

  lemma OpenHead(key: Key, nonce: nat, aad: Bytes, c: Bytes)
    requires Open(key, nonce, aad, c).Ok?
    ensures c != [] && c[0].Piece? && c[0].term.Sealed? && c[0].term.key == key && c[0].term.nonce == nonce
    ensures c[0].term.plaintext == Open(key, nonce, aad, c).value
  {
  }

  lemma FinishedKeys(s: InitiatorAfterResponse, payload: Bytes)
    requires Level(s.sym.chainingKey) == 2 && s.sym.cipherKey.Some?
    ensures var t := WriteS(s, payload).0;
            && Level(t.sendKey) == 4 && Root(t.sendKey) == Root(s.sym.chainingKey) && IsChain(t.sendKey)
            && t.sendNonce == 0
  {
    hide Dh, KdfFirst, KdfSecond, Inputs, HashTwo, Seal, PublicOf;
    var se := Dh(s.ownStatic, s.remoteEph);
    InputsGrow(s.sym.chainingKey, se);
    InputsGrow(KdfFirst(s.sym.chainingKey, se), []);
  }

  lemma AcceptedKeys(b: ResponderAfterResponse, d: Bytes)
    requires Level(b.sym.chainingKey) == 2 && b.sym.cipherKey.Some? && ReadS(b, d).Ok?
    ensures var t := ReadS(b, d).value.0;
            && Level(t.sendKey) == 4 && Root(t.sendKey) == Root(b.sym.chainingKey) && !IsChain(t.sendKey)
            && t.sendNonce == 0
  {
    hide Dh, KdfFirst, KdfSecond, Inputs, HashTwo, Seal, Open;
    var remoteStatic := ReadS(b, d).value.1;
    var se := Dh(b.ephemeral, remoteStatic);
    InputsGrow(b.sym.chainingKey, se);
    InputsGrow(KdfFirst(b.sym.chainingKey, se), []);
  }

  /** Two private keys that reach the same shared secret hold each other's public halves. */
  lemma SameSecret(s: Key, x: Key, t: Key, y: Key)
    requires Dh(s, x) == Dh(t, y) && s != t
    ensures x == PublicOf(t) && y == PublicOf(s)
  {
    assert Dh(s, x)[0] == Dh(t, y)[0];
    var term := Dh(s, x)[0].term;
    if term.Shared? {
      var a, b := x[0].term.private, y[0].term.private;
      assert term.privates == multiset{s, a} == multiset{t, b};
      assert multiset{s, a}[t] > 0;
      assert multiset{t, b}[s] > 0;
    }
  }
}
