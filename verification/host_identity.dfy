/** The signed binding of a Noise static key to an Ed25519 identity. */
module Identity {
  import opened Prelude
  import opened Crypto

  const ED25519_PUBLIC_KEY_LEN: nat := 32
  const SIGNED_STATIC_KEY_LEN: nat := 96

  /** A peer id is derived from the Ed25519 public key alone. */
  datatype PeerId = PeerId(publicKey: Bytes)

  function PeerIdOf(signer: Bytes): PeerId {
    PeerId(Expand(SignerKey(signer), ED25519_PUBLIC_KEY_LEN))
  }

  /** The 96-byte handshake trailer: public key, then a signature over the static key. */
  function SignedStaticKey(signer: Bytes, staticPublic: Key): (r: Bytes)
    ensures |r| == SIGNED_STATIC_KEY_LEN
  {
    Expand(SignerKey(signer), ED25519_PUBLIC_KEY_LEN)
      + Expand(Signature(signer, staticPublic), SIGNED_STATIC_KEY_LEN - ED25519_PUBLIC_KEY_LEN)
  }

  /** Bytes beyond the 96th are ignored. */
  function VerifyBinding(payload: Bytes, staticPublic: Key): Result<PeerId> {
    if |payload| < SIGNED_STATIC_KEY_LEN then Err(IdentityVerify)
    else
      match Head(payload)
      case Some(SignerKey(signer)) =>
        if payload[..SIGNED_STATIC_KEY_LEN] == SignedStaticKey(signer, staticPublic)
        then Ok(PeerIdOf(signer))
        else Err(IdentityVerify)
      case _ => Err(IdentityVerify)
  }

  /** A payload proves an identity for a static key exactly when that identity signed that key. */
  lemma VerifyBindingExactly(payload: Bytes, staticPublic: Key, signer: Bytes)
    ensures VerifyBinding(payload, staticPublic) == Ok(PeerIdOf(signer))
       <==> |payload| >= SIGNED_STATIC_KEY_LEN
            && payload[..SIGNED_STATIC_KEY_LEN] == SignedStaticKey(signer, staticPublic)
  {
    if |payload| >= SIGNED_STATIC_KEY_LEN {
      var head := payload[..SIGNED_STATIC_KEY_LEN];
      assert head[0] == payload[0];
      if head == SignedStaticKey(signer, staticPublic) {
        assert head[0] == Piece(SignerKey(signer), 0);
      }
      if VerifyBinding(payload, staticPublic) == Ok(PeerIdOf(signer)) {
        var other := payload[0].term.signer;
        ExpandInjective(SignerKey(other), ED25519_PUBLIC_KEY_LEN, SignerKey(signer), ED25519_PUBLIC_KEY_LEN);
      }
    }
  }

  /** A binding is of one identity and one static key alone, and a peer id is of one identity. */
  lemma BindingInjective(signer: Bytes, staticPublic: Key, signer': Bytes, staticPublic': Key)
    ensures SignedStaticKey(signer, staticPublic) == SignedStaticKey(signer', staticPublic')
       <==> signer == signer' && staticPublic == staticPublic'
    ensures PeerIdOf(signer) == PeerIdOf(signer') <==> signer == signer'
  {
    var s, s' := SignedStaticKey(signer, staticPublic), SignedStaticKey(signer', staticPublic');
    if s == s' {
      assert s[0] == s'[0] && s[ED25519_PUBLIC_KEY_LEN] == s'[ED25519_PUBLIC_KEY_LEN];
    }
    if PeerIdOf(signer) == PeerIdOf(signer') {
      ExpandInjective(SignerKey(signer), ED25519_PUBLIC_KEY_LEN, SignerKey(signer'), ED25519_PUBLIC_KEY_LEN);
    }
  }
}
