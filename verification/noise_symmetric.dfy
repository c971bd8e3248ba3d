/** The running symmetric state of a Noise handshake (Noise revision 34, section 5.2). */
module Symmetric {
  import opened Prelude
  import opened Crypto

  const PROTOCOL_NAME: string := "Noise_XX_25519_ChaChaPoly_BLAKE3"

  function ProtocolName(): Key {
    seq(KEY_LEN, i requires 0 <= i < KEY_LEN => Lit(PROTOCOL_NAME[i] as int % 256))
  }

  datatype SymmetricState = SymmetricState(
    chainingKey: Key, hash: Key, cipherKey: Option<Key>, nonce: nat)
  {
    function MixHash(data: Bytes): SymmetricState {
      this.(hash := HashTwo(hash, data))
    }

    function MixKey(input: Key): SymmetricState {
      this.(chainingKey := KdfFirst(chainingKey, input),
            cipherKey := Some(KdfSecond(chainingKey, input)),
            nonce := 0)
    }

    function EncryptAndHash(plaintext: Bytes): (SymmetricState, Bytes) {
      match cipherKey
      case None => (MixHash(plaintext), plaintext)
      case Some(key) =>
        var ciphertext := Seal(key, nonce, hash, plaintext);
        (this.(nonce := nonce + 1).MixHash(ciphertext), ciphertext)
    }

    function DecryptAndHash(ciphertext: Bytes): Result<(SymmetricState, Bytes)> {
      match cipherKey
      case None => Ok((MixHash(ciphertext), ciphertext))
      case Some(key) =>
        var plaintext :- Open(key, nonce, hash, ciphertext);
        Ok((this.(nonce := nonce + 1).MixHash(ciphertext), plaintext))
    }

    /** The keys for initiator-to-responder traffic and for the reverse direction. */
    function Split(): (Key, Key) {
      (KdfFirst(chainingKey, []), KdfSecond(chainingKey, []))
    }

    /**
     * Reading is the exact inverse of writing: a ciphertext is accepted, with
     * a plaintext and a next state, precisely when writing that plaintext from
     * the same state produces that ciphertext and that state.
     */
    lemma DecryptInvertsEncrypt(ciphertext: Bytes, next: SymmetricState, plaintext: Bytes)
      ensures DecryptAndHash(ciphertext) == Ok((next, plaintext))
         <==> EncryptAndHash(plaintext) == (next, ciphertext)
    {
      match cipherKey
      case None =>
      case Some(key) => OpenExactly(key, nonce, hash, ciphertext, plaintext);
    }
  }

  function Initialize(): SymmetricState {
    SymmetricState(ProtocolName(), ProtocolName(), None, 0)
  }
}
