/**
 * Ideal cryptography over symbolic bytes.
 *
 * A wire byte is either a literal or the i-th byte of a symbolic term, so a
 * message keeps its real length while the primitives behave ideally:
 * Diffie-Hellman commutes, hashes and key derivations never collide, and a
 * ciphertext opens only under the key, nonce and associated data that sealed
 * it.
 */
module Crypto {
  import opened Octets
  import opened Prelude

  type Bytes = seq<Byte>

  datatype Byte = Lit(value: byte) | Piece(term: Term, index: nat)

  datatype Term =
    | Public(private: Bytes)
    | Shared(privates: multiset<Bytes>)
    | Stray(private: Bytes, public: Bytes)
    | Chain(key: Bytes, input: Bytes)
    | Cipher(key: Bytes, input: Bytes)
    | Digest(previous: Bytes, data: Bytes)
    | Sealed(key: Bytes, nonce: nat, aad: Bytes, plaintext: Bytes)
    | Mac(secret: Bytes, input: Bytes)
    | SignerKey(signer: Bytes)
    | Signature(signer: Bytes, message: Bytes)

  const KEY_LEN: nat := 32
  const TAG_LEN: nat := 16

  /** A 32-byte working value: a key, a hash or a Diffie-Hellman output. */
  type Key = k: Bytes | |k| == KEY_LEN witness seq(KEY_LEN, _ => Lit(0))

  function Literal(s: seq<byte>): (r: Bytes)
    ensures |r| == |s|
  {
    seq(|s|, i requires 0 <= i < |s| => Lit(s[i]))
  }

  /** The first `n` bytes of the encoding of `term`. */
  function Expand(term: Term, n: nat): (r: Bytes)
    ensures |r| == n
    ensures forall i :: 0 <= i < n ==> r[i] == Piece(term, i)
  {
    seq(n, i requires 0 <= i => Piece(term, i))
  }

  lemma ExpandInjective(t: Term, m: nat, u: Term, n: nat)
    requires m > 0 && Expand(t, m) == Expand(u, n)
    ensures t == u && m == n
  {
    assert Expand(t, m)[0] == Expand(u, n)[0];
  }

  /** The term that `b` begins with, whatever its length. */
  function Head(b: Bytes): Option<Term> {
    if b != [] && b[0].Piece? then Some(b[0].term) else None
  }

  function PublicOf(private: Key): Key {
    Expand(Public(private), KEY_LEN)
  }

  /** X25519.  A public key nobody is known to hold the private half of gives a value of its own. */
  function Dh(private: Key, public: Key): Key {
    match Head(public)
    case Some(Public(other)) =>
      if public == Expand(Public(other), KEY_LEN)
      then Expand(Shared(multiset{private, other}), KEY_LEN)
      else Expand(Stray(private, public), KEY_LEN)
    case _ => Expand(Stray(private, public), KEY_LEN)
  }

  lemma DhWithPublicOf(a: Key, b: Key)
    ensures Dh(a, PublicOf(b)) == Expand(Shared(multiset{a, b}), KEY_LEN)
  {
    assert PublicOf(b)[0] == Piece(Public(b), 0);
  }

  lemma DhCommutes(a: Key, b: Key)
    ensures Dh(a, PublicOf(b)) == Dh(b, PublicOf(a))
  {
    DhWithPublicOf(a, b);
    DhWithPublicOf(b, a);
    assert multiset{a, b} == multiset{b, a};
  }

  /** The two outputs of the keyed KDF. */
  function KdfFirst(key: Key, input: Bytes): Key {
    Expand(Chain(key, input), KEY_LEN)
  }

  function KdfSecond(key: Key, input: Bytes): Key {
    Expand(Cipher(key, input), KEY_LEN)
  }

  function HashTwo(previous: Key, data: Bytes): Key {
    Expand(Digest(previous, data), KEY_LEN)
  }

  function Seal(key: Key, nonce: nat, aad: Bytes, plaintext: Bytes): (c: Bytes)
    ensures |c| == |plaintext| + TAG_LEN
  {
    Expand(Sealed(key, nonce, aad, plaintext), |plaintext| + TAG_LEN)
  }

  function Open(key: Key, nonce: nat, aad: Bytes, ciphertext: Bytes): Result<Bytes> {
    match Head(ciphertext)
    case Some(Sealed(k, n, a, plaintext)) =>
      if k == key && n == nonce && a == aad && ciphertext == Seal(key, nonce, aad, plaintext)
      then Ok(plaintext)
      else Err(NoiseDecrypt)
    case _ => Err(NoiseDecrypt)
  }

  /** Decryption inverts encryption and accepts nothing else. */
  lemma OpenExactly(key: Key, nonce: nat, aad: Bytes, ciphertext: Bytes, plaintext: Bytes)
    ensures Open(key, nonce, aad, ciphertext) == Ok(plaintext) <==> ciphertext == Seal(key, nonce, aad, plaintext)
    ensures Open(key, nonce, aad, ciphertext).Err? ==> Open(key, nonce, aad, ciphertext) == Err(NoiseDecrypt)
  {
    if ciphertext == Seal(key, nonce, aad, plaintext) {
      assert ciphertext[0] == Piece(Sealed(key, nonce, aad, plaintext), 0);
    }
  }

  /** A ciphertext determines everything that went into it. */
  lemma SealInjective(k: Key, n: nat, a: Bytes, p: Bytes, k': Key, n': nat, a': Bytes, p': Bytes)
    requires Seal(k, n, a, p) == Seal(k', n', a', p')
    ensures k == k' && n == n' && a == a' && p == p'
  {
    ExpandInjective(Sealed(k, n, a, p), |p| + TAG_LEN, Sealed(k', n', a', p'), |p'| + TAG_LEN);
  }
}
