/** Octets and big-endian integers. */
module Octets {

  type byte = b: int | 0 <= b < 256

  function Pow256(n: nat): nat {
    if n == 0 then 1 else 256 * Pow256(n - 1)
  }

  /** `n` as `len` bytes, most significant first. */
  function ToBe(n: nat, len: nat): (s: seq<byte>)
    requires n < Pow256(len)
    ensures |s| == len
    decreases len
  {
    if len == 0 then [] else ToBe(n / 256, len - 1) + [n % 256]
  }

  /** The integer whose big-endian bytes are `s`. */
  function FromBe(s: seq<byte>): (n: nat)
    ensures n < Pow256(|s|)
  {
    if s == [] then 0 else 256 * FromBe(s[..|s| - 1]) + s[|s| - 1]
  }

  lemma {:induction false} FromBeToBe(n: nat, len: nat)
    requires n < Pow256(len)
    ensures FromBe(ToBe(n, len)) == n
    decreases len
  {
    if len > 0 {
      FromBeToBe(n / 256, len - 1);
      assert ToBe(n, len)[..len - 1] == ToBe(n / 256, len - 1);
    }
  }

  lemma {:induction false} ToBeFromBe(s: seq<byte>)
    ensures ToBe(FromBe(s), |s|) == s
  {
    if s != [] {
      ToBeFromBe(s[..|s| - 1]);
      assert s == s[..|s| - 1] + [s[|s| - 1]];
    }
  }

  lemma FromBeInjective(s: seq<byte>, t: seq<byte>)
    requires |s| == |t| && FromBe(s) == FromBe(t)
    ensures s == t
  {
    ToBeFromBe(s);
    ToBeFromBe(t);
  }

  /** The `k`-th digit of `n` to base 256, counted from the least. */
  function DigitOf(n: nat, k: nat): byte {
    if k == 0 then n % 256 else DigitOf(n / 256, k - 1)
  }

  /** Byte `i` of a big-endian number is its digit counted from the other end. */
  lemma {:induction false} BeDigits(n: nat, len: nat, i: nat)
    requires n < Pow256(len) && i < len
    ensures ToBe(n, len)[i] == DigitOf(n, len - 1 - i)
    decreases len
  {
    if i < len - 1 { BeDigits(n / 256, len - 1, i); }
  }

  /** The integer ranges the wire formats use. */
  lemma Widths()
    ensures Pow256(2) == 0x1_0000
    ensures Pow256(4) == 0x1_0000_0000
    ensures Pow256(8) == 0x1_0000_0000_0000_0000
  {
  }
}
