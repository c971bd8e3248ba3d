/** Node identifiers, the XOR metric and its reading as 256-bit integers. */
module KadIds {
  import opened Prelude
  import opened Octets
  import opened Words

  const NODE_ID_LEN: nat := 32
  const NODE_ID_BITS: nat := NODE_ID_LEN * 8

  type NodeId = id: seq<byte> | |id| == NODE_ID_LEN witness seq(NODE_ID_LEN, _ => 0)

  type Distance = NodeId

  lemma {:induction false} XorBound(a: nat, b: nat, n: nat)
    requires a < Pow2(n) && b < Pow2(n)
    ensures Xor(a, b) < Pow2(n)
  {
    if n > 0 && a > 0 { XorBound(a / 2, b / 2, n - 1); }
  }

  function XorByte(a: byte, b: byte): byte {
    assert Pow2(8) == 256;
    XorBound(a, b, 8);
    Xor(a, b)
  }

  function XorBytes(s: seq<byte>, t: seq<byte>): (r: seq<byte>)
    requires |s| == |t|
    ensures |r| == |s|
  {
    seq(|s|, i requires 0 <= i < |s| => XorByte(s[i], t[i]))
  }

  /** `self.distance(other)`, byte by byte. */
  function DistanceTo(self: NodeId, other: NodeId): Distance {
    XorBytes(self, other)
  }

  predicate IsZero(d: Distance) {
    forall i :: 0 <= i < NODE_ID_LEN ==> d[i] == 0
  }

  /** The derived order on byte arrays: the first differing byte decides. */
  predicate Less(a: seq<byte>, b: seq<byte>)
    requires |a| == |b|
  {
    a != [] && (a[0] < b[0] || (a[0] == b[0] && Less(a[1..], b[1..])))
  }

  /** `u8::leading_zeros`. */
  function ByteLeadingZeros(b: byte): nat {
    if b >= 128 then 0
    else if b >= 64 then 1
    else if b >= 32 then 2
    else if b >= 16 then 3
    else if b >= 8 then 4
    else if b >= 4 then 5
    else if b >= 2 then 6
    else if b >= 1 then 7
    else 8
  }

  /** Zero bits before the first set bit of `s`, scanning bytes from `i` on. */
  function LeadingZerosFrom(s: seq<byte>, i: nat): nat
    requires i <= |s|
    decreases |s| - i
  {
    if i == |s| then 8 * |s|
    else if s[i] != 0 then i * 8 + ByteLeadingZeros(s[i])
    else LeadingZerosFrom(s, i + 1)
  }

  function LeadingZeros(d: Distance): nat {
    LeadingZerosFrom(d, 0)
  }

  function BucketIndex(d: Distance): Option<nat> {
    if IsZero(d) then None
    else
      LeadingZerosBound(d, 0);
      Some(NODE_ID_BITS - 1 - LeadingZeros(d))
  }

  lemma {:induction false} LeadingZerosBound(s: seq<byte>, i: nat)
    requires i <= |s| && exists j :: i <= j < |s| && s[j] != 0
    ensures LeadingZerosFrom(s, i) < 8 * |s|
    decreases |s| - i
  {
    if s[i] == 0 { LeadingZerosBound(s, i + 1); }
  }

  /** A distance as the 256-bit big-endian integer it stands for. */
  function Value(s: seq<byte>): nat {
    FromBe(s)
  }

  // --- XOR on naturals ---

  lemma {:induction false} XorCommutes(a: nat, b: nat)
    ensures Xor(a, b) == Xor(b, a)
    decreases a + b
  {
    if a == 0 {
      XorZero(b);
    } else if b == 0 {
      XorZero(a);
    } else {
      XorCommutes(a / 2, b / 2);
    }
  }

  lemma {:induction false} XorZero(a: nat)
    ensures Xor(a, 0) == a
  {
    if a > 0 { XorZero(a / 2); }
  }

  lemma {:induction false} XorSelf(a: nat)
    ensures Xor(a, a) == 0
  {
    if a > 0 { XorSelf(a / 2); }
  }

  lemma {:induction false} XorAssociates(a: nat, b: nat, c: nat)
    ensures Xor(Xor(a, b), c) == Xor(a, Xor(b, c))
    decreases a
  {
    if a > 0 {
      hide Xor;
      XorAssociates(a / 2, b / 2, c / 2);
      XorHalves(a, b);
      XorHalves(b, c);
      XorHalves(Xor(a, b), c);
      XorHalves(a, Xor(b, c));
      Parity(Xor(a, b), c, a + b);
      Parity(Xor(b, c), a, b + c);
      HalvesDetermine(Xor(Xor(a, b), c), Xor(a, Xor(b, c)));
    }
  }

  /** Only the parity of a summand matters to the parity of the sum. */
  lemma Parity(x: nat, y: nat, z: nat)
    requires x % 2 == z % 2
    ensures (x + y) % 2 == (z + y) % 2
  {
  }

  /** Halving and the low bit, for any operands. */
  lemma XorHalves(a: nat, b: nat)
    ensures Xor(a, b) / 2 == Xor(a / 2, b / 2) && Xor(a, b) % 2 == (a + b) % 2
  {
  }

  lemma HalvesDetermine(a: nat, b: nat)
    requires a / 2 == b / 2 && a % 2 == b % 2
    ensures a == b
  {
  }

  lemma {:induction false} XorAtMostSum(a: nat, b: nat)
    ensures Xor(a, b) <= a + b
    decreases a
  {
    if a > 0 { XorAtMostSum(a / 2, b / 2); }
  }

  /** `a` shifted left by `n` bits, without a width. */
  function Times(a: nat, n: nat): nat {
    if n == 0 then a else 2 * Times(a, n - 1)
  }

  lemma Half(p: nat, x: nat)
    ensures (2 * p + x) / 2 == p + x / 2 && (2 * p + x) % 2 == x % 2
  {
  }

  /** The low `n` bits of an XOR depend on the low `n` bits alone. */
  lemma {:induction false} XorOfShifted(a: nat, b: nat, x: nat, y: nat, n: nat)
    requires x < Pow2(n) && y < Pow2(n)
    ensures Xor(Times(a, n) + x, Times(b, n) + y) == Times(Xor(a, b), n) + Xor(x, y)
    decreases n
  {
    if n > 0 {
      HalfBelow(x, n);
      HalfBelow(y, n);
      XorOfShifted(a, b, x / 2, y / 2, n - 1);
      assert Times(a, n) == 2 * Times(a, n - 1) && Times(b, n) == 2 * Times(b, n - 1);
      assert Times(Xor(a, b), n) == 2 * Times(Xor(a, b), n - 1);
      hide Xor, Pow2, Times;
      var u, v := Times(a, n) + x, Times(b, n) + y;
      Half(Times(a, n - 1), x);
      Half(Times(b, n - 1), y);
      Half(Times(Xor(a, b), n - 1), Xor(x, y));
      XorHalves(x, y);
      XorHalves(u, v);
      Parity(u, v, x);
      Parity(v, x, y);
      HalvesDetermine(Xor(u, v), Times(Xor(a, b), n) + Xor(x, y));
    } else {
      XorSelf(0);
    }
  }

  lemma HalfBelow(x: nat, n: nat)
    requires n > 0 && x < Pow2(n)
    ensures x / 2 < Pow2(n - 1)
  {
  }
}
