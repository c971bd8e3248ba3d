/** The XOR metric is a metric on 256-bit integers, and its byte order is theirs. */
module KadMetric {
  import opened Prelude
  import opened Octets
  import opened Words
  import opened KadIds

  lemma TimesEight(a: nat)
    ensures Times(a, 8) == 256 * a
  {
    assert Times(a, 1) == 2 * a;
    assert Times(a, 2) == 4 * a;
    assert Times(a, 3) == 8 * a;
    assert Times(a, 4) == 16 * a;
    assert Times(a, 5) == 32 * a;
    assert Times(a, 6) == 64 * a;
    assert Times(a, 7) == 128 * a;
  }

  /** XOR splits off the low byte. */
  lemma LowByte(x: nat, y: nat, b: byte, c: byte)
    ensures Xor(256 * x + b, 256 * y + c) == 256 * Xor(x, y) + Xor(b, c)
  {
    hide Xor;
    TimesEight(x);
    TimesEight(y);
    TimesEight(Xor(x, y));
    assert Pow2(8) == 256;
    XorOfShifted(x, y, b, c, 8);
  }

  lemma {:induction false} ValueOfXor(s: seq<byte>, t: seq<byte>)
    requires |s| == |t|
    ensures Value(XorBytes(s, t)) == Xor(Value(s), Value(t))
    decreases |s|
  {
    if s != [] {
      var n := |s| - 1;
      assert XorBytes(s, t)[..n] == XorBytes(s[..n], t[..n]);
      assert XorBytes(s, t)[n] == Xor(s[n], t[n]);
      hide Xor, XorBytes;
      ValueOfXor(s[..n], t[..n]);
      LowByte(Value(s[..n]), Value(t[..n]), s[n], t[n]);
    } else {
      XorSelf(0);
    }
  }

  /** The distance of two ids, as an integer, is the XOR of the ids as integers. */
  lemma DistanceIsXor(a: NodeId, b: NodeId)
    ensures Value(DistanceTo(a, b)) == Xor(Value(a), Value(b))
  {
    ValueOfXor(a, b);
  }

  /** The leading byte carries the highest power. */
  lemma {:induction false} ValueFromHead(s: seq<byte>)
    requires s != []
    ensures Value(s) == s[0] * Pow256(|s| - 1) + Value(s[1..])
    decreases |s|
  {
    var n := |s| - 1;
    if n > 0 {
      ValueFromHead(s[..n]);
      assert s[1..][..n - 1] == s[..n][1..];
      assert Pow256(n) == 256 * Pow256(n - 1);
      Distribute(s[0], Pow256(n - 1));
    }
  }

  lemma Distribute(b: nat, p: nat)
    ensures 256 * (b * p) == b * (256 * p)
  {
  }

  lemma {:induction false} MulStep(x: nat, y: nat, p: nat)
    requires x < y
    ensures x * p + p <= y * p
    decreases y
  {
    if x + 1 < y { MulStep(x, y - 1, p); }
  }

  lemma LeadingByteDecides(x: nat, y: nat, p: nat, r: nat, q: nat)
    requires x < y && r < p
    ensures x * p + r < y * p + q
  {
    MulStep(x, y, p);
  }

  /** The derived byte order is the order of the integers. */
  lemma {:induction false} OrderIsIntegerOrder(a: seq<byte>, b: seq<byte>)
    requires |a| == |b|
    ensures Less(a, b) <==> Value(a) < Value(b)
    decreases |a|
  {
    if a != [] {
      ValueFromHead(a);
      ValueFromHead(b);
      OrderIsIntegerOrder(a[1..], b[1..]);
      var p := Pow256(|a| - 1);
      if a[0] < b[0] {
        LeadingByteDecides(a[0], b[0], p, Value(a[1..]), Value(b[1..]));
      } else if b[0] < a[0] {
        LeadingByteDecides(b[0], a[0], p, Value(b[1..]), Value(a[1..]));
      }
    }
  }

  lemma DistanceSymmetric(a: NodeId, b: NodeId)
    ensures DistanceTo(a, b) == DistanceTo(b, a)
  {
    forall i | 0 <= i < NODE_ID_LEN
      ensures DistanceTo(a, b)[i] == DistanceTo(b, a)[i]
    {
      XorCommutes(a[i], b[i]);
    }
  }

  /** Distances to one target never coincide for different ids. */
  lemma DistanceInjective(a: NodeId, b: NodeId, target: NodeId)
    requires DistanceTo(a, target) == DistanceTo(b, target)
    ensures a == b
  {
    hide Xor;
    DistanceIsXor(a, target);
    DistanceIsXor(b, target);
    var x, y, t := Value(a), Value(b), Value(target);
    XorAssociates(x, t, t);
    XorAssociates(y, t, t);
    XorSelf(t);
    XorZero(x);
    XorZero(y);
    FromBeInjective(a, b);
  }

  lemma DistanceZero(a: NodeId, b: NodeId)
    ensures IsZero(DistanceTo(a, b)) <==> a == b
  {
    var zero := DistanceTo(b, b);
    forall i | 0 <= i < NODE_ID_LEN
      ensures zero[i] == 0
    {
      XorSelf(b[i]);
    }
    if IsZero(DistanceTo(a, b)) {
      assert DistanceTo(a, b) == zero;
      DistanceInjective(a, b, b);
    }
  }

  lemma Triangle(a: NodeId, b: NodeId, c: NodeId)
    ensures Value(DistanceTo(a, c)) <= Value(DistanceTo(a, b)) + Value(DistanceTo(b, c))
  {
    hide Xor;
    DistanceIsXor(a, b);
    DistanceIsXor(b, c);
    DistanceIsXor(a, c);
    var x, y, z := Value(a), Value(b), Value(c);
    XorAssociates(Xor(x, y), y, z);
    XorAssociates(x, y, y);
    XorSelf(y);
    XorZero(x);
    XorAtMostSum(Xor(x, y), Xor(y, z));
  }

  // --- Buckets ---

  lemma {:induction false} Pow2Add(m: nat, n: nat)
    ensures Pow2(m + n) == Pow2(m) * Pow2(n)
  {
    if m > 0 {
      Pow2Add(m - 1, n);
      assert Pow2(m + n) == 2 * Pow2(m - 1 + n);
      assert 2 * (Pow2(m - 1) * Pow2(n)) == Pow2(m) * Pow2(n);
    }
  }

  lemma ByteBounds(b: byte)
    requires b != 0
    ensures ByteLeadingZeros(b) <= 7
    ensures Pow2(7 - ByteLeadingZeros(b)) <= b < Pow2(8 - ByteLeadingZeros(b))
  {
    assert Pow2(3) == 8 && Pow2(5) == 32 && Pow2(7) == 128;
  }

  lemma ScaledBounds(b: nat, lo: nat, hi: nat, p: nat, r: nat)
    requires lo <= b < hi && r < p
    ensures lo * p <= b * p + r < hi * p
  {
    if lo < b { MulStep(lo, b, p); }
    MulStep(b, hi, p);
  }

  /** A non-zero leading byte holds the highest set bit. */
  lemma LeadingByteTopBit(s: seq<byte>)
    requires s != [] && s[0] != 0
    ensures var n := 8 * |s| - 1 - ByteLeadingZeros(s[0]);
            n >= 0 && Pow2(n) <= Value(s) < Pow2(n + 1)
  {
    hide Value;
    ValueFromHead(s);
    ByteBounds(s[0]);
    var z, m := ByteLeadingZeros(s[0]), |s| - 1;
    hide ByteLeadingZeros;
    Pow2OfBytes(m);
    ValueBound(s[1..]);
    ScaledBounds(s[0], Pow2(7 - z), Pow2(8 - z), Pow256(m), Value(s[1..]));
    Pow2Add(7 - z, 8 * m);
    Pow2Add(8 - z, 8 * m);
  }

  lemma ValueBound(s: seq<byte>)
    ensures Value(s) < Pow256(|s|)
  {
  }

  /** The scan finds the highest set bit of what is left to scan. */
  lemma {:induction false} ScanFindsTopBit(s: seq<byte>, i: nat)
    requires i <= |s| && exists j :: i <= j < |s| && s[j] != 0
    ensures LeadingZerosFrom(s, i) < 8 * |s|
    ensures var n := 8 * |s| - 1 - LeadingZerosFrom(s, i);
            Pow2(n) <= Value(s[i..]) < Pow2(n + 1)
    decreases |s| - i
  {
    hide Pow2, Value, ByteLeadingZeros;
    LeadingZerosBound(s, i);
    if s[i] == 0 {
      ScanFindsTopBit(s, i + 1);
      ValueFromHead(s[i..]);
      assert s[i..][1..] == s[i + 1..];
    } else {
      LeadingByteTopBit(s[i..]);
    }
  }

  lemma Pow2Unique(v: nat, m: nat, n: nat)
    requires Pow2(m) <= v < Pow2(m + 1) && Pow2(n) <= v < Pow2(n + 1)
    ensures m == n
  {
    if m < n {
      Pow2Bound(m + 1, n);
    } else if n < m {
      Pow2Bound(n + 1, m);
    }
  }

  lemma {:induction false} ZeroValue(s: seq<byte>)
    ensures Value(s) == 0 <==> forall i :: 0 <= i < |s| ==> s[i] == 0
    decreases |s|
  {
    if s != [] { ZeroValue(s[..|s| - 1]); }
  }

  /** Bucket `i` is for the distances from 2^i up to, not including, 2^(i+1); the zero distance has none. */
  lemma BucketIndexExactly(d: Distance, i: nat)
    ensures BucketIndex(d) == Some(i) <==> Pow2(i) <= Value(d) < Pow2(i + 1)
    ensures BucketIndex(d) == None <==> Value(d) == 0
    ensures BucketIndex(d) == Some(i) ==> i < NODE_ID_BITS
  {
    ZeroValue(d);
    hide Pow2, Value;
    if !IsZero(d) {
      ScanFindsTopBit(d, 0);
      assert d[0..] == d;
      var n := BucketIndex(d).value;
      if Pow2(i) <= Value(d) < Pow2(i + 1) { Pow2Unique(Value(d), i, n); }
    }
  }
}
