/** Bitwise operations of unsigned machine words, on the naturals they hold. */
module Words {
  import opened Octets

  function Pow2(n: nat): (r: nat)
    ensures r > 0
  {
    if n == 0 then 1 else 2 * Pow2(n - 1)
  }

  function And(a: nat, b: nat): nat {
    if a == 0 || b == 0 then 0
    else 2 * And(a / 2, b / 2) + (if a % 2 == 1 && b % 2 == 1 then 1 else 0)
  }

  function Or(a: nat, b: nat): nat {
    if a == 0 then b
    else 2 * Or(a / 2, b / 2) + (if a % 2 == 1 || b % 2 == 1 then 1 else 0)
  }

  function Xor(a: nat, b: nat): nat {
    if a == 0 then b
    else 2 * Xor(a / 2, b / 2) + (a + b) % 2
  }

  /** Whether bit `d` of `w` is set. */
  predicate At(w: nat, d: nat) {
    if d == 0 then w % 2 == 1 else At(w / 2, d - 1)
  }

  lemma {:induction false} AtZero(d: nat)
    ensures !At(0, d)
  {
    if d > 0 { AtZero(d - 1); }
  }

  lemma {:induction false} AtOr(a: nat, b: nat, d: nat)
    ensures At(Or(a, b), d) <==> At(a, d) || At(b, d)
  {
    if a == 0 {
      AtZero(d);
    } else if d > 0 {
      AtOr(a / 2, b / 2, d - 1);
    }
  }

  lemma {:induction false} AtPow2(n: nat, d: nat)
    ensures At(Pow2(n), d) <==> n == d
  {
    if n == 0 {
      if d > 0 { AtZero(d - 1); }
    } else if d > 0 {
      AtPow2(n - 1, d - 1);
    }
  }

  /** Masking with a single bit tests that bit. */
  lemma {:induction false} AndPow2(w: nat, d: nat)
    ensures And(w, Pow2(d)) == if At(w, d) then Pow2(d) else 0
  {
    if w == 0 {
      AtZero(d);
    } else if d > 0 {
      AndPow2(w / 2, d - 1);
    } else {
      assert And(w / 2, 0) == 0;
    }
  }

  /** Dropping a high bit leaves the lower bits alone. */
  lemma {:induction false} AtWithout(w: nat, n: nat, d: nat)
    requires d < n && Pow2(n) <= w
    ensures At(w - Pow2(n), d) <==> At(w, d)
  {
    if d > 0 {
      assert (w - Pow2(n)) / 2 == w / 2 - Pow2(n - 1);
      AtWithout(w / 2, n - 1, d - 1);
    }
  }

  // --- 64-bit words ---

  const WORD: nat := 0x1_0000_0000_0000_0000

  type u64 = n: int | 0 <= n < 0x1_0000_0000_0000_0000

  const U64_MAX: u64 := 0xFFFF_FFFF_FFFF_FFFF

  lemma {:induction false} Pow2OfBytes(n: nat)
    ensures Pow2(8 * n) == Pow256(n)
  {
    if n > 0 {
      Pow2OfBytes(n - 1);
      var m := 8 * (n - 1);
      assert Pow2(m + 8) == 2 * Pow2(m + 7) == 4 * Pow2(m + 6) == 8 * Pow2(m + 5) == 16 * Pow2(m + 4);
      assert Pow2(m + 4) == 2 * Pow2(m + 3) == 4 * Pow2(m + 2) == 8 * Pow2(m + 1) == 16 * Pow2(m);
    }
  }

  lemma WordIsPow2()
    ensures Pow2(63) == 0x8000_0000_0000_0000 && Pow2(64) == WORD
  {
    Pow2OfBytes(8);
    Widths();
    assert Pow2(64) == 2 * Pow2(63);
  }

  /** `w << s` on 64 bits: what is shifted out at the top is lost. */
  function Shl(w: u64, s: nat): u64 {
    if s == 0 then w else 2 * Shl(w, s - 1) % WORD
  }

  lemma {:induction false} ShlOne(s: nat)
    requires s < 64
    ensures Shl(1, s) == Pow2(s)
  {
    if s > 0 {
      ShlOne(s - 1);
      Pow2Bound(s, 63);
      WordIsPow2();
    }
  }

  lemma {:induction false} Pow2Bound(m: nat, n: nat)
    requires m <= n
    ensures Pow2(m) <= Pow2(n)
    decreases n
  {
    if m < n { Pow2Bound(m, n - 1); }
  }

  lemma AtDouble(w: u64, d: nat)
    requires d < 64
    ensures At(2 * w % WORD, d) <==> d > 0 && At(w, d - 1)
  {
    WordIsPow2();
    if d > 0 && w >= Pow2(63) {
      assert 2 * w % WORD == 2 * (w - Pow2(63));
      AtWithout(w, 63, d - 1);
    }
  }

  /** Shifting moves every bit up; bits that leave the word are gone. */
  lemma {:induction false} AtShl(w: u64, s: nat, d: nat)
    requires d < 64
    ensures At(Shl(w, s), d) <==> s <= d && At(w, d - s)
  {
    if s > 0 {
      AtDouble(Shl(w, s - 1), d);
      if d > 0 { AtShl(w, s - 1, d - 1); }
    }
  }

  lemma {:induction false} OrBound(a: nat, b: nat, n: nat)
    requires a < Pow2(n) && b < Pow2(n)
    ensures Or(a, b) < Pow2(n)
  {
    if n > 0 && a > 0 { OrBound(a / 2, b / 2, n - 1); }
  }

  function OrWord(v: u64, w: u64): u64 {
    WordIsPow2();
    OrBound(v, w, 64);
    Or(v, w)
  }
}
