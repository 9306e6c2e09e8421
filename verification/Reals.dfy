/** The numbers that floats stand for, as real numbers, and byte order spelled out: what the
    comparisons of Values and Sql come to. */
module Reals {
  import opened Prelude
  import opened Values
  import opened Store
  import opened Sql
  import opened Substitution

  // ---------------------------------------------------------------------
  // Powers of two
  // ---------------------------------------------------------------------

  function Exp2(k: int): (p: real)
    ensures p > 0.0
    decreases if k < 0 then -k else k
  {
    if k == 0 then 1.0 else if k > 0 then 2.0 * Exp2(k - 1) else Exp2(k + 1) / 2.0
  }

  lemma {:induction false} Exp2Next(k: int)
    ensures Exp2(k + 1) == 2.0 * Exp2(k)
  {
  }

  lemma {:induction false} Exp2Zero()
    ensures Exp2(0) == 1.0
  {
  }

  lemma {:induction false} Exp2Sum(j: int, k: nat)
    ensures Exp2(j + k) == Exp2(j) * Exp2(k)
  {
    hide Exp2;
    if k == 0 {
      Exp2Zero();
    } else {
      Exp2Sum(j, k - 1);
      Exp2Next(j + k - 1);
      Exp2Next(k - 1);
      Doubled(Exp2(j), Exp2(k - 1));
    }
  }

  lemma {:induction false} Doubled(a: real, b: real)
    ensures 2.0 * (a * b) == a * (2.0 * b)
  {
  }

  lemma {:induction false} Exp2IsPow2(k: nat)
    ensures Exp2(k) == Pow2(k) as real
  {
    if k > 0 {
      Exp2IsPow2(k - 1);
    }
  }

  lemma {:induction false} TwoToThe52()
    ensures Pow2(52) == TWO52
  {
    assert Pow2(13) == 8192 by {
      assert Pow2(4) == 16;
      assert Pow2(9) == 512;
    }
    hide Pow2;
    Pow2Sum(13, 13);
    Pow2Sum(26, 26);
  }

  // ---------------------------------------------------------------------
  // binary64
  // ---------------------------------------------------------------------

  predicate Finite(x: u64) { x / 0x10_0000_0000_0000 % 2048 != 2047 }

  /** The number a finite datum represents, section 3.4 of IEEE 754-2008. */
  function RealOf(x: u64): real
    requires Finite(x)
  {
    var e, f := x / 0x10_0000_0000_0000 % 2048, x % 0x10_0000_0000_0000;
    var t := f as real / 4503599627370496.0;
    var m := if e == 0 then t * Exp2(-1022) else (1.0 + t) * Exp2(e - 1023);
    if x >= 0x8000_0000_0000_0000 then -m else m
  }

  lemma {:induction false} FiniteIs(x: u64)
    ensures Finite(x) <==> !IsNaN(x) && !IsInfinite(x)
    ensures x / 0x10_0000_0000_0000 % 2048 == Exponent(x) && x % 0x10_0000_0000_0000 == Fraction(x)
    ensures x >= 0x8000_0000_0000_0000 <==> Negative(x)
  {
    assert x / 0x10_0000_0000_0000 % 2048 == Exponent(x);
  }

  lemma {:induction false} SmallScale(f: nat)
    ensures f as real / 4503599627370496.0 * Exp2(-1022) * Exp2(1074) == f as real
  {
    hide Exp2, Pow2;
    Exp2Sum(-1022, 1074);
    Exp2IsPow2(52);
    TwoToThe52();
    var t, c := f as real / 4503599627370496.0, 4503599627370496.0;
    assert Exp2(-1022) * Exp2(1074) == c;
    Rescale(t, Exp2(-1022), Exp2(1074), c);
    assert t * c == f as real;
  }

  lemma {:induction false} Rescale(t: real, a: real, b: real, c: real)
    requires a * b == c
    ensures t * a * b == t * c
  {
    assert t * a * b == t * (a * b);
  }

  lemma {:induction false} BigScale(f: nat, e: nat)
    requires e >= 1
    ensures (1.0 + f as real / 4503599627370496.0) * Exp2(e - 1023) * Exp2(1074) == ((TWO52 + f) * Pow2(e - 1)) as real
  {
    hide Exp2, Pow2;
    Exp2Sum(e - 1023, 1074);
    Exp2Sum(e - 1, 52);
    Exp2IsPow2(52);
    Exp2IsPow2(e - 1);
    TwoToThe52();
    var t, p := 1.0 + f as real / 4503599627370496.0, Pow2(e - 1) as real;
    assert Exp2(e - 1023) * Exp2(1074) == p * 4503599627370496.0;
    Rescale(t, Exp2(e - 1023), Exp2(1074), p * 4503599627370496.0);
    assert t * (p * 4503599627370496.0) == (t * 4503599627370496.0) * p;
    assert t * 4503599627370496.0 == (TWO52 + f) as real;
    AsReal(TWO52 + f, Pow2(e - 1));
  }

  lemma {:induction false} AsReal(a: int, b: int)
    ensures a as real * b as real == (a * b) as real
  {
  }

  /** Scaled is the number times 2^1074. */
  lemma {:induction false} ScaledIsReal(x: u64)
    requires Finite(x)
    ensures Scaled(x) as real == RealOf(x) * Exp2(1074)
  {
    hide Exp2, Pow2, Exponent, Fraction, Finite;
    FiniteIs(x);
    var e: int, f := Exponent(x), Fraction(x);
    if e == 0 {
      SmallScale(f);
    } else {
      BigScale(f, e);
    }
    var t := f as real / 4503599627370496.0;
    var m := if e == 0 then t * Exp2(-1022) else (1.0 + t) * Exp2(e - 1023);
    assert Magnitude(x) as real == m * Exp2(1074);
    assert (-m) * Exp2(1074) == -(m * Exp2(1074));
  }

  lemma {:induction false} SameScale(a: real, b: real, p: real)
    requires p > 0.0
    ensures a * p < b * p <==> a < b
    ensures a * p == b * p <==> a == b
  {
    assert b * p - a * p == (b - a) * p;
    if a < b {
      assert (b - a) * p > 0.0;
    } else if b < a {
      assert (a - b) * p > 0.0;
    }
  }

  /** Finite floats compare as the numbers they stand for. */
  lemma {:induction false} FloatsCompare(x: u64, y: u64)
    requires Finite(x) && Finite(y)
    ensures NumLess(x, y) <==> RealOf(x) < RealOf(y)
    ensures NumEqual(x, y) <==> RealOf(x) == RealOf(y)
  {
    hide Exp2, RealOf, Scaled, Finite, IsNaN, IsInfinite;
    FiniteIs(x);
    FiniteIs(y);
    ScaledIsReal(x);
    ScaledIsReal(y);
    SameScale(RealOf(x), RealOf(y), Exp2(1074));
    assert Scaled(x) < Scaled(y) <==> Scaled(x) as real < Scaled(y) as real;
  }

  lemma {:induction false} IntLessReal(n: int, x: u64)
    requires !IsInfinite(x) && !IsNaN(x)
    ensures IntMinusReal(n, x) < 0 <==> n * Pow2(1074) < Scaled(x)
  {
    hide Binade, SignedSignificand, Pow2, Scaled, IsInfinite, IsNaN;
    ScaledIs(x);
    var b, s := Binade(x), SignedSignificand(x);
    assert 1 <= b by { BinadeBound(x); }
    if b <= 1075 {
      Pow2Sum(1075 - b, b - 1);
      MulOrder(n * Pow2(1075 - b), s, Pow2(b - 1));
      Regroup(n, Pow2(1075 - b), Pow2(b - 1));
    } else {
      Pow2Sum(b - 1075, 1074);
      MulOrder(n, s * Pow2(b - 1075), Pow2(1074));
      Regroup(s, Pow2(b - 1075), Pow2(1074));
    }
  }

  lemma {:induction false} Regroup(a: int, b: int, c: int)
    ensures (a * b) * c == a * (b * c)
  {
  }

  lemma {:induction false} BinadeBound(x: u64)
    ensures Binade(x) >= 1
  {
  }

  /** An integer and a finite float compare as the two numbers. */
  lemma {:induction false} IntComparesReal(n: int, x: u64)
    requires Finite(x)
    ensures IntMinusReal(n, x) < 0 <==> n as real < RealOf(x)
    ensures IntMinusReal(n, x) == 0 <==> n as real == RealOf(x)
  {
    hide Exp2, Pow2, RealOf, Scaled, Finite, IsNaN, IsInfinite, IntMinusReal;
    FiniteIs(x);
    ScaledIsReal(x);
    Exp2IsPow2(1074);
    IntLessReal(n, x);
    IntEqualsReal(n, x);
    AsReal(n, Pow2(1074));
    SameScale(n as real, RealOf(x), Exp2(1074));
    assert n * Pow2(1074) < Scaled(x) <==> (n * Pow2(1074)) as real < Scaled(x) as real;
  }

  // ---------------------------------------------------------------------
  // Bytes
  // ---------------------------------------------------------------------

  /** a comes before b at k: the two are the same up to there, and then a ends or has the
      smaller byte. */
  predicate BeforeAt(a: Bytes, b: Bytes, k: nat) {
    k < |b| && k <= |a| && a[..k] == b[..k] && (k == |a| || a[k] < b[k])
  }

  /** LexLess is the order of strings by bytes. */
  lemma {:induction false} LexLessIs(a: Bytes, b: Bytes)
    ensures LexLess(a, b) <==> exists k: nat :: BeforeAt(a, b, k)
  {
    if a == [] || b == [] {
      assert b != [] ==> BeforeAt(a, b, 0);
    } else if a[0] != b[0] {
      assert a[0] < b[0] ==> BeforeAt(a, b, 0);
    } else {
      LexLessIs(a[1..], b[1..]);
      if k: nat :| BeforeAt(a[1..], b[1..], k) {
        assert a[..k + 1] == [a[0]] + a[1..][..k] && b[..k + 1] == [b[0]] + b[1..][..k];
        assert BeforeAt(a, b, k + 1);
      }
      if k: nat :| BeforeAt(a, b, k) {
        assert k > 0;
        assert a[1..][..k - 1] == a[..k][1..] && b[1..][..k - 1] == b[..k][1..];
        assert BeforeAt(a[1..], b[1..], k - 1);
      }
    }
  }
}
