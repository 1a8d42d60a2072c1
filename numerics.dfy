/** Exact real-number stand-ins for the java.lang.Math operations that the
    axis-tic computation uses: min, max, abs, the (int) cast, pow(10, l),
    the truncated base-10 logarithm, and the tolerance test that decides
    whether a logarithm is an integer. Java doubles are modelled as reals. */
module Numerics {

  function Min(a: real, b: real): (r: real)
    ensures r <= a && r <= b
    ensures r == a || r == b
  {
    if a <= b then a else b
  }

  function Max(a: real, b: real): (r: real)
    ensures a <= r && b <= r
    ensures r == a || r == b
  {
    if a <= b then b else a
  }

  function Abs(x: real): (r: real)
    ensures 0.0 <= r
    ensures r == x || r == -x
  {
    if x < 0.0 then -x else x
  }

  /** Java's (int) cast of a double: truncation toward zero
      (overflow to the int range is not modelled). */
  function Trunc(x: real): (t: int)
    ensures 0.0 <= x ==> t as real <= x < t as real + 1.0
    ensures x < 0.0 ==> t as real - 1.0 < x <= t as real
  {
    if 0.0 <= x then x.Floor else -((-x).Floor)
  }

  /** The least integer not below x. */
  function Ceil(x: real): (c: int)
    ensures c as real - 1.0 < x <= c as real
  {
    -((-x).Floor)
  }

  /** pow(10.0, k) for an integer exponent k, computed exactly. */
  function Pow10(k: int): (r: real)
    ensures 0.0 < r
    decreases if k < 0 then -k else k
  {
    if k == 0 then 1.0
    else if 0 < k then 10.0 * Pow10(k - 1)
    else Pow10(k + 1) / 10.0
  }

  lemma Pow10Succ(k: int)
    ensures Pow10(k + 1) == 10.0 * Pow10(k)
  {
  }

  /** Powers of ten are strictly increasing in the exponent, in both directions. */
  lemma {:induction false} Pow10Increasing(a: int, b: int)
    ensures a < b <==> Pow10(a) < Pow10(b)
    decreases if a < b then b - a else a - b
  {
    if a < b {
      Pow10Succ(a);
      if a + 1 < b {
        Pow10Increasing(a + 1, b);
      }
    } else if b < a {
      Pow10Succ(b);
      if b + 1 < a {
        Pow10Increasing(b + 1, a);
      }
    }
  }

  lemma Pow10Injective(a: int, b: int)
    requires Pow10(a) == Pow10(b)
    ensures a == b
  {
    Pow10Increasing(a, b);
    Pow10Increasing(b, a);
  }

  /** trunc(log10 r) for r >= 1: the largest l with 10^l <= r. */
  function Log10Up(r: real): (l: int)
    requires 1.0 <= r
    ensures 0 <= l
    ensures Pow10(l) <= r < Pow10(l + 1)
    decreases r.Floor
  {
    if r < 10.0 then 0
    else
      assert (r / 10.0).Floor < r.Floor by {
        assert (r / 10.0).Floor as real <= r / 10.0;
      }
      var l' := Log10Up(r / 10.0);
      Pow10Succ(l');
      Pow10Succ(l' + 1);
      l' + 1
  }

  /** trunc(log10 r) for 0 < r <= 1: the least l with r <= 10^l. */
  function Log10Down(r: real): (l: int)
    requires 0.0 < r <= 1.0
    ensures l <= 0
    ensures Pow10(l - 1) < r <= Pow10(l)
    decreases (1.0 / r).Floor
  {
    if 0.1 < r then 0
    else
      assert (1.0 / (r * 10.0)).Floor < (1.0 / r).Floor by {
        assert 1.0 / (r * 10.0) == (1.0 / r) / 10.0;
        assert 10.0 <= 1.0 / r;
        assert (1.0 / (r * 10.0)).Floor as real <= (1.0 / r) / 10.0;
      }
      var l' := Log10Down(r * 10.0);
      Pow10Succ(l' - 1);
      Pow10Succ(l' - 2);
      l' - 1
  }

  /** (int)(log10 r): the base-10 logarithm truncated toward zero. Above 1 it
      is the largest l >= 0 with 10^l <= r, below 1 the least l <= 0 with
      r <= 10^l. */
  function TruncLog10(r: real): (l: int)
    requires 0.0 < r
    ensures 1.0 <= r ==> 0 <= l && Pow10(l) <= r < Pow10(l + 1)
    ensures r < 1.0 ==> l <= 0 && Pow10(l - 1) < r <= Pow10(l)
  {
    if 1.0 <= r then Log10Up(r) else Log10Down(r)
  }

  /** The bounds in TruncLog10's contract determine it. */
  lemma TruncLog10Unique(r: real, l: int)
    requires 0.0 < r
    requires 1.0 <= r ==> 0 <= l && Pow10(l) <= r < Pow10(l + 1)
    requires r < 1.0 ==> l <= 0 && Pow10(l - 1) < r <= Pow10(l)
    ensures TruncLog10(r) == l
  {
    var t := TruncLog10(r);
    if 1.0 <= r {
      Pow10Increasing(t, l + 1);
      Pow10Increasing(l, t + 1);
    } else {
      Pow10Increasing(t - 1, l);
      Pow10Increasing(l - 1, t);
    }
  }

  /** An exact power of ten has its own exponent as truncated logarithm. */
  lemma TruncLog10OfPower(k: int)
    ensures TruncLog10(Pow10(k)) == k
  {
    var l := TruncLog10(Pow10(k));
    Pow10Increasing(l, k);
    Pow10Increasing(k, l + 1);
    Pow10Increasing(l - 1, k);
    Pow10Increasing(k, l);
  }

  /** The exact counterpart of the test `almostEqual(rint(log10 x), log10 x)`:
      the logarithm of x is an integer, that is, x is a power of ten. */
  predicate IsPowerOfTen(x: real)
  {
    0.0 < x && Pow10(TruncLog10(x)) == x
  }

  lemma PowerOfTenExact(x: real)
    ensures IsPowerOfTen(x) <==> exists k: int :: Pow10(k) == x
  {
    if exists k: int :: Pow10(k) == x {
      var k: int :| Pow10(k) == x;
      TruncLog10OfPower(k);
    }
  }

  /** A value strictly between two consecutive powers of ten is no power of ten. */
  lemma BetweenPowersNotPower(x: real, k: int)
    requires Pow10(k) < x < Pow10(k + 1)
    ensures !IsPowerOfTen(x)
  {
    if IsPowerOfTen(x) {
      var l := TruncLog10(x);
      Pow10Increasing(k, l);
      Pow10Increasing(l, k + 1);
    }
  }
}
