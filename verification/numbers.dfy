/** Sums and means of number sequences, shared by the enrichment scorers
    and the metro statistics. */
module Numbers {
  function SumNat(xs: seq<nat>): nat {
    if |xs| == 0 then 0 else xs[0] + SumNat(xs[1..])
  }

  function SumReal(xs: seq<real>): real {
    if |xs| == 0 then 0.0 else xs[0] + SumReal(xs[1..])
  }

  /** Values between lo and hi sum to between n * lo and n * hi. */
  lemma {:induction false} SumRealBounds(xs: seq<real>, lo: real, hi: real)
    requires forall i :: 0 <= i < |xs| ==> lo <= xs[i] <= hi
    ensures |xs| as real * lo <= SumReal(xs) <= |xs| as real * hi
  {
    if |xs| > 0 {
      assert forall i :: 0 <= i < |xs| - 1 ==> xs[1..][i] == xs[i + 1];
      SumRealBounds(xs[1..], lo, hi);
      assert |xs| as real * lo == lo + (|xs| - 1) as real * lo;
      assert |xs| as real * hi == hi + (|xs| - 1) as real * hi;
    }
  }

  lemma {:induction false} SumNatBounds(xs: seq<nat>, lo: nat, hi: nat)
    requires forall i :: 0 <= i < |xs| ==> lo <= xs[i] <= hi
    ensures |xs| * lo <= SumNat(xs) <= |xs| * hi
  {
    if |xs| > 0 {
      assert forall i :: 0 <= i < |xs| - 1 ==> xs[1..][i] == xs[i + 1];
      SumNatBounds(xs[1..], lo, hi);
      assert |xs| * lo == lo + (|xs| - 1) * lo;
      assert |xs| * hi == hi + (|xs| - 1) * hi;
    }
  }

  /** A non-empty sequence of positive values has a positive sum. */
  lemma {:induction false} SumPositive(xs: seq<real>)
    requires |xs| > 0 && forall i :: 0 <= i < |xs| ==> xs[i] > 0.0
    ensures SumReal(xs) > 0.0
  {
    if |xs| > 1 {
      assert forall i :: 0 <= i < |xs| - 1 ==> xs[1..][i] == xs[i + 1];
      SumPositive(xs[1..]);
    }
  }

  /** A sum between n * lo and n * hi has its mean between lo and hi. */
  lemma MeanBetween(sum: real, n: real, lo: real, hi: real)
    requires n > 0.0 && n * lo <= sum <= n * hi
    ensures lo <= sum / n <= hi
  {
    var a := sum / n;
    assert a * n == sum;
    assert (hi - a) * n >= 0.0;
    assert (a - lo) * n >= 0.0;
  }

  /** Dividing by a positive number keeps the sign, and gives 1 or -1
      exactly for the divisor and its negation. */
  lemma QuotientSign(d: real, n: real)
    requires n > 0.0
    ensures d / n > 0.0 <==> d > 0.0
    ensures d / n == 1.0 <==> d == n
    ensures d / n == -1.0 <==> d == -n
  {
    var a := d / n;
    assert a * n == d;
    assert (a - 1.0) * n == d - n;
    assert (a + 1.0) * n == d + n;
  }

  /** A positive sum at most n * top has a positive mean at most top. */
  lemma PositiveMean(sum: real, n: real, top: real)
    requires n > 0.0 && 0.0 < sum <= n * top
    ensures 0.0 < sum / n <= top
  {
    MeanBetween(sum, n, 0.0, top);
    QuotientSign(sum, n);
  }

  /** Converting to a real commutes with multiplication. */
  lemma CastProduct(k: nat, m: nat)
    ensures (k * m) as real == k as real * m as real
  {
  }

  /** A whole sum between k * lo and k * hi has its mean between lo and hi. */
  lemma NatMeanBetween(sum: nat, k: nat, lo: nat, hi: nat)
    requires k > 0 && k * lo <= sum <= k * hi
    ensures lo as real <= sum as real / k as real <= hi as real
  {
    CastProduct(k, lo);
    CastProduct(k, hi);
    MeanBetween(sum as real, k as real, lo as real, hi as real);
  }
}
