/** Counts divided by lengths, and means, as exact reals (floating-point rounding is not modelled). */
module Ratios {

  /** `(count / total) * 100 if total > 0 else 0` */
  function Percent(count: nat, total: nat): (p: real)
    requires count <= total
    ensures 0.0 <= p <= 100.0
    ensures total > 0 ==> (p == 100.0 <==> count == total)
    ensures p == 0.0 <==> count == 0 || total == 0
  {
    if total > 0 then (count as real / total as real) * 100.0 else 0.0
  }

  lemma PercentAdd(a: nat, b: nat, total: nat)
    requires a + b <= total
    ensures Percent(a, total) + Percent(b, total) == Percent(a + b, total)
  {
    if total > 0 {
      var t := total as real;
      assert a as real / t + b as real / t == (a + b) as real / t;
    }
  }

  /** `count / total if total > 0 else 0` */
  function Fraction(count: nat, total: nat): (f: real)
    requires count <= total
    ensures 0.0 <= f <= 1.0
    ensures total > 0 ==> (f == 1.0 <==> count == total)
  {
    if total > 0 then count as real / total as real else 0.0
  }

  lemma FractionAdd(a: nat, b: nat, total: nat)
    requires a + b <= total
    ensures Fraction(a, total) + Fraction(b, total) == Fraction(a + b, total)
  {
  }

  function Sum(values: seq<real>): real
  {
    if values == [] then 0.0 else Sum(values[..|values| - 1]) + values[|values| - 1]
  }

  /** `np.mean(values)` for a non-empty list. */
  function Mean(values: seq<real>): real
    requires values != []
  {
    Sum(values) / |values| as real
  }

  lemma {:induction false} SumBounds(values: seq<real>, lo: real, hi: real)
    requires forall i :: 0 <= i < |values| ==> lo <= values[i] <= hi
    ensures lo * |values| as real <= Sum(values) <= hi * |values| as real
  {
    if values != [] {
      var n := |values|;
      SumBounds(values[..n - 1], lo, hi);
      assert lo * n as real == lo * (n - 1) as real + lo;
      assert hi * n as real == hi * (n - 1) as real + hi;
    }
  }

  /** The mean of values that all lie in `[lo, hi]` lies in `[lo, hi]`. */
  lemma MeanBounds(values: seq<real>, lo: real, hi: real)
    requires values != []
    requires forall i :: 0 <= i < |values| ==> lo <= values[i] <= hi
    ensures lo <= Mean(values) <= hi
  {
    SumBounds(values, lo, hi);
    DivideBounds(Sum(values), lo, hi, |values| as real);
  }

  /** A total between `lo * n` and `hi * n`, divided by `n`, lies between `lo` and `hi`. */
  lemma DivideBounds(total: real, lo: real, hi: real, n: real)
    requires n > 0.0 && lo * n <= total <= hi * n
    ensures lo <= total / n <= hi
  {
    assert total / n <= (hi * n) / n;
    assert (lo * n) / n <= total / n;
  }
}
