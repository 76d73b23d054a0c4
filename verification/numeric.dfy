/** Exact real arithmetic over sequences: sums, their linearity, the exchange
    of a double sum, integer powers, and reals extended with the two infinities
    that numpy uses as sentinels. */
module Numeric {

  type Matrix = seq<seq<real>>

  /** Every row of `m` has exactly `cols` entries. */
  predicate IsMatrix(m: Matrix, cols: nat) {
    forall s :: 0 <= s < |m| ==> |m[s]| == cols
  }

  function Abs(x: real): real {
    if x < 0.0 then -x else x
  }

  function Min(x: real, y: real): real {
    if x <= y then x else y
  }

  function Max(x: real, y: real): real {
    if x <= y then y else x
  }

  function Sum(s: seq<real>): real
    decreases |s|
  {
    if |s| == 0 then 0.0 else s[0] + Sum(s[1..])
  }

  /** x^n for a natural exponent; 0^0 is 1, as in numpy. */
  function Pow(x: real, n: nat): real
    decreases n
  {
    if n == 0 then 1.0 else x * Pow(x, n - 1)
  }

  /** Sum is linear in pointwise combinations of equally long sequences. */
  lemma {:induction false} SumLinear(a: seq<real>, b: seq<real>, r: seq<real>, c: real, d: real)
    requires |a| == |r| && |b| == |r|
    requires forall i :: 0 <= i < |r| ==> r[i] == c * a[i] + d * b[i]
    ensures Sum(r) == c * Sum(a) + d * Sum(b)
    decreases |r|
  {
    if |r| > 0 {
      SumLinear(a[1..], b[1..], r[1..], c, d);
      assert Sum(r) == r[0] + Sum(r[1..]);
      assert r[0] == c * a[0] + d * b[0];
      assert c * Sum(a) == c * a[0] + c * Sum(a[1..]);
      assert d * Sum(b) == d * b[0] + d * Sum(b[1..]);
    }
  }

  /** A sequence scaled entrywise by c sums to c times the original sum. */
  lemma SumScale(a: seq<real>, r: seq<real>, c: real)
    requires |a| == |r|
    requires forall i :: 0 <= i < |r| ==> r[i] == c * a[i]
    ensures Sum(r) == c * Sum(a)
  {
    SumLinear(a, a, r, c, 0.0);
  }

  /** The entrywise sum of two sequences sums to the sum of the sums. */
  lemma {:induction false} SumAdd(a: seq<real>, b: seq<real>, r: seq<real>)
    requires |a| == |r| && |b| == |r|
    requires forall i :: 0 <= i < |r| ==> r[i] == a[i] + b[i]
    ensures Sum(r) == Sum(a) + Sum(b)
    decreases |r|
  {
    if |r| > 0 {
      assert forall i :: 0 <= i < |r| - 1 ==> r[1..][i] == a[1..][i] + b[1..][i];
      SumAdd(a[1..], b[1..], r[1..]);
    }
  }

  lemma {:induction false} SumConstant(r: seq<real>, c: real)
    requires forall i :: 0 <= i < |r| ==> r[i] == c
    ensures Sum(r) == (|r| as real) * c
    decreases |r|
  {
    if |r| > 0 {
      SumConstant(r[1..], c);
    }
  }

  lemma {:induction false} SumMonotone(a: seq<real>, b: seq<real>)
    requires |a| == |b|
    requires forall i :: 0 <= i < |a| ==> a[i] <= b[i]
    ensures Sum(a) <= Sum(b)
    decreases |a|
  {
    if |a| > 0 {
      SumMonotone(a[1..], b[1..]);
    }
  }

  lemma SumNonNegative(a: seq<real>)
    requires forall i :: 0 <= i < |a| ==> 0.0 <= a[i]
    ensures 0.0 <= Sum(a)
  {
    SumMonotone(seq(|a|, i => 0.0), a);
    SumConstant(seq(|a|, i => 0.0), 0.0);
  }

  /** One non-negative entry never exceeds the sum of all of them. */
  lemma {:induction false} SumDominatesEntry(a: seq<real>, k: nat)
    requires k < |a|
    requires forall i :: 0 <= i < |a| ==> 0.0 <= a[i]
    ensures a[k] <= Sum(a)
    decreases |a|
  {
    if k == 0 {
      SumNonNegative(a[1..]);
    } else {
      SumDominatesEntry(a[1..], k - 1);
    }
  }

  /** A weighted sum of values in [lo, hi] with non-negative weights lies in
      [lo * total weight, hi * total weight]. */
  lemma WeightedSumBounds(v: seq<real>, x: seq<real>, vx: seq<real>, lo: real, hi: real)
    requires |v| == |x| && |vx| == |x|
    requires forall i :: 0 <= i < |x| ==> 0.0 <= v[i] && lo <= x[i] <= hi
    requires forall i :: 0 <= i < |x| ==> vx[i] == v[i] * x[i]
    ensures lo * Sum(v) <= Sum(vx) <= hi * Sum(v)
  {
    WeightedSumLower(v, x, vx, lo);
    WeightedSumUpper(v, x, vx, hi);
  }

  lemma WeightedSumLower(v: seq<real>, x: seq<real>, vx: seq<real>, lo: real)
    requires |v| == |x| && |vx| == |x|
    requires forall i :: 0 <= i < |x| ==> 0.0 <= v[i] && lo <= x[i]
    requires forall i :: 0 <= i < |x| ==> vx[i] == v[i] * x[i]
    ensures lo * Sum(v) <= Sum(vx)
  {
    var low := seq(|v|, i requires 0 <= i < |v| => lo * v[i]);
    forall i | 0 <= i < |x|
      ensures low[i] <= vx[i]
    {
      ScaleMonotone(v[i], lo, x[i]);
    }
    SumMonotone(low, vx);
    ScaledSum(v, lo);
  }

  lemma WeightedSumUpper(v: seq<real>, x: seq<real>, vx: seq<real>, hi: real)
    requires |v| == |x| && |vx| == |x|
    requires forall i :: 0 <= i < |x| ==> 0.0 <= v[i] && x[i] <= hi
    requires forall i :: 0 <= i < |x| ==> vx[i] == v[i] * x[i]
    ensures Sum(vx) <= hi * Sum(v)
  {
    var high := seq(|v|, i requires 0 <= i < |v| => hi * v[i]);
    forall i | 0 <= i < |x|
      ensures vx[i] <= high[i]
    {
      ScaleMonotone(v[i], x[i], hi);
    }
    SumMonotone(vx, high);
    ScaledSum(v, hi);
  }

  lemma ScaledSum(v: seq<real>, c: real)
    ensures Sum(seq(|v|, i requires 0 <= i < |v| => c * v[i])) == c * Sum(v)
  {
    SumScale(v, seq(|v|, i requires 0 <= i < |v| => c * v[i]), c);
  }

  lemma ScaleMonotone(c: real, a: real, b: real)
    requires 0.0 <= c && a <= b
    ensures a * c <= c * b
  {
  }

  /** A total between lo * w and hi * w, over a positive w, lies between lo
      and hi. */
  lemma RatioBetween(t: real, w: real, lo: real, hi: real)
    requires 0.0 < w && lo * w <= t <= hi * w
    ensures lo <= t / w <= hi
  {
    var q := t / w;
    assert q * w == t;
    assert (q - lo) * w >= 0.0;
    assert (hi - q) * w >= 0.0;
  }

  function RowSums(m: Matrix): (r: seq<real>)
    ensures |r| == |m|
    ensures forall s :: 0 <= s < |m| ==> r[s] == Sum(m[s])
  {
    seq(|m|, s requires 0 <= s < |m| => Sum(m[s]))
  }

  function Column(m: Matrix, k: nat): (c: seq<real>)
    requires forall s :: 0 <= s < |m| ==> k < |m[s]|
    ensures |c| == |m|
    ensures forall s :: 0 <= s < |m| ==> c[s] == m[s][k]
  {
    seq(|m|, s requires 0 <= s < |m| => m[s][k])
  }

  /** numpy's `m.sum(axis=0)` for a matrix with `cols` columns. */
  function ColumnSums(m: Matrix, cols: nat): (r: seq<real>)
    requires IsMatrix(m, cols)
    ensures |r| == cols
    ensures forall k :: 0 <= k < cols ==> r[k] == Sum(Column(m, k))
  {
    seq(cols, k requires 0 <= k < cols => Sum(Column(m, k)))
  }

  /** Summing a matrix row by row or column by column gives the same total. */
  lemma {:induction false} SumExchange(m: Matrix, cols: nat)
    requires IsMatrix(m, cols)
    ensures Sum(RowSums(m)) == Sum(ColumnSums(m, cols))
    decreases |m|
  {
    if |m| == 0 {
      SumConstant(ColumnSums(m, cols), 0.0);
    } else {
      var rest := m[1..];
      SumExchange(rest, cols);
      assert RowSums(m)[1..] == RowSums(rest);
      forall k | 0 <= k < cols
        ensures ColumnSums(m, cols)[k] == m[0][k] + ColumnSums(rest, cols)[k]
      {
        assert Column(m, k)[1..] == Column(rest, k);
      }
      SumAdd(m[0], ColumnSums(rest, cols), ColumnSums(m, cols));
    }
  }

  /** The reals extended with the two infinities numpy uses as sentinels. */
  datatype ExtReal = NegInf | Fin(v: real) | PosInf

  /** x - y for a finite x, as IEEE arithmetic evaluates it. */
  function SubExt(x: real, y: ExtReal): (r: ExtReal)
    ensures y.NegInf? <==> r.PosInf?
    ensures y.Fin? ==> r == Fin(x - y.v)
    ensures y.PosInf? ==> r.NegInf?
  {
    match y
    case NegInf => PosInf
    case Fin(v) => Fin(x - v)
    case PosInf => NegInf
  }
}
