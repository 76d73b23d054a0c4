/** `_check_weights`: the validation of user-supplied mixing weights, either
    one weight per component or one row of component weights per sample. */
module Validation {
  import opened Results
  import opened Numeric
  import opened Mixture

  /** The absolute tolerance of numpy's `allclose` (its relative tolerance
      plays no part when comparing against zero). */
  const AllcloseAtol: real := 0.00000001

  /** The shape numpy and `check_array` accept: a non-empty vector of exactly
      `k` entries, or an `n` x `k` matrix with at least one row and one
      column. A ragged weight matrix is not an array at all. */
  predicate ShapedFor(w: Weights, k: nat, n: nat) {
    match w
    case PerCluster(v) => 0 < k && |v| == k
    case PerSample(rows) => 0 < k && 0 < n && |rows| == n && IsMatrix(rows, k)
  }

  predicate InUnitRange(v: seq<real>) {
    forall i :: 0 <= i < |v| ==> 0.0 <= v[i] <= 1.0
  }

  /** Every weight lies in [0, 1]. */
  predicate WeightsInRange(w: Weights) {
    match w
    case PerCluster(v) => InUnitRange(v)
    case PerSample(rows) => forall s :: 0 <= s < |rows| ==> InUnitRange(rows[s])
  }

  /** A vector of weights sums to 1 up to the tolerance. */
  predicate NearlyOne(v: seq<real>) {
    Abs(1.0 - Sum(v)) <= AllcloseAtol
  }

  /** The weights of every sample (or the single weight vector) sum to 1. */
  predicate WeightsNormalized(w: Weights) {
    match w
    case PerCluster(v) => NearlyOne(v)
    case PerSample(rows) => forall s :: 0 <= s < |rows| ==> NearlyOne(rows[s])
  }

  /** Mixing weights the model accepts for `k` components and `n` samples. */
  predicate ValidWeights(w: Weights, k: nat, n: nat) {
    ShapedFor(w, k, n) && WeightsInRange(w) && WeightsNormalized(w)
  }

  /** Shape first, then range, then normalisation; the weights come back
      unchanged when all three pass. */
  function CheckWeights(w: Weights, k: nat, n: nat): (r: Result<Weights>)
    ensures r.Ok? <==> ValidWeights(w, k, n)
    ensures r.Ok? ==> r.value == w && WeightsShaped(r.value, k)
    ensures !ShapedFor(w, k, n) ==> r == Err(ShapeMismatch)
    ensures ShapedFor(w, k, n) && !WeightsInRange(w) ==> r == Err(OutOfRange)
    ensures ShapedFor(w, k, n) && WeightsInRange(w) && !WeightsNormalized(w) ==> r == Err(NotNormalized)
  {
    if !ShapedFor(w, k, n) then Err(ShapeMismatch)
    else if !WeightsInRange(w) then Err(OutOfRange)
    else if !WeightsNormalized(w) then Err(NotNormalized)
    else Ok(w)
  }

  /** A non-negative vector that sums to exactly 1 passes the range check:
      no entry can exceed the total. */
  lemma DistributionInRange(v: seq<real>)
    requires forall i :: 0 <= i < |v| ==> 0.0 <= v[i]
    requires Sum(v) == 1.0
    ensures InUnitRange(v) && NearlyOne(v)
  {
    forall i | 0 <= i < |v|
      ensures v[i] <= 1.0
    {
      SumDominatesEntry(v, i);
    }
  }

  /** Probability vectors of the right shape are accepted as they are. */
  lemma DistributionsAccepted(w: Weights, k: nat, n: nat)
    requires ShapedFor(w, k, n)
    requires w.PerCluster? ==> (forall i :: 0 <= i < k ==> 0.0 <= w.w[i]) && Sum(w.w) == 1.0
    requires w.PerSample? ==> forall s :: 0 <= s < n ==>
               (forall i :: 0 <= i < k ==> 0.0 <= w.rows[s][i]) && Sum(w.rows[s]) == 1.0
    ensures CheckWeights(w, k, n) == Ok(w)
  {
    match w
    case PerCluster(v) =>
      DistributionInRange(v);
    case PerSample(rows) =>
      forall s | 0 <= s < |rows|
        ensures InUnitRange(rows[s]) && NearlyOne(rows[s])
      {
        DistributionInRange(rows[s]);
      }
  }

  /** Accepted weights sum to 1 within the tolerance, every row of accepted
      spatial weights does too, and their component totals add up to the
      number of samples within n times the tolerance. */
  lemma AcceptedTotals(w: Weights, k: nat, n: nat)
    requires CheckWeights(w, k, n).Ok?
    ensures w.PerCluster? ==> 1.0 - AllcloseAtol <= Sum(w.w) <= 1.0 + AllcloseAtol
    ensures w.PerSample? ==> forall s :: 0 <= s < |w.rows| ==> 1.0 - AllcloseAtol <= Sum(w.rows[s]) <= 1.0 + AllcloseAtol
    ensures w.PerSample? ==>
              (n as real) * (1.0 - AllcloseAtol) <= Sum(ClusterTotals(w, k)) <= (n as real) * (1.0 + AllcloseAtol)
  {
    if w.PerSample? {
      var rows := w.rows;
      SumExchange(rows, k);
      var sums := RowSums(rows);
      var lows := seq(n, s => 1.0 - AllcloseAtol);
      var highs := seq(n, s => 1.0 + AllcloseAtol);
      SumMonotone(lows, sums);
      SumMonotone(sums, highs);
      SumConstant(lows, 1.0 - AllcloseAtol);
      SumConstant(highs, 1.0 + AllcloseAtol);
    }
  }
}
