/** The volume-weighted statistics of the weighted mixture: the M-step's
    component masses, means and mixing weights, the volume-weighted average
    used for scores, and the initial responsibilities. Every sample is a mesh
    cell and counts in proportion to its volume. */
module Estimation {
  import opened Results
  import opened Numeric
  import opened Mixture
  import opened Membership

  /** 10 * machine epsilon of float64 (eps = 2^-52), added to every
      component mass so that no mass is exactly zero. */
  const MassFloor: real := 10.0 / 4503599627370496.0

  /** n samples of d features, n cell volumes, n x k responsibilities. */
  predicate SampleShapes(x: Matrix, vol: seq<real>, resp: Matrix, k: nat, d: nat) {
    |x| == |vol| && |resp| == |vol| && IsMatrix(x, d) && IsMatrix(resp, k)
  }

  predicate NonNegative(v: seq<real>) {
    forall i :: 0 <= i < |v| ==> 0.0 <= v[i]
  }

  predicate NonNegativeRows(m: Matrix) {
    forall s :: 0 <= s < |m| ==> NonNegative(m[s])
  }

  /** The entrywise products v[i] * x[i]. */
  function Products(v: seq<real>, x: seq<real>): (r: seq<real>)
    requires |v| == |x|
    ensures |r| == |x| && forall i :: 0 <= i < |x| ==> r[i] == v[i] * x[i]
  {
    seq(|x|, i requires 0 <= i < |x| => v[i] * x[i])
  }

  /** Responsibilities scaled by the cell volume of their sample. */
  function RespVol(vol: seq<real>, resp: Matrix, k: nat): (rv: Matrix)
    requires |resp| == |vol| && IsMatrix(resp, k)
    ensures |rv| == |vol| && IsMatrix(rv, k)
    ensures forall s, c :: 0 <= s < |vol| && 0 <= c < k ==> rv[s][c] == vol[s] * resp[s][c]
  {
    seq(|vol|, s requires 0 <= s < |vol| => seq(k, c requires 0 <= c < k => vol[s] * resp[s][c]))
  }

  /** The volume-weighted mass of each component, plus the floor. */
  function Masses(vol: seq<real>, resp: Matrix, k: nat): (nk: seq<real>)
    requires |resp| == |vol| && IsMatrix(resp, k)
    ensures |nk| == k
    ensures NonNegative(vol) && NonNegativeRows(resp) ==> forall c :: 0 <= c < k ==> MassFloor <= nk[c]
  {
    var rv := RespVol(vol, resp, k);
    var nk := seq(k, c requires 0 <= c < k => Sum(Column(rv, c)) + MassFloor);
    assert NonNegative(vol) && NonNegativeRows(resp) ==> forall c :: 0 <= c < k ==> MassFloor <= nk[c] by {
      if NonNegative(vol) && NonNegativeRows(resp) {
        forall c | 0 <= c < k
          ensures 0.0 <= Sum(Column(rv, c))
        {
          SumNonNegative(Column(rv, c));
        }
      }
    }
    nk
  }

  /** The weighted sum of feature f under the weights of component c. */
  function WeightedFeature(rv: Matrix, x: Matrix, c: nat, f: nat): seq<real>
    requires |rv| == |x|
    requires forall s :: 0 <= s < |rv| ==> c < |rv[s]| && f < |x[s]|
  {
    seq(|x|, s requires 0 <= s < |x| => rv[s][c] * x[s][f])
  }

  /** `_estimate_gaussian_parameters`: the masses, the weighted means, and
      the covariances of the chosen family from a covariance estimator
      outside the model. A zero mass (possible only with negative volumes
      or responsibilities) is a division by zero. */
  function EstimateParameters(x: Matrix, vol: seq<real>, resp: Matrix, k: nat, d: nat, covType: CovType,
                              estimate: (CovType, Matrix, Matrix, seq<real>, Matrix) -> seq<Block>)
    : (r: Result<(seq<real>, Matrix, seq<Block>)>)
    requires SampleShapes(x, vol, resp, k, d)
    ensures NonNegative(vol) && NonNegativeRows(resp) ==> r.Ok?
    ensures r.Ok? ==> r.value.0 == Masses(vol, resp, k)
    ensures r.Ok? ==> |r.value.1| == k && IsMatrix(r.value.1, d)
    ensures r.Ok? ==> forall c, f :: 0 <= c < k && 0 <= f < d ==>
              r.value.0[c] * r.value.1[c][f] == Sum(WeightedFeature(RespVol(vol, resp, k), x, c, f))
    ensures r.Err? ==> r.error == NonFinite
  {
    var rv := RespVol(vol, resp, k);
    var nk := Masses(vol, resp, k);
    if exists c :: 0 <= c < k && nk[c] == 0.0 then Err(NonFinite)
    else
      var means := seq(k, c requires 0 <= c < k =>
                     seq(d, f requires 0 <= f < d => Sum(WeightedFeature(rv, x, c, f)) / nk[c]));
      Ok((nk, means, estimate(covType, rv, x, nk, means)))
  }

  /** With non-negative volumes and responsibilities and every value of
      feature f in [lo, hi], each estimated mean of f lies in [lo, hi]
      widened to include 0: it is a weighted average shrunk toward 0 by the
      mass floor. */
  lemma {:induction false} MeansWithinData(x: Matrix, vol: seq<real>, resp: Matrix, k: nat, d: nat, covType: CovType,
                        estimate: (CovType, Matrix, Matrix, seq<real>, Matrix) -> seq<Block>,
                        f: nat, lo: real, hi: real)
    requires SampleShapes(x, vol, resp, k, d) && f < d
    requires NonNegative(vol) && NonNegativeRows(resp)
    requires forall s :: 0 <= s < |x| ==> lo <= x[s][f] <= hi
    ensures forall c :: 0 <= c < k ==>
              Min(lo, 0.0) <= EstimateParameters(x, vol, resp, k, d, covType, estimate).value.1[c][f] <= Max(hi, 0.0)
  {
    forall c | 0 <= c < k
      ensures Min(lo, 0.0) <= EstimateParameters(x, vol, resp, k, d, covType, estimate).value.1[c][f] <= Max(hi, 0.0)
    {
      MeanWithinData(x, vol, resp, k, d, covType, estimate, c, f, lo, hi);
    }
  }

  lemma {:induction false} MeanWithinData(x: Matrix, vol: seq<real>, resp: Matrix, k: nat, d: nat, covType: CovType,
                                          estimate: (CovType, Matrix, Matrix, seq<real>, Matrix) -> seq<Block>,
                                          c: nat, f: nat, lo: real, hi: real)
    requires SampleShapes(x, vol, resp, k, d) && c < k && f < d
    requires NonNegative(vol) && NonNegativeRows(resp)
    requires forall s :: 0 <= s < |x| ==> lo <= x[s][f] <= hi
    ensures Min(lo, 0.0) <= EstimateParameters(x, vol, resp, k, d, covType, estimate).value.1[c][f] <= Max(hi, 0.0)
  {
    var rv := RespVol(vol, resp, k);
    var m := EstimateParameters(x, vol, resp, k, d, covType, estimate);
    assert m.Ok?;
    WeightedSumsBounded(x, vol, resp, k, d, c, f, lo, hi);
    MeanEntry(x, vol, resp, k, d, covType, estimate, c, f);
    ShrunkRatioBounds(Sum(WeightedFeature(rv, x, c, f)), Sum(Column(rv, c)), MassFloor, lo, hi);
  }

  /** The weighted feature total of component c lies between lo and hi
      times the component's unfloored mass, which is non-negative. */
  lemma WeightedSumsBounded(x: Matrix, vol: seq<real>, resp: Matrix, k: nat, d: nat,
                            c: nat, f: nat, lo: real, hi: real)
    requires SampleShapes(x, vol, resp, k, d) && c < k && f < d
    requires NonNegative(vol) && NonNegativeRows(resp)
    requires forall s :: 0 <= s < |x| ==> lo <= x[s][f] <= hi
    ensures 0.0 <= Sum(Column(RespVol(vol, resp, k), c))
    ensures lo * Sum(Column(RespVol(vol, resp, k), c)) <= Sum(WeightedFeature(RespVol(vol, resp, k), x, c, f))
            <= hi * Sum(Column(RespVol(vol, resp, k), c))
  {
    var rv := RespVol(vol, resp, k);
    var w := Column(rv, c);
    var wx := WeightedFeature(rv, x, c, f);
    var xs := seq(|x|, s requires 0 <= s < |x| => x[s][f]);
    forall s | 0 <= s < |x|
      ensures 0.0 <= w[s] && lo <= xs[s] <= hi && wx[s] == w[s] * xs[s]
    {
      assert w[s] == rv[s][c] == vol[s] * resp[s][c];
      ScaleMonotone(resp[s][c], 0.0, vol[s]);
    }
    WeightedSumBounds(w, xs, wx, lo, hi);
    SumNonNegative(w);
  }

  lemma MeanEntry(x: Matrix, vol: seq<real>, resp: Matrix, k: nat, d: nat, covType: CovType,
                  estimate: (CovType, Matrix, Matrix, seq<real>, Matrix) -> seq<Block>, c: nat, f: nat)
    requires SampleShapes(x, vol, resp, k, d) && c < k && f < d
    requires EstimateParameters(x, vol, resp, k, d, covType, estimate).Ok?
    ensures EstimateParameters(x, vol, resp, k, d, covType, estimate).value.1[c][f]
            == Sum(WeightedFeature(RespVol(vol, resp, k), x, c, f)) / (Sum(Column(RespVol(vol, resp, k), c)) + MassFloor)
  {
  }

  /** A total in [lo * w, hi * w] divided by w + floor, with w >= 0 and a
      positive floor, lies in [min(lo, 0), max(hi, 0)]. */
  lemma ShrunkRatioBounds(total: real, w: real, floor: real, lo: real, hi: real)
    requires 0.0 <= w && 0.0 < floor
    requires lo * w <= total <= hi * w
    ensures Min(lo, 0.0) <= total / (w + floor) <= Max(hi, 0.0)
  {
    var q := total / (w + floor);
    assert q * (w + floor) == total;
    var t := w / (w + floor);
    assert 0.0 <= t <= 1.0;
    assert lo * t <= q <= hi * t by {
      assert lo * t == lo * w / (w + floor);
      assert hi * t == hi * w / (w + floor);
    }
    if 0.0 <= hi {
      assert hi * t <= hi;
    } else {
      assert hi * t <= 0.0;
    }
    if lo <= 0.0 {
      assert lo <= lo * t;
    } else {
      assert 0.0 <= lo * t;
    }
  }

  /** When every responsibility row sums to 1, the masses add up to the
      total volume plus one floor per component. */
  lemma {:induction false} MassesAddUp(vol: seq<real>, resp: Matrix, k: nat)
    requires |resp| == |vol| && IsMatrix(resp, k)
    requires forall s :: 0 <= s < |resp| ==> Sum(resp[s]) == 1.0
    ensures Sum(Masses(vol, resp, k)) == Sum(vol) + (k as real) * MassFloor
  {
    var rv := RespVol(vol, resp, k);
    var cols := ColumnSums(rv, k);
    var floors := seq(k, c => MassFloor);
    SumAdd(cols, floors, Masses(vol, resp, k));
    SumConstant(floors, MassFloor);
    SumExchange(rv, k);
    forall s | 0 <= s < |vol|
      ensures RowSums(rv)[s] == vol[s]
    {
      RespVolRow(vol, resp, k, s);
    }
    assert RowSums(rv) == vol;
  }

  /** One sample's volume-scaled responsibilities sum to its volume. */
  lemma RespVolRow(vol: seq<real>, resp: Matrix, k: nat, s: nat)
    requires |resp| == |vol| && IsMatrix(resp, k) && s < |vol|
    requires Sum(resp[s]) == 1.0
    ensures Sum(RespVol(vol, resp, k)[s]) == vol[s]
  {
    SumScale(resp[s], RespVol(vol, resp, k)[s], vol[s]);
  }

  /** The mixing weights of the M-step: masses over `n_samples * mean(vol)`,
      the total volume. No cells, or cells of zero total volume, give
      numpy's inf/nan. */
  function MStepWeights(nk: seq<real>, vol: seq<real>): (r: Result<seq<real>>)
    ensures r.Ok? <==> Sum(vol) != 0.0
    ensures r.Ok? ==> |r.value| == |nk|
    ensures r.Ok? ==> forall c :: 0 <= c < |nk| ==> r.value[c] * Sum(vol) == nk[c]
    ensures r.Err? ==> r.error == NonFinite
  {
    var total := Sum(vol);
    if total == 0.0 then Err(NonFinite)
    else Ok(seq(|nk|, c requires 0 <= c < |nk| => nk[c] / total))
  }

  /** The M-step weights sum to 1 plus the share of the floors: the floor is
      why the source re-normalises nothing yet gets weights near 1. */
  lemma {:induction false} MStepWeightsNearlyNormalized(vol: seq<real>, resp: Matrix, k: nat)
    requires |resp| == |vol| && IsMatrix(resp, k)
    requires forall s :: 0 <= s < |resp| ==> Sum(resp[s]) == 1.0
    requires Sum(vol) != 0.0
    ensures Sum(MStepWeights(Masses(vol, resp, k), vol).value) == 1.0 + (k as real) * MassFloor / Sum(vol)
  {
    var nk := Masses(vol, resp, k);
    MStepWeightsSum(nk, vol);
    MassesAddUp(vol, resp, k);
    ShareOfTotal(Sum(vol), (k as real) * MassFloor);
  }

  /** The M-step weights sum to the total mass over the total volume. */
  lemma MStepWeightsSum(nk: seq<real>, vol: seq<real>)
    requires Sum(vol) != 0.0
    ensures Sum(MStepWeights(nk, vol).value) == (1.0 / Sum(vol)) * Sum(nk)
  {
    var total := Sum(vol);
    var w := MStepWeights(nk, vol).value;
    forall c | 0 <= c < |nk|
      ensures w[c] == (1.0 / total) * nk[c]
    {
      DivideAsScale(nk[c], total);
    }
    SumScale(nk, w, 1.0 / total);
  }

  lemma DivideAsScale(x: real, t: real)
    requires t != 0.0
    ensures x / t == (1.0 / t) * x
  {
  }

  lemma ShareOfTotal(t: real, a: real)
    requires t != 0.0
    ensures (1.0 / t) * (t + a) == 1.0 + a / t
  {
  }

  /** `_m_step`: new means and covariances; the per-cluster mixing weights
      are replaced, spatially varying weights are kept. The precisions are
      left as they were (they are re-derived by the prior update). A
      covariance estimator whose result has the wrong number of blocks is a
      shape error. */
  function MStep(g: Gmm, x: Matrix, vol: seq<real>, resp: Matrix, d: nat,
                 estimate: (CovType, Matrix, Matrix, seq<real>, Matrix) -> seq<Block>)
    : (r: Result<Gmm>)
    requires g.WellFormed() && SampleShapes(x, vol, resp, g.K(), d)
    ensures r.Ok? ==> r.value.WellFormed() && r.value.K() == g.K() && r.value.covType == g.covType
    ensures r.Ok? ==> r.value.precisions == g.precisions
    ensures r.Ok? ==> EstimateParameters(x, vol, resp, g.K(), d, g.covType, estimate).Ok?
    ensures r.Ok? ==> r.value.means == EstimateParameters(x, vol, resp, g.K(), d, g.covType, estimate).value.1
    ensures r.Ok? && g.weights.PerSample? ==> r.value.weights == g.weights
    ensures r.Ok? && g.weights.PerCluster? ==> MStepWeights(Masses(vol, resp, g.K()), vol).Ok?
    ensures r.Ok? && g.weights.PerCluster? ==>
              r.value.weights == PerCluster(MStepWeights(Masses(vol, resp, g.K()), vol).value)
    ensures NonNegative(vol) && NonNegativeRows(resp) && Sum(vol) != 0.0 && g.weights.PerCluster?
            && |estimate(g.covType, RespVol(vol, resp, g.K()), x, Masses(vol, resp, g.K()),
                         EstimateParameters(x, vol, resp, g.K(), d, g.covType, estimate).value.1)|
               == (if g.covType == Tied then 1 else g.K())
            ==> r.Ok?
  {
    var est :- EstimateParameters(x, vol, resp, g.K(), d, g.covType, estimate);
    var (nk, means, covs) := est;
    if |covs| != (if g.covType == Tied then 1 else g.K()) then Err(ShapeMismatch)
    else if g.weights.PerCluster? then
      var w :- MStepWeights(nk, vol);
      Ok(g.(weights := PerCluster(w), means := means, covariances := covs))
    else
      Ok(g.(means := means, covariances := covs))
  }

  /** `np.average(values, weights=vol)`. */
  function WeightedAverage(values: seq<real>, vol: seq<real>): (r: Result<real>)
    ensures |values| != |vol| ==> r == Err(ShapeMismatch)
    ensures |values| == |vol| ==> (r.Ok? <==> Sum(vol) != 0.0)
    ensures r.Err? ==> r.error == ShapeMismatch || r.error == ZeroWeightSum
  {
    if |values| != |vol| then Err(ShapeMismatch)
    else if Sum(vol) == 0.0 then Err(ZeroWeightSum)
    else Ok(Sum(Products(vol, values)) / Sum(vol))
  }

  /** With non-negative volumes, the weighted average of values in
      [lo, hi] lies in [lo, hi]. */
  lemma {:induction false} AverageWithinRange(values: seq<real>, vol: seq<real>, lo: real, hi: real)
    requires |values| == |vol| && NonNegative(vol) && Sum(vol) != 0.0
    requires forall i :: 0 <= i < |values| ==> lo <= values[i] <= hi
    ensures lo <= WeightedAverage(values, vol).value <= hi
  {
    var vx := Products(vol, values);
    WeightedSumBounds(vol, values, vx, lo, hi);
    SumNonNegative(vol);
    RatioBetween(Sum(vx), Sum(vol), lo, hi);
  }

  /** The average of a constant is that constant, whatever the volumes. */
  lemma {:induction false} AverageOfConstant(values: seq<real>, vol: seq<real>, c: real)
    requires |values| == |vol| && Sum(vol) != 0.0
    requires forall i :: 0 <= i < |values| ==> values[i] == c
    ensures WeightedAverage(values, vol) == Ok(c)
  {
    var vx := Products(vol, values);
    forall i | 0 <= i < |vx|
      ensures vx[i] == c * vol[i]
    {
    }
    SumScale(vol, vx, c);
    var total := Sum(vol);
    assert Sum(vx) == c * total;
    assert (c * total) / total == c;
  }

  /** `_initialize_parameters`: the responsibilities EM starts from.
      "kmeans" puts each sample entirely in the cluster of its k-means label
      (the labels come from a k-means run outside the model); "random"
      normalises rows of uniform draws (the draws come from the random
      state) to sum to 1. */
  function InitialResponsibilities(initParams: string, labels: seq<nat>, draws: Matrix, n: nat, k: nat)
    : (r: Result<Matrix>)
    requires initParams == "random" ==> |draws| == n && IsMatrix(draws, k)
    ensures initParams != "kmeans" && initParams != "random" ==> r == Err(UnknownInitMethod)
    ensures initParams == "kmeans" ==>
              (r.Ok? <==> |labels| == n && forall s :: 0 <= s < n ==> labels[s] < k)
    ensures initParams == "random" ==>
              (r.Ok? <==> forall s :: 0 <= s < n ==> Sum(draws[s]) != 0.0)
    ensures r.Ok? ==> |r.value| == n && IsMatrix(r.value, k)
    ensures r.Ok? && initParams == "kmeans" ==> forall s :: 0 <= s < n ==> r.value[s] == OneHot(k, labels[s], 1.0, 0.0)
    ensures r.Ok? && initParams == "random" ==> forall s, c :: 0 <= s < n && 0 <= c < k ==>
              r.value[s][c] * Sum(draws[s]) == draws[s][c]
  {
    if initParams == "kmeans" then
      if |labels| != n then Err(ShapeMismatch)
      else if exists s :: 0 <= s < n && labels[s] >= k then Err(IndexError)
      else Ok(seq(n, s requires 0 <= s < n => OneHot(k, labels[s], 1.0, 0.0)))
    else if initParams == "random" then
      if exists s :: 0 <= s < n && Sum(draws[s]) == 0.0 then Err(NonFinite)
      else Ok(seq(n, s requires 0 <= s < n => seq(k, c requires 0 <= c < k => draws[s][c] / Sum(draws[s]))))
    else Err(UnknownInitMethod)
  }

  /** Initial responsibilities are probability rows: non-negative (for
      non-negative draws) and summing to exactly 1. */
  lemma InitialRowsAreDistributions(initParams: string, labels: seq<nat>, draws: Matrix, n: nat, k: nat)
    requires initParams == "random" ==> |draws| == n && IsMatrix(draws, k)
    requires initParams == "random" ==> NonNegativeRows(draws)
    requires InitialResponsibilities(initParams, labels, draws, n, k).Ok?
    ensures NonNegativeRows(InitialResponsibilities(initParams, labels, draws, n, k).value)
    ensures forall s :: 0 <= s < n ==> Sum(InitialResponsibilities(initParams, labels, draws, n, k).value[s]) == 1.0
  {
    var r := InitialResponsibilities(initParams, labels, draws, n, k).value;
    forall s | 0 <= s < n
      ensures NonNegative(r[s]) && Sum(r[s]) == 1.0
    {
      if initParams == "kmeans" {
        OneHotSumsToOne(k, labels[s]);
      } else {
        var total := Sum(draws[s]);
        SumNonNegative(draws[s]);
        SumScale(draws[s], r[s], 1.0 / total);
      }
    }
  }
}
