/** `update_gmm_with_priors`: the MAP update that pulls a freshly estimated
    mixture towards a reference mixture. Means are blended with kappa,
    covariances or precisions with nu, and mixing weights with zeta; the
    other of covariances/precisions is then re-derived by a matrix inverse
    outside the model. */
module PriorBlend {
  import opened Results
  import opened Numeric
  import opened Permutations
  import opened Mixture
  import opened Ordering
  import opened Estimation

  /** The prior strengths: kappa (one row of feature strengths per
      component), nu (one per component), zeta (shaped like the reference
      weights). */
  datatype Priors = Priors(zeta: Weights, nu: seq<real>, kappa: Matrix)

  // ---------------------------------------------------------------------
  // The scalar blend

  /** (1 / (a + b)) * (a * x + b * y): x pulled towards y with strength b
      against a. */
  function BlendValue(a: real, x: real, b: real, y: real): real
    requires a + b != 0.0
  {
    (1.0 / (a + b)) * (a * x + b * y)
  }

  /** With non-negative strengths the blend lies between its two ends. */
  lemma BlendBetween(a: real, x: real, b: real, y: real)
    requires 0.0 <= a && 0.0 <= b && a + b != 0.0
    ensures Min(x, y) <= BlendValue(a, x, b, y) <= Max(x, y)
  {
    var s := a + b;
    var t := a * x + b * y;
    assert BlendValue(a, x, b, y) == t / s;
    assert t - s * x == b * (y - x);
    assert t - s * y == a * (x - y);
    if x <= y {
      assert 0.0 <= b * (y - x) && 0.0 <= a * (y - x);
      RatioBetween(t, s, x, y);
    } else {
      assert 0.0 <= b * (x - y) && 0.0 <= a * (x - y);
      RatioBetween(t, s, y, x);
    }
  }

  /** The distance to the reference shrinks by the factor a / (a + b). */
  lemma BlendContracts(a: real, x: real, b: real, y: real)
    requires a + b != 0.0
    ensures BlendValue(a, x, b, y) - y == (a / (a + b)) * (x - y)
  {
    var s := a + b;
    assert BlendValue(a, x, b, y) == (a * x + b * y) / s;
    assert y == (a * y + b * y) / s;
    assert (a * x + b * y) / s - (a * y + b * y) / s == (a * x - a * y) / s;
  }

  /** Without prior strength the value is kept. */
  lemma BlendWithoutPrior(a: real, x: real, y: real)
    requires a != 0.0
    ensures BlendValue(a, x, 0.0, y) == x
  {
    BlendContracts(a, x, 0.0, y);
  }

  // ---------------------------------------------------------------------
  // Blocks

  predicate SameShape(x: Block, y: Block) {
    |x| == |y| && forall i :: 0 <= i < |x| ==> |x[i]| == |y[i]|
  }

  predicate SameShapes(xs: seq<Block>, ys: seq<Block>) {
    |xs| == |ys| && forall k :: 0 <= k < |xs| ==> SameShape(xs[k], ys[k])
  }

  /** The scalar blend applied entry by entry to a covariance or precision. */
  function BlendBlock(a: real, x: Block, b: real, y: Block): (r: Block)
    requires a + b != 0.0 && SameShape(x, y)
    ensures SameShape(r, x)
    ensures forall i, j :: 0 <= i < |x| && 0 <= j < |x[i]| ==> r[i][j] == BlendValue(a, x[i][j], b, y[i][j])
  {
    seq(|x|, i requires 0 <= i < |x| =>
      seq(|x[i]|, j requires 0 <= j < |x[i]| => BlendValue(a, x[i][j], b, y[i][j])))
  }

  /** Without prior strength a block is kept. */
  lemma BlockWithoutPrior(a: real, x: Block, y: Block)
    requires a != 0.0 && SameShape(x, y)
    ensures BlendBlock(a, x, 0.0, y) == x
  {
    var r := BlendBlock(a, x, 0.0, y);
    forall i | 0 <= i < |x|
      ensures r[i] == x[i]
    {
      forall j | 0 <= j < |x[i]|
        ensures r[i][j] == x[i][j]
      {
        BlendWithoutPrior(a, x[i][j], y[i][j]);
      }
    }
  }

  /** `block += smu`: numpy broadcasting adds smu[f] to column f of every
      row. */
  function AddToRows(x: Block, v: seq<real>): (r: Block)
    requires forall i :: 0 <= i < |x| ==> |x[i]| == |v|
    ensures SameShape(r, x)
  {
    seq(|x|, i requires 0 <= i < |x| => seq(|v|, j requires 0 <= j < |v| => x[i][j] + v[j]))
  }

  /** The "full" prior's covariance shift of one component, computed from
      the means before they are blended:
      (kappa * w) * (ref - mean)^2 / (kappa + w) / (w + rw * nu). */
  function MeanShift(w: real, rw: real, nu: real, kappa: seq<real>, mean: seq<real>, refMean: seq<real>): (smu: seq<real>)
    requires |kappa| == |mean| && |refMean| == |mean|
    requires w + rw * nu != 0.0
    requires forall f :: 0 <= f < |mean| ==> kappa[f] + w != 0.0
    ensures |smu| == |mean|
  {
    seq(|mean|, f requires 0 <= f < |mean| =>
      ((kappa[f] * w) * ((refMean[f] - mean[f]) * (refMean[f] - mean[f])) / (kappa[f] + w)) * (1.0 / (w + rw * nu)))
  }

  /** With non-negative strengths and a positive weight the shift only
      ever widens the covariance. */
  lemma MeanShiftNonNegative(w: real, rw: real, nu: real, kappa: seq<real>, mean: seq<real>, refMean: seq<real>)
    requires |kappa| == |mean| && |refMean| == |mean|
    requires 0.0 < w && 0.0 <= rw && 0.0 <= nu
    requires forall f :: 0 <= f < |mean| ==> 0.0 <= kappa[f]
    ensures forall f :: 0 <= f < |mean| ==> 0.0 <= MeanShift(w, rw, nu, kappa, mean, refMean)[f]
  {
    var smu := MeanShift(w, rw, nu, kappa, mean, refMean);
    forall f | 0 <= f < |mean|
      ensures 0.0 <= smu[f]
    {
      var gap := refMean[f] - mean[f];
      ScaleMonotone(w, 0.0, kappa[f]);
      ScaleMonotone(gap * gap, 0.0, kappa[f] * w);
      var q := ((kappa[f] * w) * (gap * gap)) / (kappa[f] + w);
      QuotientNonNegative((kappa[f] * w) * (gap * gap), kappa[f] + w);
      ScaleMonotone(nu, 0.0, rw);
      var inv := 1.0 / (w + rw * nu);
      QuotientNonNegative(1.0, w + rw * nu);
      assert smu[f] == q * inv;
      ScaleMonotone(inv, 0.0, q);
    }
  }

  lemma QuotientNonNegative(a: real, b: real)
    requires 0.0 <= a && 0.0 < b
    ensures 0.0 <= a / b
  {
  }

  // ---------------------------------------------------------------------
  // Weights

  /** One weight per component: the weights themselves, or the
      volume-weighted column sums of spatially varying weights divided by
      their grand total. */
  function AggregateWeights(w: Weights, vol: seq<real>, k: nat): (r: Result<seq<real>>)
    requires WeightsShaped(w, k)
    ensures w.PerCluster? ==> r == Ok(w.w)
    ensures w.PerSample? ==> (r.Ok? <==> |vol| == |w.rows| && Sum(RowSums(RespVol(vol, w.rows, k))) != 0.0)
    ensures w.PerSample? && |vol| != |w.rows| ==> r == Err(ShapeMismatch)
    ensures r.Ok? ==> |r.value| == k
  {
    match w
    case PerCluster(v) => Ok(v)
    case PerSample(rows) =>
      if |vol| != |rows| then Err(ShapeMismatch)
      else
        var vw := RespVol(vol, rows, k);
        var total := Sum(RowSums(vw));
        if total == 0.0 then Err(NonFinite)
        else Ok(seq(k, c requires 0 <= c < k => Sum(Column(vw, c)) / total))
  }

  /** Aggregated spatial weights always sum to 1. */
  lemma AggregatedWeightsSumToOne(w: Weights, vol: seq<real>, k: nat)
    requires WeightsShaped(w, k) && w.PerSample?
    requires AggregateWeights(w, vol, k).Ok?
    ensures Sum(AggregateWeights(w, vol, k).value) == 1.0
  {
    var vw := RespVol(vol, w.rows, k);
    var total := Sum(RowSums(vw));
    var r := AggregateWeights(w, vol, k).value;
    SumExchange(vw, k);
    SumScale(ColumnSums(vw, k), r, 1.0 / total);
  }

  /** One row of the weight blend, (w + zr) / (1 + sum(zr)), where zr is
      zeta times the reference weights. */
  function BlendRow(w: seq<real>, zr: seq<real>): (r: seq<real>)
    requires |zr| == |w| && 1.0 + Sum(zr) != 0.0
    ensures |r| == |w|
  {
    seq(|w|, c requires 0 <= c < |w| => (w[c] + zr[c]) * (1.0 / (1.0 + Sum(zr))))
  }

  /** A row that sums to 1 still sums to 1 after the blend, whatever the
      reference and the strength. */
  lemma BlendRowSumsToOne(w: seq<real>, zr: seq<real>)
    requires |zr| == |w| && 1.0 + Sum(zr) != 0.0
    requires Sum(w) == 1.0
    ensures Sum(BlendRow(w, zr)) == 1.0
  {
    var s := 1.0 / (1.0 + Sum(zr));
    SumLinear(w, zr, BlendRow(w, zr), s, s);
    assert s * Sum(w) + s * Sum(zr) == s * (1.0 + Sum(zr));
  }

  /** Without strength the blend keeps the row. */
  lemma {:induction false} BlendRowWithoutPrior(w: seq<real>, zr: seq<real>)
    requires |zr| == |w|
    requires forall c :: 0 <= c < |zr| ==> zr[c] == 0.0
    ensures 1.0 + Sum(zr) != 0.0 && BlendRow(w, zr) == w
  {
    SumConstant(zr, 0.0);
    var r := BlendRow(w, zr);
    forall c | 0 <= c < |w|
      ensures r[c] == w[c]
    {
      assert r[c] == (w[c] + 0.0) * (1.0 / (1.0 + 0.0));
    }
  }

  /** zeta and the reference weights have the same shape. */
  predicate ZetaShaped(zeta: Weights, wref: Weights) {
    match (zeta, wref)
    case (PerCluster(z), PerCluster(v)) => |z| == |v|
    case (PerSample(z), PerSample(v)) => |z| == |v| && forall s :: 0 <= s < |v| ==> |z[s]| == |v[s]|
    case _ => false
  }

  /** zeta * wref for sample s (the single row for per-cluster weights). */
  function ZetaRow(zeta: Weights, wref: Weights, s: nat): (zr: seq<real>)
    requires ZetaShaped(zeta, wref)
    requires wref.PerSample? ==> s < |wref.rows|
    ensures wref.PerCluster? ==> |zr| == |wref.w|
    ensures wref.PerSample? ==> |zr| == |wref.rows[s]|
  {
    if wref.PerCluster? then Products(zeta.w, wref.w) else Products(zeta.rows[s], wref.rows[s])
  }

  /** The weights of sample s (the single row for per-cluster weights). */
  function RowOf(w: Weights, s: nat): seq<real>
    requires w.PerSample? ==> s < |w.rows|
  {
    if w.PerCluster? then w.w else w.rows[s]
  }

  /** The number of sample rows the blend produces: per-cluster weights on
      both sides stay a single row; otherwise numpy broadcasts to the rows
      of the spatial side, and two spatial sides must agree. */
  function BlendedRows(w: Weights, wref: Weights): nat {
    if wref.PerSample? then |wref.rows| else if w.PerSample? then |w.rows| else 1
  }

  predicate RowsCompatible(w: Weights, wref: Weights) {
    w.PerSample? && wref.PerSample? ==> |w.rows| == |wref.rows|
  }

  /** The weight blend `((w + zeta * wref).T * (1 / (1 + sum((zeta * wref).T, axis=0)))).T`,
      row by row. */
  function BlendWeights(w: Weights, zeta: Weights, wref: Weights, k: nat): (r: Result<Weights>)
    requires WeightsShaped(w, k) && WeightsShaped(wref, k)
    ensures r.Ok? <==> ZetaShaped(zeta, wref) && RowsCompatible(w, wref)
                       && forall s :: 0 <= s < BlendedRows(w, wref) ==> 1.0 + Sum(ZetaRow(zeta, wref, s)) != 0.0
    ensures !ZetaShaped(zeta, wref) || !RowsCompatible(w, wref) ==> r == Err(ShapeMismatch)
    ensures r.Ok? ==> WeightsShaped(r.value, k)
    ensures r.Ok? ==> (r.value.PerCluster? <==> w.PerCluster? && wref.PerCluster?)
    ensures r.Ok? && r.value.PerCluster? ==> r.value.w == BlendRow(w.w, ZetaRow(zeta, wref, 0))
    ensures r.Ok? && r.value.PerSample? ==> |r.value.rows| == BlendedRows(w, wref)
    ensures r.Ok? && r.value.PerSample? ==> forall s :: 0 <= s < |r.value.rows| ==>
              r.value.rows[s] == BlendRow(RowOf(w, s), ZetaRow(zeta, wref, s))
  {
    if !ZetaShaped(zeta, wref) || !RowsCompatible(w, wref) then Err(ShapeMismatch)
    else
      var n := BlendedRows(w, wref);
      if exists s :: 0 <= s < n && 1.0 + Sum(ZetaRow(zeta, wref, s)) == 0.0 then Err(NonFinite)
      else if w.PerCluster? && wref.PerCluster? then
        Ok(PerCluster(BlendRow(w.w, ZetaRow(zeta, wref, 0))))
      else
        Ok(PerSample(seq(n, s requires 0 <= s < n => BlendRow(RowOf(w, s), ZetaRow(zeta, wref, s)))))
  }

  /** Every weight row sums to exactly 1. */
  predicate RowsSumToOne(w: Weights) {
    match w
    case PerCluster(v) => Sum(v) == 1.0
    case PerSample(rows) => forall s :: 0 <= s < |rows| ==> Sum(rows[s]) == 1.0
  }

  /** Blending keeps every row normalised; the reference weights need not
      be normalised. */
  lemma BlendedWeightsSumToOne(w: Weights, zeta: Weights, wref: Weights, k: nat)
    requires WeightsShaped(w, k) && WeightsShaped(wref, k)
    requires BlendWeights(w, zeta, wref, k).Ok?
    requires RowsSumToOne(w)
    ensures RowsSumToOne(BlendWeights(w, zeta, wref, k).value)
  {
    var r := BlendWeights(w, zeta, wref, k).value;
    if r.PerCluster? {
      BlendRowSumsToOne(w.w, ZetaRow(zeta, wref, 0));
    } else {
      forall s | 0 <= s < |r.rows|
        ensures Sum(r.rows[s]) == 1.0
      {
        BlendRowSumsToOne(RowOf(w, s), ZetaRow(zeta, wref, s));
      }
    }
  }

  /** zeta = 0 keeps the weights, unless numpy broadcasts per-cluster
      weights against spatial reference weights, which turns them into
      one identical row per sample. */
  lemma ZeroZetaKeepsWeights(w: Weights, zeta: Weights, wref: Weights, k: nat)
    requires WeightsShaped(w, k) && WeightsShaped(wref, k)
    requires ZetaShaped(zeta, wref) && RowsCompatible(w, wref)
    requires zeta.PerCluster? ==> forall c :: 0 <= c < |zeta.w| ==> zeta.w[c] == 0.0
    requires zeta.PerSample? ==> forall s, c :: 0 <= s < |zeta.rows| && 0 <= c < |zeta.rows[s]| ==> zeta.rows[s][c] == 0.0
    ensures BlendWeights(w, zeta, wref, k).Ok?
    ensures w.PerSample? || wref.PerCluster? ==> BlendWeights(w, zeta, wref, k).value == w
    ensures w.PerCluster? && wref.PerSample? ==>
              BlendWeights(w, zeta, wref, k).value == PerSample(seq(|wref.rows|, s => w.w))
  {
    forall s | 0 <= s < BlendedRows(w, wref)
      ensures 1.0 + Sum(ZetaRow(zeta, wref, s)) != 0.0
      ensures BlendRow(RowOf(w, s), ZetaRow(zeta, wref, s)) == RowOf(w, s)
    {
      BlendRowWithoutPrior(RowOf(w, s), ZetaRow(zeta, wref, s));
    }
    var r := BlendWeights(w, zeta, wref, k).value;
    if r.PerSample? {
      assert r.rows == seq(BlendedRows(w, wref), s requires 0 <= s < BlendedRows(w, wref) => RowOf(w, s));
    } else {
      BlendRowWithoutPrior(w.w, ZetaRow(zeta, wref, 0));
    }
  }

  // ---------------------------------------------------------------------
  // The update

  /** `compute_clusters_precision`: every precision block re-derived from
      its covariance block by the foreign inverse (and vice versa for
      `computeCovariance`). */
  function InvertAll(covType: CovType, blocks: seq<Block>, invert: (CovType, Block) -> Block): (r: seq<Block>)
    ensures |r| == |blocks|
  {
    seq(|blocks|, k requires 0 <= k < |blocks| => invert(covType, blocks[k]))
  }

  /** The mixture the blend starts from: precisions re-derived from the
      covariances, then the components relabelled to line up with the
      reference. */
  function Prepared(g: Gmm, refMeans: Matrix, invert: (CovType, Block) -> Block,
                    score: (Gmm, nat, seq<real>) -> real): (r: Result<(Gmm, seq<nat>)>)
    requires g.WellFormed()
    ensures r.Ok? ==> r.value.0.WellFormed() && r.value.0.K() == g.K() && r.value.0.covType == g.covType
    ensures g.K() == |refMeans| ==> r.Ok?
  {
    var g0 := g.(precisions := InvertAll(g.covType, g.covariances, invert));
    OrderCluster(g0, refMeans, score)
  }

  /** The blocks the update blends: covariances when `update_covariances`
      is set, precisions otherwise. */
  function Side(g: Gmm, updateCovariances: bool): seq<Block> {
    if updateCovariances then g.covariances else g.precisions
  }

  /** Every shape the blend needs to line up: kappa has a row per component
      as wide as its mean, mean widths agree with the reference, nu has an
      entry per component, and the blocks that get blended (plus the shifted
      rows of the "full" prior) agree with the reference blocks. */
  predicate ShapesAlign(g1: Gmm, gref: Gmm, pri: Priors, updateCovariances: bool, fullPrior: bool)
    requires g1.WellFormed() && gref.WellFormed() && g1.K() == gref.K() && g1.covType == gref.covType
  {
    && |pri.kappa| == g1.K() && |pri.nu| == g1.K()
    && (forall k :: 0 <= k < g1.K() ==> |g1.means[k]| == |gref.means[k]| && |pri.kappa[k]| == |g1.means[k]|)
    && SameShapes(Side(g1, updateCovariances), Side(gref, updateCovariances))
    && (updateCovariances && fullPrior && g1.covType != Tied ==>
          forall k, i :: 0 <= k < g1.K() && 0 <= i < |g1.covariances[k]| ==> |g1.covariances[k][i]| == |g1.means[k]|)
  }

  /** No blend divides by zero. */
  predicate Finite(g1: Gmm, w: seq<real>, rw: seq<real>, pri: Priors, updateCovariances: bool, fullPrior: bool)
    requires |w| == g1.K() && |rw| == g1.K() && |pri.kappa| == g1.K() && |pri.nu| == g1.K()
    requires forall k :: 0 <= k < g1.K() ==> |pri.kappa[k]| == |g1.means[k]|
  {
    && (forall k, f :: 0 <= k < g1.K() && 0 <= f < |g1.means[k]| ==> w[k] + rw[k] * pri.kappa[k][f] != 0.0)
    && (g1.covType == Tied ==> 1.0 + Sum(Products(rw, pri.nu)) != 0.0)
    && (g1.covType != Tied ==> forall k :: 0 <= k < g1.K() ==> w[k] + rw[k] * pri.nu[k] != 0.0)
    && (g1.covType != Tied && updateCovariances && fullPrior ==>
          forall k, f :: 0 <= k < g1.K() && 0 <= f < |g1.means[k]| ==> pri.kappa[k][f] + w[k] != 0.0)
  }

  /** Everything the blend of the relabelled mixture g1 needs: aligned
      shapes, both sets of weights aggregated, the weight blend defined,
      and no zero denominator. */
  predicate Admissible(g1: Gmm, gref: Gmm, vol: seq<real>, refVol: seq<real>, pri: Priors,
                       updateCovariances: bool, fullPrior: bool)
    requires g1.WellFormed() && gref.WellFormed() && g1.K() == gref.K() && g1.covType == gref.covType
  {
    && ShapesAlign(g1, gref, pri, updateCovariances, fullPrior)
    && AggregateWeights(g1.weights, vol, g1.K()).Ok?
    && AggregateWeights(gref.weights, refVol, g1.K()).Ok?
    && BlendWeights(g1.weights, pri.zeta, gref.weights, g1.K()).Ok?
    && Finite(g1, AggregateWeights(g1.weights, vol, g1.K()).value, AggregateWeights(gref.weights, refVol, g1.K()).value,
              pri, updateCovariances, fullPrior)
  }

  /** The relabelled mixture, the aggregated weights of both mixtures, and
      the blended mixing weights. */
  datatype BlendInputs = BlendInputs(fitted: Gmm, w: seq<real>, rw: seq<real>, weights: Weights)

  /** The first half of the update: precisions re-derived, components
      relabelled, shapes checked, weights aggregated and blended. Component
      counts that differ make numpy's broadcasting fail. */
  function CheckedInputs(g: Gmm, gref: Gmm, vol: seq<real>, refVol: seq<real>, pri: Priors,
                         updateCovariances: bool, fullPrior: bool,
                         invert: (CovType, Block) -> Block, score: (Gmm, nat, seq<real>) -> real)
    : (r: Result<BlendInputs>)
    requires g.WellFormed() && gref.WellFormed() && g.covType == gref.covType
    ensures g.K() != gref.K() ==> r == Err(ShapeMismatch)
    ensures g.K() == gref.K() ==> Prepared(g, gref.means, invert, score).Ok?
    ensures r.Ok? <==> g.K() == gref.K()
                       && Admissible(Prepared(g, gref.means, invert, score).value.0, gref, vol, refVol, pri,
                                     updateCovariances, fullPrior)
    ensures g.K() == gref.K()
            && !ShapesAlign(Prepared(g, gref.means, invert, score).value.0, gref, pri, updateCovariances, fullPrior)
            ==> r == Err(ShapeMismatch)
    ensures r.Ok? ==> r.value.fitted == Prepared(g, gref.means, invert, score).value.0
    ensures r.Ok? ==> && r.value.fitted.WellFormed() && r.value.fitted.K() == g.K() && r.value.fitted.covType == g.covType
                      && ShapesAlign(r.value.fitted, gref, pri, updateCovariances, fullPrior)
                      && |r.value.w| == g.K() && |r.value.rw| == g.K()
                      && Finite(r.value.fitted, r.value.w, r.value.rw, pri, updateCovariances, fullPrior)
                      && WeightsShaped(r.value.weights, g.K())
    ensures r.Ok? ==> r.value.w == AggregateWeights(r.value.fitted.weights, vol, g.K()).value
    ensures r.Ok? ==> r.value.rw == AggregateWeights(gref.weights, refVol, g.K()).value
    ensures r.Ok? ==> r.value.weights == BlendWeights(r.value.fitted.weights, pri.zeta, gref.weights, g.K()).value
  {
    if g.K() != gref.K() then Err(ShapeMismatch)
    else
      var g1 := Prepared(g, gref.means, invert, score).value.0;
      if !ShapesAlign(g1, gref, pri, updateCovariances, fullPrior) then Err(ShapeMismatch)
      else
        var w :- AggregateWeights(g1.weights, vol, g.K());
        var rw :- AggregateWeights(gref.weights, refVol, g.K());
        var weights :- BlendWeights(g1.weights, pri.zeta, gref.weights, g.K());
        if !Finite(g1, w, rw, pri, updateCovariances, fullPrior) then Err(NonFinite)
        else Ok(BlendInputs(g1, w, rw, weights))
  }

  /** The blended means: mean[k][f] pulled towards the reference with
      strength rw[k] * kappa[k][f] against w[k]. */
  function BlendMeans(means: Matrix, refMeans: Matrix, w: seq<real>, rw: seq<real>, kappa: Matrix): (r: Matrix)
    requires |refMeans| == |means| && |w| == |means| && |rw| == |means| && |kappa| == |means|
    requires forall k :: 0 <= k < |means| ==> |refMeans[k]| == |means[k]| && |kappa[k]| == |means[k]|
    requires forall k, f :: 0 <= k < |means| && 0 <= f < |means[k]| ==> w[k] + rw[k] * kappa[k][f] != 0.0
    ensures |r| == |means| && forall k :: 0 <= k < |means| ==> |r[k]| == |means[k]|
    ensures forall k, f :: 0 <= k < |means| && 0 <= f < |means[k]| ==>
              r[k][f] == BlendValue(w[k], means[k][f], rw[k] * kappa[k][f], refMeans[k][f])
  {
    var r := seq(|means|, k requires 0 <= k < |means| => BlendMeanRow(means[k], refMeans[k], w[k], Scale(rw[k], kappa[k])));
    assert forall k, f :: 0 <= k < |means| && 0 <= f < |means[k]| ==>
             r[k][f] == BlendValue(w[k], means[k][f], rw[k] * kappa[k][f], refMeans[k][f]) by {
      forall k, f | 0 <= k < |means| && 0 <= f < |means[k]|
        ensures r[k][f] == BlendValue(w[k], means[k][f], rw[k] * kappa[k][f], refMeans[k][f])
      {
        assert r[k] == BlendMeanRow(means[k], refMeans[k], w[k], Scale(rw[k], kappa[k]));
      }
    }
    r
  }

  /** The means of the relabelled mixture g1 blended towards the reference. */
  function MixtureMeans(g1: Gmm, gref: Gmm, w: seq<real>, rw: seq<real>, pri: Priors, updateCovariances: bool, fullPrior: bool)
    : (r: Matrix)
    requires g1.WellFormed() && gref.WellFormed() && g1.K() == gref.K() && g1.covType == gref.covType
    requires ShapesAlign(g1, gref, pri, updateCovariances, fullPrior)
    requires |w| == g1.K() && |rw| == g1.K()
    requires Finite(g1, w, rw, pri, updateCovariances, fullPrior)
    ensures |r| == g1.K() && forall k :: 0 <= k < g1.K() ==> |r[k]| == |g1.means[k]|
    ensures forall k, f :: 0 <= k < g1.K() && 0 <= f < |g1.means[k]| ==>
              r[k][f] == BlendValue(w[k], g1.means[k][f], rw[k] * pri.kappa[k][f], gref.means[k][f])
  {
    BlendMeans(g1.means, gref.means, w, rw, pri.kappa)
  }

  /** One mean row blended feature by feature, strength[f] against w. */
  function BlendMeanRow(mean: seq<real>, refMean: seq<real>, w: real, strength: seq<real>): (r: seq<real>)
    requires |refMean| == |mean| && |strength| == |mean|
    requires forall f :: 0 <= f < |mean| ==> w + strength[f] != 0.0
    ensures |r| == |mean|
    ensures forall f :: 0 <= f < |mean| ==> r[f] == BlendValue(w, mean[f], strength[f], refMean[f])
  {
    seq(|mean|, f requires 0 <= f < |mean| => BlendValue(w, mean[f], strength[f], refMean[f]))
  }

  function Scale(c: real, v: seq<real>): (r: seq<real>)
    ensures |r| == |v| && forall i :: 0 <= i < |v| ==> r[i] == c * v[i]
  {
    seq(|v|, i requires 0 <= i < |v| => c * v[i])
  }

  /** The blended per-component blocks, each shifted by the "full" prior's
      mean shift when there is one. */
  function BlendComponents(blocks: seq<Block>, refBlocks: seq<Block>, w: seq<real>, rw: seq<real>, nu: seq<real>,
                           shift: seq<seq<real>>, shifted: bool): (r: seq<Block>)
    requires SameShapes(blocks, refBlocks) && |w| == |blocks| && |rw| == |blocks| && |nu| == |blocks|
    requires forall k :: 0 <= k < |blocks| ==> w[k] + rw[k] * nu[k] != 0.0
    requires shifted ==> (|shift| == |blocks| &&
               forall k, i :: 0 <= k < |blocks| && 0 <= i < |blocks[k]| ==> |blocks[k][i]| == |shift[k]|)
    ensures |r| == |blocks|
    ensures !shifted ==> forall k :: 0 <= k < |blocks| ==> r[k] == BlendBlock(w[k], blocks[k], rw[k] * nu[k], refBlocks[k])
  {
    var r := seq(|blocks|, k requires 0 <= k < |blocks| => BlendComponent(blocks, refBlocks, w, rw, nu, shift, shifted, k));
    assert !shifted ==> forall k :: 0 <= k < |blocks| ==> r[k] == BlendBlock(w[k], blocks[k], rw[k] * nu[k], refBlocks[k]) by {
      if !shifted {
        forall k | 0 <= k < |blocks|
          ensures r[k] == BlendBlock(w[k], blocks[k], rw[k] * nu[k], refBlocks[k])
        {
          assert r[k] == BlendComponent(blocks, refBlocks, w, rw, nu, shift, shifted, k);
        }
      }
    }
    r
  }

  function BlendComponent(blocks: seq<Block>, refBlocks: seq<Block>, w: seq<real>, rw: seq<real>, nu: seq<real>,
                          shift: seq<seq<real>>, shifted: bool, k: nat): (r: Block)
    requires SameShapes(blocks, refBlocks) && |w| == |blocks| && |rw| == |blocks| && |nu| == |blocks|
    requires k < |blocks| && w[k] + rw[k] * nu[k] != 0.0
    requires shifted ==> (|shift| == |blocks| &&
               forall i :: 0 <= i < |blocks[k]| ==> |blocks[k][i]| == |shift[k]|)
    ensures !shifted ==> r == BlendBlock(w[k], blocks[k], rw[k] * nu[k], refBlocks[k])
  {
    var b := BlendBlock(w[k], blocks[k], rw[k] * nu[k], refBlocks[k]);
    if shifted then AddToRows(b, shift[k]) else b
  }

  /** The blended blocks: a tied block once with the total strength
      sum(rw * nu) against 1, per-component blocks each with their own. */
  function BlendBlocks(g1: Gmm, gref: Gmm, w: seq<real>, rw: seq<real>, pri: Priors, updateCovariances: bool, fullPrior: bool)
    : (r: seq<Block>)
    requires g1.WellFormed() && gref.WellFormed() && g1.K() == gref.K() && g1.covType == gref.covType
    requires ShapesAlign(g1, gref, pri, updateCovariances, fullPrior)
    requires |w| == g1.K() && |rw| == g1.K()
    requires Finite(g1, w, rw, pri, updateCovariances, fullPrior)
    ensures |r| == |Side(g1, updateCovariances)|
  {
    var blocks := Side(g1, updateCovariances);
    var refBlocks := Side(gref, updateCovariances);
    if g1.covType == Tied then
      [BlendBlock(1.0, blocks[0], Sum(Products(rw, pri.nu)), refBlocks[0])]
    else
      var shifted := updateCovariances && fullPrior;
      var shift := if shifted then
                     seq(g1.K(), k requires 0 <= k < g1.K() =>
                       MeanShift(w[k], rw[k], pri.nu[k], pri.kappa[k], g1.means[k], gref.means[k]))
                   else [];
      BlendComponents(blocks, refBlocks, w, rw, pri.nu, shift, shifted)
  }

  /** nu = 0 keeps the blended blocks, unless the "full" prior shifts the
      covariances. */
  lemma BlendBlocksWithoutPrior(g1: Gmm, gref: Gmm, w: seq<real>, rw: seq<real>, pri: Priors,
                                updateCovariances: bool, fullPrior: bool)
    requires g1.WellFormed() && gref.WellFormed() && g1.K() == gref.K() && g1.covType == gref.covType
    requires ShapesAlign(g1, gref, pri, updateCovariances, fullPrior)
    requires |w| == g1.K() && |rw| == g1.K()
    requires Finite(g1, w, rw, pri, updateCovariances, fullPrior)
    requires forall k :: 0 <= k < |pri.nu| ==> pri.nu[k] == 0.0
    requires g1.covType == Tied || !(updateCovariances && fullPrior)
    ensures BlendBlocks(g1, gref, w, rw, pri, updateCovariances, fullPrior) == Side(g1, updateCovariances)
  {
    var blocks := Side(g1, updateCovariances);
    var refBlocks := Side(gref, updateCovariances);
    var r := BlendBlocks(g1, gref, w, rw, pri, updateCovariances, fullPrior);
    if g1.covType == Tied {
      SumConstant(Products(rw, pri.nu), 0.0);
      BlockWithoutPrior(1.0, blocks[0], refBlocks[0]);
    } else {
      forall k | 0 <= k < |blocks|
        ensures r[k] == blocks[k]
      {
        assert rw[k] * pri.nu[k] == 0.0;
        BlockWithoutPrior(w[k], blocks[k], refBlocks[k]);
      }
    }
  }

  /** `update_gmm_with_priors` (with the corrected `order_cluster`). The
      reference's covariance family is the mixture's own, as the
      constructor of the prior mixture makes it. `vol` and `refVol` are the
      cell volumes of the two mixtures; `invert` is the foreign Cholesky-based
      inverse of one block; `score` is the foreign log-density. The blended
      side (covariances when `update_covariances`, else precisions) is kept
      and the other side re-derived from it. */
  function UpdateWithPriors(g: Gmm, gref: Gmm, vol: seq<real>, refVol: seq<real>, pri: Priors,
                            updateCovariances: bool, priorType: string,
                            invert: (CovType, Block) -> Block, score: (Gmm, nat, seq<real>) -> real)
    : (r: Result<Gmm>)
    requires g.WellFormed() && gref.WellFormed() && g.covType == gref.covType
    ensures g.K() != gref.K() ==> r == Err(ShapeMismatch)
    ensures r.Ok? <==> CheckedInputs(g, gref, vol, refVol, pri, updateCovariances, priorType == "full", invert, score).Ok?
    ensures r.Ok? ==> r.value.WellFormed() && r.value.K() == g.K() && r.value.covType == g.covType
    ensures r.Ok? ==>
              var inp := CheckedInputs(g, gref, vol, refVol, pri, updateCovariances, priorType == "full", invert, score).value;
              && r.value.weights == inp.weights
              && r.value.means == MixtureMeans(inp.fitted, gref, inp.w, inp.rw, pri, updateCovariances, priorType == "full")
              && Side(r.value, updateCovariances)
                 == BlendBlocks(inp.fitted, gref, inp.w, inp.rw, pri, updateCovariances, priorType == "full")
    ensures r.Ok? ==> Side(r.value, !updateCovariances) == InvertAll(g.covType, Side(r.value, updateCovariances), invert)
  {
    var inp :- CheckedInputs(g, gref, vol, refVol, pri, updateCovariances, priorType == "full", invert, score);
    var g1 := inp.fitted;
    var blended := BlendBlocks(g1, gref, inp.w, inp.rw, pri, updateCovariances, priorType == "full");
    var rederived := InvertAll(g.covType, blended, invert);
    var means := MixtureMeans(g1, gref, inp.w, inp.rw, pri, updateCovariances, priorType == "full");
    if updateCovariances then Ok(Gmm(g.covType, inp.weights, means, blended, rederived))
    else Ok(Gmm(g.covType, inp.weights, means, rederived, blended))
  }

  /** kappa = 0 keeps every (relabelled) mean. */
  lemma ZeroKappaKeepsMeans(g: Gmm, gref: Gmm, vol: seq<real>, refVol: seq<real>, pri: Priors,
                            updateCovariances: bool, priorType: string,
                            invert: (CovType, Block) -> Block, score: (Gmm, nat, seq<real>) -> real)
    requires g.WellFormed() && gref.WellFormed() && g.covType == gref.covType
    requires UpdateWithPriors(g, gref, vol, refVol, pri, updateCovariances, priorType, invert, score).Ok?
    requires forall k, f :: 0 <= k < |pri.kappa| && 0 <= f < |pri.kappa[k]| ==> pri.kappa[k][f] == 0.0
    ensures UpdateWithPriors(g, gref, vol, refVol, pri, updateCovariances, priorType, invert, score).value.means
            == Prepared(g, gref.means, invert, score).value.0.means
  {
    var fullPrior := priorType == "full";
    var inp := CheckedInputs(g, gref, vol, refVol, pri, updateCovariances, fullPrior, invert, score).value;
    var g1 := inp.fitted;
    var m := MixtureMeans(g1, gref, inp.w, inp.rw, pri, updateCovariances, fullPrior);
    assert UpdateWithPriors(g, gref, vol, refVol, pri, updateCovariances, priorType, invert, score).value.means == m;
    assert g1 == Prepared(g, gref.means, invert, score).value.0;
    MeansWithoutKappa(g1, gref, inp.w, inp.rw, pri, updateCovariances, fullPrior);
  }

  lemma MeansWithoutKappa(g1: Gmm, gref: Gmm, w: seq<real>, rw: seq<real>, pri: Priors, updateCovariances: bool, fullPrior: bool)
    requires g1.WellFormed() && gref.WellFormed() && g1.K() == gref.K() && g1.covType == gref.covType
    requires ShapesAlign(g1, gref, pri, updateCovariances, fullPrior)
    requires |w| == g1.K() && |rw| == g1.K()
    requires Finite(g1, w, rw, pri, updateCovariances, fullPrior)
    requires forall k, f :: 0 <= k < |pri.kappa| && 0 <= f < |pri.kappa[k]| ==> pri.kappa[k][f] == 0.0
    ensures MixtureMeans(g1, gref, w, rw, pri, updateCovariances, fullPrior) == g1.means
  {
    var m := MixtureMeans(g1, gref, w, rw, pri, updateCovariances, fullPrior);
    forall k | 0 <= k < |m|
      ensures m[k] == g1.means[k]
    {
      forall f | 0 <= f < |m[k]|
        ensures m[k][f] == g1.means[k][f]
      {
        assert rw[k] * pri.kappa[k][f] == 0.0;
        BlendWithoutPrior(w[k], g1.means[k][f], gref.means[k][f]);
      }
    }
  }

  /** nu = 0 keeps the blended side of every block, unless the "full" prior
      shifts per-component covariances. */
  lemma ZeroNuKeepsBlocks(g: Gmm, gref: Gmm, vol: seq<real>, refVol: seq<real>, pri: Priors,
                          updateCovariances: bool, priorType: string,
                          invert: (CovType, Block) -> Block, score: (Gmm, nat, seq<real>) -> real)
    requires g.WellFormed() && gref.WellFormed() && g.covType == gref.covType
    requires UpdateWithPriors(g, gref, vol, refVol, pri, updateCovariances, priorType, invert, score).Ok?
    requires forall k :: 0 <= k < |pri.nu| ==> pri.nu[k] == 0.0
    requires g.covType == Tied || !(updateCovariances && priorType == "full")
    ensures Side(UpdateWithPriors(g, gref, vol, refVol, pri, updateCovariances, priorType, invert, score).value, updateCovariances)
            == Side(Prepared(g, gref.means, invert, score).value.0, updateCovariances)
  {
    var inp := CheckedInputs(g, gref, vol, refVol, pri, updateCovariances, priorType == "full", invert, score).value;
    BlendBlocksWithoutPrior(inp.fitted, gref, inp.w, inp.rw, pri, updateCovariances, priorType == "full");
  }

  /** With non-negative aggregated weights and strength, every updated mean
      lies between the (relabelled) fitted mean and the reference mean. */
  lemma UpdatedMeansBetween(g: Gmm, gref: Gmm, vol: seq<real>, refVol: seq<real>, pri: Priors,
                            updateCovariances: bool, priorType: string,
                            invert: (CovType, Block) -> Block, score: (Gmm, nat, seq<real>) -> real,
                            k: nat, f: nat)
    requires g.WellFormed() && gref.WellFormed() && g.covType == gref.covType
    requires UpdateWithPriors(g, gref, vol, refVol, pri, updateCovariances, priorType, invert, score).Ok?
    requires k < g.K() && f < |gref.means[k]|
    requires 0.0 <= pri.kappa[k][f]
    requires 0.0 <= CheckedInputs(g, gref, vol, refVol, pri, updateCovariances, priorType == "full", invert, score).value.w[k]
    requires 0.0 <= CheckedInputs(g, gref, vol, refVol, pri, updateCovariances, priorType == "full", invert, score).value.rw[k]
    ensures Min(Prepared(g, gref.means, invert, score).value.0.means[k][f], gref.means[k][f])
            <= UpdateWithPriors(g, gref, vol, refVol, pri, updateCovariances, priorType, invert, score).value.means[k][f]
            <= Max(Prepared(g, gref.means, invert, score).value.0.means[k][f], gref.means[k][f])
  {
    var fullPrior := priorType == "full";
    var inp := CheckedInputs(g, gref, vol, refVol, pri, updateCovariances, fullPrior, invert, score).value;
    var g1 := inp.fitted;
    var m := MixtureMeans(g1, gref, inp.w, inp.rw, pri, updateCovariances, fullPrior);
    assert UpdateWithPriors(g, gref, vol, refVol, pri, updateCovariances, priorType, invert, score).value.means == m;
    assert g1 == Prepared(g, gref.means, invert, score).value.0;
    MixtureMeanBetween(g1, gref, inp.w, inp.rw, pri, updateCovariances, fullPrior, k, f);
  }

  lemma MixtureMeanBetween(g1: Gmm, gref: Gmm, w: seq<real>, rw: seq<real>, pri: Priors, updateCovariances: bool,
                           fullPrior: bool, k: nat, f: nat)
    requires g1.WellFormed() && gref.WellFormed() && g1.K() == gref.K() && g1.covType == gref.covType
    requires ShapesAlign(g1, gref, pri, updateCovariances, fullPrior)
    requires |w| == g1.K() && |rw| == g1.K()
    requires Finite(g1, w, rw, pri, updateCovariances, fullPrior)
    requires k < g1.K() && f < |g1.means[k]|
    requires 0.0 <= w[k] && 0.0 <= rw[k] && 0.0 <= pri.kappa[k][f]
    ensures Min(g1.means[k][f], gref.means[k][f])
            <= MixtureMeans(g1, gref, w, rw, pri, updateCovariances, fullPrior)[k][f]
            <= Max(g1.means[k][f], gref.means[k][f])
  {
    assert 0.0 <= rw[k] * pri.kappa[k][f];
    BlendBetween(w[k], g1.means[k][f], rw[k] * pri.kappa[k][f], gref.means[k][f]);
  }

  /** The update keeps mixing weights normalised row by row. */
  lemma UpdatedWeightsSumToOne(g: Gmm, gref: Gmm, vol: seq<real>, refVol: seq<real>, pri: Priors,
                               updateCovariances: bool, priorType: string,
                               invert: (CovType, Block) -> Block, score: (Gmm, nat, seq<real>) -> real)
    requires g.WellFormed() && gref.WellFormed() && g.covType == gref.covType
    requires UpdateWithPriors(g, gref, vol, refVol, pri, updateCovariances, priorType, invert, score).Ok?
    requires RowsSumToOne(g.weights)
    ensures RowsSumToOne(UpdateWithPriors(g, gref, vol, refVol, pri, updateCovariances, priorType, invert, score).value.weights)
  {
    var inp := CheckedInputs(g, gref, vol, refVol, pri, updateCovariances, priorType == "full", invert, score).value;
    RelabelKeepsRowSums(g, gref.means, invert, score);
    BlendedWeightsSumToOne(inp.fitted.weights, pri.zeta, gref.weights, g.K());
  }

  /** Relabelling components permutes each weight row, so row sums stay 1. */
  lemma RelabelKeepsRowSums(g: Gmm, refMeans: Matrix, invert: (CovType, Block) -> Block,
                            score: (Gmm, nat, seq<real>) -> real)
    requires g.WellFormed() && Prepared(g, refMeans, invert, score).Ok?
    requires RowsSumToOne(g.weights)
    ensures RowsSumToOne(Prepared(g, refMeans, invert, score).value.0.weights)
  {
    var g0 := g.(precisions := InvertAll(g.covType, g.covariances, invert));
    var (g1, indx) := Prepared(g, refMeans, invert, score).value;
    var (h, p) := OrderByWeight(g0);
    match g.weights
    case PerCluster(v) =>
      SumOfPermuted(v, p);
      assert h.weights.w == Gather(v, p);
      SumOfRelabelled(h.weights.w, g1.weights.w, indx);
    case PerSample(rows) =>
      forall s | 0 <= s < |rows|
        ensures Sum(g1.weights.rows[s]) == 1.0
      {
        SumOfPermuted(rows[s], p);
        assert h.weights.rows[s] == Gather(rows[s], p);
        SumOfRelabelled(h.weights.rows[s], g1.weights.rows[s], indx);
      }
  }

  lemma SumOfPermuted(v: seq<real>, p: seq<nat>)
    requires IsPermutation(p, |v|)
    ensures Sum(Gather(v, p)) == Sum(v)
  {
    SumOfRelabelled(Gather(v, p), v, p);
  }

  /** If after[p[i]] == before[i] for a permutation p, the sums agree. */
  lemma {:induction false} SumOfRelabelled(before: seq<real>, after: seq<real>, p: seq<nat>)
    requires |after| == |before| && IsPermutation(p, |before|)
    requires forall i :: 0 <= i < |p| ==> after[p[i]] == before[i]
    ensures Sum(after) == Sum(before)
    decreases |before|
  {
    var n := |before|;
    if n > 0 {
      var j := p[0];
      var rest := after[..j] + after[j + 1..];
      var q := seq(n - 1, i requires 0 <= i < n - 1 => if p[i + 1] <= j then p[i + 1] else p[i + 1] - 1);
      forall i | 0 <= i < n - 1
        ensures p[i + 1] != j
        ensures q[i] < n - 1 && rest[q[i]] == before[1..][i]
      {
        assert p[i + 1] != p[0];
      }
      forall a, b | 0 <= a < b < n - 1
        ensures q[a] != q[b]
      {
        assert p[a + 1] != p[b + 1];
      }
      SumOfRelabelled(before[1..], rest, q);
      SumRemove(after, j);
    }
  }

  /** Taking entry j out of a sum. */
  lemma {:induction false} SumRemove(s: seq<real>, j: nat)
    requires j < |s|
    ensures Sum(s) == s[j] + Sum(s[..j] + s[j + 1..])
    decreases j
  {
    if j == 0 {
      assert s[..0] + s[1..] == s[1..];
    } else {
      var t := s[1..];
      SumRemove(t, j - 1);
      var u := t[..j - 1] + t[j..];
      assert s[..j] + s[j + 1..] == [s[0]] + u;
      assert ([s[0]] + u)[1..] == u;
    }
  }
}
