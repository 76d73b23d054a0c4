/** The parameter state of a (weighted) Gaussian mixture: mixing weights,
    means, covariances and precisions, for the four covariance families.
    The cached Cholesky factor of the precisions is derived state that a
    foreign routine recomputes from the covariances; it is not stored. */
module Mixture {
  import opened Numeric
  import opened Permutations

  datatype CovType = Full | Tied | Diag | Spherical

  /** One covariance or precision matrix, as rows: d x d for full and tied,
      one row of d variances for diag, a single 1 x 1 entry for spherical. */
  type Block = Matrix

  /** Mixing weights: one per cluster, or (spatially varying) one row of
      cluster weights per sample. */
  datatype Weights = PerCluster(w: seq<real>) | PerSample(rows: Matrix)

  predicate WeightsShaped(w: Weights, k: nat) {
    match w
    case PerCluster(v) => |v| == k
    case PerSample(rows) => IsMatrix(rows, k)
  }

  datatype Gmm = Gmm(
    covType: CovType,
    weights: Weights,
    means: Matrix,
    covariances: seq<Block>,
    precisions: seq<Block>)
  {
    /** n_components */
    function K(): nat {
      |means|
    }

    /** The shape invariant of a fitted mixture: the weights have one entry
        per component, and there is one covariance and one precision block
        per component, except for "tied", which shares a single block. */
    predicate WellFormed() {
      && WeightsShaped(weights, K())
      && (covType == Tied ==> |covariances| == 1 && |precisions| == 1)
      && (covType != Tied ==> |covariances| == K() && |precisions| == K())
    }
  }

  /** The per-cluster totals clusters are ranked by: the weights themselves,
      or the column sums of spatially varying weights. */
  function ClusterTotals(w: Weights, k: nat): (t: seq<real>)
    requires WeightsShaped(w, k)
    ensures |t| == k
  {
    match w
    case PerCluster(v) => v
    case PerSample(rows) => ColumnSums(rows, k)
  }

  /** `w[indx]` for one weight per cluster, `w[:, indx]` for a weight matrix. */
  function GatherWeights(w: Weights, p: seq<nat>, k: nat): (r: Weights)
    requires WeightsShaped(w, k) && Below(p, k)
    ensures WeightsShaped(r, |p|)
    ensures r.PerCluster? == w.PerCluster?
    ensures w.PerCluster? ==> forall i :: 0 <= i < |p| ==> r.w[i] == w.w[p[i]]
    ensures w.PerSample? ==> |r.rows| == |w.rows|
    ensures w.PerSample? ==> forall s, i :: 0 <= s < |w.rows| && 0 <= i < |p| ==> r.rows[s][i] == w.rows[s][p[i]]
  {
    match w
    case PerCluster(v) => PerCluster(Gather(v, p))
    case PerSample(rows) =>
      PerSample(seq(|rows|, s requires 0 <= s < |rows| => Gather(rows[s], p)))
  }

  /** Gathering the weights gathers the cluster totals the same way. */
  lemma TotalsOfGathered(w: Weights, p: seq<nat>, k: nat)
    requires WeightsShaped(w, k) && Below(p, k)
    ensures ClusterTotals(GatherWeights(w, p, k), |p|) == Gather(ClusterTotals(w, k), p)
  {
    if w.PerSample? {
      var r := GatherWeights(w, p, k);
      forall i | 0 <= i < |p|
        ensures Column(r.rows, i) == Column(w.rows, p[i])
      {
      }
    }
  }

  /** Relabel the components: component i of the result is component p[i]
      of g, in weights, means, covariances and precisions alike; the single
      shared block of a "tied" mixture is left as it is. */
  function Reorder(g: Gmm, p: seq<nat>): (r: Gmm)
    requires g.WellFormed() && |p| == g.K() && Below(p, g.K())
    ensures r.WellFormed() && r.K() == g.K() && r.covType == g.covType
  {
    g.(weights := GatherWeights(g.weights, p, g.K()),
       means := Gather(g.means, p),
       covariances := if g.covType == Tied then g.covariances else Gather(g.covariances, p),
       precisions := if g.covType == Tied then g.precisions else Gather(g.precisions, p))
  }

  /** Relabelling by the identity changes nothing. */
  lemma ReorderIdentity(g: Gmm)
    requires g.WellFormed()
    ensures Reorder(g, Identity(g.K())) == g
  {
    var r := Reorder(g, Identity(g.K()));
    assert r.means == g.means;
    if g.covType != Tied {
      assert r.covariances == g.covariances;
      assert r.precisions == g.precisions;
    }
    match g.weights
    case PerCluster(v) =>
      assert r.weights.w == v;
    case PerSample(rows) =>
      assert forall s :: 0 <= s < |rows| ==> r.weights.rows[s] == rows[s];
      assert r.weights.rows == rows;
  }
}
