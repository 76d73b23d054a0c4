/** Canonical cluster labelling: ordering by descending mixing weight
    (`order_clusters_GM_weight`) and greedy matching of fitted components to
    the components of a reference mixture (`order_cluster`). */
module Ordering {
  import opened Results
  import opened Numeric
  import opened Selection
  import opened Permutations
  import opened Mixture

  // ---------------------------------------------------------------------
  // Ordering by weight

  /** Sort the components by non-increasing weight (by non-increasing column
      sum for spatially varying weights) and return the permutation used.
      The Cholesky factor the source recomputes afterwards is derived state
      (see the Mixture module). */
  function OrderByWeight(g: Gmm): (r: (Gmm, seq<nat>))
    requires g.WellFormed()
    ensures IsPermutation(r.1, g.K())
    ensures r.0.WellFormed() && r.0.K() == g.K() && r.0.covType == g.covType
    ensures forall a, b :: 0 <= a < b < g.K() ==>
              ClusterTotals(r.0.weights, g.K())[b] <= ClusterTotals(r.0.weights, g.K())[a]
    ensures r.0.weights == GatherWeights(g.weights, r.1, g.K())
    ensures forall i :: 0 <= i < g.K() ==> r.0.means[i] == g.means[r.1[i]]
    ensures g.covType != Tied ==> forall i :: 0 <= i < g.K() ==>
              r.0.covariances[i] == g.covariances[r.1[i]] && r.0.precisions[i] == g.precisions[r.1[i]]
    ensures g.covType == Tied ==> r.0.covariances == g.covariances && r.0.precisions == g.precisions
  {
    var totals := ClusterTotals(g.weights, g.K());
    var indx := ArgsortDescending(totals);
    TotalsOfGathered(g.weights, indx, g.K());
    (Reorder(g, indx), indx)
  }

  /** Ordering a mixture whose totals already strictly decrease is a no-op
      with the identity permutation. */
  lemma OrderedMixtureUnchanged(g: Gmm)
    requires g.WellFormed()
    requires forall a, b :: 0 <= a < b < g.K() ==>
               ClusterTotals(g.weights, g.K())[b] < ClusterTotals(g.weights, g.K())[a]
    ensures OrderByWeight(g) == (g, Identity(g.K()))
  {
    var totals := ClusterTotals(g.weights, g.K());
    var p := ArgsortDescending(totals);
    forall a, b | 0 <= a < b < g.K()
      ensures p[a] < p[b]
    {
      assert totals[p[b]] <= totals[p[a]];
    }
    IncreasingPermutationIsIdentity(p, g.K());
    ReorderIdentity(g);
  }

  /** With two equal weights the descending argsort swaps them, so ordering
      is not idempotent on the means when weights tie. */
  lemma TiedWeightsAreSwapped()
    ensures ArgsortDescending([0.5, 0.5]) == [1, 0]
  {
    var keys := [0.5, 0.5];
    assert ArgsortPrefix(keys, 1) == [0];
    assert InsertPos(keys, [0], 1) == 1;
    assert ArgsortPrefix(keys, 2) == [0, 1];
  }

  // ---------------------------------------------------------------------
  // Greedy matching against a reference mixture

  /** The free reference component whose mean scores best under fitted
      component i; on ties, the lowest index (numpy's argmax over the free
      means, which keep their original order). */
  function BestFree(score: (nat, seq<real>) -> real, i: nat, refMeans: Matrix, used: seq<nat>): (j: nat)
    requires CountFree(|refMeans|, used) > 0
    ensures j < |refMeans| && j !in used
    ensures forall j': nat :: j' < |refMeans| && j' !in used ==> score(i, refMeans[j']) <= score(i, refMeans[j])
    ensures forall j': nat :: j' < j && j' !in used ==> score(i, refMeans[j']) < score(i, refMeans[j])
  {
    var free := FreeIndices(|refMeans|, used);
    var scores := seq(|free|, t requires 0 <= t < |free| => score(i, refMeans[free[t]]));
    var t := ArgMax(scores);
    FreeArgMaxIsBest(score, i, refMeans, used, free, scores, t);
    free[t]
  }

  lemma FreeArgMaxIsBest(score: (nat, seq<real>) -> real, i: nat, refMeans: Matrix, used: seq<nat>,
                         free: seq<nat>, scores: seq<real>, t: nat)
    requires free == FreeIndices(|refMeans|, used)
    requires |scores| == |free| && forall u :: 0 <= u < |free| ==> scores[u] == score(i, refMeans[free[u]])
    requires t < |scores|
    requires forall u :: 0 <= u < |scores| ==> scores[u] <= scores[t]
    requires forall u :: 0 <= u < t ==> scores[u] < scores[t]
    ensures forall j': nat :: j' < |refMeans| && j' !in used ==> score(i, refMeans[j']) <= scores[t]
    ensures forall j': nat :: j' < free[t] && j' !in used ==> score(i, refMeans[j']) < scores[t]
  {
    forall j': nat | j' < |refMeans| && j' !in used
      ensures score(i, refMeans[j']) <= scores[t]
      ensures j' < free[t] ==> score(i, refMeans[j']) < scores[t]
    {
      var u :| 0 <= u < |free| && free[u] == j';
      assert scores[u] == score(i, refMeans[j']);
      if j' < free[t] {
        assert u < t;
      }
    }
  }

  /** indx[i] is a reference component not assigned before step i, no such
      component scores better under fitted component i, and every such
      component of lower index scores strictly worse (argmax returns the
      first maximum). */
  predicate GreedyChoice(score: (nat, seq<real>) -> real, refMeans: Matrix, indx: seq<nat>, i: nat)
    requires i < |indx|
  {
    && indx[i] < |refMeans|
    && indx[i] !in indx[..i]
    && (forall j: nat :: j < |refMeans| && j !in indx[..i] ==> score(i, refMeans[j]) <= score(i, refMeans[indx[i]]))
    && (forall j: nat :: j < indx[i] && j !in indx[..i] ==> score(i, refMeans[j]) < score(i, refMeans[indx[i]]))
  }

  function MatchFrom(score: (nat, seq<real>) -> real, refMeans: Matrix, k: nat, used: seq<nat>): (r: Result<seq<nat>>)
    requires Below(used, |refMeans|) && Distinct(used) && |used| <= k
    ensures r.Ok? <==> k <= |refMeans|
    ensures r.Ok? ==> |r.value| == k && r.value[..|used|] == used
    ensures r.Ok? ==> Below(r.value, |refMeans|) && Distinct(r.value)
    ensures r.Ok? ==> forall i :: |used| <= i < k ==> GreedyChoice(score, refMeans, r.value, i)
    ensures r.Err? ==> r.error == EmptyReduction
    decreases k - |used|
  {
    CountFreeExact(|refMeans|, used);
    if |used| == k then Ok(used)
    else if CountFree(|refMeans|, used) == 0 then Err(EmptyReduction)
    else
      var j := BestFree(score, |used|, refMeans, used);
      var r := MatchFrom(score, refMeans, k, used + [j]);
      MatchStepIsGreedy(score, refMeans, k, used, j, r);
      r
  }

  lemma MatchStepIsGreedy(score: (nat, seq<real>) -> real, refMeans: Matrix, k: nat, used: seq<nat>, j: nat, r: Result<seq<nat>>)
    requires CountFree(|refMeans|, used) > 0 && j == BestFree(score, |used|, refMeans, used)
    requires r.Ok? ==> |r.value| == k && |used| < k && r.value[..|used| + 1] == used + [j]
    requires r.Ok? ==> forall i :: |used| + 1 <= i < k ==> GreedyChoice(score, refMeans, r.value, i)
    ensures r.Ok? ==> r.value[..|used|] == used
    ensures r.Ok? ==> forall i :: |used| <= i < k ==> GreedyChoice(score, refMeans, r.value, i)
  {
    if r.Ok? {
      assert r.value[..|used|] == (r.value[..|used| + 1])[..|used|];
      assert r.value[|used|] == (r.value[..|used| + 1])[|used|];
    }
  }

  /** The assignment loop of `order_cluster`, with the chosen reference taken
      by its own index: fitted component i (in weight order) receives the
      free reference whose mean it scores highest, which is then used up.
      Each reference is assigned at most once; with as many references as
      components the assignment is a permutation. It fails, as numpy's
      argmax over no free means does, when the references run out. */
  function GreedyMatch(score: (nat, seq<real>) -> real, refMeans: Matrix, k: nat): (r: Result<seq<nat>>)
    ensures r.Ok? <==> k <= |refMeans|
    ensures r.Ok? ==> |r.value| == k && Below(r.value, |refMeans|) && Distinct(r.value)
    ensures r.Ok? ==> forall i :: 0 <= i < k ==> GreedyChoice(score, refMeans, r.value, i)
    ensures k == |refMeans| ==> r.Ok? && IsPermutation(r.value, k)
  {
    MatchFrom(score, refMeans, k, [])
  }

  /** The first index whose reference mean equals mean j (numpy's
      `np.where(np.all(means == means[j], axis=1))[0][0]`). */
  function FirstEqualMean(refMeans: Matrix, j: nat): (t: nat)
    requires j < |refMeans|
    ensures t <= j && refMeans[t] == refMeans[j]
    ensures forall t' :: 0 <= t' < t ==> refMeans[t'] != refMeans[j]
  {
    IndexOfRow(refMeans, refMeans[j])
  }

  function IndexOfRow(m: Matrix, row: seq<real>): (t: nat)
    requires row in m
    ensures t < |m| && m[t] == row
    ensures forall t' :: 0 <= t' < t ==> m[t'] != row
    decreases |m|
  {
    if m[0] == row then 0 else 1 + IndexOfRow(m[1..], row)
  }

  function MatchFromAsWritten(score: (nat, seq<real>) -> real, refMeans: Matrix, k: nat, used: seq<nat>): (r: Result<seq<nat>>)
    requires Below(used, |refMeans|) && |used| <= k
    ensures r.Ok? ==> |r.value| == k && Below(r.value, |refMeans|) && r.value[..|used|] == used
    decreases k - |used|
  {
    if |used| == k then Ok(used)
    else if CountFree(|refMeans|, used) == 0 then Err(EmptyReduction)
    else
      var j := BestFree(score, |used|, refMeans, used);
      var r := MatchFromAsWritten(score, refMeans, k, used + [FirstEqualMean(refMeans, j)]);
      PrefixOfExtension(r, used, FirstEqualMean(refMeans, j));
      r
  }

  /** A result that starts with used + [j] starts with used. */
  lemma PrefixOfExtension(r: Result<seq<nat>>, used: seq<nat>, j: nat)
    requires r.Ok? ==> |used| < |r.value| && r.value[..|used| + 1] == used + [j]
    ensures r.Ok? ==> r.value[..|used|] == used
  {
    if r.Ok? {
      assert r.value[..|used|] == (r.value[..|used| + 1])[..|used|];
    }
  }

  /** The assignment loop of `order_cluster` as written: the best free mean
      is mapped back to an index by looking up the FIRST reference with an
      equal mean, and that index is the one appended and marked used. */
  function GreedyMatchAsWritten(score: (nat, seq<real>) -> real, refMeans: Matrix, k: nat): (r: Result<seq<nat>>)
    ensures r.Ok? ==> |r.value| == k && Below(r.value, |refMeans|)
  {
    MatchFromAsWritten(score, refMeans, k, [])
  }

  predicate DistinctRows(m: Matrix) {
    forall a, b :: 0 <= a < b < |m| ==> m[a] != m[b]
  }

  /** With pairwise distinct reference means the lookup finds the chosen
      index itself, and the code as written agrees with GreedyMatch. */
  lemma {:induction false} AsWrittenAgreesOnDistinctMeans(score: (nat, seq<real>) -> real, refMeans: Matrix, k: nat, used: seq<nat>)
    requires DistinctRows(refMeans)
    requires Below(used, |refMeans|) && Distinct(used) && |used| <= k
    ensures MatchFromAsWritten(score, refMeans, k, used) == MatchFrom(score, refMeans, k, used)
    decreases k - |used|
  {
    if |used| < k && CountFree(|refMeans|, used) > 0 {
      var j := BestFree(score, |used|, refMeans, used);
      assert FirstEqualMean(refMeans, j) == j;
      AsWrittenAgreesOnDistinctMeans(score, refMeans, k, used + [j]);
    }
  }

  /** Two equal reference means: the second step's best free reference is
      index 1, but the lookup maps its mean back to index 0, so reference 0
      is assigned twice and reference 1 never. */
  lemma DuplicateMeansAssignedTwice()
    ensures GreedyMatchAsWritten(FlatScore(), [[0.0], [0.0]], 2) == Ok([0, 0])
  {
    DuplicateStep0();
    MatchFromAsWrittenStep(FlatScore(), [[0.0], [0.0]], 2, [], 0);
    assert [] + [0] == [0];
    DuplicateFrom1();
  }

  lemma DuplicateFrom1()
    ensures MatchFromAsWritten(FlatScore(), [[0.0], [0.0]], 2, [0]) == Ok([0, 0])
  {
    DuplicateStep1();
    MatchFromAsWrittenStep(FlatScore(), [[0.0], [0.0]], 2, [0], 1);
    assert [0] + [0] == [0, 0];
    assert MatchFromAsWritten(FlatScore(), [[0.0], [0.0]], 2, [0, 0]) == Ok([0, 0]);
  }

  lemma DuplicateStep0()
    ensures CountFree(2, []) == 2
    ensures BestFree(FlatScore(), 0, [[0.0], [0.0]], []) == 0
    ensures FirstEqualMean([[0.0], [0.0]], 0) == 0
  {
    assert CountFree(2, []) == 2;
  }

  lemma DuplicateStep1()
    ensures CountFree(2, [0]) == 1
    ensures BestFree(FlatScore(), 1, [[0.0], [0.0]], [0]) == 1
    ensures FirstEqualMean([[0.0], [0.0]], 1) == 0
  {
    assert CountFree(2, [0]) == 1;
  }

  /** A score that prefers no reference over another. */
  function FlatScore(): (nat, seq<real>) -> real {
    (i: nat, x: seq<real>) => 0.0
  }

  /** One step of the loop as written: the index found by the lookup is
      appended. */
  lemma MatchFromAsWrittenStep(score: (nat, seq<real>) -> real, refMeans: Matrix, k: nat, used: seq<nat>, j: nat)
    requires Below(used, |refMeans|) && |used| < k
    requires CountFree(|refMeans|, used) > 0 && j == BestFree(score, |used|, refMeans, used)
    ensures Below(used + [FirstEqualMean(refMeans, j)], |refMeans|)
    ensures MatchFromAsWritten(score, refMeans, k, used)
            == MatchFromAsWritten(score, refMeans, k, used + [FirstEqualMean(refMeans, j)])
  {
  }

  // ---------------------------------------------------------------------
  // order_cluster

  /** Component i of `before` carries label p[i] in `after`: its weight (its
      column of spatially varying weights), mean, and, unless tied, its
      covariance and precision. */
  predicate RelabelledBy(after: Gmm, before: Gmm, p: seq<nat>)
    requires after.WellFormed() && before.WellFormed() && after.K() == before.K() && after.covType == before.covType
    requires |p| == before.K() && Below(p, before.K())
  {
    && (forall i :: 0 <= i < |p| ==> after.means[p[i]] == before.means[i])
    && (before.weights.PerCluster? ==> after.weights.PerCluster? && forall i :: 0 <= i < |p| ==> after.weights.w[p[i]] == before.weights.w[i])
    && (before.weights.PerSample? ==>
          && after.weights.PerSample?
          && |after.weights.rows| == |before.weights.rows|
          && forall s, i :: 0 <= s < |before.weights.rows| && 0 <= i < |p| ==> after.weights.rows[s][p[i]] == before.weights.rows[s][i])
    && (before.covType != Tied ==> forall i :: 0 <= i < |p| ==>
          after.covariances[p[i]] == before.covariances[i] && after.precisions[p[i]] == before.precisions[i])
    && (before.covType == Tied ==> after.covariances == before.covariances && after.precisions == before.precisions)
  }

  /** The score of a reference mean under component i of mixture g. */
  function Under(score: (Gmm, nat, seq<real>) -> real, g: Gmm): (nat, seq<real>) -> real {
    (i: nat, x: seq<real>) => score(g, i, x)
  }

  /** `order_cluster`, corrected: order by weight, match greedily against
      the reference means, then move each fitted component to the label of
      the reference it was matched with. Indices at or beyond n_components
      make numpy's indexing fail. */
  function OrderCluster(g: Gmm, refMeans: Matrix, score: (Gmm, nat, seq<real>) -> real): (r: Result<(Gmm, seq<nat>)>)
    requires g.WellFormed()
    ensures r.Ok? ==> r.value.0.WellFormed() && r.value.0.K() == g.K() && r.value.0.covType == g.covType
    ensures r.Ok? ==> IsPermutation(r.value.1, g.K())
    ensures r.Ok? ==> RelabelledBy(r.value.0, OrderByWeight(g).0, r.value.1)
    ensures r.Ok? ==> forall i :: 0 <= i < g.K() ==>
              GreedyChoice(Under(score, OrderByWeight(g).0), refMeans, r.value.1, i)
    ensures g.K() == |refMeans| ==> r.Ok?
    ensures r.Ok? ==> g.K() <= |refMeans|
  {
    var g1 := OrderByWeight(g).0;
    var m := GreedyMatch(Under(score, g1), refMeans, g.K());
    if m.Err? then Err(m.error)
    else if !Below(m.value, g.K()) then Err(IndexError)
    else
      var indx := m.value;
      var inv := Inverse(indx);
      var r := Reorder(g1, inv);
      assert RelabelledBy(r, g1, indx) by {
        forall i | 0 <= i < |indx|
          ensures inv[indx[i]] == i
        {
        }
      }
      Ok((r, indx))
  }

  /** `order_cluster` exactly as written: the as-written matching, then the
      matching applied as a gather, `means_[indx]`, so that component i of
      the result is fitted component indx[i]. */
  function OrderClusterAsWritten(g: Gmm, refMeans: Matrix, score: (Gmm, nat, seq<real>) -> real): (r: Result<(Gmm, seq<nat>)>)
    requires g.WellFormed()
    ensures r.Ok? ==> r.value.0.WellFormed() && r.value.0.K() == g.K()
    ensures r.Ok? ==> |r.value.1| == g.K() && Below(r.value.1, g.K())
    ensures r.Ok? ==> forall i :: 0 <= i < g.K() ==> r.value.0.means[i] == OrderByWeight(g).0.means[r.value.1[i]]
  {
    var g1 := OrderByWeight(g).0;
    var m := GreedyMatchAsWritten(Under(score, g1), refMeans, g.K());
    if m.Err? then Err(m.error)
    else if !Below(m.value, g.K()) then Err(IndexError)
    else Ok((Reorder(g1, m.value), m.value))
  }

  /** Applying p twice gives back every index: p is its own inverse. */
  predicate Involution(p: seq<nat>) {
    forall i :: 0 <= i < |p| ==> p[i] < |p| && p[p[i]] == i
  }

  /** When no two reference means are equal and the greedy matching is its
      own inverse (the identity, or swaps of pairs), the code's
      `order_cluster` relabels exactly like the corrected one. */
  lemma AsWrittenAgreesOnInvolutions(g: Gmm, refMeans: Matrix, score: (Gmm, nat, seq<real>) -> real)
    requires g.WellFormed() && g.K() == |refMeans| && DistinctRows(refMeans)
    requires Involution(GreedyMatch(Under(score, OrderByWeight(g).0), refMeans, g.K()).value)
    ensures OrderClusterAsWritten(g, refMeans, score) == OrderCluster(g, refMeans, score)
  {
    var g1 := OrderByWeight(g).0;
    AsWrittenAgreesOnDistinctMeans(Under(score, g1), refMeans, g.K(), []);
    InvolutionIsOwnInverse(GreedyMatch(Under(score, g1), refMeans, g.K()).value);
  }

  /** A permutation that is its own inverse: gathering by it and by its
      inverse are the same relabelling. */
  lemma InvolutionIsOwnInverse(p: seq<nat>)
    requires IsPermutation(p, |p|) && Involution(p)
    ensures Inverse(p) == p
  {
  }

  /** Fitted means 10, 20, 0 against reference means 0, 10, 20 under a
      Gaussian-shaped score: the greedy matching is the 3-cycle [1, 2, 0].
      Applied as a gather it labels the fitted means 20, 0, 10, so no
      component lines up with its reference; applied through the inverse
      they line up exactly. */
  lemma GatherMisaligns()
    ensures GreedyMatch(GaussianScore([[10.0], [20.0], [0.0]]), [[0.0], [10.0], [20.0]], 3) == Ok([1, 2, 0])
    ensures Gather([[10.0], [20.0], [0.0]], [1, 2, 0]) == [[20.0], [0.0], [10.0]]
    ensures Gather([[10.0], [20.0], [0.0]], Inverse([1, 2, 0])) == [[0.0], [10.0], [20.0]]
  {
    CycleMatch();
    CycleGather();
    CycleInverse();
  }

  lemma CycleGather()
    ensures Gather([[10.0], [20.0], [0.0]], [1, 2, 0]) == [[20.0], [0.0], [10.0]]
    ensures Gather([[10.0], [20.0], [0.0]], [2, 0, 1]) == [[0.0], [10.0], [20.0]]
  {
    var fitted: Matrix := [[10.0], [20.0], [0.0]];
    var g := Gather(fitted, [1, 2, 0]);
    assert g[0] == [20.0] && g[1] == [0.0] && g[2] == [10.0];
    var h := Gather(fitted, [2, 0, 1]);
    assert h[0] == [0.0] && h[1] == [10.0] && h[2] == [20.0];
  }

  lemma CycleInverse()
    ensures Inverse([1, 2, 0]) == [2, 0, 1]
  {
    var inv := Inverse([1, 2, 0]);
    assert inv[1] == 0 && inv[2] == 1 && inv[0] == 2;
  }

  lemma CycleMatch()
    ensures GreedyMatch(GaussianScore([[10.0], [20.0], [0.0]]), [[0.0], [10.0], [20.0]], 3) == Ok([1, 2, 0])
  {
    CycleStep0();
    MatchFromStep(GaussianScore([[10.0], [20.0], [0.0]]), [[0.0], [10.0], [20.0]], 3, [], 1);
    assert [] + [1] == [1];
    CycleFrom1();
  }

  lemma CycleFrom1()
    ensures MatchFrom(GaussianScore([[10.0], [20.0], [0.0]]), [[0.0], [10.0], [20.0]], 3, [1]) == Ok([1, 2, 0])
  {
    CycleStep1();
    MatchFromStep(GaussianScore([[10.0], [20.0], [0.0]]), [[0.0], [10.0], [20.0]], 3, [1], 2);
    assert [1] + [2] == [1, 2];
    CycleFrom2();
  }

  lemma CycleFrom2()
    ensures MatchFrom(GaussianScore([[10.0], [20.0], [0.0]]), [[0.0], [10.0], [20.0]], 3, [1, 2]) == Ok([1, 2, 0])
  {
    CycleStep2();
    MatchFromStep(GaussianScore([[10.0], [20.0], [0.0]]), [[0.0], [10.0], [20.0]], 3, [1, 2], 0);
    assert [1, 2] + [0] == [1, 2, 0];
    assert MatchFrom(GaussianScore([[10.0], [20.0], [0.0]]), [[0.0], [10.0], [20.0]], 3, [1, 2, 0]) == Ok([1, 2, 0]);
  }

  /** One step of the matching loop: the best free reference is appended. */
  lemma MatchFromStep(score: (nat, seq<real>) -> real, refMeans: Matrix, k: nat, used: seq<nat>, j: nat)
    requires Below(used, |refMeans|) && Distinct(used) && |used| < k
    requires CountFree(|refMeans|, used) > 0 && j == BestFree(score, |used|, refMeans, used)
    ensures Below(used + [j], |refMeans|) && Distinct(used + [j])
    ensures MatchFrom(score, refMeans, k, used) == MatchFrom(score, refMeans, k, used + [j])
  {
  }

  lemma CycleStep0()
    ensures CountFree(3, []) == 3
    ensures BestFree(GaussianScore([[10.0], [20.0], [0.0]]), 0, [[0.0], [10.0], [20.0]], []) == 1
  {
    var score := GaussianScore([[10.0], [20.0], [0.0]]);
    assert score(0, [0.0]) == -100.0 && score(0, [10.0]) == 0.0 && score(0, [20.0]) == -100.0;
    assert CountFree(3, []) == 3;
  }

  lemma CycleStep1()
    ensures CountFree(3, [1]) == 2
    ensures BestFree(GaussianScore([[10.0], [20.0], [0.0]]), 1, [[0.0], [10.0], [20.0]], [1]) == 2
  {
    var score := GaussianScore([[10.0], [20.0], [0.0]]);
    assert score(1, [0.0]) == -400.0 && score(1, [20.0]) == 0.0;
    assert CountFree(3, [1]) == 2;
  }

  lemma CycleStep2()
    ensures CountFree(3, [1, 2]) == 1
    ensures BestFree(GaussianScore([[10.0], [20.0], [0.0]]), 2, [[0.0], [10.0], [20.0]], [1, 2]) == 0
  {
    assert CountFree(3, [1, 2]) == 1;
  }

  /** Log-density of a one-feature point under a unit-variance component
      centred on fitted[i], up to an additive constant. */
  function GaussianScore(fitted: Matrix): (nat, seq<real>) -> real {
    (i: nat, x: seq<real>) =>
      if i < |fitted| && |fitted[i]| == 1 && |x| == 1 then -(x[0] - fitted[i][0]) * (x[0] - fitted[i][0]) else 0.0
  }
}
