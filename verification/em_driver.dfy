/** `GaussianMixtureWithPrior.fit`: n_init trials of EM, each iterating
    E-step, forced memberships, M-step, prior update and forced local
    weights until the lower bound changes by less than tol or max_iter
    iterations have run; the parameters of the trial with the largest final
    lower bound are kept. */
module EmDriver {
  import opened Results
  import opened Numeric
  import opened Mixture
  import opened Membership
  import opened Estimation
  import opened PriorBlend

  // ---------------------------------------------------------------------
  // The best-of-n EM loop, for any parameter state S

  /** How a fit starts: a fresh initialisation per trial, or (warm start
      after an earlier fit) a single trial from the current parameters and
      lower bound. */
  datatype Start<S> = Cold | Warm(state: S, lowerBound: ExtReal)

  /** What fit needs: the number of trials, the start, the initialisation of
      trial t (which consumes that trial's random draws), one EM iteration
      (new state and lower bound), tol and max_iter. */
  datatype Config<!S> = Config(nInit: nat, start: Start<S>, init: nat -> Result<S>,
                              step: S -> Result<(S, real)>, tol: real, maxIter: nat)
  {
    /** A warm start runs a single trial. */
    function Trials(): nat {
      if start.Warm? then 1 else nInit
    }
  }

  /** The outcome of one trial: the final state and lower bound, the
      0-based index of the last iteration, the last change of the lower
      bound, and whether the trial stopped by convergence. */
  datatype Trial<S> = Trial(state: S, lowerBound: real, lastIter: nat, lastChange: ExtReal, converged: bool)

  /** `abs(change) < tol`; an infinite change never passes. */
  predicate Converges(change: ExtReal, tol: real) {
    change.Fin? && Abs(change.v) < tol
  }

  /** The state is what some EM iteration produced. */
  ghost predicate StepOutput<S(!new)>(step: S -> Result<(S, real)>, s: S) {
    exists s0 :: step(s0).Ok? && step(s0).value.0 == s
  }

  /** The state and lower bound after n iterations that start from state s
      with lower bound prev. */
  function After<S>(s: S, prev: ExtReal, step: S -> Result<(S, real)>, n: nat): Result<(S, ExtReal)>
    decreases n
  {
    if n == 0 then Ok((s, prev))
    else
      var next :- step(s);
      After(next.0, Fin(next.1), step, n - 1)
  }

  /** The change of the lower bound made by the iteration that follows n
      earlier ones from state s with lower bound prev. */
  function ChangeAt<S>(s: S, prev: ExtReal, step: S -> Result<(S, real)>, n: nat): Result<ExtReal> {
    var cur :- After(s, prev, step, n);
    var next :- step(cur.0);
    Ok(SubExt(next.1, cur.1))
  }

  /** One iteration later, the trajectory continues from the new state. */
  lemma ChangeAtShift<S>(s: S, prev: ExtReal, step: S -> Result<(S, real)>)
    requires step(s).Ok?
    ensures ChangeAt(s, prev, step, 0) == Ok(SubExt(step(s).value.1, prev))
    ensures forall n :: 0 < n ==>
              ChangeAt(s, prev, step, n) == ChangeAt(step(s).value.0, Fin(step(s).value.1), step, n - 1)
  {
  }

  /** Iterations iter, iter + 1, ... of one trial, `prev` being the lower
      bound before iteration iter. */
  function Iterate<S(!new)>(s: S, prev: ExtReal, step: S -> Result<(S, real)>, tol: real, iter: nat, maxIter: nat)
    : (r: Result<Trial<S>>)
    requires iter < maxIter
    ensures r.Ok? ==> iter <= r.value.lastIter < maxIter
    ensures r.Ok? ==> (r.value.converged <==> Converges(r.value.lastChange, tol))
    ensures r.Ok? && !r.value.converged ==> r.value.lastIter == maxIter - 1
    ensures r.Ok? && prev.NegInf? && r.value.converged ==> iter < r.value.lastIter
    ensures r.Ok? ==> StepOutput(step, r.value.state)
    decreases maxIter - iter
  {
    var next :- step(s);
    var change := SubExt(next.1, prev);
    if Converges(change, tol) then Ok(Trial(next.0, next.1, iter, change, true))
    else if iter + 1 == maxIter then Ok(Trial(next.0, next.1, iter, change, false))
    else Iterate(next.0, Fin(next.1), step, tol, iter + 1, maxIter)
  }

  /** A trial stops at the FIRST iteration whose change passes tol: the
      reported last change is the change made by the last iteration, every
      earlier iteration's change failed tol, and the reported state and
      lower bound are those the last iteration produced. */
  lemma {:induction false} IterateStopsAtFirst<S(!new)>(s: S, prev: ExtReal, step: S -> Result<(S, real)>,
                                                        tol: real, iter: nat, maxIter: nat)
    requires iter < maxIter
    ensures var r := Iterate(s, prev, step, tol, iter, maxIter);
            r.Ok? ==> ChangeAt(s, prev, step, r.value.lastIter - iter) == Ok(r.value.lastChange)
    ensures var r := Iterate(s, prev, step, tol, iter, maxIter);
            r.Ok? ==> forall n :: 0 <= n < r.value.lastIter - iter ==>
              ChangeAt(s, prev, step, n).Ok? && !Converges(ChangeAt(s, prev, step, n).value, tol)
    ensures var r := Iterate(s, prev, step, tol, iter, maxIter);
            r.Ok? ==> After(s, prev, step, r.value.lastIter - iter + 1) == Ok((r.value.state, Fin(r.value.lowerBound)))
    decreases maxIter - iter
  {
    var r := Iterate(s, prev, step, tol, iter, maxIter);
    if r.Ok? {
      var next := step(s).value;
      ChangeAtShift(s, prev, step);
      if !Converges(SubExt(next.1, prev), tol) && iter + 1 < maxIter {
        IterateStopsAtFirst(next.0, Fin(next.1), step, tol, iter + 1, maxIter);
      }
    }
  }

  /** Trial t: initialise (a cold start resets the lower bound to minus
      infinity), then iterate. */
  function RunTrial<S(!new)>(cfg: Config<S>, t: nat): (r: Result<Trial<S>>)
    requires 0 < cfg.maxIter
    ensures cfg.start.Cold? && r.Ok? && r.value.converged ==> 0 < r.value.lastIter
    ensures r.Ok? ==> StepOutput(cfg.step, r.value.state)
  {
    match cfg.start
    case Cold =>
      var s :- cfg.init(t);
      Iterate(s, NegInf, cfg.step, cfg.tol, 0, cfg.maxIter)
    case Warm(s, lowerBound) =>
      Iterate(s, lowerBound, cfg.step, cfg.tol, 0, cfg.maxIter)
  }

  /** Every trial below n succeeds. */
  predicate TrialsSucceed<S(!new)>(cfg: Config<S>, n: nat)
    requires 0 < cfg.maxIter
  {
    forall t :: 0 <= t < n ==> RunTrial(cfg, t).Ok?
  }

  /** Trial b has the largest final lower bound of the first n trials, and
      is the first to reach it. */
  predicate FirstBest<S(!new)>(cfg: Config<S>, n: nat, b: nat)
    requires 0 < cfg.maxIter && TrialsSucceed(cfg, n) && b < n
  {
    && (forall t :: 0 <= t < b ==> RunTrial(cfg, t).value.lowerBound < RunTrial(cfg, b).value.lowerBound)
    && (forall t :: 0 <= t < n ==> RunTrial(cfg, t).value.lowerBound <= RunTrial(cfg, b).value.lowerBound)
  }

  /** The parameters fit leaves behind: those of the best trial with that
      trial's iteration count, whether any trial converged, and the lower
      bound and change of the LAST trial, which `fit` never resets. */
  datatype Fitted<S> = Fitted(params: S, converged: bool, nIter: nat, lowerBound: real, lastChange: ExtReal)

  /** The trial loop of `fit`. Without a trial or an iteration no
      parameters are ever recorded and `fit` fails; an error in any trial
      aborts the fit. */
  method Fit<S(!new)>(cfg: Config<S>) returns (r: Result<Fitted<S>>)
    ensures cfg.maxIter == 0 || cfg.Trials() == 0 ==> r == Err(NoTrial)
    ensures r.Ok? <==> 0 < cfg.maxIter && 0 < cfg.Trials() && TrialsSucceed(cfg, cfg.Trials())
    ensures r.Err? && 0 < cfg.maxIter && 0 < cfg.Trials() ==>
              exists t :: 0 <= t < cfg.Trials() && RunTrial(cfg, t) == Err(r.error)
                          && forall u :: 0 <= u < t ==> RunTrial(cfg, u).Ok?
    ensures r.Ok? ==> (0 < cfg.maxIter && TrialsSucceed(cfg, cfg.Trials()) &&
              exists b :: 0 <= b < cfg.Trials() && FirstBest(cfg, cfg.Trials(), b)
                          && r.value.params == RunTrial(cfg, b).value.state
                          && r.value.nIter == RunTrial(cfg, b).value.lastIter)
    ensures r.Ok? ==> (0 < cfg.maxIter && TrialsSucceed(cfg, cfg.Trials()) &&
              (r.value.converged <==> exists t :: 0 <= t < cfg.Trials() && RunTrial(cfg, t).value.converged))
    ensures r.Ok? ==> (0 < cfg.maxIter && 0 < cfg.Trials() && TrialsSucceed(cfg, cfg.Trials()) &&
              r.value.lowerBound == RunTrial(cfg, cfg.Trials() - 1).value.lowerBound &&
              r.value.lastChange == RunTrial(cfg, cfg.Trials() - 1).value.lastChange)
  {
    var n := cfg.Trials();
    if cfg.maxIter == 0 || n == 0 {
      return Err(NoTrial);
    }
    var first :- RunTrial(cfg, 0);
    var best, bestTrial, last, anyConverged := 0, first, first, first.converged;
    var t := 1;
    while t < n
      invariant 1 <= t <= n
      invariant TrialsSucceed(cfg, t)
      invariant best < t && bestTrial == RunTrial(cfg, best).value
      invariant FirstBest(cfg, t, best)
      invariant last == RunTrial(cfg, t - 1).value
      invariant anyConverged <==> exists u :: 0 <= u < t && RunTrial(cfg, u).value.converged
    {
      var trial :- RunTrial(cfg, t);
      if trial.lowerBound > bestTrial.lowerBound {
        best, bestTrial := t, trial;
      }
      anyConverged := anyConverged || trial.converged;
      last := trial;
      t := t + 1;
    }
    r := Ok(Fitted(bestTrial.state, anyConverged, bestTrial.lastIter, last.lowerBound, last.lastChange));
  }

  // ---------------------------------------------------------------------
  // One EM iteration of the mixture with a prior

  /** The foreign numerical kernels: the log of the weighted density of one
      sample (a log-sum-exp over components), the log-responsibility of one
      sample for one component, exp, the covariance estimator, the
      Cholesky-based inverse of one block, the log-density used to match
      components, sklearn's initialisation from responsibilities, and the
      KMeans labels and uniform draws of trial t. */
  datatype Kernels = Kernels(
    logNorm: (Gmm, seq<real>) -> real,
    logResp: (Gmm, seq<real>, nat) -> ExtReal,
    exp: real -> real,
    estimate: (CovType, Matrix, Matrix, seq<real>, Matrix) -> seq<Block>,
    invert: (CovType, Block) -> Block,
    score: (Gmm, nat, seq<real>) -> real,
    initialize: Matrix -> Gmm,
    kmeansLabel: (nat, nat) -> nat,
    draw: (nat, nat, nat) -> real)

  /** The data: one row of d features per active cell, and its volume. */
  datatype Data = Data(x: Matrix, vol: seq<real>, d: nat)
  {
    predicate Valid() {
      |x| == |vol| && IsMatrix(x, d)
    }
  }

  /** The prior mixture's own settings. An absent `fixed_membership` and an
      empty one behave alike, so both are the empty sequence. */
  datatype PriorModel = PriorModel(gref: Gmm, refVol: seq<real>, pri: Priors, priorType: string,
                                   updateCovariances: bool, fixed: seq<Constraint>)

  /** The constructor's prior strengths: kappa, nu and zeta are scalars
      broadcast to one entry per component and feature, per component, and
      per reference weight. */
  function PriorsFromScalars(kappa: real, nu: real, zeta: real, gref: Gmm, d: nat): (pri: Priors)
    ensures |pri.kappa| == gref.K() && IsMatrix(pri.kappa, d) && |pri.nu| == gref.K()
    ensures ZetaShaped(pri.zeta, gref.weights)
    ensures forall k, f :: 0 <= k < gref.K() && 0 <= f < d ==> pri.kappa[k][f] == kappa
    ensures forall k :: 0 <= k < gref.K() ==> pri.nu[k] == nu
    ensures pri.zeta.PerCluster? ==> forall c :: 0 <= c < |pri.zeta.w| ==> pri.zeta.w[c] == zeta
    ensures pri.zeta.PerSample? ==> forall s, c :: 0 <= s < |pri.zeta.rows| && 0 <= c < |pri.zeta.rows[s]| ==>
              pri.zeta.rows[s][c] == zeta
  {
    var zetas := match gref.weights
      case PerCluster(w) => PerCluster(seq(|w|, c => zeta))
      case PerSample(rows) =>
        PerSample(seq(|rows|, s requires 0 <= s < |rows| => seq(|rows[s]|, c => zeta)));
    Priors(zetas, seq(gref.K(), k => nu), seq(gref.K(), k => seq(d, f => kappa)))
  }

  /** `_e_step`: the volume-weighted average of the per-sample log
      densities, and the log-responsibilities. */
  function EStep(g: Gmm, data: Data, kern: Kernels): (r: Result<(real, seq<seq<ExtReal>>)>)
    ensures r.Ok? <==> |data.x| == |data.vol| && Sum(data.vol) != 0.0
    ensures r.Ok? ==> |r.value.1| == |data.x| && forall s :: 0 <= s < |data.x| ==> |r.value.1[s]| == g.K()
    ensures r.Ok? ==> forall s, c :: 0 <= s < |data.x| && 0 <= c < g.K() ==>
              r.value.1[s][c] == kern.logResp(g, data.x[s], c)
  {
    var norms := seq(|data.x|, s requires 0 <= s < |data.x| => kern.logNorm(g, data.x[s]));
    var lowerBound :- WeightedAverage(norms, data.vol);
    Ok((lowerBound, seq(|data.x|, s requires 0 <= s < |data.x| =>
                          seq(g.K(), c requires 0 <= c < g.K() => kern.logResp(g, data.x[s], c)))))
  }

  /** `np.exp(log_resp)`: minus infinity becomes 0; plus infinity would be
      a non-finite responsibility. */
  function ExpRows(m: seq<seq<ExtReal>>, exp: real -> real): (r: Result<Matrix>)
    ensures r.Ok? <==> forall s, c :: 0 <= s < |m| && 0 <= c < |m[s]| ==> !m[s][c].PosInf?
    ensures r.Err? ==> r.error == NonFinite
    ensures r.Ok? ==> |r.value| == |m| && forall s :: 0 <= s < |m| ==> |r.value[s]| == |m[s]|
    ensures r.Ok? ==> forall s, c :: 0 <= s < |m| && 0 <= c < |m[s]| ==>
              r.value[s][c] == (if m[s][c].NegInf? then 0.0 else exp(m[s][c].v))
  {
    if exists s, c :: 0 <= s < |m| && 0 <= c < |m[s]| && m[s][c].PosInf? then Err(NonFinite)
    else Ok(seq(|m|, s requires 0 <= s < |m| => ExpRow(m[s], exp)))
  }

  function ExpRow(row: seq<ExtReal>, exp: real -> real): (r: seq<real>)
    requires forall c :: 0 <= c < |row| ==> !row[c].PosInf?
    ensures |r| == |row|
    ensures forall c :: 0 <= c < |row| ==> r[c] == (if row[c].NegInf? then 0.0 else exp(row[c].v))
  {
    seq(|row|, c requires 0 <= c < |row| => if row[c].NegInf? then 0.0 else exp(row[c].v))
  }

  /** A forced log-responsibility row exponentiates to the one-hot row:
      the constrained sample belongs to its cluster with responsibility 1. */
  lemma ForcedRowIsOneHot(k: nat, c: nat, exp: real -> real)
    requires exp(0.0) == 1.0
    ensures ExpRow(OneHot(k, c, Fin(0.0), NegInf), exp) == OneHot(k, c, 1.0, 0.0)
  {
    var r := ExpRow(OneHot(k, c, Fin(0.0), NegInf), exp);
    forall i | 0 <= i < k
      ensures r[i] == OneHot(k, c, 1.0, 0.0)[i]
    {
    }
  }

  /** Forcing keeps every row k wide. */
  lemma ForcedRowsKeepWidth(rows: seq<seq<ExtReal>>, fixed: seq<Constraint>, k: nat)
    requires forall s :: 0 <= s < |rows| ==> |rows[s]| == k
    requires ForceResponsibilities(rows, fixed, k).Ok?
    ensures forall s :: 0 <= s < |rows| ==> |ForceResponsibilities(rows, fixed, k).value[s]| == k
  {
    var r := ForceResponsibilities(rows, fixed, k).value;
    forall s | 0 <= s < |rows|
      ensures |r[s]| == k
    {
      assert r[s] == Forced(rows, fixed, k, Fin(0.0), NegInf, s);
    }
  }

  /** Forcing local weights keeps them one entry per component. */
  lemma ForcedWeightsKeepWidth(w: Weights, fixed: seq<Constraint>, k: nat)
    requires WeightsShaped(w, k) && ForceLocalWeights(w, fixed, k).Ok?
    ensures WeightsShaped(ForceLocalWeights(w, fixed, k).value, k)
  {
    if w.PerSample? {
      var r := OverrideRows(w.rows, fixed, k, 1.0, 0.0).value;
      forall s | 0 <= s < |w.rows|
        ensures |r[s]| == k
      {
        assert r[s] == Forced(w.rows, fixed, k, 1.0, 0.0, s);
      }
    }
  }

  /** The first half of an iteration: the E-step, the forced
      log-responsibilities, and their exponentials. */
  function Responsibilities(g: Gmm, data: Data, prior: PriorModel, kern: Kernels): (r: Result<(real, Matrix)>)
    requires g.WellFormed() && data.Valid()
    ensures r.Ok? ==> EStep(g, data, kern).Ok? && r.value.0 == EStep(g, data, kern).value.0
    ensures r.Ok? ==> SampleShapes(data.x, data.vol, r.value.1, g.K(), data.d)
    ensures EStep(g, data, kern).Ok? && !Addressable(prior.fixed, |data.x|, g.K()) ==> r == Err(IndexError)
  {
    var e :- EStep(g, data, kern);
    var forced :- ForceResponsibilities(e.1, prior.fixed, g.K());
    ForcedRowsKeepWidth(e.1, prior.fixed, g.K());
    var resp :- ExpRows(forced, kern.exp);
    Ok((e.0, resp))
  }

  /** The second half of an iteration: the M-step, the prior update, and
      the forced local weights. */
  function UpdateStep(g: Gmm, resp: Matrix, data: Data, prior: PriorModel, kern: Kernels): (r: Result<Gmm>)
    requires g.WellFormed() && prior.gref.WellFormed() && g.covType == prior.gref.covType
    requires SampleShapes(data.x, data.vol, resp, g.K(), data.d)
    ensures r.Ok? ==> g.K() == prior.gref.K()
    ensures r.Ok? ==> r.value.WellFormed() && r.value.K() == g.K() && r.value.covType == g.covType
    ensures r.Ok? && r.value.weights.PerSample? ==> forall j :: 0 <= j < |prior.fixed| && LastFor(prior.fixed, j) ==>
              prior.fixed[j].sample < |r.value.weights.rows|
              && r.value.weights.rows[prior.fixed[j].sample] == OneHot(g.K(), prior.fixed[j].cluster, 1.0, 0.0)
  {
    var g2 :- MStep(g, data.x, data.vol, resp, data.d, kern.estimate);
    var g3 :- UpdateWithPriors(g2, prior.gref, data.vol, prior.refVol, prior.pri, prior.updateCovariances,
                               prior.priorType, kern.invert, kern.score);
    var weights :- ForceLocalWeights(g3.weights, prior.fixed, g.K());
    ForcedWeightsKeepWidth(g3.weights, prior.fixed, g.K());
    Ok(g3.(weights := weights))
  }

  /** One iteration of the loop body of `fit`: E-step, forced
      responsibilities, M-step, prior update, forced local weights. The new
      lower bound is the E-step's average log density. Shapes that do not
      line up make numpy raise. */
  function EmIteration(g: Gmm, data: Data, prior: PriorModel, kern: Kernels): (r: Result<(Gmm, real)>)
    ensures !g.WellFormed() || !prior.gref.WellFormed() || g.covType != prior.gref.covType || !data.Valid()
            ==> r == Err(ShapeMismatch)
    ensures r.Ok? ==> g.K() == prior.gref.K()
    ensures r.Ok? ==> r.value.0.WellFormed() && r.value.0.K() == g.K() && r.value.0.covType == g.covType
    ensures r.Ok? ==> EStep(g, data, kern).Ok? && r.value.1 == EStep(g, data, kern).value.0
    ensures g.WellFormed() && prior.gref.WellFormed() && g.covType == prior.gref.covType && data.Valid()
            && EStep(g, data, kern).Ok? && !Addressable(prior.fixed, |data.x|, g.K())
            ==> r == Err(IndexError)
    ensures r.Ok? && r.value.0.weights.PerSample? ==> forall j :: 0 <= j < |prior.fixed| && LastFor(prior.fixed, j) ==>
              prior.fixed[j].sample < |r.value.0.weights.rows|
              && r.value.0.weights.rows[prior.fixed[j].sample] == OneHot(g.K(), prior.fixed[j].cluster, 1.0, 0.0)
  {
    if !g.WellFormed() || !prior.gref.WellFormed() || g.covType != prior.gref.covType || !data.Valid() then
      Err(ShapeMismatch)
    else
      var e :- Responsibilities(g, data, prior, kern);
      var g3 :- UpdateStep(g, e.1, data, prior, kern);
      Ok((g3, e.0))
  }

  // ---------------------------------------------------------------------
  // The fit

  /** The settings of `fit`. */
  datatype FitSettings = FitSettings(initParams: string, nInit: nat, maxIter: nat, tol: real, warmStart: bool)

  /** `_initialize_parameters` for trial t: responsibilities from KMeans
      labels or uniform draws, then sklearn's initialisation. */
  function InitTrial(t: nat, data: Data, settings: FitSettings, k: nat, kern: Kernels): (r: Result<Gmm>)
    ensures settings.initParams != "kmeans" && settings.initParams != "random" ==> r == Err(UnknownInitMethod)
  {
    var n := |data.x|;
    var labels := seq<nat>(n, s requires 0 <= s < n => kern.kmeansLabel(t, s));
    var draws := seq(n, s requires 0 <= s < n => seq(k, c requires 0 <= c < k => kern.draw(t, s, c)));
    var resp :- InitialResponsibilities(settings.initParams, labels, draws, n, k);
    Ok(kern.initialize(resp))
  }

  /** The configuration `fit` runs: a warm start (warm_start set and an
      earlier fit recorded) continues from the current parameters and lower
      bound. */
  function FitConfig(current: Gmm, currentBound: ExtReal, fittedBefore: bool, data: Data, prior: PriorModel,
                     settings: FitSettings, kern: Kernels): (cfg: Config<Gmm>)
    ensures cfg.Trials() == (if settings.warmStart && fittedBefore then 1 else settings.nInit)
    ensures cfg.maxIter == settings.maxIter && cfg.tol == settings.tol
    ensures forall g :: cfg.step(g) == EmIteration(g, data, prior, kern)
  {
    var start := if settings.warmStart && fittedBefore then Warm(current, currentBound) else Cold;
    Config(settings.nInit, start,
           t => InitTrial(t, data, settings, prior.gref.K(), kern),
           g => EmIteration(g, data, prior, kern),
           settings.tol, settings.maxIter)
  }

  /** Whatever an EM iteration of the prior mixture outputs is a
      well-formed mixture of the prior's family and size whose constrained
      samples carry one-hot local weights. */
  lemma IterationOutputShaped(cfg: Config<Gmm>, data: Data, prior: PriorModel, kern: Kernels, p: Gmm)
    requires forall g :: cfg.step(g) == EmIteration(g, data, prior, kern)
    requires StepOutput(cfg.step, p)
    ensures p.WellFormed() && p.K() == prior.gref.K() && p.covType == prior.gref.covType
    ensures p.weights.PerSample? ==> forall j :: 0 <= j < |prior.fixed| && LastFor(prior.fixed, j) ==>
              prior.fixed[j].sample < |p.weights.rows|
              && p.weights.rows[prior.fixed[j].sample] == OneHot(prior.gref.K(), prior.fixed[j].cluster, 1.0, 0.0)
  {
    var g0 :| cfg.step(g0).Ok? && cfg.step(g0).value.0 == p;
    assert cfg.step(g0) == EmIteration(g0, data, prior, kern);
  }

  /** `GaussianMixtureWithPrior.fit`. The kept parameters come out of an EM
      iteration, so they are a well-formed mixture of the prior's
      covariance family and size, and every constrained sample keeps its
      one-hot local weights. */
  method FitWithPrior(current: Gmm, currentBound: ExtReal, fittedBefore: bool, data: Data, prior: PriorModel,
                      settings: FitSettings, kern: Kernels)
    returns (r: Result<Fitted<Gmm>>)
    ensures settings.maxIter == 0 ==> r == Err(NoTrial)
    ensures r.Ok? ==> r.value.params.WellFormed() && r.value.params.K() == prior.gref.K()
                      && r.value.params.covType == prior.gref.covType
    ensures r.Ok? && r.value.params.weights.PerSample? ==>
              forall j :: 0 <= j < |prior.fixed| && LastFor(prior.fixed, j) ==>
                prior.fixed[j].sample < |r.value.params.weights.rows|
                && r.value.params.weights.rows[prior.fixed[j].sample]
                   == OneHot(prior.gref.K(), prior.fixed[j].cluster, 1.0, 0.0)
    ensures r.Ok? ==> (0 < settings.maxIter &&
              var cfg := FitConfig(current, currentBound, fittedBefore, data, prior, settings, kern);
              TrialsSucceed(cfg, cfg.Trials()) &&
              exists b :: 0 <= b < cfg.Trials() && FirstBest(cfg, cfg.Trials(), b)
                          && r.value.params == RunTrial(cfg, b).value.state)
  {
    var cfg := FitConfig(current, currentBound, fittedBefore, data, prior, settings, kern);
    r := Fit(cfg);
    if r.Ok? {
      ghost var b :| 0 <= b < cfg.Trials() && FirstBest(cfg, cfg.Trials(), b)
                     && r.value.params == RunTrial(cfg, b).value.state;
      IterationOutputShaped(cfg, data, prior, kern, r.value.params);
    }
  }
}
