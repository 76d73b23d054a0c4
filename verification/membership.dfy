/** Fixed membership: samples whose cluster is known in advance. In every EM
    iteration their log-responsibilities are forced to 0 for the known
    cluster and to minus infinity elsewhere, and, for spatially varying
    weights, their weight rows are forced to the matching one-hot row. */
module Membership {
  import opened Results
  import opened Numeric
  import opened Mixture
  import opened Validation

  /** One row of `fixed_membership`: sample index, cluster index. */
  datatype Constraint = Constraint(sample: nat, cluster: nat)

  /** Every constraint names an existing sample and an existing cluster;
      otherwise numpy's fancy indexing raises an IndexError. */
  predicate Addressable(fixed: seq<Constraint>, n: nat, k: nat) {
    forall j :: 0 <= j < |fixed| ==> fixed[j].sample < n && fixed[j].cluster < k
  }

  /** No constraint names sample s. */
  predicate Unconstrained(fixed: seq<Constraint>, s: nat) {
    forall j :: 0 <= j < |fixed| ==> fixed[j].sample != s
  }

  /** Constraint j is the last one naming its sample. */
  predicate LastFor(fixed: seq<Constraint>, j: nat)
    requires j < |fixed|
  {
    forall j' :: j < j' < |fixed| ==> fixed[j'].sample != fixed[j].sample
  }

  /** A row of k entries, `hot` at position c and `cold` elsewhere. */
  function OneHot<T>(k: nat, c: nat, hot: T, cold: T): (r: seq<T>)
    ensures |r| == k
    ensures c < k ==> r[c] == hot
    ensures forall i :: 0 <= i < k && i != c ==> r[i] == cold
  {
    seq(k, i => if i == c then hot else cold)
  }

  /** What sample s holds once the constraints are written: its own row when
      no constraint names it, else the one-hot row of the last constraint
      that does. */
  function Forced<T>(rows: seq<seq<T>>, fixed: seq<Constraint>, k: nat, hot: T, cold: T, s: nat): seq<T>
    requires s < |rows|
  {
    if Unconstrained(fixed, s) then rows[s]
    else OneHot(k, fixed[LastIndexFor(fixed, s)].cluster, hot, cold)
  }

  /** `rows[fixed[:, 0]] = aux` where aux holds the one-hot rows: the
      constraints are written in order, so when a sample is named twice the
      last constraint wins. */
  function OverrideRows<T>(rows: seq<seq<T>>, fixed: seq<Constraint>, k: nat, hot: T, cold: T): (r: Result<seq<seq<T>>>)
    ensures r.Ok? <==> Addressable(fixed, |rows|, k)
    ensures r.Err? ==> r.error == IndexError
    ensures r.Ok? ==> |r.value| == |rows|
    ensures r.Ok? ==> forall s :: 0 <= s < |rows| ==> r.value[s] == Forced(rows, fixed, k, hot, cold, s)
  {
    if !Addressable(fixed, |rows|, k) then Err(IndexError)
    else
      var r := WriteRows(rows, fixed, k, hot, cold);
      assert forall s :: 0 <= s < |rows| ==> r[s] == Forced(rows, fixed, k, hot, cold, s) by {
        forall s | 0 <= s < |rows|
          ensures r[s] == Forced(rows, fixed, k, hot, cold, s)
        {
          WriteRowsAt(rows, fixed, k, hot, cold, s);
        }
      }
      Ok(r)
  }

  /** The constraints written one after the other. */
  function WriteRows<T>(rows: seq<seq<T>>, fixed: seq<Constraint>, k: nat, hot: T, cold: T): (r: seq<seq<T>>)
    requires Addressable(fixed, |rows|, k)
    ensures |r| == |rows|
    decreases |fixed|
  {
    if |fixed| == 0 then rows
    else
      var c := fixed[|fixed| - 1];
      WriteRows(rows, fixed[..|fixed| - 1], k, hot, cold)[c.sample := OneHot(k, c.cluster, hot, cold)]
  }

  lemma {:induction false} WriteRowsAt<T>(rows: seq<seq<T>>, fixed: seq<Constraint>, k: nat, hot: T, cold: T, s: nat)
    requires Addressable(fixed, |rows|, k) && s < |rows|
    ensures WriteRows(rows, fixed, k, hot, cold)[s] == Forced(rows, fixed, k, hot, cold, s)
    decreases |fixed|
  {
    if |fixed| > 0 {
      var front := fixed[..|fixed| - 1];
      var c := fixed[|fixed| - 1];
      if c.sample != s {
        WriteRowsAt(rows, front, k, hot, cold, s);
        assert forall j :: 0 <= j < |front| ==> front[j] == fixed[j];
        if !Unconstrained(fixed, s) {
          assert LastIndexFor(fixed, s) == LastIndexFor(front, s);
        }
      } else {
        assert !Unconstrained(fixed, s);
      }
    }
  }

  /** Forcing twice is forcing once. */
  lemma OverrideIdempotent<T>(rows: seq<seq<T>>, fixed: seq<Constraint>, k: nat, hot: T, cold: T)
    requires OverrideRows(rows, fixed, k, hot, cold).Ok?
    ensures OverrideRows(OverrideRows(rows, fixed, k, hot, cold).value, fixed, k, hot, cold)
            == OverrideRows(rows, fixed, k, hot, cold)
  {
    var once := OverrideRows(rows, fixed, k, hot, cold).value;
    var twice := OverrideRows(once, fixed, k, hot, cold).value;
    forall s | 0 <= s < |rows|
      ensures twice[s] == once[s]
    {
      assert twice[s] == Forced(once, fixed, k, hot, cold, s);
      assert once[s] == Forced(rows, fixed, k, hot, cold, s);
    }
    assert twice == once;
  }

  /** The last constraint naming a sample that some constraint names. */
  function LastIndexFor(fixed: seq<Constraint>, s: nat): (j: nat)
    requires !Unconstrained(fixed, s)
    ensures j < |fixed| && fixed[j].sample == s && LastFor(fixed, j)
    decreases |fixed|
  {
    if fixed[|fixed| - 1].sample == s then |fixed| - 1
    else
      var front := fixed[..|fixed| - 1];
      assert !Unconstrained(front, s) by {
        var j :| 0 <= j < |fixed| && fixed[j].sample == s;
        assert front[j] == fixed[j];
      }
      LastIndexFor(front, s)
  }

  /** Force the log-responsibilities of the constrained samples: log 1 for
      the known cluster, log 0 for the others. */
  function ForceResponsibilities(logResp: seq<seq<ExtReal>>, fixed: seq<Constraint>, k: nat): (r: Result<seq<seq<ExtReal>>>)
    ensures r.Ok? <==> Addressable(fixed, |logResp|, k)
    ensures r.Ok? ==> |r.value| == |logResp|
    ensures r.Ok? ==> forall s :: 0 <= s < |logResp| && Unconstrained(fixed, s) ==> r.value[s] == logResp[s]
    ensures r.Ok? ==> forall j :: 0 <= j < |fixed| && LastFor(fixed, j) ==>
              r.value[fixed[j].sample] == OneHot(k, fixed[j].cluster, Fin(0.0), NegInf)
  {
    OverrideRows(logResp, fixed, k, Fin(0.0), NegInf)
  }

  /** Force the weight rows of the constrained samples to one-hot rows.
      Weights with one entry per cluster carry no per-sample rows and are
      left alone, as is every weight when there are no constraints. */
  function ForceLocalWeights(w: Weights, fixed: seq<Constraint>, k: nat): (r: Result<Weights>)
    ensures w.PerCluster? ==> r == Ok(w)
    ensures w.PerSample? ==> (r.Ok? <==> Addressable(fixed, |w.rows|, k))
    ensures r.Ok? ==> r.value.PerCluster? == w.PerCluster?
    ensures r.Ok? && w.PerSample? ==> |r.value.rows| == |w.rows|
    ensures r.Ok? && w.PerSample? ==> forall s :: 0 <= s < |w.rows| && Unconstrained(fixed, s) ==>
              r.value.rows[s] == w.rows[s]
    ensures r.Ok? && w.PerSample? ==> forall j :: 0 <= j < |fixed| && LastFor(fixed, j) ==>
              r.value.rows[fixed[j].sample] == OneHot(k, fixed[j].cluster, 1.0, 0.0)
  {
    match w
    case PerCluster(_) => Ok(w)
    case PerSample(rows) =>
      var forced :- OverrideRows(rows, fixed, k, 1.0, 0.0);
      Ok(PerSample(forced))
  }

  lemma {:induction false} OneHotSumsToOne(k: nat, c: nat)
    requires c < k
    ensures Sum(OneHot(k, c, 1.0, 0.0)) == 1.0
    decreases k
  {
    var r := OneHot(k, c, 1.0, 0.0);
    if c == 0 {
      SumConstant(r[1..], 0.0);
    } else {
      OneHotSumsToOne(k - 1, c - 1);
      assert r[1..] == OneHot(k - 1, c - 1, 1.0, 0.0);
    }
  }

  /** Forcing the local weights of valid spatial weights leaves them valid:
      a one-hot row lies in [0, 1] and sums to exactly 1. */
  lemma ForcedWeightsStayValid(w: Weights, fixed: seq<Constraint>, k: nat, n: nat)
    requires ValidWeights(w, k, n)
    requires ForceLocalWeights(w, fixed, k).Ok?
    ensures ValidWeights(ForceLocalWeights(w, fixed, k).value, k, n)
  {
    if w.PerSample? {
      var r := ForceLocalWeights(w, fixed, k).value;
      forall s | 0 <= s < n
        ensures |r.rows[s]| == k && InUnitRange(r.rows[s]) && NearlyOne(r.rows[s])
      {
        if !Unconstrained(fixed, s) {
          var j := LastIndexFor(fixed, s);
          assert r.rows[s] == OneHot(k, fixed[j].cluster, 1.0, 0.0);
          OneHotSumsToOne(k, fixed[j].cluster);
        }
      }
    }
  }
}
