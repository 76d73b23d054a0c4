/** `ComputeDistances`: the squared Euclidean distances between two point
    sets, computed in the expanded form |x|^2 + |y|^2 - 2 x.y, and for each
    point of the first set the index of its nearest point in the second. */
module Distances {
  import opened Results
  import opened Numeric
  import opened Selection

  /** A numpy array of one or two dimensions. A matrix keeps its column
      count even when it has no rows. */
  datatype NdArray = Vec(v: seq<real>) | Mat(rows: Matrix, ncols: nat)
  {
    predicate Valid() {
      Mat? ==> IsMatrix(rows, ncols)
    }
  }

  /** `mkvc(a, numDims=2)` for a vector: one point of one feature per entry. */
  function AsColumn(a: NdArray): (m: NdArray)
    requires a.Valid()
    ensures m.Mat? && m.Valid()
    ensures a.Vec? ==> m.ncols == 1 && |m.rows| == |a.v| && forall i :: 0 <= i < |a.v| ==> m.rows[i] == [a.v[i]]
    ensures a.Mat? ==> m == a
  {
    match a
    case Vec(v) => Mat(seq(|v|, i requires 0 <= i < |v| => [v[i]]), 1)
    case Mat(_, _) => a
  }

  function Dot(x: seq<real>, y: seq<real>): real
    requires |x| == |y|
    decreases |x|
  {
    if |x| == 0 then 0.0 else x[0] * y[0] + Dot(x[1..], y[1..])
  }

  /** The squared Euclidean distance, entry by entry. */
  function SqDist(x: seq<real>, y: seq<real>): real
    requires |x| == |y|
    decreases |x|
  {
    if |x| == 0 then 0.0 else (x[0] - y[0]) * (x[0] - y[0]) + SqDist(x[1..], y[1..])
  }

  /** The expanded form the source evaluates with three matrix products. */
  function ExpandedSqDist(x: seq<real>, y: seq<real>): real
    requires |x| == |y|
  {
    Dot(x, x) + Dot(y, y) - 2.0 * Dot(x, y)
  }

  /** The expansion is exact: it is the squared distance. */
  lemma {:induction false} ExpansionIsSqDist(x: seq<real>, y: seq<real>)
    requires |x| == |y|
    ensures ExpandedSqDist(x, y) == SqDist(x, y)
    decreases |x|
  {
    if |x| > 0 {
      ExpansionIsSqDist(x[1..], y[1..]);
      var a, b := x[0], y[0];
      assert (a - b) * (a - b) == a * a + b * b - 2.0 * (a * b);
      assert Dot(x, x) == a * a + Dot(x[1..], x[1..]);
      assert Dot(y, y) == b * b + Dot(y[1..], y[1..]);
      assert Dot(x, y) == a * b + Dot(x[1..], y[1..]);
    }
  }

  lemma {:induction false} SqDistNonNegative(x: seq<real>, y: seq<real>)
    requires |x| == |y|
    ensures 0.0 <= SqDist(x, y)
    decreases |x|
  {
    if |x| > 0 {
      SqDistNonNegative(x[1..], y[1..]);
    }
  }

  lemma {:induction false} SqDistSelf(x: seq<real>)
    ensures SqDist(x, x) == 0.0
    decreases |x|
  {
    if |x| > 0 {
      SqDistSelf(x[1..]);
    }
  }

  /** Squared distances from one point to every row of `ys`. */
  function DistancesFrom(x: seq<real>, ys: Matrix): (r: seq<real>)
    requires forall j :: 0 <= j < |ys| ==> |ys[j]| == |x|
    ensures |r| == |ys|
  {
    seq(|ys|, j requires 0 <= j < |ys| => ExpandedSqDist(x, ys[j]))
  }

  /** Vectors become single-feature columns; different column counts raise;
      an empty second set leaves argmin nothing to choose from. The source
      returns the square roots of the squared distances; the root is not
      modelled. */
  function ComputeDistances(a: NdArray, b: NdArray): (r: Result<(Matrix, seq<nat>)>)
    requires a.Valid() && b.Valid()
    ensures r.Ok? <==> AsColumn(a).ncols == AsColumn(b).ncols && |AsColumn(b).rows| > 0
    ensures AsColumn(a).ncols != AsColumn(b).ncols ==> r == Err(ColumnMismatch)
    ensures AsColumn(a).ncols == AsColumn(b).ncols && |AsColumn(b).rows| == 0 ==> r == Err(EmptyReduction)
    ensures r.Ok? ==> |r.value.0| == |AsColumn(a).rows| && |r.value.1| == |AsColumn(a).rows|
    ensures r.Ok? ==> forall i, j :: 0 <= i < |AsColumn(a).rows| && 0 <= j < |AsColumn(b).rows| ==>
              |r.value.0[i]| == |AsColumn(b).rows| && r.value.0[i][j] == SqDist(AsColumn(a).rows[i], AsColumn(b).rows[j])
    ensures r.Ok? ==> forall i :: 0 <= i < |AsColumn(a).rows| ==> NearestFirst(AsColumn(a).rows[i], AsColumn(b).rows, r.value.1[i])
  {
    var x := AsColumn(a);
    var y := AsColumn(b);
    if x.ncols != y.ncols then Err(ColumnMismatch)
    else if |y.rows| == 0 then Err(EmptyReduction)
    else
      var sq := seq(|x.rows|, i requires 0 <= i < |x.rows| => DistancesFrom(x.rows[i], y.rows));
      var idx := seq(|x.rows|, i requires 0 <= i < |x.rows| => ArgMin(sq[i]));
      assert forall i, j :: 0 <= i < |x.rows| && 0 <= j < |y.rows| ==> sq[i][j] == SqDist(x.rows[i], y.rows[j]) by {
        forall i, j | 0 <= i < |x.rows| && 0 <= j < |y.rows|
          ensures sq[i][j] == SqDist(x.rows[i], y.rows[j])
        {
          ExpansionIsSqDist(x.rows[i], y.rows[j]);
        }
      }
      Ok((sq, idx))
  }

  /** j is the first row of `ys` nearest to x. */
  predicate NearestFirst(x: seq<real>, ys: Matrix, j: nat)
    requires forall k :: 0 <= k < |ys| ==> |ys[k]| == |x|
  {
    && j < |ys|
    && (forall k :: 0 <= k < |ys| ==> SqDist(x, ys[j]) <= SqDist(x, ys[k]))
    && (forall k :: 0 <= k < j ==> SqDist(x, ys[j]) < SqDist(x, ys[k]))
  }

  /** A point that occurs among the targets is at distance 0 from its
      nearest target. */
  lemma ExactHitIsFound(x: seq<real>, ys: Matrix, j: nat, hit: nat)
    requires forall k :: 0 <= k < |ys| ==> |ys[k]| == |x|
    requires NearestFirst(x, ys, j) && hit < |ys| && ys[hit] == x
    ensures SqDist(x, ys[j]) == 0.0 && j <= hit
  {
    SqDistSelf(x);
    SqDistNonNegative(x, ys[j]);
  }
}
