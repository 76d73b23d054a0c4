/** Tensor-mesh helpers: cell widths with geometric padding around a
    uniform core (`meshTensors`), nearest-node search (`points2nodes`), and
    the argument checks and axis nodes of the example logically rectangular
    grid (`exampleLrmGrid`). */
module MeshUtils {
  import opened Results
  import opened Numeric
  import opened Distances

  // ---------------------------------------------------------------------
  // meshTensors

  /** The default growth factor of a padding block. */
  const DefaultFactor: real := 1.3

  /** `(numPad, sizeStart [, increaseFactor])`. */
  datatype PadSpec = PadSpec(num: int, start: real, factor: real)

  function PadWithDefaultFactor(num: int, start: real): PadSpec {
    PadSpec(num, start, DefaultFactor)
  }

  /** `(numCore, sizeCore)`. */
  datatype CoreSpec = CoreSpec(num: int, size: real)

  /** One argument tuple: left padding, core, right padding. */
  datatype TensorSpec = TensorSpec(left: PadSpec, core: CoreSpec, right: PadSpec)

  /** What `meshTensors` returns: the bare tensor for a single argument, a
      list of tensors otherwise. */
  datatype Tensors = Single(t: seq<real>) | Several(ts: seq<seq<real>>)

  /** The inner `padding`: entry i is start * factor^i, listed backwards
      when `reverse` is set. A negative count is a negative array dimension. */
  function Padding(p: PadSpec, reverse: bool): (r: Result<seq<real>>)
    ensures r.Ok? <==> 0 <= p.num
    ensures r.Err? ==> r.error == NegativeDimension
    ensures r.Ok? ==> |r.value| == p.num
    ensures r.Ok? && !reverse ==> forall i :: 0 <= i < p.num ==> r.value[i] == p.start * Pow(p.factor, i)
    ensures r.Ok? && reverse ==> forall i :: 0 <= i < p.num ==> r.value[i] == p.start * Pow(p.factor, p.num - 1 - i)
  {
    if p.num < 0 then Err(NegativeDimension)
    else
      var pad := seq(p.num, i requires 0 <= i < p.num => Pow(p.factor, i) * p.start);
      if reverse then Ok(seq(p.num, i requires 0 <= i < p.num => pad[p.num - 1 - i])) else Ok(pad)
  }

  /** `np.ones(numCore) * sizeCore`. */
  function Core(c: CoreSpec): (r: Result<seq<real>>)
    ensures r.Ok? <==> 0 <= c.num
    ensures r.Ok? ==> |r.value| == c.num && forall i :: 0 <= i < c.num ==> r.value[i] == c.size
  {
    if c.num < 0 then Err(NegativeDimension) else Ok(seq(c.num, i => c.size))
  }

  /** One tensor: reversed left padding, the core, right padding. */
  function Tensor(spec: TensorSpec): (r: Result<seq<real>>)
    ensures r.Ok? <==> 0 <= spec.left.num && 0 <= spec.core.num && 0 <= spec.right.num
    ensures r.Ok? ==> |r.value| == spec.left.num + spec.core.num + spec.right.num
  {
    var l :- Padding(spec.left, true);
    var c :- Core(spec.core);
    var rt :- Padding(spec.right, false);
    Ok(l + c + rt)
  }

  /** The widths of a tensor, position by position: the left padding grows
      towards the start, the core is constant, the right padding grows
      towards the end. */
  lemma {:induction false} TensorLayout(spec: TensorSpec)
    requires Tensor(spec).Ok?
    ensures forall i :: 0 <= i < spec.left.num ==>
              Tensor(spec).value[i] == spec.left.start * Pow(spec.left.factor, spec.left.num - 1 - i)
    ensures forall i :: spec.left.num <= i < spec.left.num + spec.core.num ==>
              Tensor(spec).value[i] == spec.core.size
    ensures forall i :: 0 <= i < spec.right.num ==>
              Tensor(spec).value[spec.left.num + spec.core.num + i] == spec.right.start * Pow(spec.right.factor, i)
  {
    var l := Padding(spec.left, true).value;
    var c := Core(spec.core).value;
    var rt := Padding(spec.right, false).value;
    assert Tensor(spec).value == l + c + rt;
  }

  /** Identical left and right padding specifications give a mirror-
      symmetric tensor. */
  lemma {:induction false} MirrorSymmetric(spec: TensorSpec)
    requires Tensor(spec).Ok? && spec.left == spec.right
    ensures forall i :: 0 <= i < |Tensor(spec).value| ==>
              Tensor(spec).value[i] == Tensor(spec).value[|Tensor(spec).value| - 1 - i]
  {
    forall i | 0 <= i < |Tensor(spec).value|
      ensures Tensor(spec).value[i] == Tensor(spec).value[|Tensor(spec).value| - 1 - i]
    {
      MirrorAt(spec, i);
    }
  }

  lemma {:induction false} MirrorAt(spec: TensorSpec, i: nat)
    requires Tensor(spec).Ok? && spec.left == spec.right
    requires i < |Tensor(spec).value|
    ensures Tensor(spec).value[i] == Tensor(spec).value[|Tensor(spec).value| - 1 - i]
  {
    var l := Padding(spec.left, true).value;
    var c := Core(spec.core).value;
    var rt := Padding(spec.right, false).value;
    var t := Tensor(spec).value;
    assert t == l + c + rt;
    var p, m := spec.left.num, spec.core.num;
    var j := |t| - 1 - i;
    if i < p {
      ReversedPadding(spec.left, i);
      assert t[i] == l[i] && t[j] == rt[p - 1 - i];
    } else if i < p + m {
      assert t[i] == c[i - p] && t[j] == c[j - p];
    } else {
      var k := i - p - m;
      ReversedPadding(spec.left, p - 1 - k);
      assert t[i] == rt[k] && t[j] == l[p - 1 - k];
    }
  }

  /** The left block is the right block read backwards. */
  lemma ReversedPadding(p: PadSpec, i: nat)
    requires 0 <= p.num && i < p.num
    ensures Padding(p, true).value[i] == Padding(p, false).value[p.num - 1 - i]
  {
  }

  /** With a factor of at least 1 and a non-negative start, cells get wider
      away from the core. */
  lemma {:induction false} PaddingGrows(p: PadSpec, i: nat)
    requires 0.0 <= p.start && 1.0 <= p.factor && i + 1 < p.num
    ensures Padding(p, false).value[i] <= Padding(p, false).value[i + 1]
  {
    PowNonNegative(p.factor, i);
    assert Pow(p.factor, i + 1) == p.factor * Pow(p.factor, i);
    assert Pow(p.factor, i) <= Pow(p.factor, i + 1);
  }

  lemma {:induction false} PowNonNegative(x: real, n: nat)
    requires 0.0 <= x
    ensures 0.0 <= Pow(x, n)
    decreases n
  {
    if n > 0 {
      PowNonNegative(x, n - 1);
    }
  }

  /** `meshTensors(*args)`: one tensor per argument, in order; the bare
      tensor for one argument; an IndexError for none. */
  function MeshTensors(args: seq<TensorSpec>): (r: Result<Tensors>)
    ensures |args| == 0 ==> r == Err(IndexError)
    ensures r.Ok? <==> 0 < |args| && forall a :: 0 <= a < |args| ==> Tensor(args[a]).Ok?
    ensures r.Ok? && |args| == 1 ==> r.value == Single(Tensor(args[0]).value)
    ensures r.Ok? && |args| > 1 ==> r.value.Several? && |r.value.ts| == |args|
    ensures r.Ok? && |args| > 1 ==> forall a :: 0 <= a < |args| ==> r.value.ts[a] == Tensor(args[a]).value
  {
    var ts :- AllTensors(args);
    if |ts| == 0 then Err(IndexError)
    else if |ts| == 1 then Ok(Single(ts[0]))
    else Ok(Several(ts))
  }

  /** The tensors of the arguments in order; the first failing argument's
      error otherwise. */
  function AllTensors(args: seq<TensorSpec>): (r: Result<seq<seq<real>>>)
    ensures r.Ok? <==> forall a :: 0 <= a < |args| ==> Tensor(args[a]).Ok?
    ensures r.Ok? ==> |r.value| == |args| && forall a :: 0 <= a < |args| ==> r.value[a] == Tensor(args[a]).value
    decreases |args|
  {
    if |args| == 0 then Ok([])
    else
      var t :- Tensor(args[0]);
      var rest :- AllTensors(args[1..]);
      assert forall a :: 1 <= a < |args| ==> args[a] == args[1..][a - 1];
      Ok([t] + rest)
  }

  // ---------------------------------------------------------------------
  // points2nodes

  /** The parts of a mesh the search reads: its type name, its dimension and
      its nodes, one row of `dim` coordinates per node. */
  datatype MeshNodes = MeshNodes(meshType: string, dim: nat, gridN: Matrix)
  {
    predicate Valid() {
      IsMatrix(gridN, dim)
    }
  }

  /** `np.atleast_2d`: a vector becomes a single point (one row). */
  function AtLeast2d(a: NdArray): (m: NdArray)
    requires a.Valid()
    ensures m.Mat? && m.Valid()
    ensures a.Vec? ==> m == Mat([a.v], |a.v|)
    ensures a.Mat? ==> m == a
  {
    match a
    case Vec(v) => Mat([v], |v|)
    case Mat(_, _) => a
  }

  /** `points2nodes`: for every point, the index of the first node nearest
      to it. The two assertions come first; a mesh without nodes leaves
      argmin nothing to choose from when there is a point. */
  function Points2Nodes(mesh: MeshNodes, pts: NdArray): (r: Result<seq<nat>>)
    requires mesh.Valid() && pts.Valid()
    ensures mesh.meshType != "TENSOR" && mesh.meshType != "CYL" ==> r == Err(AssertionFailed)
    ensures AtLeast2d(pts).ncols != mesh.dim ==> r == Err(AssertionFailed)
    ensures r.Ok? <==> (mesh.meshType == "TENSOR" || mesh.meshType == "CYL")
                       && AtLeast2d(pts).ncols == mesh.dim
                       && (|AtLeast2d(pts).rows| == 0 || |mesh.gridN| > 0)
    ensures r.Ok? ==> |r.value| == |AtLeast2d(pts).rows|
    ensures r.Ok? ==> forall i :: 0 <= i < |r.value| ==>
              NearestFirst(AtLeast2d(pts).rows[i], mesh.gridN, r.value[i])
  {
    var p := AtLeast2d(pts);
    if mesh.meshType != "TENSOR" && mesh.meshType != "CYL" then Err(AssertionFailed)
    else if p.ncols != mesh.dim then Err(AssertionFailed)
    else if |p.rows| > 0 && |mesh.gridN| == 0 then Err(EmptyReduction)
    else Ok(seq(|p.rows|, i requires 0 <= i < |p.rows| => NearestNode(p.rows[i], mesh.gridN)))
  }

  /** The first node nearest to one point, by a left-to-right scan. */
  function NearestNode(x: seq<real>, nodes: Matrix): (j: nat)
    requires |nodes| > 0 && forall k :: 0 <= k < |nodes| ==> |nodes[k]| == |x|
    ensures NearestFirst(x, nodes, j)
  {
    NearestFrom(x, nodes, 1, 0)
  }

  /** Scan from node `from` on, with `best` the first nearest node so far. */
  function NearestFrom(x: seq<real>, nodes: Matrix, from: nat, best: nat): (j: nat)
    requires forall k :: 0 <= k < |nodes| ==> |nodes[k]| == |x|
    requires best < from <= |nodes|
    requires NearestFirst(x, nodes[..from], best)
    ensures NearestFirst(x, nodes, j)
    decreases |nodes| - from
  {
    if from == |nodes| then
      assert nodes[..from] == nodes;
      best
    else
      var next := if SqDist(x, nodes[from]) < SqDist(x, nodes[best]) then from else best;
      assert NearestFirst(x, nodes[..from + 1], next) by {
        assert forall k :: 0 <= k < from ==> nodes[..from + 1][k] == nodes[..from][k];
      }
      NearestFrom(x, nodes, from + 1, next)
  }

  // ---------------------------------------------------------------------
  // exampleLrmGrid

  /** The `nC` argument: a Python list of node counts, or anything else. */
  datatype CountsArg = CountsList(counts: seq<int>) | NotAList

  datatype LrmKind = Rect | Rotate

  /** `str.lower` on ASCII letters; other characters are kept. */
  function Lower(s: string): (r: string)
    ensures |r| == |s|
    ensures forall i :: 0 <= i < |s| ==> r[i] == LowerChar(s[i])
  {
    seq(|s|, i requires 0 <= i < |s| => LowerChar(s[i]))
  }

  function LowerChar(c: char): char {
    if 'A' <= c <= 'Z' then (c as int - 'A' as int + 'a' as int) as char else c
  }

  /** Lowering twice is lowering once. */
  lemma LowerIdempotent(s: string)
    ensures Lower(Lower(s)) == Lower(s)
  {
  }

  /** The checks of `exampleLrmGrid`: a list of two or three counts, and a
      type that is "rect" or "rotate" ignoring case. */
  function CheckLrmGridArgs(nC: CountsArg, exType: string): (r: Result<LrmKind>)
    ensures r.Ok? <==> nC.CountsList? && (|nC.counts| == 2 || |nC.counts| == 3)
                       && (Lower(exType) == "rect" || Lower(exType) == "rotate")
    ensures r.Ok? ==> (r.value == Rect <==> Lower(exType) == "rect")
    ensures r.Err? ==> r.error == AssertionFailed
  {
    if !nC.CountsList? then Err(AssertionFailed)
    else if |nC.counts| != 2 && |nC.counts| != 3 then Err(AssertionFailed)
    else
      var t := Lower(exType);
      if t == "rect" then Ok(Rect)
      else if t == "rotate" then Ok(Rotate)
      else Err(AssertionFailed)
  }

  /** The type name is compared without regard to case. */
  lemma CheckIgnoresCase(nC: CountsArg, exType: string)
    ensures CheckLrmGridArgs(nC, exType) == CheckLrmGridArgs(nC, Lower(exType))
  {
    LowerIdempotent(exType);
  }

  /** Running sums, as `np.cumsum`, continuing from `acc`. */
  function CumSum(s: seq<real>, acc: real): (r: seq<real>)
    ensures |r| == |s|
    decreases |s|
  {
    if |s| == 0 then [] else [acc + s[0]] + CumSum(s[1..], acc + s[0])
  }

  /** The running sums of m copies of c, continuing from acc. */
  lemma {:induction false} CumSumOfConstant(s: seq<real>, acc: real, c: real)
    requires forall i :: 0 <= i < |s| ==> s[i] == c
    ensures forall i :: 0 <= i < |s| ==> CumSum(s, acc)[i] == acc + ((i + 1) as real) * c
    decreases |s|
  {
    if |s| > 0 {
      CumSumOfConstant(s[1..], acc + s[0], c);
      var r := CumSum(s, acc);
      forall i | 1 <= i < |s|
        ensures r[i] == acc + ((i + 1) as real) * c
      {
        assert r[i] == CumSum(s[1..], acc + s[0])[i - 1];
        assert ((i + 1) as real) * c == c + (i as real) * c;
      }
    }
  }

  /** The nodes of one axis of the rectangular example grid,
      `np.cumsum(np.r_[0, np.ones(nx)/nx])`: nx + 1 evenly spaced nodes from
      0 to 1. With nx = 0 there is the single node 0. */
  function AxisNodes(nx: int): (r: Result<seq<real>>)
    ensures r.Ok? <==> 0 <= nx
    ensures r.Ok? ==> |r.value| == nx + 1
  {
    if nx < 0 then Err(NegativeDimension)
    else Ok(CumSum([0.0] + seq(nx, i requires 0 <= i < nx => 1.0 / nx as real), 0.0))
  }

  /** Node i of an axis sits at i / nx; the last node is 1. */
  lemma AxisNodesEvenlySpaced(nx: nat)
    ensures forall i :: 0 <= i <= nx ==> AxisNodes(nx).value[i] == (if nx == 0 then 0.0 else (i as real) / (nx as real))
  {
    if nx > 0 {
      var steps := seq(nx, i requires 0 <= i < nx => 1.0 / nx as real);
      CumSumOfConstant(steps, 0.0, 1.0 / nx as real);
      var r := AxisNodes(nx).value;
      assert r == [0.0] + CumSum(steps, 0.0);
      forall i | 1 <= i <= nx
        ensures r[i] == (i as real) / (nx as real)
      {
        assert r[i] == CumSum(steps, 0.0)[i - 1];
      }
    }
  }

  /** The axis nodes of the rectangular example grid, one axis per count. */
  function RectAxes(nC: seq<int>): (r: Result<seq<seq<real>>>)
    ensures r.Ok? <==> forall a :: 0 <= a < |nC| ==> 0 <= nC[a]
    ensures r.Ok? ==> |r.value| == |nC| && forall a :: 0 <= a < |nC| ==> r.value[a] == AxisNodes(nC[a]).value
    decreases |nC|
  {
    if |nC| == 0 then Ok([])
    else
      var first :- AxisNodes(nC[0]);
      var rest :- RectAxes(nC[1..]);
      assert forall a :: 1 <= a < |nC| ==> nC[a] == nC[1..][a - 1];
      Ok([first] + rest)
  }
}
