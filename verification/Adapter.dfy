// Choosing an adapter from its wire description (src/adapter/mod.rs).

module Adapter {
  import opened Errors
  import opened Vectors
  import Linear = LinearProjection
  import NormMatch

  datatype AdapterVariant = Identity | LinearProjection | NormMatch

  /** The two implementations behind the `ManifoldAdapter` trait object. */
  datatype Manifold =
    | Projecting(linear: Linear.LinearProjectionAdapter)
    | Rescaling(norm: NormMatch.NormMatchAdapter)
  {
    function SourceDim(): usize {
      match this
      case Projecting(a) => a.sourceDim
      case Rescaling(a) => a.dim
    }

    function TargetDim(): usize {
      match this
      case Projecting(a) => a.targetDim
      case Rescaling(a) => a.dim
    }

    function Adapted(sqrt: real -> real, input: Vector): Result<Vector> {
      match this
      case Projecting(a) => Linear.Adapted(a, input)
      case Rescaling(a) => Ok(NormMatch.Adapted(sqrt, a, input))
    }
  }

  function FromSpec(variant: AdapterVariant, sourceDim: usize, targetDim: usize, weights: Vector): Result<Manifold> {
    match variant
    case Identity =>
      Ok(Rescaling(NormMatch.NormMatchAdapter(sourceDim, 1.0)))
    case LinearProjection =>
      var a :- Linear.New(sourceDim, targetDim, weights);
      Ok(Projecting(a))
    case NormMatch =>
      var targetNorm := if |weights| == 1 then weights[0] else 1.0;
      Ok(Rescaling(NormMatch.NormMatchAdapter(sourceDim, targetNorm)))
  }

  /** The adapter built for `Identity` is no passthrough: it rescales to the unit sphere, and so
      returns its input exactly when the norm is 1 or at most the floor. */
  lemma IdentityIsUnitRescaler(sqrt: real -> real, sourceDim: usize, targetDim: usize, weights: Vector, v: Vector)
    requires SquareRoot(sqrt)
    ensures var a := FromSpec(Identity, sourceDim, targetDim, weights);
            a.Ok? && a.value.Adapted(sqrt, v).Ok?
            && (a.value.Adapted(sqrt, v) == Ok(v) <==> Norm(sqrt, v) <= NORM_FLOOR || Norm(sqrt, v) == 1.0)
  {
    NormMatch.UnchangedExactly(sqrt, NormMatch.NormMatchAdapter(sourceDim, 1.0), v);
  }

  /** Whatever weights come with `NormMatch`, the output norm of a vector above the floor is the size of
      the only weight, or 1 if there is not exactly one, and a negative weight turns the vector round. */
  lemma NormMatchFromSpec(sqrt: real -> real, sourceDim: usize, targetDim: usize, weights: Vector, v: Vector)
    requires SquareRoot(sqrt) && Norm(sqrt, v) > NORM_FLOOR
    ensures var a := FromSpec(NormMatch, sourceDim, targetDim, weights);
            a.Ok? && a.value.Adapted(sqrt, v).Ok?
            && var y, target := a.value.Adapted(sqrt, v).value, if |weights| == 1 then weights[0] else 1.0;
               |y| == |v| && Norm(sqrt, y) == NormMatch.Abs(target) && Dot(y, v) == Times(target, Norm(sqrt, v))
  {
    var targetNorm := if |weights| == 1 then weights[0] else 1.0;
    NormMatch.OutputNorm(sqrt, NormMatch.NormMatchAdapter(sourceDim, targetNorm), v);
  }

  lemma Built(sourceDim: usize, targetDim: usize, w: Vector, size: nat)
    requires size == targetDim * sourceDim && |w| == size < U64_LIMIT
    ensures FromSpec(LinearProjection, sourceDim, targetDim, w)
         == Ok(Projecting(Linear.LinearProjectionAdapter(sourceDim, targetDim, w)))
    ensures Linear.Fits(w, sourceDim, targetDim)
  {
    Linear.NewKeepsWeights(sourceDim, targetDim, w, size);
    Linear.FitsExactly(w, sourceDim, targetDim);
  }

  /** The adapter that `from_spec` builds from the weights of a projection answers, component by
      component, with the products of the rows of those weights and the input. */
  lemma ProjectionAt(
    sqrt: real -> real, sourceDim: usize, targetDim: usize, w: Vector, size: nat, x: Vector, i: nat, from: int)
    requires size == targetDim * sourceDim && |w| == size < U64_LIMIT && |x| == sourceDim
    requires i < targetDim && from == i * sourceDim
    ensures 0 <= from && from + sourceDim <= |w|
    ensures var a := FromSpec(LinearProjection, sourceDim, targetDim, w);
            a.Ok? && a.value.SourceDim() == sourceDim && a.value.TargetDim() == targetDim
            && var y := a.value.Adapted(sqrt, x);
               y.Ok? && |y.value| == targetDim && y.value[i] == Dot(w[from..from + sourceDim], x)
  {
    Built(sourceDim, targetDim, w, size);
    Linear.ProjectAt(w, sourceDim, targetDim, x, i, from);
  }

  /** `w` lists the rows of the identity matrix. */
  ghost predicate IdentityRows(w: Vector, n: nat) {
    Linear.Fits(w, n, n) && forall i :: 0 <= i < n ==> Linear.Row(w, n, n, i) == UnitVector(n, i)
  }

  /** A projection by the identity matrix returns every input of its dimension. */
  lemma IdentityMatrix(sqrt: real -> real, n: usize, w: Vector, size: nat, x: Vector)
    requires size == n * n && |w| == size < U64_LIMIT && IdentityRows(w, n) && |x| == n
    ensures var a := FromSpec(LinearProjection, n, n, w);
            a.Ok? && a.value.Adapted(sqrt, x) == Ok(x)
  {
    Built(n, n, w, size);
    var y := Linear.Project(w, n, n, x);
    forall i | 0 <= i < n ensures y[i] == x[i] {
      Linear.ProjectRow(w, n, n, x, i);
      DotUnit(i, x);
    }
    assert y == x;
  }

  /** Two projections in turn are the projection built from the flattened product of their weights. */
  lemma ProjectionsCompose(
    sqrt: real -> real, n: usize, m: usize, p: usize, w1: Vector, w2: Vector, s1: nat, s2: nat, s: nat, x: Vector)
    requires s1 == m * n && s2 == p * m && s == p * n && |w1| == s1 && |w2| == s2
    requires s1 < U64_LIMIT && s2 < U64_LIMIT && s < U64_LIMIT && |x| == n
    ensures Linear.Fits(w1, n, m) && Linear.Fits(w2, m, p)
    ensures var first, second := FromSpec(LinearProjection, n, m, w1), FromSpec(LinearProjection, m, p, w2);
            var both := FromSpec(LinearProjection, n, p, Linear.Product(w2, w1, n, m, p));
            first.Ok? && second.Ok? && both.Ok?
            && var y := first.value.Adapted(sqrt, x);
               y.Ok? && both.value.Adapted(sqrt, x).Ok?
               && second.value.Adapted(sqrt, y.value) == both.value.Adapted(sqrt, x)
  {
    Built(n, m, w1, s1);
    Built(m, p, w2, s2);
    var w := Linear.Product(w2, w1, n, m, p);
    Linear.OffsetIsProduct(n, p);
    Linear.ProductLength(w2, w1, n, m, p);
    Built(n, p, w, s);
    Linear.ProjectCompose(w2, w1, n, m, p, x);
  }
}
