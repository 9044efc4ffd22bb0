// Facts that span negotiation, the adapters and the firewall.

module Pipeline {
  import opened Errors
  import opened Vectors
  import Adapter
  import Gate
  import Linear = LinearProjection
  import Negotiate
  import NormMatch
  import Probe

  /** Every entry of `v` is within `b` of zero. */
  ghost predicate Within(v: Vector, b: real) {
    forall i :: 0 <= i < |v| ==> -b <= v[i] <= b
  }

  /** `n` times `s`, added up. */
  function Repeated(n: nat, s: real): real {
    if n == 0 then 0.0 else Repeated(n - 1, s) + s
  }

  lemma {:induction false} RepeatedIsProduct(n: nat, s: real)
    ensures Repeated(n, s) == Times(n as real, s)
  {
    if n > 0 {
      RepeatedIsProduct(n - 1, s);
      assert n as real == (n - 1) as real + 1.0;
      assert ((n - 1) as real + 1.0) * s == (n - 1) as real * s + s;
    }
  }

  lemma {:induction false} SumSqBounded(v: Vector, s: real)
    requires forall i :: 0 <= i < |v| ==> Times(v[i], v[i]) <= s
    ensures SumSq(v) <= Repeated(|v|, s)
  {
    if v != [] {
      SumSqBounded(v[1..], s);
    }
  }

  lemma ProductsOrdered(a: real, a': real, b: real, b': real)
    requires 0.0 <= a <= a' && 0.0 <= b <= b'
    ensures Times(a, b) <= Times(a', b')
  {
    ProductMonotone(a, a', b);
    ProductMonotone(b, b', a');
  }

  /** Cauchy-Schwarz on one row. */
  lemma RowEnergy(row: Vector, x: Vector, e: real, q: real)
    requires |row| == |x| && SumSq(row) <= e && SumSq(x) <= q
    ensures Times(Dot(row, x), Dot(row, x)) <= Times(e, q)
  {
    CauchySchwarz(row, x);
    SumSqNonNegative(row);
    SumSqNonNegative(x);
    ProductsOrdered(SumSq(row), e, SumSq(x), q);
  }

  lemma {:induction false} RowWithin(w: Vector, cols: nat, rows: nat, i: nat, b: real)
    requires Linear.Fits(w, cols, rows) && i < rows && Within(w, b)
    ensures Within(Linear.Row(w, cols, rows, i), b)
    decreases rows
  {
    if i > 0 {
      RowWithin(w[cols..], cols, rows - 1, i - 1, b);
    }
  }

  lemma RowSumSq(w: Vector, cols: nat, rows: nat, i: nat, b: real)
    requires Linear.Fits(w, cols, rows) && i < rows && Within(w, b)
    ensures SumSq(Linear.Row(w, cols, rows, i)) <= Repeated(cols, Times(b, b))
  {
    var row := Linear.Row(w, cols, rows, i);
    RowWithin(w, cols, rows, i, b);
    forall k | 0 <= k < |row| ensures Times(row[k], row[k]) <= Times(b, b) {
      SquareWithin(row[k], b);
    }
    SumSqBounded(row, Times(b, b));
  }

  /** Weights within `b` against a vector of energy at most `q`. */
  lemma ProjectEnergy(w: Vector, cols: nat, rows: nat, x: Vector, b: real, e: real, q: real)
    requires Linear.Fits(w, cols, rows) && |x| == cols && Within(w, b)
    requires e == Repeated(cols, Times(b, b)) && SumSq(x) <= q
    ensures SumSq(Linear.Project(w, cols, rows, x)) <= Repeated(rows, Times(e, q))
  {
    var y := Linear.Project(w, cols, rows, x);
    forall i | 0 <= i < rows ensures Times(y[i], y[i]) <= Times(e, q) {
      Linear.ProjectRow(w, cols, rows, x, i);
      RowSumSq(w, cols, rows, i, b);
      RowEnergy(Linear.Row(w, cols, rows, i), x, e, q);
    }
    SumSqBounded(y, Times(e, q));
  }

  lemma BoundEnergy(sqrt: real -> real, inDim: nat)
    requires SquareRoot(sqrt) && inDim > 0
    ensures Repeated(inDim, Times(Negotiate.Bound(sqrt, inDim), Negotiate.Bound(sqrt, inDim))) == 3.0
  {
    var b := Negotiate.Bound(sqrt, inDim);
    Negotiate.BoundSquared(sqrt, inDim);
    RepeatedIsProduct(inDim, Times(b, b));
  }

  lemma AcceptedEnergy(sqrt: real -> real, fw: Gate.NeuralFirewall, x: Vector)
    requires SquareRoot(sqrt) && Gate.CheckVector(sqrt, fw, x).Ok?
    ensures fw.l2NormMax >= 0.0 && SumSq(x) <= Times(fw.l2NormMax, fw.l2NormMax)
  {
    NormIsRoot(sqrt, x);
    SquareMonotone(Norm(sqrt, x), fw.l2NormMax);
  }

  /** What an adapter over Kaiming weights makes of an accepted vector, if all the weights are there. */
  lemma KaimingEnergy(
    sqrt: real -> real, fw: Gate.NeuralFirewall, start: bv64, sourceDim: usize, targetDim: usize, size: nat, x: Vector)
    requires SquareRoot(sqrt) && Gate.CheckVector(sqrt, fw, x).Ok? && 0 < sourceDim == |x|
    requires size == targetDim * sourceDim
    ensures var w := Negotiate.Weights(start, Negotiate.Bound(sqrt, sourceDim), size);
            Linear.Fits(w, sourceDim, targetDim)
            && SumSq(Linear.Project(w, sourceDim, targetDim, x))
               <= Repeated(targetDim, Times(3.0, Times(fw.l2NormMax, fw.l2NormMax)))
  {
    var b := Negotiate.Bound(sqrt, sourceDim);
    var w := Negotiate.Weights(start, b, size);
    Linear.FitsExactly(w, sourceDim, targetDim);
    Negotiate.BoundSquared(sqrt, sourceDim);
    assert Within(w, b) by {
      forall k | 0 <= k < size ensures -b <= w[k] <= b {
        Negotiate.WeightsWithinBound(start, b, size, k);
      }
    }
    AcceptedEnergy(sqrt, fw, x);
    BoundEnergy(sqrt, sourceDim);
    ProjectEnergy(w, sourceDim, targetDim, x, b, 3.0, Times(fw.l2NormMax, fw.l2NormMax));
  }

  lemma BuiltEnergy(
    sqrt: real -> real, fw: Gate.NeuralFirewall, start: bv64, sourceDim: usize, targetDim: usize, size: nat, x: Vector)
    requires SquareRoot(sqrt) && Gate.CheckVector(sqrt, fw, x).Ok? && 0 < sourceDim == |x|
    requires size == targetDim * sourceDim && size < U64_LIMIT
    ensures var w := Negotiate.Weights(start, Negotiate.Bound(sqrt, sourceDim), size);
            var a := Adapter.FromSpec(Adapter.LinearProjection, sourceDim, targetDim, w);
            a.Ok?
            && var y := a.value.Adapted(sqrt, x);
               y.Ok? && |y.value| == targetDim
               && SumSq(y.value) <= Repeated(targetDim, Times(3.0, Times(fw.l2NormMax, fw.l2NormMax)))
  {
    var w := Negotiate.Weights(start, Negotiate.Bound(sqrt, sourceDim), size);
    KaimingEnergy(sqrt, fw, start, sourceDim, targetDim, size, x);
    Adapter.Built(sourceDim, targetDim, w, size);
  }

  /** Whatever state the generator starts from, and for all dimensions: an adapter over Kaiming weights
      answers an accepted vector of its source dimension exactly when the number of weights does not
      leave the machine word, and then with an energy of at most 3 * target_dim * l2_norm_max^2. */
  lemma ProjectedEnergy(
    sqrt: real -> real, fw: Gate.NeuralFirewall, start: bv64, sourceDim: usize, targetDim: usize, size: nat, x: Vector)
    requires SquareRoot(sqrt) && Gate.CheckVector(sqrt, fw, x).Ok? && 0 < sourceDim == |x|
    requires size == targetDim * sourceDim
    ensures var w := Negotiate.Weights(start, Negotiate.Bound(sqrt, sourceDim), size % U64_LIMIT);
            var a := Linear.New(sourceDim, targetDim, w);
            a.Ok?
            && var y := Linear.Adapted(a.value, x);
            (y.Ok? <==> size < U64_LIMIT)
            && (y.Ok? ==>
                  |y.value| == targetDim
                  && SumSq(y.value) <= Times(targetDim as real, Times(3.0, Times(fw.l2NormMax, fw.l2NormMax))))
  {
    var w := Negotiate.Weights(start, Negotiate.Bound(sqrt, sourceDim), size % U64_LIMIT);
    Linear.NewKeepsWeights(sourceDim, targetDim, w, size);
    if size < U64_LIMIT {
      KaimingEnergy(sqrt, fw, start, sourceDim, targetDim, size, x);
      RepeatedIsProduct(targetDim, Times(3.0, Times(fw.l2NormMax, fw.l2NormMax)));
    } else {
      TooFewWeights(w, sourceDim, targetDim, size);
    }
  }

  lemma TooFewWeights(w: Vector, cols: nat, rows: nat, size: nat)
    requires size == rows * cols && |w| < size
    ensures !Linear.Fits(w, cols, rows)
  {
    Linear.FitsExactly(w, cols, rows);
  }

  /** End to end: for all unequal non-zero dimensions, the adapter built from what negotiation answers
      turns every accepted vector into one of the target dimension, with an energy of at most
      3 * target_dim * l2_norm_max^2. */
  lemma NegotiatedEnergy(
    sqrt: real -> real, fw: Gate.NeuralFirewall, start: bv64, sourceDim: u32, targetDim: u32, x: Vector)
    requires SquareRoot(sqrt) && Gate.CheckVector(sqrt, fw, x).Ok? && |x| == sourceDim
    requires sourceDim != 0 && targetDim != 0 && sourceDim != targetDim
    ensures var r := Negotiate.Negotiated(sqrt, start, sourceDim, targetDim);
            r.Ok?
            && var a := Adapter.FromSpec(r.value.0, sourceDim, targetDim, r.value.1);
               a.Ok?
               && var y := a.value.Adapted(sqrt, x);
                  y.Ok? && |y.value| == targetDim
                  && SumSq(y.value) <= Times(targetDim as real, Times(3.0, Times(fw.l2NormMax, fw.l2NormMax)))
  {
    var size := targetDim * sourceDim;
    ProductOfU32(targetDim, sourceDim);
    Negotiate.NegotiatedAs(sqrt, start, sourceDim, targetDim, size);
    BuiltEnergy(sqrt, fw, start, sourceDim, targetDim, size, x);
    RepeatedIsProduct(targetDim, Times(3.0, Times(fw.l2NormMax, fw.l2NormMax)));
  }

  /** Rescaling to a norm of at least the floor keeps the cosine of every vector above the floor. */
  lemma RescalingKeepsCosine(sqrt: real -> real, p: Probe.SafetyProbe, a: NormMatch.NormMatchAdapter, v: Vector)
    requires SquareRoot(sqrt) && a.targetNorm >= NORM_FLOOR && Norm(sqrt, v) > NORM_FLOOR
    ensures Probe.CosineSimilarity(sqrt, p, NormMatch.Adapted(sqrt, a, v)) == Probe.CosineSimilarity(sqrt, p, v)
  {
    NormMatch.OutputNorm(sqrt, a, v);
    PositiveQuotient(a.targetNorm, Norm(sqrt, v));
    Probe.CosineOfScaled(sqrt, p, a.targetNorm / Norm(sqrt, v), v);
  }

  lemma PositiveQuotient(t: real, n: real)
    requires t > 0.0 && n > 0.0
    ensures t / n > 0.0
  {
  }

  /** So the gate accepts a rescaled vector exactly when the target norm and the old cosine pass. */
  lemma RescaledAcceptedExactly(sqrt: real -> real, fw: Gate.NeuralFirewall, a: NormMatch.NormMatchAdapter, v: Vector)
    requires SquareRoot(sqrt) && a.targetNorm >= NORM_FLOOR && Norm(sqrt, v) > NORM_FLOOR
    ensures Gate.CheckVector(sqrt, fw, NormMatch.Adapted(sqrt, a, v)).Ok?
       <==> a.targetNorm <= fw.l2NormMax
            && (fw.probe.Some? ==> Probe.CosineSimilarity(sqrt, fw.probe.value, v) >= fw.cosineSimMin)
  {
    NormMatch.OutputNorm(sqrt, a, v);
    if fw.probe.Some? {
      RescalingKeepsCosine(sqrt, fw.probe.value, a, v);
    }
  }
}
