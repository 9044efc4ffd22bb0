// The norm-matching adapter (src/adapter/norm_match.rs). Its source never compares the input with
// `dim`, so neither does the model.

module NormMatch {
  import opened Errors
  import opened Vectors

  datatype NormMatchAdapter = NormMatchAdapter(dim: usize, targetNorm: real)

  function Abs(x: real): real {
    if x >= 0.0 then x else -x
  }

  function Factor(sqrt: real -> real, targetNorm: real, input: Vector): real {
    var currentNorm := Norm(sqrt, input);
    if currentNorm > NORM_FLOOR then targetNorm / currentNorm else 1.0
  }

  function Adapted(sqrt: real -> real, a: NormMatchAdapter, input: Vector): Vector {
    Scale(Factor(sqrt, a.targetNorm, input), input)
  }

  /** Distinct factors move a vector that is not zero to distinct places. */
  lemma ScaleSeparates(sqrt: real -> real, j: real, k: real, v: Vector)
    requires SquareRoot(sqrt) && Norm(sqrt, v) > 0.0 && Scale(j, v) == Scale(k, v)
    ensures j == k
  {
    PositiveNorm(sqrt, v);
    DotScale(j, v, v);
    DotScale(k, v, v);
    CancelFactor(j, k, SumSq(v));
  }

  lemma QuotientTimes(t: real, n: real)
    requires n > 0.0
    ensures Times(t / n, n) == t
    ensures t >= 0.0 ==> t / n >= 0.0
    ensures t < 0.0 ==> t / n < 0.0
  {
  }

  lemma Regroup(x: real, y: real, z: real)
    ensures Times(x, Times(y, z)) == Times(Times(x, y), z)
  {
  }

  lemma QuotientOfUnits(t: real)
    requires t != 0.0
    ensures t / t == 1.0 && t / -t == -1.0
  {
  }

  /** The output has norm |target_norm| as soon as the input norm exceeds the floor, and lies along the
      input or, for a negative target, against it; any other input is returned as it is. */
  lemma OutputNorm(sqrt: real -> real, a: NormMatchAdapter, v: Vector)
    requires SquareRoot(sqrt)
    ensures |Adapted(sqrt, a, v)| == |v|
    ensures Norm(sqrt, v) > NORM_FLOOR ==> Norm(sqrt, Adapted(sqrt, a, v)) == Abs(a.targetNorm)
    ensures Norm(sqrt, v) > NORM_FLOOR ==> Dot(Adapted(sqrt, a, v), v) == Times(a.targetNorm, Norm(sqrt, v))
    ensures Norm(sqrt, v) <= NORM_FLOOR ==> Adapted(sqrt, a, v) == v
  {
    var n := Norm(sqrt, v);
    if n > NORM_FLOOR {
      var k := a.targetNorm / n;
      NormScale(sqrt, k, v);
      QuotientTimes(a.targetNorm, n);
      OutputDot(sqrt, k, v);
    } else {
      ScaleByOne(v);
    }
  }

  lemma OutputDot(sqrt: real -> real, k: real, v: Vector)
    requires SquareRoot(sqrt)
    ensures Dot(Scale(k, v), v) == Times(Times(k, Norm(sqrt, v)), Norm(sqrt, v))
  {
    NormIsRoot(sqrt, v);
    DotScale(k, v, v);
    Regroup(k, Norm(sqrt, v), Norm(sqrt, v));
  }

  /** Adapting twice changes nothing more exactly when the input is below the floor or the target
      norm is not negative (beyond the floor): a negative target flips the vector every time. */
  lemma IdempotentExactly(sqrt: real -> real, a: NormMatchAdapter, v: Vector)
    requires SquareRoot(sqrt)
    ensures Adapted(sqrt, a, Adapted(sqrt, a, v)) == Adapted(sqrt, a, v)
       <==> Norm(sqrt, v) <= NORM_FLOOR || a.targetNorm >= -NORM_FLOOR
  {
    var w := Adapted(sqrt, a, v);
    OutputNorm(sqrt, a, v);
    ScaleByOne(w);
    if Norm(sqrt, v) > NORM_FLOOR && Abs(a.targetNorm) > NORM_FLOOR {
      var again := a.targetNorm / Abs(a.targetNorm);
      assert Adapted(sqrt, a, w) == Scale(again, w);
      QuotientOfUnits(a.targetNorm);
      if a.targetNorm < 0.0 && Scale(again, w) == w {
        ScaleSeparates(sqrt, again, 1.0, w);
      }
    }
  }

  /** The adapter returns its input unchanged exactly when there is nothing to rescale. */
  lemma UnchangedExactly(sqrt: real -> real, a: NormMatchAdapter, v: Vector)
    requires SquareRoot(sqrt)
    ensures Adapted(sqrt, a, v) == v <==> Norm(sqrt, v) <= NORM_FLOOR || Norm(sqrt, v) == a.targetNorm
  {
    OutputNorm(sqrt, a, v);
    ScaleByOne(v);
    var n := Norm(sqrt, v);
    if n > NORM_FLOOR {
      QuotientTimes(a.targetNorm, n);
      QuotientOfUnits(n);
      if Adapted(sqrt, a, v) == v {
        ScaleSeparates(sqrt, a.targetNorm / n, 1.0, v);
      }
    }
  }
}
