// Finite-dimensional real vectors: the algebra behind the projection, the gate and the probe.

module Vectors {
  type Vector = seq<real>

  /** A product. Keeping it a function lets the proofs compare products by their factors. */
  function Times(x: real, y: real): real {
    x * y
  }

  /** What the code computes with `zip().map(|(a, b)| a * b).sum()`. */
  function Dot(a: Vector, b: Vector): real
    requires |a| == |b|
  {
    if a == [] then 0.0 else Times(a[0], b[0]) + Dot(a[1..], b[1..])
  }

  function SumSq(v: Vector): real {
    Dot(v, v)
  }

  function Scale(k: real, v: Vector): (r: Vector)
    ensures |r| == |v|
  {
    seq(|v|, i requires 0 <= i < |v| => Times(k, v[i]))
  }

  function Add(a: Vector, b: Vector): (r: Vector)
    requires |a| == |b|
    ensures |r| == |a|
  {
    seq(|a|, i requires 0 <= i < |a| => a[i] + b[i])
  }

  function Zeros(n: nat): (r: Vector)
    ensures |r| == n
  {
    seq(n, i => 0.0)
  }

  /** `sqrt` is the exact square root on the non-negative reals. */
  ghost predicate SquareRoot(sqrt: real -> real) {
    forall x :: x >= 0.0 ==> sqrt(x) >= 0.0 && sqrt(x) * sqrt(x) == x
  }

  /** Norms up to this floor (1e-9) are treated as zero by the norm matcher and by the probe. */
  const NORM_FLOOR: real := 0.000000001

  function Norm(sqrt: real -> real, v: Vector): real {
    sqrt(SumSq(v))
  }

  // ----- real arithmetic

  lemma SquareNonNegative(x: real)
    ensures x * x >= 0.0
  {
  }

  lemma ProductNonNegative(a: real, b: real)
    requires a >= 0.0 && b >= 0.0
    ensures a * b >= 0.0
  {
  }

  lemma ProductMonotone(a: real, b: real, c: real)
    requires a <= b && c >= 0.0
    ensures a * c <= b * c && c * a <= c * b
  {
    assert (b - a) * c >= 0.0;
  }

  lemma SquareMonotone(x: real, y: real)
    requires 0.0 <= x <= y
    ensures x * x <= y * y
  {
    ProductMonotone(x, y, x);
    ProductMonotone(x, y, y);
  }

  lemma ProductPositive(a: real, b: real)
    requires a > 0.0 && b > 0.0
    ensures a * b > 0.0
  {
  }

  lemma SquareOfProduct(a: real, b: real)
    ensures (a * b) * (a * b) == (a * a) * (b * b)
  {
  }

  lemma DifferenceOfSquares(x: real, y: real)
    ensures (x - y) * (x + y) == x * x - y * y
  {
  }

  lemma SquareWithin(x: real, b: real)
    requires -b <= x <= b
    ensures Times(x, x) <= Times(b, b)
  {
    ProductNonNegative(b - x, b + x);
    DifferenceOfSquares(b, x);
  }

  lemma SquareReflectsOrder(x: real, y: real)
    requires y >= 0.0 && x * x <= y * y
    ensures -y <= x <= y
  {
    if x > y {
      DifferenceOfSquares(x, y);
      ProductPositive(x - y, x + y);
    }
    if x < -y {
      DifferenceOfSquares(-x, y);
      ProductPositive(-x - y, -x + y);
    }
  }

  lemma SquareInjective(x: real, y: real)
    requires x >= 0.0 && y >= 0.0 && x * x == y * y
    ensures x == y
  {
    SquareReflectsOrder(x, y);
    SquareReflectsOrder(y, x);
  }

  lemma CancelFactor(j: real, k: real, s: real)
    requires s > 0.0 && Times(j, s) == Times(k, s)
    ensures j == k
  {
    assert (j - k) * s == 0.0;
  }

  // ----- linearity

  lemma {:induction false} DotCommutes(a: Vector, b: Vector)
    requires |a| == |b|
    ensures Dot(a, b) == Dot(b, a)
  {
    if a != [] {
      DotCommutes(a[1..], b[1..]);
    }
  }

  lemma ScaleTail(k: real, a: Vector)
    requires a != []
    ensures Scale(k, a)[1..] == Scale(k, a[1..])
  {
    forall i | 0 <= i < |a| - 1 ensures Scale(k, a)[1..][i] == Scale(k, a[1..])[i] {
      assert a[1..][i] == a[i + 1];
    }
  }

  lemma {:induction false} DotScale(k: real, a: Vector, b: Vector)
    requires |a| == |b|
    ensures Dot(Scale(k, a), b) == Times(k, Dot(a, b))
  {
    if a != [] {
      ScaleTail(k, a);
      DotScale(k, a[1..], b[1..]);
      FactorOut(k, a[0], b[0], Dot(a[1..], b[1..]));
    }
  }

  lemma {:induction false} DotAdd(a: Vector, b: Vector, c: Vector)
    requires |a| == |b| == |c|
    ensures Dot(Add(a, b), c) == Dot(a, c) + Dot(b, c)
  {
    if a != [] {
      assert Add(a, b)[1..] == Add(a[1..], b[1..]);
      DotAdd(a[1..], b[1..], c[1..]);
    }
  }

  lemma {:induction false} DotScaleRight(a: Vector, k: real, b: Vector)
    requires |a| == |b|
    ensures Dot(a, Scale(k, b)) == Times(k, Dot(a, b))
  {
    if a != [] {
      ScaleTail(k, b);
      DotScaleRight(a[1..], k, b[1..]);
      FactorOut(k, a[0], b[0], Dot(a[1..], b[1..]));
    }
  }

  lemma FactorOut(k: real, x: real, y: real, d: real)
    ensures Times(Times(k, x), y) + Times(k, d) == Times(k, Times(x, y) + d)
    ensures Times(x, Times(k, y)) + Times(k, d) == Times(k, Times(x, y) + d)
  {
  }

  lemma DotCons(c: Vector, y: real, rest: Vector)
    requires |c| == |rest| + 1
    ensures Dot(c, [y] + rest) == Times(c[0], y) + Dot(c[1..], rest)
  {
    assert ([y] + rest)[1..] == rest;
  }

  lemma DotAddRight(a: Vector, b: Vector, c: Vector)
    requires |a| == |b| == |c|
    ensures Dot(a, Add(b, c)) == Dot(a, b) + Dot(a, c)
  {
    DotCommutes(a, Add(b, c));
    DotAdd(b, c, a);
    DotCommutes(a, b);
    DotCommutes(a, c);
  }

  lemma {:induction false} DotZeros(a: Vector)
    ensures Dot(Zeros(|a|), a) == 0.0
  {
    if a != [] {
      assert Zeros(|a|)[1..] == Zeros(|a[1..]|);
      DotZeros(a[1..]);
    }
  }

  /** The vector with a 1 at position `i` and zeros elsewhere. */
  function UnitVector(n: nat, i: nat): (r: Vector)
    ensures |r| == n
  {
    seq(n, j => if j == i then 1.0 else 0.0)
  }

  /** The product with a unit vector picks a component. */
  lemma {:induction false} DotUnit(i: nat, v: Vector)
    requires i < |v|
    ensures Dot(UnitVector(|v|, i), v) == v[i]
    decreases i
  {
    var e := UnitVector(|v|, i);
    if i == 0 {
      assert e[1..] == Zeros(|v[1..]|);
      DotZeros(v[1..]);
    } else {
      assert e[1..] == UnitVector(|v[1..]|, i - 1);
      DotUnit(i - 1, v[1..]);
    }
  }

  lemma ScaleByOne(v: Vector)
    ensures Scale(1.0, v) == v
  {
  }

  lemma ScaleTwice(j: real, k: real, m: real, v: Vector)
    requires j * k == m
    ensures Scale(j, Scale(k, v)) == Scale(m, v)
  {
    forall i | 0 <= i < |v| ensures Scale(j, Scale(k, v))[i] == Scale(m, v)[i] {
      assert Scale(j, Scale(k, v))[i] == j * (k * v[i]) == (j * k) * v[i];
    }
  }

  lemma SumSqScale(k: real, v: Vector)
    ensures SumSq(Scale(k, v)) == Times(Times(k, k), SumSq(v))
  {
    var w := Scale(k, v);
    DotScale(k, v, w);
    DotCommutes(v, w);
    DotScale(k, v, v);
    assert k * (k * SumSq(v)) == k * k * SumSq(v);
  }

  lemma SumSqAdd(a: Vector, b: Vector)
    requires |a| == |b|
    ensures SumSq(Add(a, b)) == SumSq(a) + 2.0 * Dot(a, b) + SumSq(b)
  {
    var c := Add(a, b);
    DotAdd(a, b, c);
    DotCommutes(a, c);
    DotCommutes(b, c);
    DotAdd(a, b, a);
    DotAdd(a, b, b);
    DotCommutes(a, b);
  }

  lemma {:induction false} SumSqNonNegative(v: Vector)
    ensures SumSq(v) >= 0.0
  {
    if v != [] {
      SquareNonNegative(v[0]);
      SumSqNonNegative(v[1..]);
    }
  }

  lemma {:induction false} SumSqZero(v: Vector)
    ensures SumSq(v) == 0.0 <==> v == Zeros(|v|)
  {
    if v != [] {
      SquareNonNegative(v[0]);
      SumSqNonNegative(v[1..]);
      SumSqZero(v[1..]);
      assert v == [v[0]] + v[1..];
      assert Zeros(|v|) == [0.0] + Zeros(|v[1..]|);
      if SumSq(v) == 0.0 {
        SquareReflectsOrder(v[0], 0.0);
      }
    }
  }

  // ----- Cauchy-Schwarz and the triangle inequality, for vectors of any length

  lemma CauchySchwarzStep(x: real, y: real, d: real, p: real, q: real)
    requires p >= 0.0 && q >= 0.0 && d * d <= p * q
    ensures (x * y + d) * (x * y + d) <= (x * x + p) * (y * y + q)
  {
    var s, t := x * x * q, y * y * p;
    SquareNonNegative(x);
    SquareNonNegative(y);
    assert s >= 0.0 && t >= 0.0;
    var m := 2.0 * (x * y) * d;
    assert m <= s + t by {
      assert m * m == 4.0 * ((x * y) * (x * y)) * (d * d);
      SquareNonNegative(x * y);
      ProductMonotone(d * d, p * q, 4.0 * ((x * y) * (x * y)));
      assert 4.0 * ((x * y) * (x * y)) * (p * q) == 4.0 * s * t;
      assert (s + t) * (s + t) - 4.0 * s * t == (s - t) * (s - t);
      SquareNonNegative(s - t);
      SquareReflectsOrder(m, s + t);
    }
    assert (x * y + d) * (x * y + d) == (x * y) * (x * y) + m + d * d;
    assert (x * x + p) * (y * y + q) == (x * y) * (x * y) + s + t + p * q;
  }

  lemma {:induction false} CauchySchwarz(a: Vector, b: Vector)
    requires |a| == |b|
    ensures Times(Dot(a, b), Dot(a, b)) <= Times(SumSq(a), SumSq(b))
  {
    if a != [] {
      CauchySchwarz(a[1..], b[1..]);
      SumSqNonNegative(a[1..]);
      SumSqNonNegative(b[1..]);
      CauchySchwarzStep(a[0], b[0], Dot(a[1..], b[1..]), SumSq(a[1..]), SumSq(b[1..]));
    }
  }

  // ----- norms

  lemma NormIsRoot(sqrt: real -> real, v: Vector)
    requires SquareRoot(sqrt)
    ensures Norm(sqrt, v) >= 0.0
    ensures Norm(sqrt, v) * Norm(sqrt, v) == SumSq(v)
  {
    SumSqNonNegative(v);
  }

  lemma PositiveNorm(sqrt: real -> real, v: Vector)
    requires SquareRoot(sqrt) && Norm(sqrt, v) > 0.0
    ensures SumSq(v) > 0.0
  {
    NormIsRoot(sqrt, v);
    SumSqNonNegative(v);
    if SumSq(v) == 0.0 {
      SquareReflectsOrder(Norm(sqrt, v), 0.0);
    }
  }

  lemma NormScale(sqrt: real -> real, k: real, v: Vector)
    requires SquareRoot(sqrt)
    ensures Norm(sqrt, Scale(k, v)) == (if k >= 0.0 then k else -k) * Norm(sqrt, v)
  {
    var n, m := Norm(sqrt, v), Norm(sqrt, Scale(k, v));
    var abs := if k >= 0.0 then k else -k;
    NormIsRoot(sqrt, v);
    NormIsRoot(sqrt, Scale(k, v));
    SumSqScale(k, v);
    assert (abs * n) * (abs * n) == k * k * (n * n);
    assert abs * n >= 0.0;
    SquareInjective(m, abs * n);
  }

  lemma BoundFromSquares(d: real, n: real, m: real, p: real, q: real)
    requires n >= 0.0 && m >= 0.0 && n * n == p && m * m == q && d * d <= p * q
    ensures -(n * m) <= d <= n * m
  {
    SquareOfProduct(n, m);
    ProductMonotone(0.0, n, m);
    SquareReflectsOrder(d, n * m);
  }

  lemma NormStretch(sqrt: real -> real, k: real, v: Vector)
    requires SquareRoot(sqrt) && k >= 0.0
    ensures Norm(sqrt, Scale(k, v)) == Times(k, Norm(sqrt, v))
  {
    NormScale(sqrt, k, v);
  }

  lemma DotBounded(a: Vector, b: Vector, n: real, m: real)
    requires |a| == |b| && n >= 0.0 && m >= 0.0 && n * n == SumSq(a) && m * m == SumSq(b)
    ensures -(n * m) <= Dot(a, b) <= n * m
  {
    CauchySchwarz(a, b);
    BoundFromSquares(Dot(a, b), n, m, SumSq(a), SumSq(b));
  }

  lemma DotBoundedByNorms(sqrt: real -> real, a: Vector, b: Vector)
    requires SquareRoot(sqrt) && |a| == |b|
    ensures -(Norm(sqrt, a) * Norm(sqrt, b)) <= Dot(a, b) <= Norm(sqrt, a) * Norm(sqrt, b)
  {
    NormIsRoot(sqrt, a);
    NormIsRoot(sqrt, b);
    DotBounded(a, b, Norm(sqrt, a), Norm(sqrt, b));
  }

  lemma Triangle(sqrt: real -> real, a: Vector, b: Vector)
    requires SquareRoot(sqrt) && |a| == |b|
    ensures Norm(sqrt, Add(a, b)) <= Norm(sqrt, a) + Norm(sqrt, b)
  {
    var n, m, s := Norm(sqrt, a), Norm(sqrt, b), Norm(sqrt, Add(a, b));
    NormIsRoot(sqrt, a);
    NormIsRoot(sqrt, b);
    NormIsRoot(sqrt, Add(a, b));
    SumSqAdd(a, b);
    DotBoundedByNorms(sqrt, a, b);
    assert (n + m) * (n + m) == n * n + 2.0 * (n * m) + m * m;
    SquareReflectsOrder(s, n + m);
  }
}
