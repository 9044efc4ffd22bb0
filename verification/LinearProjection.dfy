// The row-major linear adapter (src/adapter/linear.rs).

module LinearProjection {
  import opened Errors
  import opened Vectors

  datatype LinearProjectionAdapter = LinearProjectionAdapter(sourceDim: usize, targetDim: usize, weights: Vector)

  /** The length check multiplies two 64-bit words, so the expected length wraps. */
  function New(sourceDim: usize, targetDim: usize, weights: Vector): Result<LinearProjectionAdapter> {
    var expected := (sourceDim * targetDim) % U64_LIMIT;
    if |weights| != expected then
      Err(IncompatibleDimensions(AsU32(sourceDim), AsU32(targetDim)))
    else
      Ok(LinearProjectionAdapter(sourceDim, targetDim, weights))
  }

  /** `w` holds `rows` rows of `cols` entries. */
  predicate Fits(w: Vector, cols: nat, rows: nat)
    decreases rows
  {
    rows == 0 || (cols <= |w| && Fits(w[cols..], cols, rows - 1))
  }

  /** Where row `i` starts, counted row by row. */
  function Offset(cols: nat, i: nat): nat {
    if i == 0 then 0 else Offset(cols, i - 1) + cols
  }

  lemma {:induction false} OffsetIsProduct(cols: nat, i: nat)
    ensures Offset(cols, i) == i * cols
  {
    if i > 0 {
      OffsetIsProduct(cols, i - 1);
      assert (i - 1) * cols + cols == i * cols;
    }
  }

  lemma {:induction false} FitsOffset(w: Vector, cols: nat, rows: nat)
    ensures Fits(w, cols, rows) <==> Offset(cols, rows) <= |w|
    decreases rows
  {
    if rows > 0 && cols <= |w| {
      FitsOffset(w[cols..], cols, rows - 1);
    }
  }

  lemma FitsExactly(w: Vector, cols: nat, rows: nat)
    ensures Fits(w, cols, rows) <==> rows * cols <= |w|
  {
    FitsOffset(w, cols, rows);
    OffsetIsProduct(cols, rows);
  }

  /** Row `i` of the matrix of `rows` x `cols` entries stored row by row in `w`. */
  function Row(w: Vector, cols: nat, rows: nat, i: nat): (r: Vector)
    requires Fits(w, cols, rows) && i < rows
    ensures |r| == cols
    decreases rows
  {
    if i == 0 then w[..cols] else Row(w[cols..], cols, rows - 1, i - 1)
  }

  /** A row by its flat index. */
  lemma {:induction false} RowAt(w: Vector, cols: nat, rows: nat, i: nat, from: nat)
    requires Fits(w, cols, rows) && i < rows && from == Offset(cols, i)
    ensures from + cols <= |w| && Row(w, cols, rows, i) == w[from..from + cols]
    decreases rows
  {
    if i > 0 {
      RowAt(w[cols..], cols, rows - 1, i - 1, from - cols);
      assert w[cols..][from - cols..from] == w[from..from + cols];
    }
  }

  /** The product of the `rows` x `cols` matrix stored row by row in `w` with `x`. */
  function Project(w: Vector, cols: nat, rows: nat, x: Vector): (y: Vector)
    requires Fits(w, cols, rows) && |x| == cols
    ensures |y| == rows
    decreases rows
  {
    if rows == 0 then
      []
    else
      [Dot(w[..cols], x)] + Project(w[cols..], cols, rows - 1, x)
  }

  lemma {:induction false} ProjectRow(w: Vector, cols: nat, rows: nat, x: Vector, i: nat)
    requires Fits(w, cols, rows) && |x| == cols && i < rows
    ensures Project(w, cols, rows, x)[i] == Dot(Row(w, cols, rows, i), x)
    decreases rows
  {
    if i > 0 {
      ProjectRow(w[cols..], cols, rows - 1, x, i - 1);
    }
  }

  /** Component `i` is the product of the weights from `from`, that is `i * cols`, on with the input. */
  lemma ProjectAt(w: Vector, cols: nat, rows: nat, x: Vector, i: nat, from: int)
    requires Fits(w, cols, rows) && |x| == cols && i < rows && from == i * cols
    ensures 0 <= from && from + cols <= |w|
    ensures Project(w, cols, rows, x)[i] == Dot(w[from..from + cols], x)
  {
    OffsetIsProduct(cols, i);
    ProjectRow(w, cols, rows, x, i);
    RowAt(w, cols, rows, i, from);
  }

  /** What `adapt` returns, errors included: a struct built without `New` may be too short. */
  function Adapted(a: LinearProjectionAdapter, input: Vector): Result<Vector> {
    if |input| != a.sourceDim then
      Err(IncompatibleDimensions(AsU32(|input|), AsU32(a.sourceDim)))
    else if !Fits(a.weights, a.sourceDim, a.targetDim) then
      Err(Panicked)
    else
      Ok(Project(a.weights, a.sourceDim, a.targetDim, input))
  }

  lemma {:induction false} FitsFewer(w: Vector, cols: nat, rows: nat, i: nat)
    requires Fits(w, cols, rows) && i <= rows
    ensures Fits(w, cols, i)
    decreases rows
  {
    if i > 0 {
      FitsFewer(w[cols..], cols, rows - 1, i - 1);
    }
  }

  lemma {:induction false} ProjectSnoc(w: Vector, cols: nat, i: nat, x: Vector)
    requires Fits(w, cols, i) && Fits(w, cols, i + 1) && |x| == cols
    ensures Project(w, cols, i + 1, x) == Project(w, cols, i, x) + [Dot(Row(w, cols, i + 1, i), x)]
    decreases i
  {
    if i > 0 {
      ProjectSnoc(w[cols..], cols, i - 1, x);
    }
  }

  /** One row more: whether it fits, and what it adds to the product. */
  lemma NextRow(w: Vector, cols: nat, i: nat, x: Vector, from: int)
    requires Fits(w, cols, i) && |x| == cols && from == i * cols
    ensures 0 <= from && (Fits(w, cols, i + 1) <==> from + cols <= |w|)
    ensures from + cols <= |w| ==> Project(w, cols, i + 1, x) == Project(w, cols, i, x) + [Dot(w[from..from + cols], x)]
  {
    OffsetIsProduct(cols, i);
    FitsOffset(w, cols, i + 1);
    if from + cols <= |w| {
      RowAt(w, cols, i + 1, i, from);
      ProjectSnoc(w, cols, i, x);
    }
  }

  method Adapt(a: LinearProjectionAdapter, input: Vector) returns (r: Result<Vector>)
    ensures r == Adapted(a, input)
  {
    if |input| != a.sourceDim {
      return Err(IncompatibleDimensions(AsU32(|input|), AsU32(a.sourceDim)));
    }
    var output := new real[a.targetDim](_ => 0.0);
    for i := 0 to a.targetDim
      invariant Fits(a.weights, a.sourceDim, i) && output[..i] == Project(a.weights, a.sourceDim, i, input)
    {
      var rowStart := i * a.sourceDim;
      NextRow(a.weights, a.sourceDim, i, input, rowStart);
      if rowStart + a.sourceDim > |a.weights| {
        if Fits(a.weights, a.sourceDim, a.targetDim) {
          FitsFewer(a.weights, a.sourceDim, a.targetDim, i + 1);
        }
        return Err(Panicked);
      }
      output[i] := Dot(a.weights[rowStart..rowStart + a.sourceDim], input);
      assert output[..i + 1] == output[..i] + [output[i]];
    }
    assert output[..] == output[..a.targetDim];
    return Ok(output[..]);
  }

  /** `New` vouches for the size of the weights exactly when the product of the dimensions does not
      leave the machine word. */
  lemma NewIsSound(sourceDim: usize, targetDim: usize, weights: Vector)
    requires New(sourceDim, targetDim, weights).Ok?
    ensures |weights| == targetDim * sourceDim <==> sourceDim * targetDim < U64_LIMIT
  {
  }

  /** A list of the expected length is stored as it came. */
  lemma NewKeepsWeights(sourceDim: usize, targetDim: usize, w: Vector, size: nat)
    requires size == targetDim * sourceDim && |w| == size % U64_LIMIT
    ensures New(sourceDim, targetDim, w) == Ok(LinearProjectionAdapter(sourceDim, targetDim, w))
  {
  }

  // ----- linearity in the input

  lemma {:induction false} ProjectIsLinear(w: Vector, cols: nat, rows: nat, a: real, x: Vector, b: real, y: Vector)
    requires Fits(w, cols, rows) && |x| == |y| == cols
    ensures Project(w, cols, rows, Add(Scale(a, x), Scale(b, y)))
         == Add(Scale(a, Project(w, cols, rows, x)), Scale(b, Project(w, cols, rows, y)))
    decreases rows
  {
    if rows > 0 {
      var px, py := Project(w, cols, rows, x), Project(w, cols, rows, y);
      DotIsLinear(w[..cols], a, x, b, y);
      ProjectIsLinear(w[cols..], cols, rows - 1, a, x, b, y);
      assert px[1..] == Project(w[cols..], cols, rows - 1, x);
      assert py[1..] == Project(w[cols..], cols, rows - 1, y);
      CombineCons(a, px, b, py);
      assert Times(a, px[0]) + Times(b, py[0]) == Dot(w[..cols], Add(Scale(a, x), Scale(b, y)));
    }
  }

  lemma DotIsLinear(row: Vector, a: real, x: Vector, b: real, y: Vector)
    requires |row| == |x| == |y|
    ensures Dot(row, Add(Scale(a, x), Scale(b, y))) == Times(a, Dot(row, x)) + Times(b, Dot(row, y))
  {
    DotAddRight(row, Scale(a, x), Scale(b, y));
    DotScaleRight(row, a, x);
    DotScaleRight(row, b, y);
  }

  lemma CombineCons(a: real, x: Vector, b: real, y: Vector)
    requires |x| == |y| > 0
    ensures Add(Scale(a, x), Scale(b, y)) == [Times(a, x[0]) + Times(b, y[0])] + Add(Scale(a, x[1..]), Scale(b, y[1..]))
  {
    var l, r := Add(Scale(a, x), Scale(b, y)), Add(Scale(a, x[1..]), Scale(b, y[1..]));
    ScaleTail(a, x);
    ScaleTail(b, y);
    forall i | 0 <= i < |r| ensures l[1..][i] == r[i] {
      assert Scale(a, x)[1..][i] == Scale(a, x[1..])[i] && Scale(b, y)[1..][i] == Scale(b, y[1..])[i];
    }
    assert l[1..] == r;
    assert l[0] == Scale(a, x)[0] + Scale(b, y)[0] == Times(a, x[0]) + Times(b, y[0]);
  }

  // ----- composition

  /** The combination of the first |c| rows of `w` with the coefficients `c`. */
  function Combine(c: Vector, w: Vector, cols: nat): (r: Vector)
    requires Fits(w, cols, |c|)
    ensures |r| == cols
    decreases |c|
  {
    if c == [] then
      Zeros(cols)
    else
      Add(Scale(c[0], w[..cols]), Combine(c[1..], w[cols..], cols))
  }

  /** The row-major weights of the matrix product of `w2` (p x m) and `w1` (m x n). */
  function Product(w2: Vector, w1: Vector, n: nat, m: nat, p: nat): (w: Vector)
    requires Fits(w2, m, p) && Fits(w1, n, m)
    ensures Fits(w, n, p)
    decreases p
  {
    if p == 0 then
      []
    else
      var row, rest := Combine(w2[..m], w1, n), Product(w2[m..], w1, n, m, p - 1);
      assert (row + rest)[n..] == rest;
      row + rest
  }

  lemma {:induction false} ProductLength(w2: Vector, w1: Vector, n: nat, m: nat, p: nat)
    requires Fits(w2, m, p) && Fits(w1, n, m)
    ensures |Product(w2, w1, n, m, p)| == Offset(n, p)
    decreases p
  {
    if p > 0 {
      ProductLength(w2[m..], w1, n, m, p - 1);
    }
  }

  function Term(c: Vector, w: Vector, cols: nat, j: nat, q: nat): real
    requires q < |c| && j < cols && Fits(w, cols, |c|)
  {
    Times(c[q], Row(w, cols, |c|, q)[j])
  }

  /** The sum of `c[q] * w[q, j]` over q < k. */
  function ColumnSum(c: Vector, w: Vector, cols: nat, j: nat, k: nat): real
    requires k <= |c| && j < cols && Fits(w, cols, |c|)
  {
    if k == 0 then 0.0 else ColumnSum(c, w, cols, j, k - 1) + Term(c, w, cols, j, k - 1)
  }

  lemma TermTail(c: Vector, w: Vector, cols: nat, j: nat, q: nat)
    requires 0 < q < |c| && j < cols && Fits(w, cols, |c|)
    ensures Term(c, w, cols, j, q) == Term(c[1..], w[cols..], cols, j, q - 1)
  {
    assert c[1..][q - 1] == c[q];
  }

  lemma {:induction false} ColumnSumCons(c: Vector, w: Vector, cols: nat, j: nat, k: nat)
    requires 0 < k <= |c| && j < cols && Fits(w, cols, |c|)
    ensures ColumnSum(c, w, cols, j, k) == Term(c, w, cols, j, 0) + ColumnSum(c[1..], w[cols..], cols, j, k - 1)
  {
    if k > 1 {
      ColumnSumCons(c, w, cols, j, k - 1);
      TermTail(c, w, cols, j, k - 1);
    }
  }

  lemma CombineHead(c: Vector, w: Vector, cols: nat, j: nat)
    requires c != [] && j < cols && Fits(w, cols, |c|)
    ensures Combine(c, w, cols)[j] == Term(c, w, cols, j, 0) + Combine(c[1..], w[cols..], cols)[j]
  {
    assert Scale(c[0], w[..cols])[j] == Term(c, w, cols, j, 0);
  }

  lemma {:induction false} CombineAt(c: Vector, w: Vector, cols: nat, j: nat)
    requires j < cols && Fits(w, cols, |c|)
    ensures Combine(c, w, cols)[j] == ColumnSum(c, w, cols, j, |c|)
    decreases |c|
  {
    if c != [] {
      ColumnSumCons(c, w, cols, j, |c|);
      CombineAt(c[1..], w[cols..], cols, j);
      CombineHead(c, w, cols, j);
    }
  }

  lemma {:induction false} ProductRow(w2: Vector, w1: Vector, n: nat, m: nat, p: nat, i: nat)
    requires Fits(w2, m, p) && Fits(w1, n, m) && i < p
    ensures Row(Product(w2, w1, n, m, p), n, p, i) == Combine(Row(w2, m, p, i), w1, n)
    decreases p
  {
    var row, rest := Combine(w2[..m], w1, n), Product(w2[m..], w1, n, m, p - 1);
    assert (row + rest)[..n] == row && (row + rest)[n..] == rest;
    if i > 0 {
      ProductRow(w2[m..], w1, n, m, p - 1, i - 1);
    }
  }

  lemma ProductEntry(w2: Vector, w1: Vector, n: nat, m: nat, p: nat, i: nat, j: nat, from: nat, at: nat)
    requires Fits(w2, m, p) && Fits(w1, n, m) && i < p && j < n
    requires from == Offset(m, i) && at == Offset(n, i) + j
    ensures from + m <= |w2| && at < |Product(w2, w1, n, m, p)|
    ensures Product(w2, w1, n, m, p)[at] == ColumnSum(w2[from..from + m], w1, n, j, m)
  {
    var w, start := Product(w2, w1, n, m, p), Offset(n, i);
    RowAt(w2, m, p, i, from);
    RowAt(w, n, p, i, start);
    assert w[start..start + n][j] == w[at];
    ProductRow(w2, w1, n, m, p, i);
    CombineAt(Row(w2, m, p, i), w1, n, j);
  }

  /** Entry (i, j) of the product, by its flat index, is the sum over q of w2[i, q] * w1[q, j]. */
  lemma ProductAt(w2: Vector, w1: Vector, n: nat, m: nat, p: nat, i: nat, j: nat, from: int, at: int)
    requires Fits(w2, m, p) && Fits(w1, n, m) && i < p && j < n
    requires from == i * m && at == i * n + j
    ensures 0 <= from && from + m <= |w2| && 0 <= at < |Product(w2, w1, n, m, p)|
    ensures Product(w2, w1, n, m, p)[at] == ColumnSum(w2[from..from + m], w1, n, j, m)
  {
    OffsetIsProduct(m, i);
    OffsetIsProduct(n, i);
    ProductEntry(w2, w1, n, m, p, i, j, from, at);
  }

  lemma {:induction false} CombineDot(c: Vector, w: Vector, cols: nat, x: Vector)
    requires Fits(w, cols, |c|) && |x| == cols
    ensures Dot(Combine(c, w, cols), x) == Dot(c, Project(w, cols, |c|, x))
    decreases |c|
  {
    if c == [] {
      DotZeros(x);
    } else {
      var row, rest := w[..cols], Combine(c[1..], w[cols..], cols);
      DotAdd(Scale(c[0], row), rest, x);
      DotScale(c[0], row, x);
      CombineDot(c[1..], w[cols..], cols, x);
      DotCons(c, Dot(row, x), Project(w[cols..], cols, |c| - 1, x));
    }
  }

  /** Projecting twice is projecting once with the product. */
  lemma {:induction false} ProjectCompose(w2: Vector, w1: Vector, n: nat, m: nat, p: nat, x: Vector)
    requires Fits(w2, m, p) && Fits(w1, n, m) && |x| == n
    ensures Project(w2, m, p, Project(w1, n, m, x)) == Project(Product(w2, w1, n, m, p), n, p, x)
    decreases p
  {
    if p > 0 {
      var row, rest := Combine(w2[..m], w1, n), Product(w2[m..], w1, n, m, p - 1);
      assert (row + rest)[..n] == row && (row + rest)[n..] == rest;
      CombineDot(w2[..m], w1, n, x);
      ProjectCompose(w2[m..], w1, n, m, p - 1, x);
    }
  }

  /** Applying two adapters in turn is applying the one whose weights are the flattened product. */
  lemma AdapterComposition(first: LinearProjectionAdapter, second: LinearProjectionAdapter, x: Vector)
    requires |first.weights| == first.targetDim * first.sourceDim
    requires |second.weights| == second.targetDim * second.sourceDim
    requires second.sourceDim == first.targetDim && |x| == first.sourceDim
    ensures Fits(first.weights, first.sourceDim, first.targetDim)
    ensures Fits(second.weights, first.targetDim, second.targetDim)
    ensures var w := Product(second.weights, first.weights, first.sourceDim, first.targetDim, second.targetDim);
            var once := Adapted(LinearProjectionAdapter(first.sourceDim, second.targetDim, w), x);
            var y := Adapted(first, x);
            |w| == second.targetDim * first.sourceDim
            && y.Ok? && once.Ok? && Adapted(second, y.value) == once
  {
    FitsExactly(first.weights, first.sourceDim, first.targetDim);
    FitsExactly(second.weights, first.targetDim, second.targetDim);
    OffsetIsProduct(first.sourceDim, second.targetDim);
    ProductLength(second.weights, first.weights, first.sourceDim, first.targetDim, second.targetDim);
    ProjectCompose(second.weights, first.weights, first.sourceDim, first.targetDim, second.targetDim, x);
  }
}
