// The safety probe: a unit centroid of reference vectors and the cosine against it
// (src/validation/probe.rs), over exact reals.

module Probe {
  import opened Errors
  import opened Vectors

  datatype CentroidProbe = CentroidProbe(centroid: Vector, dim: nat)
  type SafetyProbe = p: CentroidProbe | |p.centroid| == p.dim witness CentroidProbe([], 0)

  /** A line of the probe file after JSON parsing: blank lines are skipped, a malformed one ends the
      load. */
  datatype ProbeLine = Blank | Malformed | Parsed(row: Vector)

  // ----- what loading computes

  /** The parsed rows in file order. */
  function Rows(lines: seq<ProbeLine>): seq<Vector> {
    if lines == [] then
      []
    else
      var rows := Rows(lines[..|lines| - 1]);
      var last := lines[|lines| - 1];
      if last.Parsed? then rows + [last.row] else rows
  }

  predicate WellFormed(lines: seq<ProbeLine>) {
    Malformed !in lines
  }

  /** The length of the first row that is not empty. */
  function Dimension(rows: seq<Vector>): nat {
    if rows == [] then
      0
    else
      var d := Dimension(rows[..|rows| - 1]);
      if d != 0 then d else |rows[|rows| - 1]|
  }

  function Entry(row: Vector, j: nat): real {
    if j < |row| then row[j] else 0.0
  }

  function ColumnSum(rows: seq<Vector>, j: nat): real {
    if rows == [] then
      0.0
    else
      ColumnSum(rows[..|rows| - 1], j) + Entry(rows[|rows| - 1], j)
  }

  function Sums(rows: seq<Vector>): (s: Vector)
    ensures |s| == Dimension(rows)
  {
    seq(Dimension(rows), j requires 0 <= j < Dimension(rows) => ColumnSum(rows, j))
  }

  function Over(v: Vector, k: real): (r: Vector)
    requires k != 0.0
    ensures |r| == |v|
  {
    seq(|v|, i requires 0 <= i < |v| => v[i] / k)
  }

  /** The mean of the rows, scaled to norm 1 unless it is zero. */
  function Centroid(sqrt: real -> real, sum: Vector, count: nat): (c: Vector)
    requires count > 0
    ensures |c| == |sum|
  {
    var mean := Over(sum, count as real);
    var norm := Norm(sqrt, mean);
    if norm > 0.0 then Over(mean, norm) else mean
  }

  /** `file` is None when the path cannot be read. */
  function Loaded(sqrt: real -> real, file: Option<seq<ProbeLine>>): Result<SafetyProbe> {
    if file.None? || !WellFormed(file.value) || Rows(file.value) == [] then
      Err(Config)
    else
      var rows := Rows(file.value);
      Ok(CentroidProbe(Centroid(sqrt, Sums(rows), |rows|), Dimension(rows)))
  }

  // ----- the loading loops

  /** Adds a row to the running sum, over their common prefix. */
  function AddTruncated(sum: Vector, row: Vector): (r: Vector)
    ensures |r| == |sum|
  {
    seq(|sum|, j requires 0 <= j < |sum| => sum[j] + Entry(row, j))
  }

  method Accumulate(sum: Vector, row: Vector) returns (r: Vector)
    ensures r == AddTruncated(if sum == [] then Zeros(|row|) else sum, row)
  {
    r := sum;
    if r == [] {
      r := Zeros(|row|);
    }
    ghost var before := r;
    var j := 0;
    while j < |r| && j < |row|
      invariant 0 <= j && j <= |r| == |before| && j <= |row|
      invariant forall k :: 0 <= k < j ==> r[k] == before[k] + row[k]
      invariant forall k :: j <= k < |r| ==> r[k] == before[k]
    {
      r := r[j := r[j] + row[j]];
      j := j + 1;
    }
  }

  lemma {:induction false} NoDimensionNoSum(rows: seq<Vector>, j: nat)
    requires Dimension(rows) == 0
    ensures ColumnSum(rows, j) == 0.0
  {
    if rows != [] {
      NoDimensionNoSum(rows[..|rows| - 1], j);
    }
  }

  lemma SumsSnoc(rows: seq<Vector>, row: Vector)
    ensures Sums(rows + [row]) == AddTruncated(if Sums(rows) == [] then Zeros(|row|) else Sums(rows), row)
  {
    var all := rows + [row];
    assert all[..|all| - 1] == rows;
    var l := Sums(all);
    var r := AddTruncated(if Sums(rows) == [] then Zeros(|row|) else Sums(rows), row);
    forall j | 0 <= j < |l| ensures l[j] == r[j] {
      assert ColumnSum(all, j) == ColumnSum(rows, j) + Entry(row, j);
      if Dimension(rows) == 0 {
        NoDimensionNoSum(rows, j);
      }
    }
  }

  method Load(sqrt: real -> real, file: Option<seq<ProbeLine>>) returns (r: Result<SafetyProbe>)
    ensures r == Loaded(sqrt, file)
  {
    if file.None? {
      return Err(Config);
    }
    var lines := file.value;
    var sum: Vector := [];
    var count := 0;
    for i := 0 to |lines|
      invariant WellFormed(lines[..i])
      invariant sum == Sums(Rows(lines[..i])) && count == |Rows(lines[..i])|
    {
      assert lines[..i + 1][..i] == lines[..i];
      match lines[i] {
        case Blank =>
        case Malformed =>
          return Err(Config);
        case Parsed(row) =>
          SumsSnoc(Rows(lines[..i]), row);
          sum := Accumulate(sum, row);
          count := count + 1;
      }
    }
    assert lines[..|lines|] == lines;
    if count == 0 {
      return Err(Config);
    }
    var centroid := Normalise(sqrt, sum, count);
    return Ok(CentroidProbe(centroid, |sum|));
  }

  method Normalise(sqrt: real -> real, sum: Vector, count: nat) returns (r: Vector)
    requires count > 0
    ensures r == Centroid(sqrt, sum, count)
  {
    var mean := Over(sum, count as real);
    var norm := Norm(sqrt, mean);
    r := mean;
    if norm > 0.0 {
      for j := 0 to |r|
        invariant |r| == |mean|
        invariant forall k :: 0 <= k < j ==> r[k] == mean[k] / norm
        invariant forall k :: j <= k < |r| ==> r[k] == mean[k]
      {
        r := r[j := r[j] / norm];
      }
      assert r == Over(mean, norm);
    }
  }

  // ----- the centroid

  lemma OverIsScale(v: Vector, k: real)
    requires k != 0.0
    ensures Over(v, k) == Scale(1.0 / k, v)
  {
    forall i | 0 <= i < |v| ensures Over(v, k)[i] == Scale(1.0 / k, v)[i] {
      DivideIsMultiply(v[i], k);
    }
  }

  lemma DivideIsMultiply(x: real, k: real)
    requires k != 0.0
    ensures x / k == (1.0 / k) * x
  {
  }

  lemma PositiveReciprocal(k: real)
    requires k > 0.0
    ensures 1.0 / k > 0.0 && (1.0 / k) * k == 1.0
  {
  }

  /** The unit vector along `v`. */
  function Direction(sqrt: real -> real, v: Vector): Vector {
    if Norm(sqrt, v) > 0.0 then Over(v, Norm(sqrt, v)) else v
  }

  lemma ReciprocalOfProduct(k: real, n: real)
    requires k > 0.0 && n > 0.0
    ensures k * n > 0.0 && (1.0 / (k * n)) * k == 1.0 / n
  {
    ProductPositive(k, n);
    var q, r := 1.0 / (k * n), 1.0 / n;
    PositiveReciprocal(k * n);
    PositiveReciprocal(n);
    assert (q * k) * n == q * (k * n);
    CancelFactor(q * k, r, n);
  }

  /** The direction of a vector does not change when the vector is stretched. */
  lemma DirectionOfScaled(sqrt: real -> real, k: real, v: Vector)
    requires SquareRoot(sqrt) && k > 0.0
    ensures Direction(sqrt, Scale(k, v)) == Direction(sqrt, v)
  {
    var n := Norm(sqrt, v);
    NormIsRoot(sqrt, v);
    NormScale(sqrt, k, v);
    if n > 0.0 {
      ReciprocalOfProduct(k, n);
      assert Norm(sqrt, Scale(k, v)) == k * n;
      OverIsScale(Scale(k, v), k * n);
      ScaleTwice(1.0 / (k * n), k, 1.0 / n, v);
      OverIsScale(v, n);
    } else {
      ZeroNorm(sqrt, v);
      ScaledZero(k, v);
    }
  }

  lemma ZeroNorm(sqrt: real -> real, v: Vector)
    requires SquareRoot(sqrt) && Norm(sqrt, v) == 0.0
    ensures v == Zeros(|v|)
  {
    NormIsRoot(sqrt, v);
    SumSqZero(v);
  }

  lemma ScaledZero(k: real, v: Vector)
    requires v == Zeros(|v|)
    ensures Scale(k, v) == v
  {
  }

  /** The centroid is the direction of the column sums; the number of rows cancels. */
  lemma CentroidIsDirection(sqrt: real -> real, sum: Vector, count: nat)
    requires SquareRoot(sqrt) && count > 0
    ensures Centroid(sqrt, sum, count) == Direction(sqrt, sum)
  {
    OverIsScale(sum, count as real);
    PositiveReciprocal(count as real);
    DirectionOfScaled(sqrt, 1.0 / count as real, sum);
  }

  ghost predicate UnitOrZero(p: SafetyProbe) {
    SumSq(p.centroid) == 1.0 || p.centroid == Zeros(p.dim)
  }

  lemma DirectionNorm(sqrt: real -> real, v: Vector)
    requires SquareRoot(sqrt)
    ensures v != Zeros(|v|) ==> Norm(sqrt, v) > 0.0 && SumSq(Direction(sqrt, v)) == 1.0
    ensures v == Zeros(|v|) ==> Direction(sqrt, v) == v
  {
    NormIsRoot(sqrt, v);
    SumSqZero(v);
    var n := Norm(sqrt, v);
    if n > 0.0 {
      OverIsScale(v, n);
      SumSqScale(1.0 / n, v);
      SquaredReciprocal(n, SumSq(v));
    } else {
      ZeroNorm(sqrt, v);
    }
    if v == Zeros(|v|) && n > 0.0 {
      PositiveNorm(sqrt, v);
    }
  }

  lemma SquaredReciprocal(n: real, s: real)
    requires n > 0.0 && n * n == s
    ensures (1.0 / n) * (1.0 / n) * s == 1.0
  {
    var r := 1.0 / n;
    PositiveReciprocal(n);
    assert r * r * s == (r * n) * (r * n);
  }

  /** A loaded centroid has norm 1, or is zero because the column sums are; when they are not, it is
      their direction, whatever the number of rows. */
  lemma LoadedCentroid(sqrt: real -> real, file: Option<seq<ProbeLine>>)
    requires SquareRoot(sqrt) && Loaded(sqrt, file).Ok?
    ensures var p, sum := Loaded(sqrt, file).value, Sums(Rows(file.value));
            UnitOrZero(p) && p.centroid == Direction(sqrt, sum)
            && (p.centroid == Zeros(p.dim) <==> sum == Zeros(|sum|))
  {
    var sum := Sums(Rows(file.value));
    CentroidIsDirection(sqrt, sum, |Rows(file.value)|);
    DirectionNorm(sqrt, sum);
    SumSqZero(Direction(sqrt, sum));
  }

  /** A file loads exactly if it can be read, no line is malformed, and there is a row. */
  lemma LoadsExactly(sqrt: real -> real, file: Option<seq<ProbeLine>>)
    ensures Loaded(sqrt, file).Ok?
       <==> file.Some? && Malformed !in file.value && exists row :: Parsed(row) in file.value
    ensures Loaded(sqrt, file).Err? ==> Loaded(sqrt, file).error == Config
  {
    if file.Some? {
      RowsExactly(file.value);
    }
  }

  lemma {:induction false} RowsExactly(lines: seq<ProbeLine>)
    ensures Rows(lines) != [] <==> exists row :: Parsed(row) in lines
  {
    if lines != [] {
      var init, last := lines[..|lines| - 1], lines[|lines| - 1];
      RowsExactly(init);
      assert lines == init + [last];
      assert last.Parsed? ==> Parsed(last.row) in lines;
    }
  }

  /** The first row that is not empty fixes the dimension and is the sum so far; a further row adds its
      components to the sum, one that is missing adds nothing, and one too many is ignored. */
  lemma AppendedRow(rows: seq<Vector>, row: Vector)
    ensures Dimension(rows) == 0 ==> Sums(rows + [row]) == row
    ensures Dimension(rows) != 0 ==>
              |Sums(rows + [row])| == |Sums(rows)|
              && forall j :: 0 <= j < |Sums(rows)| ==>
                   Sums(rows + [row])[j] == if j < |row| then Sums(rows)[j] + row[j] else Sums(rows)[j]
    ensures |row| == Dimension(rows) ==> Sums(rows + [row]) == Add(Sums(rows), row)
  {
    SumsSnoc(rows, row);
  }

  /** A file with one row loads the direction of that row. */
  lemma SingleRow(sqrt: real -> real, row: Vector)
    requires SquareRoot(sqrt)
    ensures var p := Loaded(sqrt, Some([Parsed(row)]));
            p.Ok? && p.value.dim == |row| && p.value.centroid == Direction(sqrt, row)
  {
    RowsOfOne(row);
    SumsOfOne(row);
    CentroidIsDirection(sqrt, row, 1);
  }

  lemma RowsOfOne(row: Vector)
    ensures WellFormed([Parsed(row)]) && Rows([Parsed(row)]) == [row]
  {
    var lines := [Parsed(row)];
    assert lines[..0] == [];
  }

  lemma SumsOfOne(row: Vector)
    ensures Sums([row]) == row
  {
    assert [] + [row] == [row];
    AppendedRow([], row);
  }

  // ----- what the loaded probe does not depend on

  lemma {:induction false} RowsConcat(a: seq<ProbeLine>, b: seq<ProbeLine>)
    ensures Rows(a + b) == Rows(a) + Rows(b)
  {
    if b == [] {
      assert a + b == a;
    } else {
      assert (a + b)[..|a + b| - 1] == a + b[..|b| - 1];
      RowsConcat(a, b[..|b| - 1]);
    }
  }

  lemma {:induction false} ColumnSumConcat(a: seq<Vector>, b: seq<Vector>, j: nat)
    ensures ColumnSum(a + b, j) == ColumnSum(a, j) + ColumnSum(b, j)
  {
    if b == [] {
      assert a + b == a;
    } else {
      assert (a + b)[..|a + b| - 1] == a + b[..|b| - 1];
      ColumnSumConcat(a, b[..|b| - 1], j);
    }
  }

  lemma {:induction false} DimensionConcat(a: seq<Vector>, b: seq<Vector>)
    ensures Dimension(a + b) == if Dimension(a) != 0 then Dimension(a) else Dimension(b)
  {
    if b == [] {
      assert a + b == a;
    } else {
      assert (a + b)[..|a + b| - 1] == a + b[..|b| - 1];
      DimensionConcat(a, b[..|b| - 1]);
    }
  }

  /** Two files whose column sums agree up to a positive factor load the same probe. */
  lemma SameDirectionSameProbe(sqrt: real -> real, a: seq<ProbeLine>, b: seq<ProbeLine>, k: real)
    requires SquareRoot(sqrt) && k > 0.0 && WellFormed(a) && WellFormed(b)
    requires Rows(a) != [] && Rows(b) != [] && Sums(Rows(b)) == Scale(k, Sums(Rows(a)))
    ensures Loaded(sqrt, Some(a)) == Loaded(sqrt, Some(b))
  {
    CentroidIsDirection(sqrt, Sums(Rows(a)), |Rows(a)|);
    CentroidIsDirection(sqrt, Sums(Rows(b)), |Rows(b)|);
    DirectionOfScaled(sqrt, k, Sums(Rows(a)));
  }

  lemma DuplicatedFile(sqrt: real -> real, lines: seq<ProbeLine>)
    requires SquareRoot(sqrt)
    ensures Loaded(sqrt, Some(lines + lines)) == Loaded(sqrt, Some(lines))
  {
    var rows := Rows(lines);
    RowsConcat(lines, lines);
    DimensionConcat(rows, rows);
    if WellFormed(lines) && rows != [] {
      var once, twice := Scale(2.0, Sums(rows)), Sums(rows + rows);
      forall j | 0 <= j < |twice| ensures twice[j] == once[j] {
        ColumnSumConcat(rows, rows, j);
      }
      SameDirectionSameProbe(sqrt, lines, lines + lines, 2.0);
    }
  }

  lemma EmptyRowInSums(a: seq<Vector>, b: seq<Vector>)
    ensures Sums(a + [[]] + b) == Sums(a + b)
  {
    var e: seq<Vector> := [[]];
    assert e[..0] == [];
    DimensionConcat(a, b);
    DimensionConcat(a, e);
    DimensionConcat(a + e, b);
    forall j: nat ensures ColumnSum(a + e + b, j) == ColumnSum(a + b, j) {
      ColumnSumConcat(a, b, j);
      ColumnSumConcat(a, e, j);
      ColumnSumConcat(a + e, b, j);
      NoDimensionNoSum(e, j);
    }
  }

  /** An empty vector anywhere in a file that loads makes no difference. */
  lemma ExtraEmptyRow(sqrt: real -> real, before: seq<ProbeLine>, after: seq<ProbeLine>)
    requires SquareRoot(sqrt) && Loaded(sqrt, Some(before + after)).Ok?
    ensures Loaded(sqrt, Some(before + [Parsed([])] + after)) == Loaded(sqrt, Some(before + after))
  {
    var empty: seq<ProbeLine> := [Parsed([])];
    assert Rows(empty) == [[]] by {
      assert empty[..0] == [];
    }
    RowsConcat(before, after);
    RowsConcat(before, empty);
    RowsConcat(before + empty, after);
    EmptyRowInSums(Rows(before), Rows(after));
    ScaleByOne(Sums(Rows(before + after)));
    SameDirectionSameProbe(sqrt, before + after, before + empty + after, 1.0);
  }

  lemma ColumnSumWithout(rows: seq<Vector>, i: nat, j: nat)
    requires i < |rows|
    ensures ColumnSum(rows, j) == ColumnSum(rows[..i] + rows[i + 1..], j) + Entry(rows[i], j)
  {
    var init, tail := rows[..i], rows[i + 1..];
    assert rows == init + [rows[i]] + tail && (init + [rows[i]])[..i] == init;
    ColumnSumConcat(init + [rows[i]], tail, j);
    ColumnSumConcat(init, tail, j);
  }

  lemma Occurs(rows: seq<Vector>, row: Vector) returns (i: nat)
    requires row in multiset(rows)
    ensures i < |rows| && rows[i] == row
  {
    i :| i < |rows| && rows[i] == row;
  }

  lemma MultisetInit(rows: seq<Vector>)
    requires rows != []
    ensures rows[|rows| - 1] in multiset(rows)
    ensures multiset(rows[..|rows| - 1]) == multiset(rows) - multiset{rows[|rows| - 1]}
  {
    assert rows == rows[..|rows| - 1] + [rows[|rows| - 1]];
  }

  lemma MultisetWithout(rows: seq<Vector>, i: nat)
    requires i < |rows|
    ensures multiset(rows[..i] + rows[i + 1..]) == multiset(rows) - multiset{rows[i]}
  {
    assert rows == rows[..i] + [rows[i]] + rows[i + 1..];
  }

  lemma {:induction false} ColumnSumPermuted(a: seq<Vector>, b: seq<Vector>, j: nat)
    requires multiset(a) == multiset(b)
    ensures ColumnSum(a, j) == ColumnSum(b, j)
    decreases |a|
  {
    if a == [] {
      assert |multiset(b)| == 0;
    } else {
      MultisetInit(a);
      var i := Occurs(b, a[|a| - 1]);
      MultisetWithout(b, i);
      ColumnSumPermuted(a[..|a| - 1], b[..i] + b[i + 1..], j);
      ColumnSumWithout(b, i, j);
    }
  }

  lemma {:induction false} UniformDimension(rows: seq<Vector>, d: nat)
    requires forall r :: r in rows ==> |r| == d
    ensures Dimension(rows) == if rows == [] then 0 else d
  {
    if rows != [] {
      UniformDimension(rows[..|rows| - 1], d);
    }
  }

  /** The order of the rows does not matter exactly when the first row that is not empty has the same
      length in both files. */
  lemma ReorderedFileExactly(sqrt: real -> real, a: seq<ProbeLine>, b: seq<ProbeLine>)
    requires WellFormed(a) && WellFormed(b) && multiset(Rows(a)) == multiset(Rows(b))
    ensures Loaded(sqrt, Some(a)) == Loaded(sqrt, Some(b)) <==> Dimension(Rows(a)) == Dimension(Rows(b))
  {
    var p, q := Rows(a), Rows(b);
    assert |p| == |multiset(p)| == |multiset(q)| == |q|;
    if Dimension(p) == Dimension(q) {
      SameSums(p, q);
    }
  }

  lemma SameSums(p: seq<Vector>, q: seq<Vector>)
    requires multiset(p) == multiset(q) && Dimension(p) == Dimension(q)
    ensures Sums(p) == Sums(q)
  {
    forall j: nat ensures ColumnSum(p, j) == ColumnSum(q, j) {
      ColumnSumPermuted(p, q, j);
    }
  }

  /** So the order of rows of equal length never matters. */
  lemma ReorderedFile(sqrt: real -> real, a: seq<ProbeLine>, b: seq<ProbeLine>, d: nat)
    requires WellFormed(a) && WellFormed(b) && multiset(Rows(a)) == multiset(Rows(b))
    requires forall r :: r in Rows(a) ==> |r| == d
    ensures Loaded(sqrt, Some(a)) == Loaded(sqrt, Some(b))
  {
    forall r | r in Rows(b) ensures |r| == d {
      assert r in multiset(Rows(a));
    }
    assert |Rows(a)| == |multiset(Rows(a))| == |Rows(b)|;
    UniformDimension(Rows(a), d);
    UniformDimension(Rows(b), d);
    ReorderedFileExactly(sqrt, a, b);
  }

  // ----- the cosine

  function CosineSimilarity(sqrt: real -> real, p: SafetyProbe, v: Vector): real {
    if |v| != p.dim then
      0.0
    else
      var dot := Dot(v, p.centroid);
      var normV := Norm(sqrt, v);
      if normV < NORM_FLOOR then 0.0 else dot / normV
  }

  /** Against a loaded centroid the cosine stays within [-1, 1]. */
  lemma CosineRange(sqrt: real -> real, p: SafetyProbe, v: Vector)
    requires SquareRoot(sqrt) && UnitOrZero(p)
    ensures -1.0 <= CosineSimilarity(sqrt, p, v) <= 1.0
  {
    var n := Norm(sqrt, v);
    if |v| == p.dim && n >= NORM_FLOOR {
      CentroidNorm(sqrt, p);
      DotBoundedByNorms(sqrt, v, p.centroid);
      NormIsRoot(sqrt, v);
      var m := Norm(sqrt, p.centroid);
      ShrunkBound(Dot(v, p.centroid), n, m);
      QuotientRange(Dot(v, p.centroid), n);
    }
  }

  lemma CentroidNorm(sqrt: real -> real, p: SafetyProbe)
    requires SquareRoot(sqrt) && UnitOrZero(p)
    ensures 0.0 <= Norm(sqrt, p.centroid) <= 1.0
  {
    NormIsRoot(sqrt, p.centroid);
    SumSqZero(p.centroid);
    SquareReflectsOrder(Norm(sqrt, p.centroid), 1.0);
  }

  lemma ShrunkBound(d: real, n: real, m: real)
    requires n >= 0.0 && m <= 1.0 && -(n * m) <= d <= n * m
    ensures -n <= d <= n
  {
    ProductMonotone(m, 1.0, n);
  }

  lemma QuotientRange(d: real, n: real)
    requires n > 0.0 && -n <= d <= n
    ensures -1.0 <= d / n <= 1.0
  {
  }

  lemma QuotientOfScaled(k: real, d: real, n: real)
    requires k > 0.0 && n > 0.0
    ensures k * n > 0.0 && (k * d) / (k * n) == d / n
  {
    ProductPositive(k, n);
    var q := d / n;
    assert q * n == d;
    assert q * (k * n) == k * d;
  }

  /** Stretching a vector does not change its cosine while both norms are at least the floor. */
  lemma CosineOfScaled(sqrt: real -> real, p: SafetyProbe, k: real, v: Vector)
    requires SquareRoot(sqrt) && k > 0.0
    requires Norm(sqrt, v) >= NORM_FLOOR && Norm(sqrt, Scale(k, v)) >= NORM_FLOOR
    ensures CosineSimilarity(sqrt, p, Scale(k, v)) == CosineSimilarity(sqrt, p, v)
  {
    if |v| == p.dim {
      NormScale(sqrt, k, v);
      DotScale(k, v, p.centroid);
      QuotientOfScaled(k, Dot(v, p.centroid), Norm(sqrt, v));
    }
  }

  // ----- which vectors have which cosine

  /** The cosine times the norm is the component along the centroid. */
  lemma ComponentAlong(sqrt: real -> real, p: SafetyProbe, v: Vector)
    requires |v| == p.dim && Norm(sqrt, v) >= NORM_FLOOR
    ensures Times(Norm(sqrt, v), CosineSimilarity(sqrt, p, v)) == Dot(v, p.centroid)
  {
  }

  /** That component is additive. */
  lemma CosineIsAdditive(sqrt: real -> real, p: SafetyProbe, v: Vector, w: Vector)
    requires |v| == |w| && Norm(sqrt, v) >= NORM_FLOOR && Norm(sqrt, w) >= NORM_FLOOR
    requires Norm(sqrt, Add(v, w)) >= NORM_FLOOR
    ensures Times(Norm(sqrt, Add(v, w)), CosineSimilarity(sqrt, p, Add(v, w)))
         == Times(Norm(sqrt, v), CosineSimilarity(sqrt, p, v)) + Times(Norm(sqrt, w), CosineSimilarity(sqrt, p, w))
  {
    if |v| == p.dim {
      ComponentAlong(sqrt, p, v);
      ComponentAlong(sqrt, p, w);
      ComponentAlong(sqrt, p, Add(v, w));
      DotAdd(v, w, p.centroid);
    }
  }

  lemma Difference(v: Vector, c: Vector, n: real)
    requires |v| == |c| && SumSq(c) == 1.0 && Times(n, n) == SumSq(v)
    ensures SumSq(Add(v, Scale(-n, c))) == 2.0 * SumSq(v) - 2.0 * Times(n, Dot(v, c))
  {
    SumSqAdd(v, Scale(-n, c));
    DotScaleRight(v, -n, c);
    SumSqScale(-n, c);
    TimesNegative(n, Dot(v, c));
    TimesNegative(n, -n);
    TimesNegative(-n, n);
    assert Times(Times(-n, -n), 1.0) == Times(-n, -n);
  }

  lemma TimesNegative(x: real, y: real)
    ensures Times(-x, y) == -Times(x, y) == Times(x, -y)
  {
  }

  lemma SumIsZero(v: Vector, c: Vector, n: real)
    requires |v| == |c|
    ensures Add(v, Scale(-n, c)) == Zeros(|v|) <==> v == Scale(n, c)
  {
    var d := Add(v, Scale(-n, c));
    forall i | 0 <= i < |v| ensures d[i] == 0.0 <==> v[i] == Scale(n, c)[i] {
      assert d[i] == v[i] + Times(-n, c[i]) == v[i] - Times(n, c[i]);
    }
    if d == Zeros(|v|) {
      forall i | 0 <= i < |v| ensures v[i] == Scale(n, c)[i] {
        assert d[i] == 0.0;
      }
    }
  }

  /** Cauchy-Schwarz holds with equality exactly for multiples. */
  lemma MultipleExactly(v: Vector, c: Vector, n: real)
    requires |v| == |c| && SumSq(c) == 1.0 && Times(n, n) == SumSq(v)
    ensures v == Scale(n, c) <==> Times(n, Dot(v, c)) == SumSq(v)
  {
    Difference(v, c, n);
    SumSqZero(Add(v, Scale(-n, c)));
    SumIsZero(v, c, n);
  }

  lemma QuotientIs(d: real, n: real)
    requires n > 0.0
    ensures d / n == 1.0 <==> Times(n, d) == Times(n, n)
    ensures d / n == -1.0 <==> Times(-n, d) == Times(n, n)
    ensures d / n == 0.0 <==> d == 0.0
  {
    var q := d / n;
    assert q * n == d;
    if Times(n, d) == Times(n, n) {
      CancelFactor(d, n, n);
    }
    if Times(-n, d) == Times(n, n) {
      CancelFactor(-d, n, n);
    }
  }

  /** For a unit centroid the cosine is 1 exactly for the vector of the same norm along the centroid, -1
      exactly for the one against it, and 0 exactly for orthogonal vectors. */
  lemma CosineByNorm(sqrt: real -> real, p: SafetyProbe, v: Vector)
    requires SquareRoot(sqrt) && SumSq(p.centroid) == 1.0 && |v| == p.dim && Norm(sqrt, v) >= NORM_FLOOR
    ensures CosineSimilarity(sqrt, p, v) == 1.0 <==> v == Scale(Norm(sqrt, v), p.centroid)
    ensures CosineSimilarity(sqrt, p, v) == -1.0 <==> v == Scale(-Norm(sqrt, v), p.centroid)
    ensures CosineSimilarity(sqrt, p, v) == 0.0 <==> Dot(v, p.centroid) == 0.0
  {
    var n := Norm(sqrt, v);
    NormIsRoot(sqrt, v);
    MultipleExactly(v, p.centroid, n);
    MultipleExactly(v, p.centroid, -n);
    QuotientIs(Dot(v, p.centroid), n);
  }

  /** `v` is the vector `c` stretched by a positive factor. */
  ghost predicate Along(v: Vector, c: Vector) {
    exists k: real :: k > 0.0 && v == Scale(k, c)
  }

  /** `v` is the vector `c` stretched by a negative factor. */
  ghost predicate Against(v: Vector, c: Vector) {
    exists k: real :: k < 0.0 && v == Scale(k, c)
  }

  lemma NormOfMultiple(sqrt: real -> real, c: Vector, k: real)
    requires SquareRoot(sqrt) && SumSq(c) == 1.0
    ensures Norm(sqrt, Scale(k, c)) == if k >= 0.0 then k else -k
  {
    NormScale(sqrt, k, c);
    NormIsRoot(sqrt, c);
    SquareInjective(Norm(sqrt, c), 1.0);
  }

  /** For a loaded probe that is not zero, and a vector of its dimension above the floor: the cosine is 1
      exactly along the centroid, -1 exactly against it, and 0 exactly for orthogonal vectors. */
  lemma CosineExactly(sqrt: real -> real, file: Option<seq<ProbeLine>>, v: Vector)
    requires SquareRoot(sqrt) && Loaded(sqrt, file).Ok? && |v| == Loaded(sqrt, file).value.dim
    requires Loaded(sqrt, file).value.centroid != Zeros(|v|) && Norm(sqrt, v) >= NORM_FLOOR
    ensures var p := Loaded(sqrt, file).value;
            (CosineSimilarity(sqrt, p, v) == 1.0 <==> Along(v, p.centroid))
            && (CosineSimilarity(sqrt, p, v) == -1.0 <==> Against(v, p.centroid))
            && (CosineSimilarity(sqrt, p, v) == 0.0 <==> Dot(v, p.centroid) == 0.0)
  {
    var p := Loaded(sqrt, file).value;
    LoadedCentroid(sqrt, file);
    CosineByNorm(sqrt, p, v);
    assert Norm(sqrt, v) > 0.0;
    if k: real :| k > 0.0 && v == Scale(k, p.centroid) {
      NormOfMultiple(sqrt, p.centroid, k);
    }
    if k: real :| k < 0.0 && v == Scale(k, p.centroid) {
      NormOfMultiple(sqrt, p.centroid, k);
    }
  }

  /** The column sums of a file lie along its centroid, so their cosine is 1; in particular the only row
      of a file has cosine 1. */
  lemma SumsHaveCosineOne(sqrt: real -> real, file: Option<seq<ProbeLine>>)
    requires SquareRoot(sqrt) && Loaded(sqrt, file).Ok?
    requires Norm(sqrt, Sums(Rows(file.value))) >= NORM_FLOOR
    ensures CosineSimilarity(sqrt, Loaded(sqrt, file).value, Sums(Rows(file.value))) == 1.0
  {
    var p, sum := Loaded(sqrt, file).value, Sums(Rows(file.value));
    LoadedCentroid(sqrt, file);
    DirectionNorm(sqrt, sum);
    DirectionTimesNorm(sqrt, sum);
    PositiveNorm(sqrt, sum);
    SumSqZero(sum);
    CosineByNorm(sqrt, p, sum);
  }

  lemma DirectionTimesNorm(sqrt: real -> real, v: Vector)
    requires Norm(sqrt, v) > 0.0
    ensures Scale(Norm(sqrt, v), Direction(sqrt, v)) == v
  {
    var n := Norm(sqrt, v);
    OverIsScale(v, n);
    PositiveReciprocal(n);
    ScaleTwice(n, 1.0 / n, 1.0, v);
    ScaleByOne(v);
  }
}
