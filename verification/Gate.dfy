// The neural firewall (src/validation/gate.rs), over exact reals.

module Gate {
  import opened Errors
  import opened Vectors
  import opened Primitives
  import Probe

  datatype NeuralFirewall = NeuralFirewall(l2NormMax: real, cosineSimMin: real, probe: Option<Probe.SafetyProbe>)

  /** `probeFile` is None without a probe path, and Some(None) when the path cannot be read. */
  function New(sqrt: real -> real, l2NormMax: real, cosineSimMin: real, probeFile: Option<Option<seq<Probe.ProbeLine>>>)
    : Result<NeuralFirewall>
  {
    if probeFile.None? then
      Ok(NeuralFirewall(l2NormMax, cosineSimMin, None))
    else
      var p :- Probe.Loaded(sqrt, probeFile.value);
      Ok(NeuralFirewall(l2NormMax, cosineSimMin, Some(p)))
  }

  function CheckVector(sqrt: real -> real, fw: NeuralFirewall, v: Vector): Result<()> {
    var l2 := Norm(sqrt, v);
    if l2 > fw.l2NormMax then
      Err(OffManifold(l2, 0.0))
    else if fw.probe.None? then
      Ok(())
    else
      var cosine := Probe.CosineSimilarity(sqrt, fw.probe.value, v);
      if cosine < fw.cosineSimMin then Err(OffManifold(l2, cosine)) else Ok(())
  }

  function Validate(sqrt: real -> real, fw: NeuralFirewall, payload: PrimitivePayload<real>): Result<()> {
    match payload
    case HiddenState(v) => CheckVector(sqrt, fw, v)
    case LatentThought(v) => CheckVector(sqrt, fw, v)
    case KvCachePayload(kv) =>
      var _ :- CheckVector(sqrt, fw, kv.keys);
      CheckVector(sqrt, fw, kv.values)
  }

  /** The vectors of a payload: a KV cache has two. */
  function Parts(payload: PrimitivePayload<real>): seq<Vector> {
    match payload
    case HiddenState(v) => [v]
    case LatentThought(v) => [v]
    case KvCachePayload(kv) => [kv.keys, kv.values]
  }

  /** A payload is accepted exactly if each of its vectors is within the norm and, with a probe, at
      least as close to the centroid as the threshold. */
  lemma AcceptedExactly(sqrt: real -> real, fw: NeuralFirewall, payload: PrimitivePayload<real>)
    ensures Validate(sqrt, fw, payload).Ok?
       <==> forall v :: v in Parts(payload) ==>
              Norm(sqrt, v) <= fw.l2NormMax
              && (fw.probe.Some? ==> Probe.CosineSimilarity(sqrt, fw.probe.value, v) >= fw.cosineSimMin)
  {
    assert forall v :: v in Parts(payload) ==> (CheckVector(sqrt, fw, v).Ok? <==>
        Norm(sqrt, v) <= fw.l2NormMax
        && (fw.probe.Some? ==> Probe.CosineSimilarity(sqrt, fw.probe.value, v) >= fw.cosineSimMin));
    if payload.KvCachePayload? {
      assert payload.kv.keys in Parts(payload) && payload.kv.values in Parts(payload);
    }
  }

  /** A refusal is about the first vector that fails, and reports its norm and, when the norm was not to
      blame, its cosine. */
  lemma RefusalReports(sqrt: real -> real, fw: NeuralFirewall, payload: PrimitivePayload<real>)
    requires Validate(sqrt, fw, payload).Err?
    ensures exists k :: 0 <= k < |Parts(payload)| && RefusedAt(sqrt, fw, payload, k)
  {
    assert Parts(payload)[0] in Parts(payload);
    if CheckVector(sqrt, fw, Parts(payload)[0]).Err? {
      assert RefusedAt(sqrt, fw, payload, 0);
    } else {
      assert RefusedAt(sqrt, fw, payload, 1);
    }
  }

  ghost predicate RefusedAt(sqrt: real -> real, fw: NeuralFirewall, payload: PrimitivePayload<real>, k: nat)
    requires k < |Parts(payload)|
  {
    var v := Parts(payload)[k];
    (forall j :: 0 <= j < k ==> CheckVector(sqrt, fw, Parts(payload)[j]).Ok?)
    && if Norm(sqrt, v) > fw.l2NormMax then
         Validate(sqrt, fw, payload) == Err(OffManifold(Norm(sqrt, v), 0.0))
       else
         fw.probe.Some?
         && var cosine := Probe.CosineSimilarity(sqrt, fw.probe.value, v);
            cosine < fw.cosineSimMin && Validate(sqrt, fw, payload) == Err(OffManifold(Norm(sqrt, v), cosine))
  }

  /** The firewall that `new` builds accepts a payload exactly if each of its vectors has at most the
      configured norm and, with a probe path, at least the configured cosine against the loaded probe. */
  lemma ConfiguredAcceptsExactly(sqrt: real -> real, l2NormMax: real, cosineSimMin: real,
    probeFile: Option<Option<seq<Probe.ProbeLine>>>, payload: PrimitivePayload<real>)
    ensures var fw := New(sqrt, l2NormMax, cosineSimMin, probeFile);
            (fw.Err? <==> probeFile.Some? && Probe.Loaded(sqrt, probeFile.value).Err?)
            && (fw.Ok? ==>
                  (Validate(sqrt, fw.value, payload).Ok? <==> forall v :: v in Parts(payload) ==>
                     Norm(sqrt, v) <= l2NormMax
                     && (probeFile.Some? ==>
                           Probe.CosineSimilarity(sqrt, Probe.Loaded(sqrt, probeFile.value).value, v) >= cosineSimMin)))
  {
    var fw := New(sqrt, l2NormMax, cosineSimMin, probeFile);
    if fw.Ok? {
      AcceptedExactly(sqrt, fw.value, payload);
    }
  }

  /** Against a probe, a vector of another length, or one below the floor, passes exactly if its norm does
      and the threshold is not positive. */
  lemma IncomparableAcceptedExactly(sqrt: real -> real, fw: NeuralFirewall, v: Vector)
    requires fw.probe.Some? && (|v| != fw.probe.value.dim || Norm(sqrt, v) < NORM_FLOOR)
    ensures CheckVector(sqrt, fw, v).Ok? <==> Norm(sqrt, v) <= fw.l2NormMax && fw.cosineSimMin <= 0.0
  {
  }

  // ----- convexity of the norm gate

  /** A weighted mean of two vectors. */
  function Mix(t: real, a: Vector, b: Vector): Vector
    requires |a| == |b|
  {
    Add(Scale(t, a), Scale(1.0 - t, b))
  }

  lemma WeightedMeanBound(t: real, x: real, y: real, m: real, p: real, q: real)
    requires 0.0 <= t <= 1.0 && x <= m && y <= m && p == Times(t, x) && q == Times(1.0 - t, y)
    ensures p + q <= m
  {
    var s := 1.0 - t;
    assert t * (m - x) >= 0.0 && s * (m - y) >= 0.0;
    assert t * (m - x) + s * (m - y) == m - (t * x + s * y);
  }

  lemma MixNorm(sqrt: real -> real, t: real, a: Vector, b: Vector, m: real)
    requires SquareRoot(sqrt) && |a| == |b| && 0.0 <= t <= 1.0
    requires Norm(sqrt, a) <= m && Norm(sqrt, b) <= m
    ensures Norm(sqrt, Mix(t, a, b)) <= m
  {
    var p, q := Scale(t, a), Scale(1.0 - t, b);
    assert Norm(sqrt, p) + Norm(sqrt, q) <= m by {
      NormStretch(sqrt, t, a);
      NormStretch(sqrt, 1.0 - t, b);
      WeightedMeanBound(t, Norm(sqrt, a), Norm(sqrt, b), m, Norm(sqrt, p), Norm(sqrt, q));
    }
    Triangle(sqrt, p, q);
  }

  /** A payload and its mixture with another of the same kind and lengths. */
  ghost predicate MixOf(t: real, p: PrimitivePayload<real>, q: PrimitivePayload<real>, r: PrimitivePayload<real>) {
    match (p, q, r)
    case (HiddenState(a), HiddenState(b), HiddenState(c)) => |a| == |b| && c == Mix(t, a, b)
    case (LatentThought(a), LatentThought(b), LatentThought(c)) => |a| == |b| && c == Mix(t, a, b)
    case (KvCachePayload(a), KvCachePayload(b), KvCachePayload(c)) =>
      |a.keys| == |b.keys| && |a.values| == |b.values|
      && c.keys == Mix(t, a.keys, b.keys) && c.values == Mix(t, a.values, b.values)
    case _ => false
  }

  /** Without a probe the accepted payloads of a kind and size form a convex set. */
  lemma AcceptedIsConvex(sqrt: real -> real, fw: NeuralFirewall, t: real,
    p: PrimitivePayload<real>, q: PrimitivePayload<real>, r: PrimitivePayload<real>)
    requires SquareRoot(sqrt) && fw.probe.None? && 0.0 <= t <= 1.0
    requires MixOf(t, p, q, r) && Validate(sqrt, fw, p).Ok? && Validate(sqrt, fw, q).Ok?
    ensures Validate(sqrt, fw, r).Ok?
  {
    match (p, q) {
      case (HiddenState(a), HiddenState(b)) => MixNorm(sqrt, t, a, b, fw.l2NormMax);
      case (LatentThought(a), LatentThought(b)) => MixNorm(sqrt, t, a, b, fw.l2NormMax);
      case (KvCachePayload(a), KvCachePayload(b)) =>
        MixNorm(sqrt, t, a.keys, b.keys, fw.l2NormMax);
        MixNorm(sqrt, t, a.values, b.values, fw.l2NormMax);
    }
  }

  // ----- shrinking accepted vectors

  lemma ShrunkNorm(sqrt: real -> real, k: real, v: Vector)
    requires SquareRoot(sqrt) && 0.0 <= k <= 1.0
    ensures 0.0 <= Norm(sqrt, Scale(k, v)) <= Norm(sqrt, v)
  {
    NormIsRoot(sqrt, v);
    NormStretch(sqrt, k, v);
    ShrunkAtMost(k, Norm(sqrt, v));
  }

  lemma ShrunkAtMost(k: real, n: real)
    requires 0.0 <= k <= 1.0 && n >= 0.0
    ensures 0.0 <= Times(k, n) <= n
  {
    ProductNonNegative(k, n);
    ProductNonNegative(1.0 - k, n);
    assert (1.0 - k) * n == n - k * n;
  }

  /** Shrinking an accepted vector keeps it accepted, except when a probe looks at a vector whose
      norm falls below the floor and a cosine of 0 is not enough for it. */
  lemma ShrunkAcceptedExactly(sqrt: real -> real, fw: NeuralFirewall, k: real, v: Vector)
    requires SquareRoot(sqrt) && 0.0 < k <= 1.0 && CheckVector(sqrt, fw, v).Ok?
    ensures CheckVector(sqrt, fw, Scale(k, v)).Ok?
       <==> fw.probe.None? || Norm(sqrt, Scale(k, v)) >= NORM_FLOOR || fw.cosineSimMin <= 0.0
  {
    ShrunkNorm(sqrt, k, v);
    if fw.probe.Some? && Norm(sqrt, Scale(k, v)) >= NORM_FLOOR {
      Probe.CosineOfScaled(sqrt, fw.probe.value, k, v);
    }
  }

  /** For every firewall that `new` can build, a threshold of at most -1 makes the cosine gate idle and
      one above 1 makes it refuse everything. */
  lemma ExtremeThresholds(sqrt: real -> real, l2NormMax: real, cosineSimMin: real,
    probeFile: Option<Option<seq<Probe.ProbeLine>>>, v: Vector)
    requires SquareRoot(sqrt) && New(sqrt, l2NormMax, cosineSimMin, probeFile).Ok?
    ensures var fw := New(sqrt, l2NormMax, cosineSimMin, probeFile).value;
            (cosineSimMin <= -1.0 ==> (CheckVector(sqrt, fw, v).Ok? <==> Norm(sqrt, v) <= l2NormMax))
            && (cosineSimMin > 1.0 && probeFile.Some? ==> CheckVector(sqrt, fw, v).Err?)
  {
    if probeFile.Some? {
      Probe.LoadedCentroid(sqrt, probeFile.value);
      Probe.CosineRange(sqrt, Probe.Loaded(sqrt, probeFile.value).value, v);
    }
  }
}
