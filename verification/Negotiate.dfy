// Alignment negotiation and the Kaiming-uniform weights (src/rpc/negotiate.rs), over exact reals.

module Negotiate {
  import opened Errors
  import opened Vectors
  import opened Xorshift
  import Adapter
  import Linear = LinearProjection

  const STATE_MAX: real := 18446744073709551615.0

  function ToNat(state: bv64): nat {
    state as nat
  }

  /** The generator state mapped onto [-1, 1]. */
  function Unit(state: bv64): real {
    (ToNat(state) as real / STATE_MAX) * 2.0 - 1.0
  }

  /** For `inDim == 0` the source divides by zero, but then there is no weight to scale. */
  function Bound(sqrt: real -> real, inDim: nat): real {
    if inDim == 0 then 0.0 else sqrt(3.0 / inDim as real)
  }

  function Weight(t: real, bound: real): real {
    t * bound
  }

  /** The first `n` weights drawn from `start`: weight k uses the state after k + 1 turns. */
  function Weights(start: bv64, bound: real, n: nat): (w: Vector)
    ensures |w| == n
  {
    seq(n, k requires 0 <= k < n => Weight(Unit(StateAt(start, k + 1)), bound))
  }

  /** The process-wide `KAIMING_COUNTER`. */
  class KaimingCounter {
    var value: bv64

    method FetchAdd() returns (before: bv64)
      modifies this
      ensures before == old(value) && value == old(value) + 1
    {
      before := value;
      value := value + 1;
    }
  }

  method KaimingUniformWeights(counter: KaimingCounter, timeSeed: bv64, sqrt: real -> real, inDim: usize, outDim: usize)
    returns (weights: Vector)
    modifies counter
    ensures counter.value == old(counter.value) + 1
    ensures weights == Weights(Start(timeSeed, old(counter.value)), Bound(sqrt, inDim), (inDim * outDim) % U64_LIMIT)
  {
    var bound := Bound(sqrt, inDim);
    var n := (inDim * outDim) % U64_LIMIT;
    var drawn := counter.FetchAdd();
    weights := Draw(Start(timeSeed, drawn), bound, n);
  }

  method Draw(start: bv64, bound: real, n: nat) returns (weights: Vector)
    ensures weights == Weights(start, bound, n)
  {
    var state := start;
    weights := [];
    for k := 0 to n
      invariant state == StateAt(start, k)
      invariant weights == Weights(start, bound, k)
    {
      state := Turn(state);
      assert state == StateAt(start, k + 1);
      weights := weights + [Weight(Unit(state), bound)];
    }
  }

  /** The three updates of the loop body. */
  method Turn(before: bv64) returns (state: bv64)
    ensures state == Step(before)
  {
    ThreeUpdates(before);
    state := ShiftLeft13(before);
    state := ShiftRight7(state);
    state := ShiftLeft17(state);
  }

  /** What `handle` returns; the two family names are not used. */
  function Negotiated(sqrt: real -> real, start: bv64, sourceDim: u32, targetDim: u32)
    : Result<(Adapter.AdapterVariant, Vector)>
  {
    if sourceDim == 0 || targetDim == 0 then
      Err(IncompatibleDimensions(sourceDim, targetDim))
    else if sourceDim == targetDim then
      Ok((Adapter.NormMatch, [1.0]))
    else
      Ok((Adapter.LinearProjection, Weights(start, Bound(sqrt, sourceDim), sourceDim * targetDim)))
  }

  method Handle(counter: KaimingCounter, timeSeed: bv64, sqrt: real -> real, sourceDim: u32, targetDim: u32)
    returns (r: Result<(Adapter.AdapterVariant, Vector)>)
    modifies counter
    ensures r == Negotiated(sqrt, Start(timeSeed, old(counter.value)), sourceDim, targetDim)
    ensures counter.value
         == if r.Ok? && r.value.0 == Adapter.LinearProjection then old(counter.value) + 1 else old(counter.value)
  {
    if sourceDim == 0 || targetDim == 0 {
      return Err(IncompatibleDimensions(sourceDim, targetDim));
    }
    if sourceDim == targetDim {
      return Ok((Adapter.NormMatch, [1.0]));
    }
    ProductOfU32(sourceDim, targetDim);
    var weights := KaimingUniformWeights(counter, timeSeed, sqrt, sourceDim, targetDim);
    return Ok((Adapter.LinearProjection, weights));
  }

  // ----- the weights

  lemma ToNatBounds(state: bv64)
    ensures ToNat(state) < U64_LIMIT
  {
  }

  lemma ToNatRoundTrip(state: bv64)
    ensures state as nat < U64_LIMIT && (state as nat) as bv64 == state
  {
  }

  function FromNat(n: nat): bv64
    requires n < U64_LIMIT
  {
    n as bv64
  }

  lemma ToNatInjective(x: bv64, y: bv64)
    requires ToNat(x) == ToNat(y)
    ensures x == y
  {
    ToNatBounds(x);
    calc {
      x;
    == { ToNatRoundTrip(x); }
      FromNat(ToNat(x));
    ==
      FromNat(ToNat(y));
    == { ToNatRoundTrip(y); }
      y;
    }
  }

  lemma RatioOrder(p: nat, q: nat)
    requires p < q
    ensures (p as real / STATE_MAX) * 2.0 - 1.0 < (q as real / STATE_MAX) * 2.0 - 1.0
  {
  }

  lemma UnitInjective(x: bv64, y: bv64)
    requires Unit(x) == Unit(y)
    ensures x == y
  {
    if ToNat(x) < ToNat(y) {
      RatioOrder(ToNat(x), ToNat(y));
    } else if ToNat(y) < ToNat(x) {
      RatioOrder(ToNat(y), ToNat(x));
    } else {
      ToNatInjective(x, y);
    }
  }

  lemma UnitRange(state: bv64)
    ensures -1.0 <= Unit(state) <= 1.0
  {
    ToNatBounds(state);
  }

  lemma UnitOfZero()
    ensures Unit(0) == -1.0
  {
    assert ToNat(0) == 0;
  }

  const MAX_STATE: bv64 := 0xFFFF_FFFF_FFFF_FFFF

  lemma UnitOfMax()
    ensures Unit(MAX_STATE) == 1.0
  {
    assert ToNat(MAX_STATE) == 0xFFFF_FFFF_FFFF_FFFF;
  }

  /** The states are spread evenly over the range. */
  lemma UnitsEvenly(x: bv64, y: bv64)
    ensures (Unit(x) - Unit(y)) * STATE_MAX == 2.0 * (x as nat as real - y as nat as real)
  {
  }

  lemma BoundSquared(sqrt: real -> real, inDim: nat)
    requires SquareRoot(sqrt) && inDim > 0
    ensures Bound(sqrt, inDim) > 0.0
    ensures Times(Times(Bound(sqrt, inDim), Bound(sqrt, inDim)), inDim as real) == 3.0
  {
    var b, x := Bound(sqrt, inDim), 3.0 / inDim as real;
    assert x > 0.0 && x * inDim as real == 3.0;
    assert b >= 0.0 && b * b == x;
  }

  lemma WeightRange(t: real, bound: real)
    requires -1.0 <= t <= 1.0 && bound >= 0.0
    ensures -bound <= Weight(t, bound) <= bound
  {
    ProductNonNegative(1.0 - t, bound);
    ProductNonNegative(t + 1.0, bound);
  }

  lemma WeightSeparates(t: real, u: real, bound: real)
    requires bound > 0.0
    ensures Weight(t, bound) == Weight(u, bound) <==> t == u
    ensures Weight(-1.0, bound) == -bound && Weight(1.0, bound) == bound
  {
    if Weight(t, bound) == Weight(u, bound) {
      CancelFactor(t, u, bound);
    }
  }

  /** Every weight lies within the bound. */
  lemma WeightsWithinBound(start: bv64, bound: real, n: nat, k: nat)
    requires bound >= 0.0 && k < n
    ensures -bound <= Weights(start, bound, n)[k] <= bound
  {
    UnitRange(StateAt(start, k + 1));
    WeightRange(Unit(StateAt(start, k + 1)), bound);
  }

  /** Both ends of the range are reached: weight k is the most negative value exactly when the generator
      started at zero, and the most positive one exactly when k + 1 turns lead to the all-ones state. */
  lemma ExtremesExactly(start: bv64, bound: real, n: nat, k: nat)
    requires bound > 0.0 && k < n
    ensures Weights(start, bound, n)[k] == -bound <==> start == 0
    ensures Weights(start, bound, n)[k] == bound <==> StateAt(start, k + 1) == MAX_STATE
  {
    var s := StateAt(start, k + 1);
    ZeroOnlyFromZero(start, k + 1);
    WeightSeparates(Unit(s), -1.0, bound);
    UnitIsMinusOneExactly(s);
    WeightSeparates(Unit(s), 1.0, bound);
    UnitIsOneExactly(s);
  }

  lemma UnitIsOneExactly(state: bv64)
    ensures Unit(state) == 1.0 <==> state == MAX_STATE
  {
    UnitOfMax();
    if Unit(state) == 1.0 {
      UnitInjective(state, MAX_STATE);
    }
  }

  lemma UnitIsMinusOneExactly(state: bv64)
    ensures Unit(state) == -1.0 <==> state == 0
  {
    UnitOfZero();
    if Unit(state) == -1.0 {
      UnitInjective(state, 0);
    }
  }

  /** Two calls that read the same clock differ in every weight. */
  lemma SameClockDifferentWeights(timeSeed: bv64, c: bv64, c': bv64, bound: real, n: nat, k: nat)
    requires c != c' && bound > 0.0 && k < n
    ensures Weights(Start(timeSeed, c), bound, n)[k] != Weights(Start(timeSeed, c'), bound, n)[k]
  {
    var s, s' := Start(timeSeed, c), Start(timeSeed, c');
    CountersSeparateStarts(timeSeed, c, c');
    if StateAt(s, k + 1) == StateAt(s', k + 1) {
      StatesNeverMeet(s, s', k + 1);
    }
    UnitsDiffer(StateAt(s, k + 1), StateAt(s', k + 1));
    WeightSeparates(Unit(StateAt(s, k + 1)), Unit(StateAt(s', k + 1)), bound);
  }

  lemma UnitsDiffer(x: bv64, y: bv64)
    requires x != y
    ensures Unit(x) != Unit(y)
  {
    if Unit(x) == Unit(y) {
      UnitInjective(x, y);
    }
  }

  // ----- what negotiation answers

  lemma NegotiatedAs(sqrt: real -> real, start: bv64, sourceDim: u32, targetDim: u32, size: nat)
    requires sourceDim != 0 && targetDim != 0 && sourceDim != targetDim && size == targetDim * sourceDim
    ensures Negotiated(sqrt, start, sourceDim, targetDim)
         == Ok((Adapter.LinearProjection, Weights(start, Bound(sqrt, sourceDim), size)))
  {
  }

  lemma SquaredWithin(x: real, b: real, d: real, p: real)
    requires -b <= x <= b && d > 0.0 && Times(Times(b, b), d) == p
    ensures Times(Times(x, x), d) <= p
  {
    SquareWithin(x, b);
    ProductMonotone(Times(x, x), Times(b, b), d);
  }

  /** For unequal non-zero dimensions negotiation answers a projection with one weight per pair of
      dimensions. Each weight squared, times the source dimension, is at most 3; a generator that
      started at zero makes every weight the most negative one possible, and no other does. */
  lemma NegotiatedWeights(sqrt: real -> real, start: bv64, sourceDim: u32, targetDim: u32, k: nat)
    requires SquareRoot(sqrt) && sourceDim != 0 && targetDim != 0 && sourceDim != targetDim
    requires k < sourceDim * targetDim
    ensures var r := Negotiated(sqrt, start, sourceDim, targetDim);
            r.Ok? && r.value.0 == Adapter.LinearProjection && |r.value.1| == sourceDim * targetDim
            && Times(Times(r.value.1[k], r.value.1[k]), sourceDim as real) <= 3.0
            && (start == 0 <==>
                  r.value.1[k] < 0.0 && Times(Times(r.value.1[k], r.value.1[k]), sourceDim as real) == 3.0)
  {
    BoundSquared(sqrt, sourceDim);
    WeightEnergy(start, Bound(sqrt, sourceDim), sourceDim * targetDim, k, sourceDim as real);
  }

  lemma WeightEnergy(start: bv64, bound: real, n: nat, k: nat, d: real)
    requires bound > 0.0 && d > 0.0 && Times(Times(bound, bound), d) == 3.0 && k < n
    ensures var w := Weights(start, bound, n)[k];
            Times(Times(w, w), d) <= 3.0 && (start == 0 <==> w < 0.0 && Times(Times(w, w), d) == 3.0)
  {
    var w := Weights(start, bound, n)[k];
    WeightsWithinBound(start, bound, n, k);
    ExtremesExactly(start, bound, n, k);
    SquaredWithin(w, bound, d, 3.0);
    LowestExactly(w, bound, d);
  }

  lemma LowestExactly(w: real, bound: real, d: real)
    requires bound > 0.0 && d > 0.0 && Times(Times(bound, bound), d) == 3.0
    ensures w == -bound <==> w < 0.0 && Times(Times(w, w), d) == 3.0
  {
    SquareOfNegative(bound);
    if w < 0.0 && Times(Times(w, w), d) == 3.0 {
      CancelFactor(Times(w, w), Times(bound, bound), d);
      SquareOfNegative(w);
      SquareInjective(-w, bound);
    }
  }

  lemma SquareOfNegative(x: real)
    ensures Times(-x, -x) == Times(x, x)
  {
  }

  /** Two negotiations that read the same clock but drew different counters differ in every weight. */
  lemma NegotiationsDiffer(
    sqrt: real -> real, timeSeed: bv64, c: bv64, c': bv64, sourceDim: u32, targetDim: u32, k: nat)
    requires SquareRoot(sqrt) && sourceDim != 0 && targetDim != 0 && sourceDim != targetDim
    requires c != c' && k < sourceDim * targetDim
    ensures var r := Negotiated(sqrt, Start(timeSeed, c), sourceDim, targetDim);
            var r' := Negotiated(sqrt, Start(timeSeed, c'), sourceDim, targetDim);
            r.Ok? && r'.Ok? && |r.value.1| == |r'.value.1| == sourceDim * targetDim
            && r.value.1[k] != r'.value.1[k]
  {
    BoundSquared(sqrt, sourceDim);
    SameClockDifferentWeights(timeSeed, c, c', Bound(sqrt, sourceDim), sourceDim * targetDim, k);
  }

  // ----- from negotiation to an adapter

  /** What negotiation returns is always accepted as an adapter between the negotiated dimensions,
      and that adapter accepts exactly the vectors of the source dimension it was asked for. */
  lemma NegotiatedIsAccepted(sqrt: real -> real, start: bv64, sourceDim: u32, targetDim: u32, input: Vector)
    requires sourceDim != 0 && targetDim != 0 && |input| == sourceDim
    ensures var r := Negotiated(sqrt, start, sourceDim, targetDim);
            r.Ok?
            && var a := Adapter.FromSpec(r.value.0, sourceDim, targetDim, r.value.1);
            a.Ok? && a.value.SourceDim() == sourceDim && a.value.TargetDim() == targetDim
            && a.value.Adapted(sqrt, input).Ok? && |a.value.Adapted(sqrt, input).value| == targetDim
  {
    ProductOfU32(sourceDim, targetDim);
    if sourceDim != targetDim {
      Linear.FitsExactly(Negotiated(sqrt, start, sourceDim, targetDim).value.1, sourceDim, targetDim);
    }
  }

  /** For equal dimensions negotiation asks for the same rescaler that `Identity` builds. */
  lemma EqualDimensionsMeanIdentity(sqrt: real -> real, start: bv64, dim: u32, weights: Vector)
    requires dim != 0
    ensures var r := Negotiated(sqrt, start, dim, dim);
            r.Ok?
            && Adapter.FromSpec(r.value.0, dim, dim, r.value.1) == Adapter.FromSpec(Adapter.Identity, dim, dim, weights)
  {
  }
}
