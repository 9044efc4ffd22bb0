// The xorshift64 generator inside `kaiming_uniform_weights` (src/rpc/negotiate.rs:14-25).

module Xorshift {
  const SEED_MASK: bv64 := 0xdeadbeef_cafebabe

  /** One turn of the loop's three state updates. */
  function Step(x: bv64): bv64 {
    var a := x ^ (x << 13);
    var b := a ^ (a >> 7);
    b ^ (b << 17)
  }

  // The same turn as the source writes it, one update after the other.
  function ShiftLeft13(x: bv64): bv64 { x ^ (x << 13) }
  function ShiftRight7(x: bv64): bv64 { x ^ (x >> 7) }
  function ShiftLeft17(x: bv64): bv64 { x ^ (x << 17) }

  function LastTwo(a: bv64): bv64 {
    var b := a ^ (a >> 7);
    b ^ (b << 17)
  }

  /** The generator state after `k` turns. */
  function StateAt(start: bv64, k: nat): bv64 {
    if k == 0 then start else Step(StateAt(start, k - 1))
  }

  /** The state before the first turn, from the clock reading and the global call counter. */
  function Start(timeSeed: bv64, counter: bv64): bv64 {
    (timeSeed ^ counter) ^ SEED_MASK
  }

  function Xor(x: bv64, y: bv64): bv64 {
    x ^ y
  }

  /** Undoes `Step`: each shift-xor is its own inverse up to a shift of twice the width, so it is
      repeated with doubled widths until the shift leaves the word. */
  function Unstep(y: bv64): bv64 {
    var a := y ^ (y << 17);
    var b := a ^ (a << 34);
    var c := b ^ (b >> 7);
    var d := c ^ (c >> 14);
    var e := d ^ (d >> 28);
    var f := e ^ (e >> 56);
    var g := f ^ (f << 13);
    var h := g ^ (g << 26);
    h ^ (h << 52)
  }

  // The next lemmas apply a function to the expanded word rather than to a call: the solver
  // then decides them by rewriting alone.

  lemma LastTwoOfExpandedFirst(x: bv64)
    ensures LastTwo(x ^ (x << 13)) == Step(x)
  {
  }

  lemma LastOfExpandedSecond(x: bv64)
    ensures ShiftLeft17(x ^ (x >> 7)) == LastTwo(x)
  {
  }

  lemma UnstepOfExpandedStep(x: bv64)
    ensures var a := x ^ (x << 13);
            var b := a ^ (a >> 7);
            Unstep(b ^ (b << 17)) == x
  {
  }

  lemma StepOfExpandedUnstep(y: bv64)
    ensures var a := y ^ (y << 17);
            var b := a ^ (a << 34);
            var c := b ^ (b >> 7);
            var d := c ^ (c >> 14);
            var e := d ^ (d >> 28);
            var f := e ^ (e >> 56);
            var g := f ^ (f << 13);
            var h := g ^ (g << 26);
            Step(h ^ (h << 52)) == y
  {
  }

  lemma StepOfExpandedXor(x: bv64, y: bv64)
    ensures var a := x ^ (x << 13);
            var b := a ^ (a >> 7);
            var c := y ^ (y << 13);
            var d := c ^ (c >> 7);
            Step(x ^ y) == Xor(b ^ (b << 17), d ^ (d << 17))
  {
  }

  lemma FirstUpdate(x: bv64)
    ensures LastTwo(ShiftLeft13(x)) == Step(x)
  {
    LastTwoOfExpandedFirst(x);
  }

  lemma SecondUpdate(x: bv64)
    ensures ShiftLeft17(ShiftRight7(x)) == LastTwo(x)
  {
    LastOfExpandedSecond(x);
  }

  lemma ThreeUpdates(x: bv64)
    ensures ShiftLeft17(ShiftRight7(ShiftLeft13(x))) == Step(x)
  {
    FirstUpdate(x);
    SecondUpdate(ShiftLeft13(x));
  }

  /** The state update is a bijection on 64-bit words. */
  lemma StepIsBijection(x: bv64)
    ensures Unstep(Step(x)) == x && Step(Unstep(x)) == x
  {
    UnstepOfExpandedStep(x);
    StepOfExpandedUnstep(x);
  }

  lemma StepIsInjective(x: bv64, y: bv64)
    requires Step(x) == Step(y)
    ensures x == y
  {
    StepIsBijection(x);
    StepIsBijection(y);
  }

  /** The state update distributes over xor. */
  lemma StepIsLinear(x: bv64, y: bv64)
    ensures Step(Xor(x, y)) == Xor(Step(x), Step(y))
  {
    StepOfExpandedXor(x, y);
  }

  /** The generator is linear over xor, for any number of turns. */
  lemma {:induction false} StateIsLinear(x: bv64, y: bv64, k: nat)
    ensures StateAt(Xor(x, y), k) == Xor(StateAt(x, k), StateAt(y, k))
  {
    if k > 0 {
      StateIsLinear(x, y, k - 1);
      StepIsLinear(StateAt(x, k - 1), StateAt(y, k - 1));
    }
  }

  lemma {:induction false} ZeroStaysZero(k: nat)
    ensures StateAt(0, k) == 0
  {
    if k > 0 {
      ZeroStaysZero(k - 1);
      assert Step(0) == 0;
    }
  }

  /** After any number of turns two generators agree only if they started alike. */
  lemma {:induction false} StatesNeverMeet(start: bv64, start': bv64, k: nat)
    requires StateAt(start, k) == StateAt(start', k)
    ensures start == start'
  {
    if k > 0 {
      StepIsInjective(StateAt(start, k - 1), StateAt(start', k - 1));
      StatesNeverMeet(start, start', k - 1);
    }
  }

  /** Zero is reached exactly from a zero start. */
  lemma ZeroOnlyFromZero(start: bv64, k: nat)
    ensures StateAt(start, k) == 0 <==> start == 0
  {
    ZeroStaysZero(k);
    if StateAt(start, k) == 0 {
      StatesNeverMeet(start, 0, k);
    }
  }

  function Unmask(start: bv64, timeSeed: bv64): bv64 {
    (start ^ SEED_MASK) ^ timeSeed
  }

  lemma UnmaskStart(timeSeed: bv64, counter: bv64)
    ensures Unmask(Start(timeSeed, counter), timeSeed) == counter
  {
  }

  /** Two calls that read the same clock but drew different counters start differently. */
  lemma CountersSeparateStarts(timeSeed: bv64, c: bv64, c': bv64)
    requires c != c'
    ensures Start(timeSeed, c) != Start(timeSeed, c')
  {
    UnmaskStart(timeSeed, c);
    UnmaskStart(timeSeed, c');
  }
}
