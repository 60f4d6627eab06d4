/** The shared pseudo-random generator of the library (a `java.util.Random`),
    seen from outside: the k-th raw value it hands out is `source(k)`, and the
    generator only remembers how many values it has handed out. */
module Randomness {

  /** `nextFloat` returns a multiple of 2^-24 in [0, 1). */
  const FloatSteps: nat := 16777216

  /** The `nextInt(bound)` result of raw draw number `k`. */
  function IntAt(source: nat -> nat, k: nat, bound: int): (r: int)
    requires bound > 0
    ensures 0 <= r < bound
  {
    source(k) % bound
  }

  /** The `nextFloat()` result of raw draw number `k`. */
  function FloatAt(source: nat -> nat, k: nat): (r: real)
    ensures 0.0 <= r < 1.0
    ensures (r * FloatSteps as real).Floor as real == r * FloatSteps as real
  {
    var n := source(k) % FloatSteps;
    assert (n as real / FloatSteps as real) * FloatSteps as real == n as real;
    n as real / FloatSteps as real
  }

  class Random {
    /** The raw values, in the order the generator hands them out. */
    const source: nat -> nat
    /** How many values have been handed out so far. */
    var drawn: nat

    constructor (source: nat -> nat)
      ensures this.source == source && drawn == 0
    {
      this.source := source;
      drawn := 0;
    }

    /** `nextInt(bound)`: a value in [0, bound); Java throws for a bound that
        is not positive. */
    method NextInt(bound: int) returns (r: int)
      requires bound > 0
      modifies this
      ensures r == IntAt(source, old(drawn), bound)
      ensures drawn == old(drawn) + 1
    {
      r := IntAt(source, drawn, bound);
      drawn := drawn + 1;
    }

    /** `nextFloat()`: a value in [0, 1). */
    method NextFloat() returns (r: real)
      modifies this
      ensures r == FloatAt(source, old(drawn))
      ensures drawn == old(drawn) + 1
    {
      r := FloatAt(source, drawn);
      drawn := drawn + 1;
    }
  }
}
