/**
 * `DeterministicRNG` (lines 123-134): the linear congruential generator that
 * drives the shuffle of the convex construction path. Its state and its
 * arithmetic are Swift `Int`s, 64 bits wide.
 */
module Rng {
  const Modulus: nat := 233280
  const Multiplier: nat := 9301
  const Increment: nat := 49297

  /** The greatest value of a 64-bit signed `Int`. */
  const IntMax: int := 0x7fff_ffff_ffff_ffff

  /** One step of the recurrence: the next seed always lies in `[0, Modulus)`. */
  function NextSeed(seed: nat): (r: nat)
    ensures r < Modulus
  {
    (seed * Multiplier + Increment) % Modulus
  }

  /** The seed after `n` calls of `next()`, starting from 0. */
  function SeedAfter(n: nat): (r: nat)
    ensures n > 0 ==> r < Modulus
  {
    if n == 0 then 0 else NextSeed(SeedAfter(n - 1))
  }

  /** The first `n` values `next()` returns. */
  function Outputs(n: nat): (r: seq<nat>)
    ensures |r| == n
  {
    if n == 0 then [] else Outputs(n - 1) + [SeedAfter(n)]
  }

  /** Every output lies in `[0, Modulus)`, and the `k`-th output (from 0) is the seed after `k + 1` calls. */
  lemma {:induction false} OutputsInRange(n: nat)
    ensures forall k | 0 <= k < n :: Outputs(n)[k] == SeedAfter(k + 1) && Outputs(n)[k] < Modulus
  {
    if n > 0 {
      OutputsInRange(n - 1);
      assert Outputs(n) == Outputs(n - 1) + [SeedAfter(n)];
    }
  }

  /** The first value drawn from a fresh generator is the increment. */
  lemma FirstOutput()
    ensures Outputs(1) == [49297]
  {
  }

  /**
   * No intermediate of `seed * multiplier + increment` overflows a 64-bit
   * `Int` for any seed the generator can hold, so the Swift code never
   * traps, and the conversion to `UInt64` is of a non-negative value.
   */
  lemma NoOverflow(n: nat)
    ensures SeedAfter(n) < Modulus
    ensures SeedAfter(n) * Multiplier <= IntMax
    ensures SeedAfter(n) * Multiplier + Increment <= IntMax
  {
    var s := SeedAfter(n);
    assert s * Multiplier <= (Modulus - 1) * Multiplier;
  }

  class DeterministicRNG {
    var seed: nat

    /** A fresh generator starts from seed 0. */
    constructor()
      ensures seed == 0
    {
      seed := 0;
    }

    /** `next()`: step the seed and return it. */
    method Next() returns (r: nat)
      modifies this
      ensures seed == NextSeed(old(seed)) && r == seed
    {
      seed := (seed * Multiplier + Increment) % Modulus;
      r := seed;
    }
  }

  /** Draw `n` values from a fresh generator: they are exactly `Outputs(n)`. */
  method Draw(n: nat) returns (out: seq<nat>)
    ensures out == Outputs(n)
  {
    var rng := new DeterministicRNG();
    out := [];
    for i := 0 to n
      invariant out == Outputs(i) && rng.seed == SeedAfter(i)
    {
      var r := rng.Next();
      out := out + [r];
    }
  }
}
