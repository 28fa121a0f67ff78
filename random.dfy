/** CRandom of include/Random.h: Robert Jenkins' 32-bit integer hash applied
    to a 64-bit `long` state.  The state is a bv64, so `+` and `<<` wrap as
    two's complement arithmetic does, and `>>` is the arithmetic shift of a
    non-negative long (after the first masking step the state is always
    non-negative). */
module JenkinsRandom {

  const Mask32: bv64 := 0xffff_ffff
  const Bound32: bv64 := 0x1_0000_0000

  /** The six masked assignments of `nextDouble`, one function each. */
  function Mix1(s: bv64): (r: bv64)
    ensures r < Bound32
  {
    ((s + 0x7ed5_5d16) + (s << 12)) & Mask32
  }

  function Mix2(s: bv64): (r: bv64)
    ensures r < Bound32
  {
    ((s ^ 0xc761_c23c) ^ (s >> 19)) & Mask32
  }

  function Mix3(s: bv64): (r: bv64)
    ensures r < Bound32
  {
    ((s + 0x1656_67b1) + (s << 5)) & Mask32
  }

  function Mix4(s: bv64): (r: bv64)
    ensures r < Bound32
  {
    ((s + 0xd3a2_646c) ^ (s << 9)) & Mask32
  }

  function Mix5(s: bv64): (r: bv64)
    ensures r < Bound32
  {
    ((s + 0xfd70_46c5) + (s << 3)) & Mask32
  }

  function Mix6(s: bv64): (r: bv64)
    ensures r < Bound32
  {
    ((s ^ 0xb55a_4f09) ^ (s >> 16)) & Mask32
  }

  /** The state after one call of `nextDouble`. */
  function Hash(s: bv64): bv64 {
    Mix6(Mix5(Mix4(Mix3(Mix2(Mix1(s))))))
  }

  /** The value `nextDouble` returns for the new state: its low 28 bits
      (`s & 0xfffffff`, that is the state modulo 2^28) over 2^28. */
  function Fraction(s: bv64): (r: real)
    ensures 0.0 <= r < 1.0
  {
    ((s as int) % 268435456) as real / 268435456.0
  }

  /** The state after `n` calls of `nextDouble`. */
  function Advance(s: bv64, n: nat): bv64
    decreases n
  {
    if n == 0 then s else Advance(Hash(s), n - 1)
  }

  /** The first `n` values `nextDouble` returns from state `s`: the output
      stream is a function of the seed alone. */
  function Draws(s: bv64, n: nat): (r: seq<real>)
    ensures |r| == n
    ensures forall k | 0 <= k < n :: 0.0 <= r[k] < 1.0
    decreases n
  {
    if n == 0 then [] else [Fraction(Hash(s))] + Draws(Hash(s), n - 1)
  }

  lemma {:induction false} AdvanceAdds(s: bv64, n: nat, m: nat)
    ensures Advance(Advance(s, n), m) == Advance(s, n + m)
    decreases n
  {
    if n > 0 {
      AdvanceAdds(Hash(s), n - 1, m);
    }
  }

  /** Drawing n + m values is drawing n, then m more from where the first n left off. */
  lemma {:induction false} DrawsSplit(s: bv64, n: nat, m: nat)
    ensures Draws(s, n + m) == Draws(s, n) + Draws(Advance(s, n), m)
    decreases n
  {
    if n > 0 {
      DrawsSplit(Hash(s), n - 1, m);
    }
  }

  /** The k-th draw is the fraction of the state after k + 1 calls. */
  lemma {:induction false} DrawAt(s: bv64, n: nat, k: nat)
    requires k < n
    ensures Draws(s, n)[k] == Fraction(Advance(s, k + 1))
    decreases k
  {
    if k > 0 {
      DrawAt(Hash(s), n - 1, k - 1);
    }
  }

  class Random {
    var seed: bv64

    /** `CRandom(long nSeed)`; a negative seed is its two's complement bit pattern. */
    constructor(nSeed: bv64)
      ensures seed == nSeed
    {
      seed := nSeed;
    }

    /** `nextDouble`: six in-place hash steps, each leaving the state below 2^32. */
    method NextDouble() returns (r: real)
      modifies this`seed
      ensures seed == Hash(old(seed)) && seed < Bound32
      ensures r == Fraction(seed) && 0.0 <= r < 1.0
    {
      seed := Mix1(seed);
      seed := Mix2(seed);
      seed := Mix3(seed);
      seed := Mix4(seed);
      seed := Mix5(seed);
      seed := Mix6(seed);
      r := Fraction(seed);
    }

    /** `next(max)`: one draw scaled by `max`; the state advances exactly once. */
    method Next(max: real) returns (r: real)
      modifies this`seed
      ensures seed == Hash(old(seed))
      ensures r == Fraction(seed) * max
    {
      var d := NextDouble();
      r := d * max;
      assert r == Fraction(seed) * max by { assert d == Fraction(seed); }
    }
  }
}
