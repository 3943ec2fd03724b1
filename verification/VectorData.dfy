/**
  The seeded generator: a 64-bit linear congruential generator and the rejection
  sampler of the polar Box-Muller transform. Floating-point draws are modelled as
  exact reals; the factor `sqrt(-2 ln(s) / s)` is a parameter.
 */
module VectorData {
  import opened Common
  import opened HullDobell
  import opened ModularArithmetic

  const LCG_MULT: nat := 6364136223846793005
  const LCG_INC: nat := 1442695040888963407

  datatype Result<T> = Ok(value: T) | InvalidRangeBounds

  function Next(s: U64): U64 {
    Step(LCG_MULT, LCG_INC, MODULUS, s)
  }

  function After(n: nat, s: U64): U64 {
    Iterate(LCG_MULT, LCG_INC, MODULUS, n, s)
  }

  /** The draw made from a state: its high 24 bits over 2^24. */
  function Uniform(s: U64): real {
    (s / 0x100_0000_0000) as real / 16777216.0
  }

  // ---- the generator's cycle ----

  lemma ModulusIsPow2()
    ensures MODULUS == Pow2(64)
  {
    assert Pow2(4) == 16 by { assert Pow2(2) == 4; }
    hide Pow2;
    Pow2Double(4);
    Pow2Double(8);
    Pow2Double(16);
    Pow2Double(32);
  }

  /** From every seed the generator returns to it exactly after the multiples of 2^64 steps. */
  lemma FullPeriod(n: nat, seed: U64)
    ensures After(n, seed) == seed <==> n % MODULUS == 0
  {
    ModulusIsPow2();
    ReturnTime(LCG_MULT, LCG_INC, 64, n, seed);
  }

  /** No state repeats within 2^64 steps of any seed. */
  lemma NoEarlyRepeat(i: nat, j: nat, seed: U64)
    requires i < j < MODULUS
    ensures After(i, seed) != After(j, seed)
  {
    ModulusIsPow2();
    OrbitIsInjective(LCG_MULT, LCG_INC, 64, i, j, seed);
  }

  /** Every 64-bit state is visited from every seed within 2^64 steps. */
  lemma EveryStateVisited(seed: U64, target: U64)
    ensures exists n: nat :: n < MODULUS && After(n, seed) == target
  {
    ModulusIsPow2();
    var n := OrbitIsSurjective(LCG_MULT, LCG_INC, 64, seed, target);
    assert After(n, seed) == target;
  }

  lemma EvenPlus(p: int, g: int)
    ensures (2 * p + g) % 2 == g % 2
  {
  }

  /** The low bit of the state flips on every step. */
  lemma LowBitFlips(s: U64)
    ensures Next(s) % 2 == (s + 1) % 2
  {
    EvenModulus(LCG_MULT * s + LCG_INC, 0x8000_0000_0000_0000);
    EvenPlus(3182068111923396502 * s + 721347520444481703, s + 1);
  }

  lemma AfterNext(n: nat, s: U64)
    ensures After(n + 1, s) == Next(After(n, s))
  {
  }

  lemma {:induction false} LowBitAfter(n: nat, s: U64)
    ensures After(n, s) % 2 == (s + n) % 2
  {
    if n > 0 {
      hide After, Next;
      LowBitAfter(n - 1, s);
      AfterNext(n - 1, s);
      LowBitFlips(After(n - 1, s));
      ParityChain(After(n, s), After(n - 1, s), s + n - 1);
    }
  }

  lemma ParityChain(next: int, here: int, sum: int)
    requires next % 2 == (here + 1) % 2 && here % 2 == sum % 2
    ensures next % 2 == (sum + 1) % 2
  {
  }

  lemma OddGap(n: nat, s: int, target: int)
    requires target % 2 == (s + n) % 2 && target % 2 != s % 2
    ensures n % 2 == 1 && n == 2 * (n / 2) + 1
  {
  }

  // ---- rejection sampling ----

  /** The two coordinates drawn by one pass that starts in state `s`. */
  function PassPoint(s: U64): (real, real) {
    (Uniform(Next(s)) * 2.0 - 1.0, Uniform(Next(Next(s))) * 2.0 - 1.0)
  }

  function SquaredNorm(p: (real, real)): real {
    p.0 * p.0 + p.1 * p.1
  }

  /** The pass that starts in `s` lands strictly inside the unit disk, off its centre. */
  predicate Accepting(s: U64) {
    0.0 < SquaredNorm(PassPoint(s)) < 1.0
  }

  const EVEN_WITNESS: U64 := 0x8000_0000_0000_0000
  const ODD_WITNESS: U64 := 0x8000_0000_0000_0001

  lemma WitnessDraws()
    ensures Uniform(EVEN_WITNESS) == 0.5 && Uniform(ODD_WITNESS) == 0.5
    ensures Uniform(Next(EVEN_WITNESS)) == 9700731.0 / 16777216.0
    ensures Uniform(Next(ODD_WITNESS)) == 15488879.0 / 16777216.0
  {
    ModIsUnique(LCG_MULT * EVEN_WITNESS + LCG_INC, 3182068111923396502, 10666067077743739215, MODULUS);
    ModIsUnique(LCG_MULT * ODD_WITNESS + LCG_INC, 3182068111923396502, 17030203301590532220, MODULUS);
  }

  /** A pass whose first draw comes from either witness state is accepted. */
  lemma WitnessAccepts(s: U64)
    requires Next(s) == EVEN_WITNESS || Next(s) == ODD_WITNESS
    ensures Accepting(s)
  {
    hide Next, Uniform;
    WitnessDraws();
    var u := PassPoint(s).1;
    assert PassPoint(s).0 == 0.0;
    assert 0.1 < u < 0.9;
    assert 0.0 < u * u < 0.9;
  }

  /** From every state some pass among the first 2^63 is accepted. */
  lemma SomePassAccepts(s: U64)
    ensures exists p: nat :: p < 0x8000_0000_0000_0000 && Accepting(After(2 * p, s))
  {
    hide Accepting, Next;
    var target := if s % 2 == 1 then EVEN_WITNESS else ODD_WITNESS;
    EveryStateVisited(s, target);
    var n: nat :| n < MODULUS && After(n, s) == target;
    LowBitAfter(n, s);
    OddGap(n, s, target);
    var p := n / 2;
    AfterNext(2 * p, s);
    WitnessAccepts(After(2 * p, s));
  }

  ghost function FirstAcceptedFrom(s: U64, i: nat, known: nat): (p: nat)
    requires i <= known && Accepting(After(2 * known, s))
    ensures i <= p <= known && Accepting(After(2 * p, s))
    ensures forall q :: i <= q < p ==> !Accepting(After(2 * q, s))
    decreases known - i
  {
    if Accepting(After(2 * i, s)) then i else FirstAcceptedFrom(s, i + 1, known)
  }

  /** How many passes are rejected before the first accepted one. */
  ghost function Rejected(s: U64): (p: nat)
    ensures p < 0x8000_0000_0000_0000 && Accepting(After(2 * p, s))
    ensures forall q: nat :: q < p ==> !Accepting(After(2 * q, s))
  {
    SomePassAccepts(s);
    var known: nat :| known < 0x8000_0000_0000_0000 && Accepting(After(2 * known, s));
    FirstAcceptedFrom(s, 0, known)
  }

  /** The state in which the sampler stops when started in `s`. */
  ghost function GaussianEnd(s: U64): U64 {
    After(2 * Rejected(s) + 2, s)
  }

  /** The sample it returns; `mul` stands for `sqrt(-2 ln(s) / s)`. */
  ghost function GaussianSample(s: U64, mul: real -> real): real {
    var point := PassPoint(After(2 * Rejected(s), s));
    point.0 * mul(SquaredNorm(point))
  }

  class Lcg {
    var state: U64

    /** Any seed is allowed, zero included. */
    constructor (seed: U64)
      ensures state == seed
    {
      state := seed;
    }

    method NextU64() returns (r: U64)
      modifies this
      ensures state == r == Next(old(state))
    {
      state := (state * LCG_MULT + LCG_INC) % MODULUS;
      r := state;
    }

    method NextF32() returns (r: real)
      modifies this
      ensures state == Next(old(state))
      ensures r == Uniform(state) && 0.0 <= r < 1.0
    {
      var raw := NextU64();
      r := (raw / 0x100_0000_0000) as real * (1.0 / 16777216.0);
      UniformRange(raw);
    }

    /** Invalid bounds leave the generator untouched. */
    method TryNextRange(lo: real, hi: real) returns (r: Result<real>)
      modifies this
      ensures lo >= hi ==> r == InvalidRangeBounds && state == old(state)
      ensures lo < hi ==> r.Ok? && state == Next(old(state)) && lo <= r.value < hi
      ensures lo < hi ==> r.value == lo + (hi - lo) * Uniform(state)
    {
      if lo >= hi {
        return InvalidRangeBounds;
      }
      var fraction := NextF32();
      ghost var p := ScaledFraction(hi - lo, fraction);
      assert lo <= lo + p < hi;
      r := Ok(lo + (hi - lo) * fraction);
    }

    /** Redraws until a pass is accepted; the loop is bounded by the position on the cycle. */
    method NextGaussian(mul: real -> real) returns (g: real)
      modifies this
      ensures state == GaussianEnd(old(state))
      ensures g == GaussianSample(old(state), mul)
    {
      hide Next, After, Uniform, SquaredNorm;
      ghost var start, passes: nat := state, 0;
      AfterZero(start);
      while true
        invariant passes <= Rejected(start)
        invariant state == After(2 * passes, start)
        decreases Rejected(start) - passes
      {
        ghost var here := state;
        var f1 := NextF32();
        var u1 := f1 * 2.0 - 1.0;
        var f2 := NextF32();
        var u2 := f2 * 2.0 - 1.0;
        var s := SquaredNorm((u1, u2));
        OnePass(passes, start);
        assert PassPoint(here) == (u1, u2);
        if 0.0 < s < 1.0 {
          assert passes == Rejected(start);
          g := u1 * mul(s);
          assert g == GaussianSample(start, mul);
          return;
        }
        passes := passes + 1;
      }
    }
  }

  lemma AfterZero(s: U64)
    ensures After(0, s) == s
  {
  }

  lemma OnePass(passes: nat, s: U64)
    ensures After(2 * (passes + 1), s) == Next(Next(After(2 * passes, s)))
  {
    AfterNext(2 * passes, s);
    AfterNext(2 * passes + 1, s);
  }

  lemma UniformRange(s: U64)
    ensures 0.0 <= Uniform(s) < 1.0
    ensures Uniform(s) == (s / 0x100_0000_0000) as real * (1.0 / 16777216.0)
  {
    assert s / 0x100_0000_0000 < 16777216;
  }

  lemma ScaledFraction(width: real, fraction: real) returns (p: real)
    requires width > 0.0 && 0.0 <= fraction < 1.0
    ensures p == width * fraction && 0.0 <= p < width
  {
    p := width * fraction;
    assert width * (1.0 - fraction) > 0.0;
  }
}
