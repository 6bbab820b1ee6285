/** The pseudorandom generator of lib/bayesopt/sobol/sobol.cpp (r8_uniform_01 and its twin r4_uniform_01): Schrage's
    way to multiply modulo 2^31 - 1 without leaving 32-bit integers. */
module UniformGenerator {

  /** The integers of the machine. Dafny checks that every operation on them stays in this range. */
  newtype int32 = x: int | -0x8000_0000 <= x < 0x8000_0000

  const MODULUS := 2147483647
  const MULTIPLIER := 16807
  const INVERSE := 1407677000
  const SCALE := 0.0000000004656612875

  /** The quotient of the seed and 127773, which truncates toward zero. */
  function Quotient(a: int32): (q: int32) {
    (if a >= 0 then a as int / 127773 else -(-(a as int) / 127773)) as int32
  }

  datatype Draw = Draw(seed: int32, value: real) | FatalError

  /** One draw, for every 32-bit seed. The new seed is the product modulo 2^31 - 1, in spite of the 32-bit arithmetic,
      and the value is its fraction. */
  method Uniform01(seed0: int32) returns (r: Draw)
    ensures r == FatalError <==> seed0 == 0
    ensures seed0 != 0 ==> r.seed as int == Next(seed0 as int) && r.value == r.seed as real * SCALE
    ensures seed0 != 0 ==> 0.0 <= r.value < 1.0 && (r.value == 0.0 <==> seed0 as int % MODULUS == 0)
  {
    if seed0 == 0 {
      return FatalError;
    }
    var k := Quotient(seed0);
    SchrageBounds(seed0 as int, k as int);
    var seed := 16807 * (seed0 - k * 127773) - k * 2836;
    if seed < 0 {
      seed := seed + 2147483647;
    }
    SchrageIsProduct(seed0 as int, k as int, seed as int);
    ZeroIff(seed0 as int);
    r := Draw(seed, seed as real * SCALE);
  }

  function Next(seed: int): (s: int)
    ensures 0 <= s < MODULUS
  {
    MULTIPLIER * seed % MODULUS
  }

  lemma SchrageBounds(s: int, k: int)
    requires -0x8000_0000 <= s < 0x8000_0000 && k == if s >= 0 then s / 127773 else -(-s / 127773)
    ensures -127773 < s - k * 127773 < 127773 && (s >= 0 ==> s - k * 127773 >= 0 && k >= 0)
    ensures s < 0 ==> s - k * 127773 <= 0 && k <= 0
    ensures -16807 <= k <= 16807
    ensures -0x8000_0000 <= 16807 * (s - k * 127773) - k * 2836 < 0x8000_0000
  {
  }

  lemma SchrageIsProduct(s: int, k: int, v: int)
    requires -MODULUS < 16807 * (s - k * 127773) - k * 2836 < MODULUS
    requires v == 16807 * (s - k * 127773) - k * 2836 || v == 16807 * (s - k * 127773) - k * 2836 + MODULUS
    requires 0 <= v < MODULUS
    ensures v == Next(s)
  {
    assert 16807 * 127773 + 2836 == MODULUS;
    var q := if v == 16807 * (s - k * 127773) - k * 2836 then k else k - 1;
    assert 16807 * s == q * MODULUS + v;
    RemainderIs(16807 * s, q, v);
  }

  lemma RemainderIs(a: int, q: int, v: int)
    requires a == q * MODULUS + v && 0 <= v < MODULUS
    ensures a % MODULUS == v
  {
  }

  /** Congruent numbers have congruent products. */
  lemma ProductModulo(a: int, b: int)
    ensures (a * (b % MODULUS)) % MODULUS == (a * b) % MODULUS
  {
    var q, r := b / MODULUS, b % MODULUS;
    assert b == q * MODULUS + r;
    var q', r' := (a * r) / MODULUS, (a * r) % MODULUS;
    assert a * b == a * (q * MODULUS) + a * r == (a * q) * MODULUS + a * r;
    assert a * b == (a * q + q') * MODULUS + r';
    RemainderIs(a * b, a * q + q', r');
  }

  /** The step can be undone: on the numbers from 0 to 2^31 - 2 it is a bijection, with the inverse multiplier. */
  lemma StepIsInvertible(s: int)
    requires 0 <= s < MODULUS
    ensures (INVERSE * Next(s)) % MODULUS == s && Next((INVERSE * s) % MODULUS) == s
  {
    ProductModulo(INVERSE, MULTIPLIER * s);
    ProductModulo(MULTIPLIER, INVERSE * s);
    InverseProduct(s);
  }

  lemma InverseProduct(s: int)
    requires 0 <= s < MODULUS
    ensures (INVERSE * (MULTIPLIER * s)) % MODULUS == s && (MULTIPLIER * (INVERSE * s)) % MODULUS == s
  {
    var q := INVERSE * MULTIPLIER / MODULUS;
    assert INVERSE * MULTIPLIER == q * MODULUS + 1;
    assert INVERSE * (MULTIPLIER * s) == (q * s) * MODULUS + s;
    assert MULTIPLIER * (INVERSE * s) == (q * s) * MODULUS + s;
    RemainderIs(INVERSE * (MULTIPLIER * s), q * s, s);
  }

  /** Zero is reached exactly from the multiples of the modulus. */
  lemma ZeroIff(s: int)
    ensures Next(s) == 0 <==> s % MODULUS == 0
  {
    ProductModulo(MULTIPLIER, s);
    var r := s % MODULUS;
    assert Next(r) == Next(s);
    StepIsInvertible(r);
    if Next(r) == 0 {
      assert (INVERSE * 0) % MODULUS == 0;
    }
  }

  // ----- runs

  function Power(n: nat): nat {
    if n == 0 then 1 else MULTIPLIER * Power(n - 1)
  }

  /** The seed after n draws. */
  function SeedAfter(seed: int, n: nat): int {
    if n == 0 then seed else Next(SeedAfter(seed, n - 1))
  }

  /** The n-th seed is the product with the n-th power. */
  lemma {:induction false} SeedIsPower(seed: int, n: nat)
    ensures SeedAfter(seed, n) % MODULUS == (Power(n) * seed) % MODULUS
  {
    if n == 0 {
      PowerZero(seed);
    } else {
      SeedIsPower(seed, n - 1);
      hide Power, SeedAfter, Next;
      NextIsCongruent(SeedAfter(seed, n - 1), Power(n - 1) * seed);
      SeedStep(seed, n);
      PowerStep(n, seed);
    }
  }

  lemma SeedStep(seed: int, n: nat)
    requires n > 0
    ensures SeedAfter(seed, n) == Next(SeedAfter(seed, n - 1))
  {
  }

  /** The step of a number is congruent to the product with any congruent number. */
  lemma NextIsCongruent(s: int, p: int)
    requires s % MODULUS == p % MODULUS
    ensures Next(s) % MODULUS == (MULTIPLIER * p) % MODULUS
  {
    ProductModulo(MULTIPLIER, s);
    ProductModulo(MULTIPLIER, p);
    SmallRemainder(Next(s));
  }

  lemma SmallRemainder(v: int)
    requires 0 <= v < MODULUS
    ensures v % MODULUS == v
  {
  }

  lemma PowerZero(seed: int)
    ensures Power(0) * seed == seed
  {
  }

  lemma PowerStep(n: nat, seed: int)
    requires n > 0
    ensures MULTIPLIER * (Power(n - 1) * seed) == Power(n) * seed
  {
    var p := Power(n - 1);
    assert MULTIPLIER * (p * seed) == (MULTIPLIER * p) * seed;
  }

  /** A run never meets the seed 0 if and only if it does not start from a multiple of the modulus: among the 32-bit
      seeds these are 0 itself and the largest and the smallest but one. Otherwise the second draw at the latest
      fails. */
  lemma {:induction false} NeverFatalIff(seed: int, n: nat)
    ensures seed % MODULUS != 0 ==> SeedAfter(seed, n) % MODULUS != 0
    ensures seed % MODULUS == 0 ==> SeedAfter(seed, n + 1) == 0
  {
    if n == 0 {
      ZeroIff(seed);
    } else {
      NeverFatalIff(seed, n - 1);
      ZeroIff(SeedAfter(seed, n - 1));
    }
  }

  /** Draws one value after another, until one fails. */
  method DrawMany(seed0: int32, n: nat) returns (values: seq<real>, seed: int32, ok: bool)
    ensures ok <==> n == 0 || (seed0 as int % MODULUS != 0) || (seed0 != 0 && n == 1)
    ensures ok ==> |values| == n && seed as int == SeedAfter(seed0 as int, n)
    ensures forall i | 0 <= i < |values| :: values[i] == SeedAfter(seed0 as int, i + 1) as real * SCALE
    ensures seed0 as int % MODULUS != 0 ==> forall i | 0 <= i < |values| :: 0.0 < values[i] < 1.0
  {
    values, seed, ok := [], seed0, true;
    for i := 0 to n
      invariant |values| == i && seed as int == SeedAfter(seed0 as int, i)
      invariant i > 0 ==> seed0 != 0
      invariant i > 1 ==> seed0 as int % MODULUS != 0
      invariant forall j | 0 <= j < i :: values[j] == SeedAfter(seed0 as int, j + 1) as real * SCALE
      invariant seed0 as int % MODULUS != 0 ==> forall j | 0 <= j < i :: 0.0 < values[j] < 1.0
    {
      var draw := Uniform01(seed);
      NeverFatalIff(seed0 as int, i);
      if draw == FatalError {
        ok := false;
        return;
      }
      if i > 0 {
        NeverFatalIff(seed0 as int, i - 1);
      }
      seed := draw.seed;
      values := values + [draw.value];
    }
  }
}
