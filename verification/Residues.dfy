/** Remainders of natural numbers, and what divides them. */
module Residues {

  lemma NotNegative(a: nat, b: nat)
    ensures a * b >= 0
  {
  }

  lemma ProductGrows(n: nat, a: int, b: int)
    requires a < b
    ensures n * a + n <= n * b
  {
    NotNegative(n, b - a - 1);
    assert n * b == n * a + n + n * (b - a - 1);
  }

  lemma UniqueQuotient(n: nat, q: int, r: nat, q': int, r': nat)
    requires n * q + r == n * q' + r' && r < n && r' < n
    ensures q == q' && r == r'
  {
    if q < q' {
      ProductGrows(n, q, q');
    } else if q' < q {
      ProductGrows(n, q', q);
    }
  }

  lemma RemainderIs(n: nat, q: int, r: nat)
    requires r < n
    ensures (n * q + r) % n == r && (n * q + r) / n == q
  {
    var x := n * q + r;
    assert n * (x / n) + x % n == x;
    UniqueQuotient(n, q, r, x / n, x % n);
  }

  lemma QuotientGrows(i: nat, j: nat, m: nat)
    requires i <= j && m > 0
    ensures i / m <= j / m
  {
    var q, q' := i / m, j / m;
    assert m * q <= i && j < m * q' + m;
    if q' < q {
      ProductGrows(m, q', q);
    }
  }

  ghost predicate Divides(d: nat, n: nat) {
    exists k: nat :: n == d * k
  }

  lemma DividesIff(d: nat, n: nat)
    requires d > 0
    ensures Divides(d, n) <==> n % d == 0
  {
    if k: nat :| n == d * k {
      RemainderIs(d, k, 0);
    }
    if n % d == 0 {
      assert n == d * (n / d);
    }
  }

  // ----- sets of numbers that are closed under subtraction

  ghost predicate Closed(P: nat -> bool) {
    forall a: nat, b: nat | P(a) && P(b) && b <= a :: P(a - b)
  }

  ghost predicate Least(P: nat -> bool, d: nat) {
    d > 0 && P(d) && forall k: nat | 0 < k < d :: !P(k)
  }

  lemma {:induction false} LeastExists(P: nat -> bool, n: nat) returns (d: nat)
    requires n > 0 && P(n)
    ensures Least(P, d) && d <= n
  {
    if k: nat :| 0 < k < n && P(k) {
      d := LeastExists(P, k);
    } else {
      d := n;
    }
  }

  /** The least positive member divides every member. */
  lemma {:induction false} LeastDivides(P: nat -> bool, d: nat, n: nat)
    requires Closed(P) && Least(P, d) && P(n)
    ensures Divides(d, n)
  {
    if n == 0 {
      assert n == d * 0;
    } else {
      assert n >= d;
      LeastDivides(P, d, n - d);
      var k: nat :| n - d == d * k;
      assert n == d * (k + 1);
    }
  }

  // ----- primes

  ghost predicate IsPrime(q: nat) {
    q > 1 && forall d: nat | Divides(d, q) :: d == 1 || d == q
  }

  /** No number from 2 to k divides q. */
  predicate Undivided(q: nat, k: nat) {
    k <= 1 || (q % k != 0 && Undivided(q, k - 1))
  }

  lemma {:induction false} UndividedBy(q: nat, k: nat, d: nat)
    requires Undivided(q, k) && 1 < d <= k
    ensures q % d != 0
  {
    if d < k {
      UndividedBy(q, k - 1, d);
    }
  }

  /** It is enough to try divisors up to the root. */
  lemma UndividedIsPrime(q: nat, k: nat)
    requires q > 1 && Undivided(q, k) && q < (k + 1) * (k + 1)
    ensures IsPrime(q)
  {
    forall d: nat | Divides(d, q) ensures d == 1 || d == q {
      var c: nat :| q == d * c;
      DivisorBounds(d, c, q);
      SmallFactor(d, c, k);
      NotAFactor(q, k, d, c);
      NotAFactor(q, k, c, d);
    }
  }

  lemma LargeProduct(d: nat, c: nat, k: nat)
    requires d > k && c > k
    ensures d * c >= (k + 1) * (k + 1)
  {
    NotNegative(d - k - 1, c);
    NotNegative(k + 1, c - k - 1);
    assert d * c == (d - k - 1) * c + (k + 1) * (c - k - 1) + (k + 1) * (k + 1);
  }

  lemma SmallFactor(d: nat, c: nat, k: nat)
    requires d * c < (k + 1) * (k + 1)
    ensures d <= k || c <= k
  {
    if d > k && c > k {
      LargeProduct(d, c, k);
    }
  }

  lemma NotAFactor(q: nat, k: nat, d: nat, c: nat)
    requires Undivided(q, k) && q == d * c && d > 0
    ensures d > 1 ==> d > k
    ensures d == 1 ==> c == q
  {
    RemainderIs(d, c, 0);
    if 1 < d <= k {
      UndividedBy(q, k, d);
    }
  }

  lemma DivisorBounds(d: nat, k: nat, q: nat)
    requires q == d * k && q > 0
    ensures 0 < d <= q && k > 0
  {
    if k > 0 {
      ProductGrows(d, 0, k);
    }
  }

  ghost predicate MultipleOf(q: nat, e: nat, x: nat) {
    Divides(q, x * e)
  }

  lemma MultiplesClosed(q: nat, e: nat)
    requires q > 0
    ensures Closed((x: nat) => MultipleOf(q, e, x))
  {
    forall a: nat, b: nat | MultipleOf(q, e, a) && MultipleOf(q, e, b) && b <= a ensures MultipleOf(q, e, a - b) {
      var k: nat :| a * e == q * k;
      var l: nat :| b * e == q * l;
      DifferenceOfMultiples(q, e, a, b, k, l);
    }
  }

  lemma DifferenceOfMultiples(q: nat, e: nat, a: nat, b: nat, k: nat, l: nat)
    requires q > 0 && a * e == q * k && b * e == q * l && b <= a
    ensures Divides(q, (a - b) * e)
  {
    ProductOrder(b, a, e);
    if k < l {
      ProductGrows(q, k, l);
    }
    assert (a - b) * e == q * (k - l);
  }

  lemma ProductOrder(b: nat, a: nat, e: nat)
    requires b <= a
    ensures b * e <= a * e
  {
    assert (a - b) * e >= 0;
  }

  /** A prime that divides a product divides one of the factors. */
  lemma PrimeDividesFactor(q: nat, d: nat, e: nat)
    requires IsPrime(q) && Divides(q, d * e)
    ensures Divides(q, d) || Divides(q, e)
  {
    hide IsPrime;
    var P := (x: nat) => MultipleOf(q, e, x);
    PrimeIsPositive(q);
    MultiplesClosed(q, e);
    assert q * e == q * e;
    assert P(q) && P(d);
    var t := LeastExists(P, q);
    LeastDivides(P, t, q);
    LeastDivides(P, t, d);
    PrimeDivisor(q, t);
    if t == 1 {
      assert Divides(q, 1 * e);
      assert 1 * e == e;
    }
  }

  lemma PrimeIsPositive(q: nat)
    requires IsPrime(q)
    ensures q > 1
  {
  }

  lemma PrimeDivisor(q: nat, t: nat)
    requires IsPrime(q) && Divides(t, q)
    ensures t == 1 || t == q
  {
  }

  // ----- products of primes

  function Product(qs: seq<nat>): nat {
    if qs == [] then 1 else qs[0] * Product(qs[1..])
  }

  lemma CancelFactor(q: nat, c: nat, e: nat, rest: nat)
    requires q > 0 && (q * c) * e == q * rest
    ensures c * e == rest
  {
    assert (q * c) * e == q * (c * e);
    UniqueQuotient(q, c * e, 0, rest, 0);
  }

  /** A factor of a product of primes is one, or one of the primes divides it. */
  lemma {:induction false} SomePrimeDivides(qs: seq<nat>, d: nat, e: nat)
    requires (forall q | q in qs :: IsPrime(q)) && d * e == Product(qs)
    ensures e == 1 || exists q | q in qs :: Divides(q, e)
  {
    hide IsPrime;
    if qs == [] {
      FactorOfOne(d, e);
    } else {
      var q, rest := qs[0], Product(qs[1..]);
      assert Divides(q, d * e);
      PrimeDividesFactor(q, d, e);
      if Divides(q, d) {
        var c: nat :| d == q * c;
        PrimeIsPositive(q);
        CancelFactor(q, c, e, rest);
        SomePrimeDivides(qs[1..], c, e);
      }
    }
  }

  lemma FactorOfOne(d: nat, e: nat)
    requires d * e == 1
    ensures d == 1 && e == 1
  {
    DivisorBounds(d, e, 1);
  }
}
