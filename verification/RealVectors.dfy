/** Vectors over the reals and the dot product of their prefixes: what the `project(..., range(0, k))`,
    `inner_prod` and `prod` expressions of lib/bayesopt/utils/ublas_cholesky.hpp compute. */
module RealVectors {

  type Vec = seq<real>
  type Mat = seq<seq<real>>

  /** The product of two reals. It has a name so that a proof can hide the nonlinear arithmetic
      behind it and use only the laws below. */
  function Times(a: real, b: real): real {
    a * b
  }

  /** The quotient of two reals, named for the same reason. A quotient by zero is not a real number:
      nothing relies on the one given to it here. */
  function Over(a: real, d: real): real {
    if d == 0.0 then 0.0 else a / d
  }

  /** A square root: on a nonnegative argument it is nonnegative, and its square is the argument. */
  ghost predicate IsSqrt(sqrt: real -> real) {
    forall x: real | x >= 0.0 :: sqrt(x) >= 0.0 && Times(sqrt(x), sqrt(x)) == x
  }

  lemma TimesCommutes(a: real, b: real)
    ensures Times(a, b) == Times(b, a)
  {
  }

  lemma TimesAssociates(a: real, b: real, c: real)
    ensures Times(Times(a, b), c) == Times(a, Times(b, c))
  {
    assert (a * b) * c == a * (b * c);
  }

  lemma TimesAdds(a: real, b: real, c: real)
    ensures Times(a, b + c) == Times(a, b) + Times(a, c)
    ensures Times(a, b - c) == Times(a, b) - Times(a, c)
  {
    assert a * (b + c) == a * b + a * c;
    assert a * (b - c) == a * b - a * c;
  }

  lemma TimesNegates(a: real, b: real)
    ensures Times(-a, b) == -Times(a, b)
  {
  }

  lemma TimesUnits(a: real)
    ensures Times(0.0, a) == Times(a, 0.0) == 0.0
    ensures Times(1.0, a) == Times(a, 1.0) == a
    ensures Times(-1.0, a) == Times(a, -1.0) == -a
  {
  }

  lemma TimesPositive(a: real, b: real)
    requires a > 0.0 && b > 0.0
    ensures Times(a, b) > 0.0
  {
  }

  lemma TimesSquare(a: real)
    ensures Times(a, a) >= 0.0
    ensures a != 0.0 ==> Times(a, a) > 0.0
  {
    hide Times;
    if a > 0.0 {
      TimesPositive(a, a);
    } else if a < 0.0 {
      TimesPositive(-a, -a);
      TimesUnits(a);
      TimesUnits(-a);
      TimesAssociates(-1.0, a, -a);
      TimesAssociates(a, -1.0, -a);
      TimesCommutes(a, -a);
      assert Times(-a, -a) == Times(Times(a, -1.0), -a) == Times(a, Times(-1.0, -a)) == Times(a, a);
    } else {
      TimesUnits(a);
    }
  }

  lemma TimesQuotient(a: real, d: real)
    requires d != 0.0
    ensures Times(Over(a, d), d) == Times(d, Over(a, d)) == a
  {
  }

  lemma TimesCancels(a: real, b: real, d: real)
    requires d != 0.0 && (Times(a, d) == Times(b, d) || Times(d, a) == Times(d, b))
    ensures a == b
  {
    assert a == a * d / d && b == b * d / d;
  }

  lemma SameSquare(a: real, b: real)
    requires a > 0.0 && b > 0.0 && Times(a, a) == Times(b, b)
    ensures a == b
  {
    hide Times;
    TimesAdds(a + b, a, b);
    TimesCommutes(a + b, a);
    TimesCommutes(a + b, b);
    TimesAdds(a, a, b);
    TimesAdds(b, a, b);
    TimesCommutes(a, b);
    TimesUnits(a + b);
    TimesCancels(a - b, 0.0, a + b);
  }

  /** The inner product of the first m entries of u and v. */
  function Dot(u: Vec, v: Vec, m: nat): real
    requires m <= |u| && m <= |v|
  {
    if m == 0 then 0.0 else Dot(u, v, m - 1) + Times(u[m - 1], v[m - 1])
  }

  /** y + t v, entry by entry. */
  function AddScaled(y: Vec, t: real, v: Vec): (r: Vec)
    requires |y| == |v|
    ensures |r| == |y|
  {
    seq(|y|, i requires 0 <= i < |y| => y[i] + Times(t, v[i]))
  }

  ghost predicate IsZero(x: Vec) {
    forall i | 0 <= i < |x| :: x[i] == 0.0
  }

  function Zeros(n: nat): (z: Vec)
    ensures |z| == n && IsZero(z)
  {
    seq(n, _ => 0.0)
  }

  lemma {:induction false} DotCongruent(u: Vec, u': Vec, v: Vec, v': Vec, m: nat)
    requires m <= |u| && m <= |u'| && m <= |v| && m <= |v'|
    requires u[..m] == u'[..m] && v[..m] == v'[..m]
    ensures Dot(u, v, m) == Dot(u', v', m)
  {
    hide Times;
    if m > 0 {
      assert u[..m][m - 1] == u'[..m][m - 1] && v[..m][m - 1] == v'[..m][m - 1];
      assert u[..m - 1] == u[..m][..m - 1] == u'[..m - 1];
      assert v[..m - 1] == v[..m][..m - 1] == v'[..m - 1];
      DotCongruent(u, u', v, v', m - 1);
    }
  }

  lemma DotStep(u: Vec, v: Vec, m: nat)
    requires m < |u| && m < |v|
    ensures Dot(u, v, m + 1) == Dot(u, v, m) + Times(u[m], v[m])
  {
  }

  lemma {:induction false} DotCommutes(u: Vec, v: Vec, m: nat)
    requires m <= |u| && m <= |v|
    ensures Dot(u, v, m) == Dot(v, u, m)
  {
    hide Times;
    if m > 0 {
      DotCommutes(u, v, m - 1);
      TimesCommutes(u[m - 1], v[m - 1]);
    }
  }

  lemma {:induction false} DotAddScaled(u: Vec, y: Vec, t: real, v: Vec, m: nat)
    requires |y| == |v| && m <= |u| && m <= |y|
    ensures Dot(u, AddScaled(y, t, v), m) == Dot(u, y, m) + Times(t, Dot(u, v, m))
  {
    hide Times;
    if m == 0 {
      TimesUnits(t);
    } else {
      DotAddScaled(u, y, t, v, m - 1);
      var a, b, c := u[m - 1], y[m - 1], v[m - 1];
      TimesAdds(a, b, Times(t, c));
      TimesAssociates(a, t, c);
      TimesAssociates(t, a, c);
      TimesCommutes(a, t);
      TimesAdds(t, Dot(u, v, m - 1), Times(a, c));
    }
  }

  lemma {:induction false} DotZero(u: Vec, z: Vec, m: nat)
    requires m <= |u| && m <= |z| && IsZero(z)
    ensures Dot(u, z, m) == 0.0
  {
    hide Times;
    if m > 0 {
      DotZero(u, z, m - 1);
      TimesUnits(u[m - 1]);
    }
  }

  /** A vector has a nonnegative norm, which is positive for a vector other than zero. */
  lemma {:induction false} NormPositive(x: Vec, m: nat)
    requires m <= |x|
    ensures Dot(x, x, m) >= 0.0
    ensures !IsZero(x[..m]) ==> Dot(x, x, m) > 0.0
  {
    hide Times;
    if m > 0 {
      NormPositive(x, m - 1);
      TimesSquare(x[m - 1]);
      if x[m - 1] == 0.0 && IsZero(x[..m - 1]) {
        assert forall i | 0 <= i < m - 1 :: x[..m][i] == x[..m - 1][i];
        assert x[..m][m - 1] == 0.0;
      }
    }
  }

  /** a + 2 t b + t^2 c. */
  function Poly(a: real, b: real, c: real, t: real): real {
    a + 2.0 * Times(t, b) + Times(Times(t, t), c)
  }

  lemma PolySplit(a: real, b: real, c: real, d: real, t: real)
    ensures Poly(a, b, d, t) == Poly(Poly(a, b, c, t), 0.0, d - c, t)
  {
    hide Times;
    TimesAdds(Times(t, t), d, c);
    TimesUnits(t);
  }

  lemma PolyUnits(a: real, b: real, c: real)
    ensures Poly(a, b, c, 0.0) == a
    ensures Poly(0.0, 0.0, c, 1.0) == c
  {
  }

  lemma PolyPositive(a: real, c: real, t: real)
    requires a >= 0.0 && c > 0.0 && t != 0.0
    ensures Poly(a, 0.0, c, t) > 0.0
  {
    hide Times;
    TimesSquare(t);
    TimesPositive(Times(t, t), c);
    TimesUnits(t);
  }

  /** |y + t l|^2 expanded. */
  lemma NormAddScaled(y: Vec, t: real, l: Vec, n: nat)
    requires |y| == |l| == n
    ensures var w := AddScaled(y, t, l);
            Dot(w, w, n) == Poly(Dot(y, y, n), Dot(y, l, n), Dot(l, l, n), t)
  {
    hide Times, Dot, AddScaled;
    var w := AddScaled(y, t, l);
    DotAddScaled(w, y, t, l, n);
    DotCommutes(w, y, n);
    DotCommutes(w, l, n);
    DotAddScaled(y, y, t, l, n);
    DotAddScaled(l, y, t, l, n);
    DotCommutes(l, y, n);
    var b, c := Dot(y, l, n), Dot(l, l, n);
    TimesAdds(t, b, Times(t, c));
    TimesAssociates(t, t, c);
  }
}
