/** What it means to factor a symmetric matrix, independently of any algorithm.

    A symmetric matrix is given by its lower triangle: only entries A[i][j] with j <= i are looked at. */
module CholeskyTheory {
  import opened RealVectors

  /** M has at least n rows and row i reaches at least its diagonal entry. */
  ghost predicate LowerShape(M: Mat, n: nat) {
    n <= |M| && forall i | 0 <= i < n :: |M[i]| > i
  }

  /** Entry (i, j) of the symmetric matrix stored in the lower triangle of A. */
  ghost function Sym(A: Mat, n: nat, i: nat, j: nat): real
    requires LowerShape(A, n) && i < n && j < n
  {
    if j <= i then A[i][j] else A[j][i]
  }

  /** Row i of that symmetric matrix. */
  ghost function SymRow(A: Mat, n: nat, i: nat): (r: Vec)
    requires LowerShape(A, n) && i < n
    ensures |r| == n
  {
    seq(n, j requires 0 <= j < n => Sym(A, n, i, j))
  }

  /** The product A x. */
  ghost function MatVec(A: Mat, n: nat, x: Vec): (r: Vec)
    requires LowerShape(A, n) && |x| == n
    ensures |r| == n
  {
    seq(n, i requires 0 <= i < n => Dot(SymRow(A, n, i), x, n))
  }

  /** The quadratic form x' A x. */
  ghost function Quad(A: Mat, n: nat, x: Vec): real
    requires LowerShape(A, n) && |x| == n
  {
    Dot(x, MatVec(A, n, x), n)
  }

  /** The leading n-by-n block of A is positive definite. */
  ghost predicate PosDef(A: Mat, n: nat)
    requires LowerShape(A, n)
  {
    forall x: Vec | |x| == n && !IsZero(x) :: Quad(A, n, x) > 0.0
  }

  ghost predicate PositiveDiagonal(L: Mat, n: nat)
    requires LowerShape(L, n)
  {
    forall i | 0 <= i < n :: L[i][i] > 0.0
  }

  /** L L' and A agree on the lower triangle. */
  ghost predicate Reproduces(L: Mat, A: Mat, n: nat)
    requires LowerShape(L, n) && LowerShape(A, n)
  {
    forall i, j {:trigger A[i][j]} | 0 <= j <= i < n :: Dot(L[i], L[j], j + 1) == A[i][j]
  }

  /** L is a Cholesky factor of the leading n-by-n block of A: L L' = A, with a positive diagonal. */
  ghost predicate IsFactor(L: Mat, A: Mat, n: nat)
    requires LowerShape(A, n)
  {
    LowerShape(L, n) && PositiveDiagonal(L, n) && Reproduces(L, A, n)
  }

  /** Two matrices have the same lower triangle of order n. */
  ghost predicate SameLower(M: Mat, M': Mat, n: nat)
    requires LowerShape(M, n) && LowerShape(M', n)
  {
    forall i, j {:trigger M[i][j]} {:trigger M'[i][j]} | 0 <= j <= i < n :: M[i][j] == M'[i][j]
  }

  /** The product L y for a lower triangular L. */
  ghost function LowMul(L: Mat, n: nat, y: Vec): (r: Vec)
    requires LowerShape(L, n) && |y| == n
    ensures |r| == n
  {
    seq(n, i requires 0 <= i < n => Dot(L[i], y, i + 1))
  }

  /** The product L' x for a lower triangular L, built one row of L at a time. */
  ghost function TransMul(L: Mat, n: nat, x: Vec): (r: Vec)
    requires LowerShape(L, n) && |x| == n
    ensures |r| == n
  {
    if n == 0 then []
    else AddScaled(TransMul(L, n - 1, x[..n - 1]) + [0.0], x[n - 1], L[n - 1][..n])
  }

  // ----- A x = L (L' x), and x' A x = |L' x|^2

  /** The adjoint law <x, L y> = <L' x, y>. */
  lemma {:induction false} Adjoint(L: Mat, n: nat, x: Vec, y: Vec)
    requires LowerShape(L, n) && |x| == n && |y| == n
    ensures Dot(x, LowMul(L, n, y), n) == Dot(TransMul(L, n, x), y, n)
  {
    hide Times, Over, AddScaled;
    if n > 0 {
      var x0, y0 := x[..n - 1], y[..n - 1];
      var t, row := TransMul(L, n - 1, x0), L[n - 1][..n];
      calc {
        Dot(TransMul(L, n, x), y, n);
        { DotCommutes(y, TransMul(L, n, x), n); }
        Dot(y, AddScaled(t + [0.0], x[n - 1], row), n);
        { DotAddScaled(y, t + [0.0], x[n - 1], row, n); }
        Dot(y, t + [0.0], n) + Times(x[n - 1], Dot(y, row, n));
        { DotWithZero(y, t, n); DotCommutes(y0, t, n - 1); }
        Dot(t, y0, n - 1) + Times(x[n - 1], Dot(y, row, n));
        { DotCommutes(y, row, n); DotCongruent(row, L[n - 1], y, y, n); }
        Dot(t, y0, n - 1) + Times(x[n - 1], Dot(L[n - 1], y, n));
      }
      Adjoint(L, n - 1, x0, y0);
      var p, p0 := LowMul(L, n, y), LowMul(L, n - 1, y0);
      forall i | 0 <= i < n - 1 ensures p[i] == p0[i] {
        DotCongruent(L[i], L[i], y, y0, i + 1);
      }
      assert p[..n - 1] == p0[..n - 1];
      DotCongruent(x, x0, p, p0, n - 1);
    }
  }

  lemma DotWithZero(y: Vec, t: Vec, n: nat)
    requires 0 < n == |y| && |t| == n - 1
    ensures Dot(y, t + [0.0], n) == Dot(y[..n - 1], t, n - 1)
  {
    hide Times, Over;
    TimesUnits(y[n - 1]);
    DotCongruent(y, y[..n - 1], t + [0.0], t, n - 1);
  }

  function Min(a: nat, b: nat): nat { if a <= b then a else b }

  /** Entry r of L (L' x), with only the first m entries of x counted, is entry r of A x. */
  lemma {:induction false} FactorRow(L: Mat, A: Mat, n: nat, x: Vec, r: nat, m: nat)
    requires LowerShape(A, n) && IsFactor(L, A, n) && |x| == n && r < n && m <= n
    ensures Dot(L[r], TransMul(L, m, x[..m]), Min(r + 1, m)) == Dot(SymRow(A, n, r), x, m)
  {
    hide Times, Over, Reproduces, PositiveDiagonal, AddScaled, Sym, SymRow;
    if m > 0 {
      FactorRow(L, A, n, x, r, m - 1);
      assert x[..m][..m - 1] == x[..m - 1];
      var t, v := TransMul(L, m - 1, x[..m - 1]), L[m - 1][..m];
      var k := Min(r + 1, m);
      assert TransMul(L, m, x[..m]) == AddScaled(t + [0.0], x[m - 1], v);
      DotPadded(L[r], t, k);
      assert Dot(L[r], v, k) == Sym(A, n, r, m - 1) by {
        DotCongruent(L[r], L[r], v, L[m - 1], k);
        FactorEntryProduct(L, A, n, r, m - 1);
      }
      SymRowStep(A, n, x, r, m);
      DotAddScaled(L[r], t + [0.0], x[m - 1], v, k);
    }
  }

  /** Padding a vector with one zero does not change its products. */
  lemma DotPadded(u: Vec, t: Vec, k: nat)
    requires k <= |u| && k <= |t| + 1
    ensures Dot(u, t + [0.0], k) == Dot(u, t, Min(k, |t|))
  {
    hide Times, Over;
    DotCongruent(u, u, t + [0.0], t, Min(k, |t|));
    if k == |t| + 1 {
      TimesUnits(u[k - 1]);
    }
  }

  lemma SymRowStep(A: Mat, n: nat, x: Vec, r: nat, m: nat)
    requires LowerShape(A, n) && |x| == n && r < n && 0 < m <= n
    ensures Dot(SymRow(A, n, r), x, m) == Dot(SymRow(A, n, r), x, m - 1) + Times(x[m - 1], Sym(A, n, r, m - 1))
  {
    TimesCommutes(x[m - 1], Sym(A, n, r, m - 1));
  }

  /** Rows r and c of L multiply to entry (r, c) of the symmetric matrix. */
  lemma FactorEntryProduct(L: Mat, A: Mat, n: nat, r: nat, c: nat)
    requires LowerShape(A, n) && IsFactor(L, A, n) && r < n && c < n
    ensures Dot(L[r], L[c], Min(r + 1, c + 1)) == Sym(A, n, r, c)
  {
    hide Times, Over, Dot;
    DotCommutes(L[r], L[c], Min(r + 1, c + 1));
  }

  /** A x = L (L' x). */
  lemma FactorMatVec(L: Mat, A: Mat, n: nat, x: Vec)
    requires LowerShape(A, n) && IsFactor(L, A, n) && |x| == n
    ensures MatVec(A, n, x) == LowMul(L, n, TransMul(L, n, x))
  {
    hide Times, Over, Dot, Reproduces, TransMul;
    forall r | 0 <= r < n ensures MatVec(A, n, x)[r] == LowMul(L, n, TransMul(L, n, x))[r] {
      FactorRow(L, A, n, x, r, n);
      assert x[..n] == x;
    }
  }

  /** x' A x = |L' x|^2. */
  lemma FactorQuad(L: Mat, A: Mat, n: nat, x: Vec)
    requires LowerShape(A, n) && IsFactor(L, A, n) && |x| == n
    ensures Quad(A, n, x) == Dot(TransMul(L, n, x), TransMul(L, n, x), n)
  {
    hide Dot, TransMul, LowMul, MatVec, Reproduces, PositiveDiagonal;
    FactorMatVec(L, A, n, x);
    Adjoint(L, n, x, TransMul(L, n, x));
  }

  // ----- triangular systems

  ghost predicate NonzeroDiagonal(L: Mat, n: nat)
    requires LowerShape(L, n)
  {
    forall i | 0 <= i < n :: L[i][i] != 0.0
  }

  /** The solution u of L' u = b, last entry first. */
  ghost function BackSolve(L: Mat, n: nat, b: Vec): (u: Vec)
    requires LowerShape(L, n) && NonzeroDiagonal(L, n) && |b| == n
    ensures |u| == n
  {
    if n == 0 then []
    else
      var t := Over(b[n - 1], L[n - 1][n - 1]);
      BackSolve(L, n - 1, AddScaled(b[..n - 1], -t, L[n - 1][..n - 1])) + [t]
  }

  lemma {:induction false} BackSolveSolves(L: Mat, n: nat, b: Vec)
    requires LowerShape(L, n) && NonzeroDiagonal(L, n) && |b| == n
    ensures TransMul(L, n, BackSolve(L, n, b)) == b
  {
    hide Times, Over;
    if n > 0 {
      var t := Over(b[n - 1], L[n - 1][n - 1]);
      var b0 := AddScaled(b[..n - 1], -t, L[n - 1][..n - 1]);
      BackSolveSolves(L, n - 1, b0);
      var u := BackSolve(L, n, b);
      assert u[..n - 1] == BackSolve(L, n - 1, b0);
      forall i | 0 <= i < n ensures TransMul(L, n, u)[i] == b[i] {
        if i < n - 1 {
          assert b0[i] == b[i] + Times(-t, L[n - 1][i]);
          TimesNegates(t, L[n - 1][i]);
        } else {
          TimesQuotient(b[n - 1], L[n - 1][n - 1]);
        }
      }
    }
  }

  /** L' is one to one. */
  lemma {:induction false} TransMulInjective(L: Mat, n: nat, x: Vec, x': Vec)
    requires LowerShape(L, n) && NonzeroDiagonal(L, n) && |x| == n && |x'| == n
    requires TransMul(L, n, x) == TransMul(L, n, x')
    ensures x == x'
  {
    hide Times, Over;
    if n > 0 {
      assert TransMul(L, n, x)[n - 1] == 0.0 + Times(x[n - 1], L[n - 1][n - 1]);
      assert TransMul(L, n, x')[n - 1] == 0.0 + Times(x'[n - 1], L[n - 1][n - 1]);
      TimesCancels(x[n - 1], x'[n - 1], L[n - 1][n - 1]);
      var t, t' := TransMul(L, n - 1, x[..n - 1]), TransMul(L, n - 1, x'[..n - 1]);
      forall i | 0 <= i < n - 1 ensures t[i] == t'[i] {
        assert TransMul(L, n, x)[i] == t[i] + Times(x[n - 1], L[n - 1][i]);
        assert TransMul(L, n, x')[i] == t'[i] + Times(x'[n - 1], L[n - 1][i]);
      }
      TransMulInjective(L, n - 1, x[..n - 1], x'[..n - 1]);
      assert x == x[..n - 1] + [x[n - 1]] && x' == x'[..n - 1] + [x'[n - 1]];
    }
  }

  /** L is one to one. */
  lemma {:induction false} LowMulInjective(L: Mat, n: nat, y: Vec, y': Vec, m: nat)
    requires LowerShape(L, n) && NonzeroDiagonal(L, n) && |y| == n && |y'| == n && m <= n
    requires LowMul(L, n, y) == LowMul(L, n, y')
    ensures y[..m] == y'[..m]
  {
    hide Times, Over;
    if m > 0 {
      LowMulInjective(L, n, y, y', m - 1);
      var r := m - 1;
      DotCongruent(L[r], L[r], y, y', r);
      assert LowMul(L, n, y)[r] == Dot(L[r], y, r) + Times(L[r][r], y[r]);
      assert LowMul(L, n, y')[r] == Dot(L[r], y', r) + Times(L[r][r], y'[r]);
      TimesCancels(y[r], y'[r], L[r][r]);
      assert y[..m] == y[..r] + [y[r]] && y'[..m] == y'[..r] + [y'[r]];
    }
  }

  // ----- positive definiteness

  /** A matrix that has a Cholesky factor is positive definite. */
  lemma FactorImpliesPosDef(L: Mat, A: Mat, n: nat)
    requires LowerShape(A, n) && IsFactor(L, A, n)
    ensures PosDef(A, n)
  {
    hide Times, Over, Dot, Quad, Reproduces;
    forall x: Vec | |x| == n && !IsZero(x) ensures Quad(A, n, x) > 0.0 {
      FactorQuad(L, A, n, x);
      var t := TransMul(L, n, x);
      NormPositive(t, n);
      assert t[..n] == t;
      if IsZero(t) {
        TransMulZero(L, n);
        assert t == Zeros(n);
        TransMulInjective(L, n, x, Zeros(n));
        assert false;
      }
    }
  }

  lemma {:induction false} TransMulZero(L: Mat, n: nat)
    requires LowerShape(L, n)
    ensures TransMul(L, n, Zeros(n)) == Zeros(n)
  {
    hide Times, Over;
    if n > 0 {
      assert Zeros(n)[..n - 1] == Zeros(n - 1);
      TransMulZero(L, n - 1);
      forall i | 0 <= i < n ensures TransMul(L, n, Zeros(n))[i] == 0.0 {
        TimesUnits(L[n - 1][i]);
      }
    }
  }

  /** How the quadratic form grows with one more row. */
  lemma QuadStep(A: Mat, n: nat, x: Vec, t: real)
    requires LowerShape(A, n + 1) && |x| == n
    ensures Quad(A, n + 1, x + [t]) == Poly(Quad(A, n, x), Dot(A[n], x, n), A[n][n], t)
  {
    hide Times, Over;
    var z := x + [t];
    var p, q := MatVec(A, n + 1, z), MatVec(A, n, x);
    var row := A[n][..n];
    MatVecStep(A, n, x, t);
    DotCongruent(z, x, p, AddScaled(q, t, row), n);
    DotAddScaled(x, q, t, row, n);
    DotCommutes(x, row, n);
    DotCongruent(row, A[n], x, x, n);
    assert Dot(z, p, n + 1) == Dot(z, p, n) + Times(t, p[n]);
    TimesAdds(t, Dot(A[n], x, n), Times(A[n][n], t));
    TimesCommutes(A[n][n], t);
    TimesAssociates(t, t, A[n][n]);
  }

  lemma MatVecStep(A: Mat, n: nat, x: Vec, t: real)
    requires LowerShape(A, n + 1) && |x| == n
    ensures MatVec(A, n + 1, x + [t])[..n] == AddScaled(MatVec(A, n, x), t, A[n][..n])
    ensures MatVec(A, n + 1, x + [t])[n] == Dot(A[n], x, n) + Times(A[n][n], t)
  {
    hide Times, Over;
    var z := x + [t];
    var p, q := MatVec(A, n + 1, z), MatVec(A, n, x);
    forall i | 0 <= i < n ensures p[i] == AddScaled(q, t, A[n][..n])[i] {
      var s := SymRow(A, n + 1, i);
      assert s[..n] == SymRow(A, n, i)[..n];
      DotCongruent(s, SymRow(A, n, i), z, x, n);
      TimesCommutes(t, A[n][i]);
    }
    var last := SymRow(A, n + 1, n);
    assert last[..n] == A[n][..n];
    DotCongruent(last, A[n], z, x, n);
  }

  /** Every leading block of a positive definite matrix is positive definite. */
  lemma {:induction false} PosDefLeading(A: Mat, n: nat, m: nat)
    requires m <= n && LowerShape(A, n) && PosDef(A, n)
    ensures PosDef(A, m)
  {
    hide Times, Over, Dot, Quad, Poly;
    if m < n {
      forall x: Vec | |x| == n - 1 && !IsZero(x) ensures Quad(A, n - 1, x) > 0.0 {
        QuadStep(A, n - 1, x, 0.0);
        PolyUnits(Quad(A, n - 1, x), Dot(A[n - 1], x, n - 1), A[n - 1][n - 1]);
        ZeroSplit(x + [0.0], n - 1);
        assert (x + [0.0])[..n - 1] == x;
        assert Quad(A, n, x + [0.0]) > 0.0;
      }
      PosDefLeading(A, n - 1, m);
    }
  }

  lemma ZeroSplit(x: Vec, n: nat)
    requires |x| == n + 1
    ensures IsZero(x) <==> IsZero(x[..n]) && x[n] == 0.0
  {
    assert forall i | 0 <= i < n :: x[..n][i] == x[i];
  }

  /** The row that extends a factor: L l is the off-diagonal part of the new row of A. */
  ghost predicate ExtendsRow(L: Mat, A: Mat, n: nat, l: Vec)
    requires LowerShape(A, n + 1) && LowerShape(L, n) && |l| == n
  {
    forall j {:trigger A[n][j]} | 0 <= j < n :: Dot(L[j], l, j + 1) == A[n][j]
  }

  /** What is left of the new diagonal entry: the number under the square root. */
  function Pivot(A: Mat, n: nat, l: Vec): real
    requires n < |A| && n < |A[n]| && |l| == n
  {
    A[n][n] - Dot(l, l, n)
  }

  /** <L' u, l> is the product of the new row of A with u. */
  lemma NewRowProduct(L: Mat, A: Mat, n: nat, l: Vec, u: Vec)
    requires LowerShape(A, n + 1) && LowerShape(L, n) && |l| == n && |u| == n
    requires ExtendsRow(L, A, n, l)
    ensures Dot(TransMul(L, n, u), l, n) == Dot(A[n], u, n)
  {
    hide Dot, TransMul;
    Adjoint(L, n, u, l);
    var p := LowMul(L, n, l);
    assert p[..n] == A[n][..n];
    DotCongruent(u, u, p, A[n], n);
    DotCommutes(u, A[n], n);
  }

  /** Completing the square: x' A x with last entry t is |L' u + t l|^2 + t^2 (A[n][n] - |l|^2). */
  lemma CompleteSquare(L: Mat, A: Mat, n: nat, l: Vec, u: Vec, t: real)
    requires LowerShape(A, n + 1) && IsFactor(L, A, n) && |l| == n && |u| == n
    requires ExtendsRow(L, A, n, l)
    ensures var w := AddScaled(TransMul(L, n, u), t, l);
            Quad(A, n + 1, u + [t]) == Poly(Dot(w, w, n), 0.0, Pivot(A, n, l), t)
  {
    hide Poly, Dot, Quad, Reproduces, PositiveDiagonal, TransMul, AddScaled;
    QuadStep(A, n, u, t);
    FactorQuad(L, A, n, u);
    NewRowProduct(L, A, n, l, u);
    var y := TransMul(L, n, u);
    NormAddScaled(y, t, l, n);
    PolySplit(Dot(y, y, n), Dot(y, l, n), Dot(l, l, n), A[n][n], t);
  }

  /** The vector (u, 1) with L' u = -l, at which the quadratic form equals the pivot. */
  ghost function PivotWitness(L: Mat, n: nat, l: Vec): (x: Vec)
    requires LowerShape(L, n) && NonzeroDiagonal(L, n) && |l| == n
    ensures |x| == n + 1 && !IsZero(x)
  {
    var x := BackSolve(L, n, AddScaled(Zeros(n), -1.0, l)) + [1.0];
    assert x[n] == 1.0;
    x
  }

  lemma PivotWitnessQuad(L: Mat, A: Mat, n: nat, l: Vec)
    requires LowerShape(A, n + 1) && IsFactor(L, A, n) && |l| == n && ExtendsRow(L, A, n, l)
    ensures NonzeroDiagonal(L, n)
    ensures Quad(A, n + 1, PivotWitness(L, n, l)) == Pivot(A, n, l)
  {
    hide Poly, Dot, Quad, Reproduces, TransMul, AddScaled, BackSolve, Pivot;
    var b := AddScaled(Zeros(n), -1.0, l);
    BackSolveSolves(L, n, b);
    CompleteSquare(L, A, n, l, BackSolve(L, n, b), 1.0);
    var w := AddScaled(b, 1.0, l);
    CancelledIsZero(l, n);
    DotZero(w, w, n);
    PolyUnits(0.0, 0.0, Pivot(A, n, l));
  }

  lemma CancelledIsZero(l: Vec, n: nat)
    requires |l| == n
    ensures IsZero(AddScaled(AddScaled(Zeros(n), -1.0, l), 1.0, l))
  {
    hide Times, Over;
    forall i | 0 <= i < n ensures AddScaled(AddScaled(Zeros(n), -1.0, l), 1.0, l)[i] == 0.0 {
      TimesUnits(l[i]);
    }
  }

  /** A positive pivot makes the next quadratic form positive. */
  lemma PivotPositive(L: Mat, A: Mat, n: nat, l: Vec, u: Vec, t: real)
    requires LowerShape(A, n + 1) && IsFactor(L, A, n) && |l| == n && |u| == n
    requires ExtendsRow(L, A, n, l)
    requires Pivot(A, n, l) > 0.0 && (t != 0.0 || !IsZero(u))
    ensures Quad(A, n + 1, u + [t]) > 0.0
  {
    hide Poly, Dot, Quad, Reproduces, PositiveDiagonal, TransMul, AddScaled, Pivot;
    if t == 0.0 {
      FactorImpliesPosDef(L, A, n);
      QuadStep(A, n, u, t);
      PolyUnits(Quad(A, n, u), Dot(A[n], u, n), A[n][n]);
    } else {
      CompleteSquare(L, A, n, l, u, t);
      var w := AddScaled(TransMul(L, n, u), t, l);
      NormPositive(w, n);
      PolyPositive(Dot(w, w, n), Pivot(A, n, l), t);
    }
  }

  /** With n rows factored, the next leading block is positive definite exactly when the pivot is positive. */
  lemma PosDefIffPivot(L: Mat, A: Mat, n: nat, l: Vec)
    requires LowerShape(A, n + 1) && IsFactor(L, A, n) && |l| == n && ExtendsRow(L, A, n, l)
    ensures PosDef(A, n + 1) <==> Pivot(A, n, l) > 0.0
  {
    hide Dot, Quad, Reproduces, Pivot, BackSolve, PivotWitness;
    PivotWitnessQuad(L, A, n, l);
    if Pivot(A, n, l) > 0.0 {
      forall x: Vec | |x| == n + 1 && !IsZero(x) ensures Quad(A, n + 1, x) > 0.0 {
        assert x == x[..n] + [x[n]];
        ZeroSplit(x, n);
        PivotPositive(L, A, n, l, x[..n], x[n]);
      }
    }
  }

  // ----- uniqueness

  /** One entry of the factor is determined by the entries before it in its row and column. */
  lemma FactorEntry(L: Mat, L': Mat, A: Mat, n: nat, i: nat, j: nat)
    requires LowerShape(A, n) && IsFactor(L, A, n) && IsFactor(L', A, n)
    requires j <= i < n
    requires L[i][..j] == L'[i][..j] && L[j][..j] == L'[j][..j] && (j < i ==> L[j][j] == L'[j][j])
    ensures L[i][j] == L'[i][j]
  {
    hide Times, Over;
    DotCongruent(L[i], L'[i], L[j], L'[j], j);
    assert Dot(L[i], L[j], j) + Times(L[i][j], L[j][j]) == A[i][j];
    assert Dot(L'[i], L'[j], j) + Times(L'[i][j], L'[j][j]) == A[i][j];
    assert L[j][j] > 0.0 && L'[j][j] > 0.0;
    if j < i {
      TimesCancels(L[i][j], L'[i][j], L[j][j]);
    } else {
      SameSquare(L[i][i], L'[i][i]);
    }
  }

  lemma {:induction false} FactorRowsAgree(L: Mat, L': Mat, A: Mat, n: nat, i: nat, j: nat)
    requires LowerShape(A, n) && IsFactor(L, A, n) && IsFactor(L', A, n)
    requires j <= i < n
    ensures L[i][..j + 1] == L'[i][..j + 1]
    decreases i, j
  {
    hide Reproduces;
    if j > 0 {
      FactorRowsAgree(L, L', A, n, i, j - 1);
    }
    if j < i {
      FactorRowsAgree(L, L', A, n, j, j);
      assert L[j][..j + 1][j] == L'[j][..j + 1][j];
      assert L[j][..j] == L[j][..j + 1][..j] == L'[j][..j];
    }
    FactorEntry(L, L', A, n, i, j);
    assert L[i][..j + 1] == L[i][..j] + [L[i][j]];
    assert L'[i][..j + 1] == L'[i][..j] + [L'[i][j]];
  }

  /** A positive definite matrix has one Cholesky factor only. */
  lemma FactorUnique(L: Mat, L': Mat, A: Mat, n: nat)
    requires LowerShape(A, n) && IsFactor(L, A, n) && IsFactor(L', A, n)
    ensures SameLower(L, L', n)
  {
    hide Reproduces;
    forall i, j | 0 <= j <= i < n ensures L[i][j] == L'[i][j] {
      FactorRowsAgree(L, L', A, n, i, j);
      assert L[i][..j + 1][j] == L'[i][..j + 1][j];
    }
  }
}
