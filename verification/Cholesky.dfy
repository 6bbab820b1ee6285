/** The routines of lib/bayesopt/utils/ublas_cholesky.hpp, over the reals. Each loop works in place on its
    matrix and is proved against CholeskyTheory, not against another algorithm. */
module Cholesky {
  import opened RealVectors
  import opened CholeskyTheory

  function Row(A: array2<real>, i: nat): (r: Vec)
    requires i < A.Length0
    reads A
    ensures |r| == A.Length1
  {
    seq(A.Length1, j requires 0 <= j < A.Length1 reads A => A[i, j])
  }

  ghost function View(A: array2<real>): (m: Mat)
    reads A
    ensures |m| == A.Length0 && forall i | 0 <= i < |m| :: |m[i]| == A.Length1
  {
    seq(A.Length0, i requires 0 <= i < A.Length0 reads A => Row(A, i))
  }

  /** What a factorization routine promises: it returns 0 exactly when the matrix is positive definite, and
      then M holds the factor; otherwise it returns 1 + k for the first k whose leading block of order
      k + 1 is not positive definite. */
  ghost predicate Outcome(A: Mat, n: nat, r: nat, M: Mat)
    requires LowerShape(A, n)
  {
    && r <= n
    && (r == 0 ==> PosDef(A, n) && IsFactor(M, A, n))
    && (r > 0 ==> PosDef(A, r - 1) && !PosDef(A, r))
  }

  /** The return code is 0 if and only if the matrix is positive definite. */
  lemma OutcomeDecidesPosDef(A: Mat, n: nat, r: nat, M: Mat)
    requires LowerShape(A, n) && Outcome(A, n, r, M)
    ensures r == 0 <==> PosDef(A, n)
    ensures forall k: nat | k <= n :: PosDef(A, k) <==> r == 0 || k < r
  {
    hide Quad;
    forall k: nat | k <= n ensures PosDef(A, k) <==> r == 0 || k < r {
      if r == 0 {
        PosDefLeading(A, n, k);
      } else if k < r {
        PosDefLeading(A, r - 1, k);
      } else if PosDef(A, k) {
        PosDefLeading(A, k, r);
      }
    }
  }

  /** Any two routines that keep this promise return the same code and, when it is 0, the same factor. */
  lemma OutcomeUnique(A: Mat, n: nat, r: nat, M: Mat, r': nat, M': Mat)
    requires LowerShape(A, n) && Outcome(A, n, r, M) && Outcome(A, n, r', M')
    ensures r == r'
    ensures r == 0 ==> SameLower(M, M', n)
  {
    hide PosDef;
    OutcomeDecidesPosDef(A, n, r, M);
    OutcomeDecidesPosDef(A, n, r', M');
    if r == 0 {
      FactorUnique(M, M', A, n);
    }
  }

  // ----- one column of the factorization

  ghost predicate ColumnsReproduce(A: Mat, M: Mat, n: nat, k: nat)
    requires LowerShape(A, n) && LowerShape(M, n) && k <= n
  {
    forall i, j {:trigger A[i][j]} | 0 <= j <= i < n && j < k :: Dot(M[i], M[j], j + 1) == A[i][j]
  }

  /** The first k columns of M are those of a factor of A. */
  ghost predicate ColumnsDone(A: Mat, M: Mat, n: nat, k: nat)
    requires LowerShape(A, n)
  {
    LowerShape(M, n) && k <= n && PositiveDiagonal(M, k) && ColumnsReproduce(A, M, n, k)
  }

  /** Entry (r, k) of the factor, given its columns before k and the diagonal entry d of column k. */
  ghost function ColumnEntry(A: Mat, M: Mat, n: nat, k: nat, d: real, r: nat): real
    requires LowerShape(A, n) && LowerShape(M, n) && k < r < n
  {
    Over(A[r][k] - Dot(M[r], M[k], k), d)
  }

  /** M' is M with its column k, from the diagonal down, filled in. */
  ghost predicate ColumnFilled(A: Mat, M: Mat, M': Mat, n: nat, k: nat, d: real)
    requires LowerShape(A, n) && LowerShape(M, n) && LowerShape(M', n) && k < n
  {
    && M'[k][k] == d
    && (forall r {:trigger M'[r]} | k < r < n :: M'[r][k] == ColumnEntry(A, M, n, k, d, r))
    && (forall r, c {:trigger M'[r][c]} | 0 <= c <= r < n && c != k :: M'[r][c] == M[r][c])
  }

  /** The lower triangle of A from column k on, below the diagonal as well, still holds its old entries. */
  ghost predicate ColumnsPending(A: Mat, M: Mat, n: nat, k: nat)
    requires LowerShape(A, n) && LowerShape(M, n)
  {
    forall r, c {:trigger M[r][c]} | k <= c <= r < n :: M[r][c] == A[r][c]
  }

  lemma NoColumns(A: Mat, M: Mat, n: nat)
    requires LowerShape(A, n) && LowerShape(M, n)
    ensures ColumnsDone(A, M, n, 0)
  {
  }

  lemma PrefixKept(M: Mat, M': Mat, n: nat, k: nat, r: nat, m: nat)
    requires LowerShape(M, n) && LowerShape(M', n) && r < n && m <= k && m <= r + 1
    requires forall r, c {:trigger M'[r][c]} | 0 <= c <= r < n && c != k :: M'[r][c] == M[r][c]
    ensures M'[r][..m] == M[r][..m]
  {
  }

  /** Storing the diagonal entry first does not change the rest of the column. */
  lemma SameColumn(A: Mat, M: Mat, M': Mat, n: nat, k: nat, d: real)
    requires LowerShape(A, n) && LowerShape(M, n) && LowerShape(M', n) && k < n
    requires forall r, c {:trigger M'[r][c]} | 0 <= c <= r < n && c != k :: M'[r][c] == M[r][c]
    ensures forall r | k < r < n :: ColumnEntry(A, M', n, k, d, r) == ColumnEntry(A, M, n, k, d, r)
  {
    hide Dot, Times, Over;
    forall r | k < r < n ensures ColumnEntry(A, M', n, k, d, r) == ColumnEntry(A, M, n, k, d, r) {
      PrefixKept(M, M', n, k, r, k);
      PrefixKept(M, M', n, k, k, k);
      DotCongruent(M[r], M'[r], M[k], M'[k], k);
    }
  }

  /** Reading the pending entries of column k from the overwritten matrix. */
  lemma PendingColumn(A: Mat, M: Mat, n: nat, k: nat, d: real)
    requires LowerShape(A, n) && LowerShape(M, n) && k < n
    requires ColumnsPending(A, M, n, k)
    ensures forall r | k < r < n :: ColumnEntry(M, M, n, k, d, r) == ColumnEntry(A, M, n, k, d, r)
  {
  }

  /** The columns before k keep reproducing A: their products do not look at column k. */
  lemma OldColumnsKept(A: Mat, M: Mat, M': Mat, n: nat, k: nat)
    requires LowerShape(A, n) && ColumnsDone(A, M, n, k) && k < n && LowerShape(M', n)
    requires forall r, c {:trigger M'[r][c]} | 0 <= c <= r < n && c != k :: M'[r][c] == M[r][c]
    ensures ColumnsReproduce(A, M', n, k)
  {
    hide Dot, PositiveDiagonal;
    forall i, j | 0 <= j <= i < n && j < k ensures Dot(M'[i], M'[j], j + 1) == A[i][j] {
      PrefixKept(M, M', n, k, i, j + 1);
      PrefixKept(M, M', n, k, j, j + 1);
      DotCongruent(M[i], M'[i], M[j], M'[j], j + 1);
    }
  }

  /** Column k reproduces A once it is filled in. */
  lemma NewColumnEntry(A: Mat, M: Mat, M': Mat, n: nat, k: nat, d: real, i: nat)
    requires LowerShape(A, n) && LowerShape(M, n) && k <= i < n && LowerShape(M', n)
    requires d > 0.0 && Times(d, d) == A[k][k] - Dot(M[k], M[k], k)
    requires ColumnFilled(A, M, M', n, k, d)
    ensures Dot(M'[i], M'[k], k + 1) == A[i][k]
  {
    hide Dot, Times, Over;
    PrefixKept(M, M', n, k, i, k);
    PrefixKept(M, M', n, k, k, k);
    DotCongruent(M[i], M'[i], M[k], M'[k], k);
    DotStep(M'[i], M'[k], k);
    if i > k {
      TimesQuotient(A[i][k] - Dot(M[i], M[k], k), d);
      assert M'[i][k] == ColumnEntry(A, M, n, k, d, i);
    }
  }

  lemma ColumnStep(A: Mat, M: Mat, M': Mat, n: nat, k: nat, d: real)
    requires LowerShape(A, n) && ColumnsDone(A, M, n, k) && k < n && LowerShape(M', n)
    requires d > 0.0 && Times(d, d) == A[k][k] - Dot(M[k], M[k], k)
    requires ColumnFilled(A, M, M', n, k, d)
    ensures ColumnsDone(A, M', n, k + 1)
  {
    hide Dot, Times;
    OldColumnsKept(A, M, M', n, k);
    forall i | k <= i < n ensures Dot(M'[i], M'[k], k + 1) == A[i][k] {
      NewColumnEntry(A, M, M', n, k, d, i);
    }
    forall i | 0 <= i < k + 1 ensures M'[i][i] > 0.0 {
      assert i < k ==> M'[i][i] == M[i][i];
    }
  }

  /** The finished columns, read as a factor of the leading block, with row k extending it. */
  lemma ColumnsAreFactor(A: Mat, M: Mat, n: nat, k: nat)
    requires LowerShape(A, n) && ColumnsDone(A, M, n, k)
    ensures LowerShape(A, k) && IsFactor(M, A, k)
    ensures k < n ==> LowerShape(A, k + 1) && ExtendsRow(M, A, k, M[k][..k])
    ensures k < n ==> Pivot(A, k, M[k][..k]) == A[k][k] - Dot(M[k], M[k], k)
  {
    hide Dot, Times, Over;
    if k < n {
      forall j | 0 <= j < k ensures Dot(M[j], M[k][..k], j + 1) == A[k][j] {
        DotCongruent(M[k], M[k][..k], M[j], M[j], j + 1);
        DotCommutes(M[k], M[j], j + 1);
        DotCongruent(M[j], M[j], M[k], M[k][..k], j + 1);
      }
      DotCongruent(M[k], M[k][..k], M[k], M[k][..k], k);
    }
  }

  /** What the test of the pivot decides, and what the square root then is. */
  lemma PivotTest(A: Mat, M: Mat, n: nat, k: nat, q: real, sqrt: real -> real)
    requires LowerShape(A, n) && ColumnsDone(A, M, n, k) && k < n && IsSqrt(sqrt)
    requires q == A[k][k] - Dot(M[k], M[k], k)
    ensures LowerShape(A, k) && PosDef(A, k) && LowerShape(A, k + 1)
    ensures PosDef(A, k + 1) <==> q > 0.0
    ensures q > 0.0 ==> sqrt(q) > 0.0 && Times(sqrt(q), sqrt(q)) == q
  {
    hide Dot, Times, Over, Quad, Pivot, ColumnsReproduce, Reproduces;
    ColumnsAreFactor(A, M, n, k);
    FactorImpliesPosDef(M, A, k);
    PosDefIffPivot(M, A, k, M[k][..k]);
    if q > 0.0 {
      assert Times(sqrt(q), sqrt(q)) == q;
      if sqrt(q) == 0.0 {
        TimesUnits(sqrt(q));
        assert false;
      }
    }
  }

  // ----- the three factorizations

  /** The upper triangle, which no routine may touch. */
  twostate predicate UpperUnchanged(A: array2<real>)
    reads A
  {
    forall r, c | 0 <= r < c && r < A.Length0 && c < A.Length1 :: A[r, c] == old(A[r, c])
  }

  /** Column k of L below the diagonal becomes (column k of A - the product of the columns before it) / d.
      A and L may be the same matrix: the expression is evaluated entry by entry from old values. */
  method AssignColumn(A: array2<real>, L: array2<real>, k: nat, d: real)
    requires A.Length0 == A.Length1 == L.Length0 == L.Length1 && k < A.Length0
    modifies L
    ensures forall r, c | 0 <= r < L.Length0 && 0 <= c < L.Length1 ::
              L[r, c] == if c == k < r then ColumnEntry(old(View(A)), old(View(L)), A.Length0, k, d, r)
                else old(L[r, c])
  {
    hide Dot, Times, Over;
    ghost var a, m := View(A), View(L);
    for i := k + 1 to L.Length0
      invariant forall r, c | 0 <= r < L.Length0 && 0 <= c < L.Length1 ::
                  L[r, c] == if c == k < r < i then ColumnEntry(a, m, A.Length0, k, d, r) else m[r][c]
      invariant A != L ==> View(A) == a
    {
      DotCongruent(Row(L, i), m[i], Row(L, k), m[k], k);
      L[i, k] := Over(A[i, k] - Dot(Row(L, i), Row(L, k), k), d);
    }
  }

  /** The factorization with separate input and output. */
  method CholeskyDecompose(A: array2<real>, L: array2<real>, sqrt: real -> real) returns (code: nat)
    requires A.Length0 == A.Length1 == L.Length0 == L.Length1 && A != L && IsSqrt(sqrt)
    modifies L
    ensures Outcome(View(A), A.Length0, code, View(L))
    ensures UpperUnchanged(L)
  {
    hide Dot, Times, Over, IsSqrt, PosDef, ColumnsReproduce, Reproduces, PositiveDiagonal, ColumnEntry;
    var n := A.Length0;
    ghost var a := View(A);
    NoColumns(a, View(L), n);
    for k := 0 to n
      invariant ColumnsDone(a, View(L), n, k)
      invariant UpperUnchanged(L)
    {
      ghost var m := View(L);
      var pivot := A[k, k] - Dot(Row(L, k), Row(L, k), k);
      PivotTest(a, m, n, k, pivot, sqrt);
      if pivot <= 0.0 {
        return 1 + k;
      }
      var d := sqrt(pivot);
      L[k, k] := d;
      ghost var m1 := View(L);
      AssignColumn(A, L, k, d);
      SameColumn(a, m, m1, n, k, d);
      ColumnStep(a, m, View(L), n, k, d);
    }
    ColumnsAreFactor(a, View(L), n, n);
    FactorImpliesPosDef(View(L), a, n);
    return 0;
  }

  /** The factorization that overwrites the lower triangle of its argument, a column at a time. */
  method CholeskyDecomposeInPlace(A: array2<real>, sqrt: real -> real) returns (code: nat)
    requires A.Length0 == A.Length1 && IsSqrt(sqrt)
    modifies A
    ensures Outcome(old(View(A)), A.Length0, code, View(A))
    ensures UpperUnchanged(A)
  {
    hide Dot, Times, Over, IsSqrt, PosDef, ColumnsReproduce, Reproduces, PositiveDiagonal, ColumnEntry;
    var n := A.Length0;
    ghost var a := View(A);
    NoColumns(a, View(A), n);
    for k := 0 to n
      invariant ColumnsDone(a, View(A), n, k)
      invariant ColumnsPending(a, View(A), n, k)
      invariant UpperUnchanged(A)
    {
      ghost var m := View(A);
      var pivot := A[k, k] - Dot(Row(A, k), Row(A, k), k);
      assert m[k][k] == a[k][k];
      PivotTest(a, m, n, k, pivot, sqrt);
      if pivot <= 0.0 {
        return 1 + k;
      }
      var d := sqrt(pivot);
      AssignColumn(A, A, k, d);
      A[k, k] := d;
      PendingColumn(a, m, n, k, d);
      ColumnStep(a, m, View(A), n, k, d);
    }
    ColumnsAreFactor(a, View(A), n, n);
    FactorImpliesPosDef(View(A), a, n);
    return 0;
  }

  /** The update of the stored elements of column k; on a dense matrix that is every element. The pivot row
      comes first in its inner products. */
  method UpdateStoredColumn(A: array2<real>, k: nat, d: real)
    requires A.Length0 == A.Length1 && k < A.Length0
    modifies A
    ensures forall r, c | 0 <= r < A.Length0 && 0 <= c < A.Length1 ::
              A[r, c] == if c == k < r then ColumnEntry(old(View(A)), old(View(A)), A.Length0, k, d, r)
                else old(A[r, c])
  {
    hide Dot, Times, Over;
    ghost var m := View(A);
    for i := k + 1 to A.Length0
      invariant forall r, c | 0 <= r < A.Length0 && 0 <= c < A.Length1 ::
                  A[r, c] == if c == k < r < i then ColumnEntry(m, m, A.Length0, k, d, r) else m[r][c]
    {
      DotCommutes(Row(A, k), Row(A, i), k);
      DotCongruent(Row(A, i), m[i], Row(A, k), m[k], k);
      A[i, k] := Over(A[i, k] - Dot(Row(A, k), Row(A, i), k), d);
    }
  }

  /** The "incomplete" variant on a dense matrix, where every element is stored. */
  method IncompleteCholeskyDecompose(A: array2<real>, sqrt: real -> real) returns (code: nat)
    requires A.Length0 == A.Length1 && IsSqrt(sqrt)
    modifies A
    ensures Outcome(old(View(A)), A.Length0, code, View(A))
    ensures UpperUnchanged(A)
  {
    hide Dot, Times, Over, IsSqrt, PosDef, ColumnsReproduce, Reproduces, PositiveDiagonal, ColumnEntry;
    var n := A.Length0;
    ghost var a := View(A);
    NoColumns(a, View(A), n);
    for k := 0 to n
      invariant ColumnsDone(a, View(A), n, k)
      invariant ColumnsPending(a, View(A), n, k)
      invariant UpperUnchanged(A)
    {
      ghost var m := View(A);
      var pivot := A[k, k] - Dot(Row(A, k), Row(A, k), k);
      assert m[k][k] == a[k][k];
      PivotTest(a, m, n, k, pivot, sqrt);
      if pivot <= 0.0 {
        return 1 + k;
      }
      var d := sqrt(pivot);
      UpdateStoredColumn(A, k, d);
      A[k, k] := d;
      PendingColumn(a, m, n, k, d);
      ColumnStep(a, m, View(A), n, k, d);
    }
    ColumnsAreFactor(a, View(A), n, n);
    FactorImpliesPosDef(View(A), a, n);
    return 0;
  }

  // ----- triangular solves

  /** The first k unknowns are solved for, and the other right-hand sides have them moved over. */
  ghost predicate PartlySolved(M: Mat, n: nat, b: Vec, x: Vec, k: nat)
    requires LowerShape(M, n) && |b| == |x| == n && k <= n
  {
    && (forall i {:trigger b[i]} | 0 <= i < k :: Dot(M[i], x, i + 1) == b[i])
    && (forall i {:trigger x[i]} | k <= i < n :: x[i] == b[i] - Dot(M[i], x, k))
  }

  lemma EliminationStep(M: Mat, n: nat, b: Vec, x: Vec, x': Vec, k: nat, t: real)
    requires LowerShape(M, n) && |b| == |x| == |x'| == n && k < n
    requires PartlySolved(M, n, b, x, k)
    requires M[k][k] != 0.0 && t == Over(x[k], M[k][k])
    requires x'[..k] == x[..k] && x'[k] == t
    requires forall i | k < i < n :: x'[i] == x[i] - Times(t, M[i][k])
    ensures PartlySolved(M, n, b, x', k + 1)
  {
    hide Times, Over;
    forall i | 0 <= i < k + 1 ensures Dot(M[i], x', i + 1) == b[i] {
      if i < k {
        assert x'[..i + 1] == x'[..k][..i + 1] == x[..i + 1];
        DotCongruent(M[i], M[i], x', x, i + 1);
      } else {
        DotCongruent(M[k], M[k], x', x, k);
        TimesQuotient(x[k], M[k][k]);
      }
    }
    forall i | k + 1 <= i < n ensures x'[i] == b[i] - Dot(M[i], x', k + 1) {
      DotCongruent(M[i], M[i], x', x, k);
      TimesCommutes(t, M[i][k]);
      assert x[i] == b[i] - Dot(M[i], x, k);
    }
  }

  /** x := the y with L y = x, eliminating one column of L at a time. */
  method SolveLower(L: array2<real>, x: array<real>)
    requires L.Length0 == L.Length1 == x.Length
    modifies x
    ensures NonzeroDiagonal(View(L), x.Length) ==> LowMul(View(L), x.Length, x[..]) == old(x[..])
  {
    hide Times, Over, Dot;
    var n := x.Length;
    ghost var b, m := x[..], View(L);
    NothingSolved(m, n, b);
    for k := 0 to n
      invariant NonzeroDiagonal(m, n) ==> PartlySolved(m, n, b, x[..], k)
    {
      ghost var y := x[..];
      assert L[k, k] == m[k][k];
      var t := Over(x[k], L[k, k]);
      x[k] := t;
      if t != 0.0 {
        for i := k + 1 to n
          invariant forall j | 0 <= j < n ::
                      x[j] == if j == k then t else if k < j < i then y[j] - Times(t, m[j][k]) else y[j]
        {
          x[i] := x[i] - Times(t, L[i, k]);
        }
      }
      forall j | k < j < n ensures x[j] == y[j] - Times(t, m[j][k]) {
        TimesUnits(m[j][k]);
      }
      if NonzeroDiagonal(m, n) {
        EliminationStep(m, n, b, y, x[..], k, t);
      }
    }
  }

  lemma NothingSolved(M: Mat, n: nat, b: Vec)
    requires LowerShape(M, n) && |b| == n
    ensures PartlySolved(M, n, b, b, 0)
  {
    forall i | 0 <= i < n ensures b[i] == b[i] - Dot(M[i], b, 0) {
      assert Dot(M[i], b, 0) == 0.0;
    }
  }

  lemma BackStep(M: Mat, y: Vec, x: Vec, k: nat, t: real)
    requires LowerShape(M, k + 1) && NonzeroDiagonal(M, k + 1) && k < |x| == |y|
    requires t == Over(y[k], M[k][k])
    requires forall j | 0 <= j < k :: x[j] == y[j] - Times(t, M[k][j])
    ensures BackSolve(M, k + 1, y[..k + 1]) == BackSolve(M, k, x[..k]) + [t]
  {
    hide Times, Over;
    assert y[..k + 1][..k] == y[..k];
    forall j | 0 <= j < k ensures AddScaled(y[..k], -t, M[k][..k])[j] == x[j] {
      TimesNegates(t, M[k][j]);
    }
    assert x[..k] == AddScaled(y[..k], -t, M[k][..k]);
  }

  /** One more unknown is solved for. */
  lemma BackProgress(M: Mat, n: nat, b: Vec, y: Vec, x: Vec, k: nat, t: real)
    requires LowerShape(M, n) && NonzeroDiagonal(M, n) && |b| == n && k < |x| == |y| == n
    requires t == Over(y[k], M[k][k]) && x[k] == t && forall j | k < j < n :: x[j] == y[j]
    requires forall j | 0 <= j < k :: x[j] == y[j] - Times(t, M[k][j])
    requires BackSolve(M, n, b) == BackSolve(M, k + 1, y[..k + 1]) + y[k + 1..]
    ensures BackSolve(M, n, b) == BackSolve(M, k, x[..k]) + x[k..]
  {
    hide Times, Over, BackSolve;
    BackStep(M, y, x, k, t);
    assert x[k..] == [t] + y[k + 1..];
  }

  /** Takes t times row k of L from the first k entries of x. */
  method Eliminate(L: array2<real>, x: array<real>, k: nat, t: real)
    requires L.Length0 == L.Length1 == x.Length && k < x.Length
    modifies x
    ensures forall j | 0 <= j < k :: x[j] == old(x[j]) - Times(t, View(L)[k][j])
    ensures forall j | k <= j < x.Length :: x[j] == old(x[j])
  {
    hide Times;
    if t != 0.0 {
      for i := 0 to k
        invariant forall j | 0 <= j < i :: x[j] == old(x[j]) - Times(t, L[k, j])
        invariant forall j | i <= j < x.Length :: x[j] == old(x[j])
      {
        x[i] := x[i] - Times(t, L[k, i]);
      }
    } else {
      forall j | 0 <= j < k ensures x[j] == x[j] - Times(t, L[k, j]) {
        TimesUnits(L[k, j]);
      }
    }
  }

  /** x := the u with L' u = x, last unknown first, eliminating one row of L at a time. */
  method SolveUpper(L: array2<real>, x: array<real>)
    requires L.Length0 == L.Length1 == x.Length
    modifies x
    ensures NonzeroDiagonal(View(L), x.Length) ==> x[..] == BackSolve(View(L), x.Length, old(x[..]))
  {
    hide Times, Over, BackSolve, Dot;
    var n := x.Length;
    ghost var b, m := x[..], View(L);
    assert x[..n] == b && x[n..] == [];
    for k := n downto 0
      invariant NonzeroDiagonal(m, n) ==> BackSolve(m, n, b) == BackSolve(m, k, x[..k]) + x[k..]
    {
      ghost var y := x[..];
      assert x[..k + 1] == y[..k + 1] && x[k + 1..] == y[k + 1..];
      assert L[k, k] == m[k][k];
      var t := Over(x[k], L[k, k]);
      x[k] := t;
      Eliminate(L, x, k, t);
      if NonzeroDiagonal(m, n) {
        BackProgress(m, n, b, y, x[..], k, t);
      }
      assert x[..][..k] == x[..k] && x[..][k..] == x[k..];
    }
    assert x[..0] == [] && x[0..] == x[..];
    assert NonzeroDiagonal(m, n) ==> BackSolve(m, 0, x[..0]) == [];
  }

  /** Solves L L' x = b in place, for any L with a nonzero diagonal. */
  method CholeskySolve(L: array2<real>, x: array<real>)
    requires L.Length0 == L.Length1 == x.Length
    modifies x
    ensures NonzeroDiagonal(View(L), x.Length) ==>
              LowMul(View(L), x.Length, TransMul(View(L), x.Length, x[..])) == old(x[..])
  {
    hide Dot, LowMul, TransMul, BackSolve;
    SolveLower(L, x);
    if NonzeroDiagonal(View(L), x.Length) {
      BackSolveSolves(View(L), x.Length, x[..]);
    }
    SolveUpper(L, x);
  }

  function Unit(n: nat, c: nat): (e: Vec)
    ensures |e| == n
  {
    seq(n, i => if i == c then 1.0 else 0.0)
  }

  /** The column of the identity matrix. */
  ghost predicate IsUnit(e: Vec, n: nat, c: nat) {
    |e| == n && forall r | 0 <= r < n :: if r == c then e[r] == 1.0 else e[r] == 0.0
  }

  function Column(A: array2<real>, c: nat): (r: Vec)
    requires c < A.Length1
    reads A
    ensures |r| == A.Length0
  {
    seq(A.Length0, i requires 0 <= i < A.Length0 reads A => A[i, c])
  }

  method FillUnit(x: array<real>, c: nat)
    modifies x
    ensures x[..] == Unit(x.Length, c)
  {
    for i := 0 to x.Length
      invariant x[..i] == Unit(x.Length, c)[..i]
    {
      x[i] := if i == c then 1.0 else 0.0;
    }
  }

  method SetColumn(A: array2<real>, c: nat, x: array<real>)
    requires c < A.Length1 && x.Length == A.Length0
    modifies A
    ensures Column(A, c) == x[..]
    ensures forall j | 0 <= j < A.Length1 && j != c :: Column(A, j) == old(Column(A, j))
  {
    for i := 0 to x.Length
      invariant forall r, j | 0 <= r < A.Length0 && 0 <= j < A.Length1 ::
                  A[r, j] == if j == c && r < i then x[r] else old(A[r, j])
    {
      A[i, c] := x[i];
    }
  }

  /** inverse := the inverse of the symmetric matrix in the lower triangle of M, if it is positive definite;
      otherwise inverse keeps its contents. */
  method InverseCholesky(M: array2<real>, inverse: array2<real>, sqrt: real -> real) returns (code: nat)
    requires M.Length0 == M.Length1 == inverse.Length0 == inverse.Length1 && M != inverse && IsSqrt(sqrt)
    modifies inverse
    ensures code <= M.Length0 && (code == 0 <==> PosDef(View(M), M.Length0))
    ensures code > 0 ==> PosDef(View(M), code - 1) && !PosDef(View(M), code)
    ensures code == 0 ==> forall c | 0 <= c < M.Length0 ::
                            IsUnit(MatVec(View(M), M.Length0, Column(inverse, c)), M.Length0, c)
    ensures forall r, c | 0 <= r < M.Length0 && 0 <= c < M.Length0 :: Column(inverse, c)[r] == inverse[r, c]
    ensures code > 0 ==> View(inverse) == old(View(inverse))
  {
    hide Dot, LowMul, TransMul, IsSqrt, PosDef, MatVec, Reproduces;
    var n := M.Length0;
    var L := new real[n, n];
    code := CholeskyDecompose(M, L, sqrt);
    OutcomeDecidesPosDef(View(M), n, code, View(L));
    if code != 0 {
      return;
    }
    ghost var a, m := View(M), View(L);
    var x := new real[n];
    for c := 0 to n
      invariant View(L) == m
      invariant forall j | 0 <= j < c :: MatVec(a, n, Column(inverse, j)) == Unit(n, j)
    {
      FillUnit(x, c);
      CholeskySolve(L, x);
      FactorMatVec(m, a, n, x[..]);
      SetColumn(inverse, c, x);
    }
  }

  // ----- one more row

  /** The products of the new row l with the first j rows of the factor are the wanted ones. */
  ghost predicate RowDone(M: Mat, n: nat, v: Vec, l: Vec, j: nat)
    requires LowerShape(M, n) && j <= n && |v| == |l| == n + 1
  {
    forall i {:trigger v[i]} | 0 <= i < j :: Dot(M[i], l, i + 1) == v[i]
  }

  lemma RowDoneCongruent(M: Mat, n: nat, v: Vec, l: Vec, l': Vec, j: nat)
    requires LowerShape(M, n) && j <= n && |v| == |l| == |l'| == n + 1
    requires RowDone(M, n, v, l, j) && l'[..j] == l[..j]
    ensures RowDone(M, n, v, l', j)
  {
    hide Times, Dot;
    forall i | 0 <= i < j ensures Dot(M[i], l', i + 1) == v[i] {
      assert l'[..i + 1] == l'[..j][..i + 1] == l[..i + 1];
      DotCongruent(M[i], M[i], l', l, i + 1);
    }
  }

  /** The entries of a new row are determined one after the other: entry j from the ones before it. */
  lemma RowEntryStep(M: Mat, n: nat, v: Vec, l: Vec, l': Vec, j: nat)
    requires LowerShape(M, n) && j < n && |v| == |l| == |l'| == n + 1
    requires RowDone(M, n, v, l, j)
    requires l'[..j] == l[..j] && Times(M[j][j], l'[j]) == v[j] - Dot(M[j], l, j)
    ensures RowDone(M, n, v, l', j + 1)
  {
    hide Times, Dot;
    RowDoneCongruent(M, n, v, l, l', j);
    DotCongruent(M[j], M[j], l', l, j);
    DotStep(M[j], l', j);
  }

  /** Extends the factor L by the row whose products with the old rows are v[..n], and with itself v[n]. */
  method CholeskyAddRow(L: array2<real>, v: Vec, sqrt: real -> real) returns (L': array2<real>)
    requires L.Length0 == L.Length1 && |v| == L.Length0 + 1
    ensures fresh(L') && L'.Length0 == L'.Length1 == |v|
    ensures forall i, j | 0 <= i < L.Length0 && 0 <= j < L.Length1 :: L'[i, j] == L[i, j]
    ensures NonzeroDiagonal(View(L), L.Length0) ==> RowDone(View(L), L.Length0, v, Row(L', L.Length0), L.Length0)
    ensures var n, l := L.Length0, Row(L', L.Length0); L'[n, n] == sqrt(v[n] - Dot(l, l, n))
  {
    hide Times, Over, Dot;
    var n := L.Length0;
    ghost var m := View(L);
    L' := new real[n + 1, n + 1]((i, j) reads L => if 0 <= i < n && 0 <= j < n then L[i, j] else 0.0);
    for j := 0 to n
      invariant forall r, c | 0 <= r < n && 0 <= c < n :: L'[r, c] == L[r, c]
      invariant NonzeroDiagonal(m, n) ==> RowDone(m, n, v, Row(L', n), j)
    {
      ghost var l := Row(L', n);
      assert L'[j, j] == m[j][j];
      DotCongruent(Row(L', j), m[j], l, l, j);
      L'[n, j] := Over(v[j] - Dot(Row(L', j), Row(L', n), j), L'[j, j]);
      if NonzeroDiagonal(m, n) {
        TimesQuotient(v[j] - Dot(m[j], l, j), m[j][j]);
        RowEntryStep(m, n, v, l, Row(L', n), j);
      }
    }
    ghost var l := Row(L', n);
    L'[n, n] := sqrt(v[n] - Dot(Row(L', n), Row(L', n), n));
    DotCongruent(l, Row(L', n), l, Row(L', n), n);
    if NonzeroDiagonal(m, n) {
      RowDoneCongruent(m, n, v, l, Row(L', n), n);
    }
  }
}
