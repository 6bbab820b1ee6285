/** The surrogate model of the optimiser: a kernel matrix, its cached Cholesky factor, and predictions from it
    (lib/bayesopt/src/kernelregressor.cpp, gaussian_process.cpp and kernel_functors.cpp). */
module GaussianProcesses {
  import opened RealVectors
  import opened CholeskyTheory
  import opened Cholesky

  type Point = seq<real>
  type Params = seq<real>
  type Kernel = (Params, Point, Point) -> real

  ghost predicate IsSymmetric(kernel: Kernel) {
    forall theta, p, q :: kernel(theta, p, q) == kernel(theta, q, p)
  }

  /** The kernel matrix of the samples X, with the nugget on its diagonal. */
  ghost function KernelMatrix(kernel: Kernel, theta: Params, X: seq<Point>, nugget: real): (K: Mat)
    ensures |K| == |X| && forall i | 0 <= i < |K| :: |K[i]| == |X|
  {
    seq(|X|, i requires 0 <= i < |X| => seq(|X|, j requires 0 <= j < |X| =>
      if i == j then kernel(theta, X[i], X[i]) + nugget
      else if j < i then kernel(theta, X[i], X[j])
      else kernel(theta, X[j], X[i])))
  }

  /** Fills the kernel matrix from its lower triangle. */
  method ComputeCorrMatrix(kernel: Kernel, theta: Params, X: seq<Point>, nugget: real, corr: array2<real>)
    requires corr.Length0 == corr.Length1 == |X|
    modifies corr
    ensures View(corr) == KernelMatrix(kernel, theta, X, nugget)
    ensures forall i, j | 0 <= j < i < |X| :: corr[i, j] == corr[j, i] == kernel(theta, X[i], X[j])
    ensures forall i | 0 <= i < |X| :: corr[i, i] == kernel(theta, X[i], X[i]) + nugget
  {
    ghost var K := KernelMatrix(kernel, theta, X, nugget);
    for i := 0 to |X|
      invariant forall r, c | 0 <= r < i && 0 <= c < i :: corr[r, c] == K[r][c]
    {
      for j := 0 to i
        invariant forall r, c | 0 <= r < i && 0 <= c < i :: corr[r, c] == K[r][c]
        invariant forall c | 0 <= c < j :: corr[i, c] == K[i][c] && corr[c, i] == K[c][i]
      {
        corr[i, j] := kernel(theta, X[i], X[j]);
        corr[j, i] := corr[i, j];
      }
      corr[i, i] := kernel(theta, X[i], X[i]) + nugget;
    }
    forall r | 0 <= r < |X| ensures View(corr)[r] == K[r] {
    }
  }

  /** The kernel of every sample with the query, the sample as the first argument. */
  function CrossCorrelation(kernel: Kernel, theta: Params, X: seq<Point>, query: Point): (r: Vec)
    ensures |r| == |X|
  {
    seq(|X|, i requires 0 <= i < |X| => kernel(theta, X[i], query))
  }

  /** The kernel matrix of the first m samples is the leading block. */
  lemma KernelLeading(kernel: Kernel, theta: Params, X: seq<Point>, nugget: real, m: nat)
    requires m <= |X|
    ensures var K, K' := KernelMatrix(kernel, theta, X, nugget), KernelMatrix(kernel, theta, X[..m], nugget);
            SameLower(K, K', m)
  {
  }

  /** Positive definiteness and factors depend on the lower triangle only. */
  lemma PosDefSameLower(A: Mat, A': Mat, n: nat)
    requires LowerShape(A, n) && LowerShape(A', n) && SameLower(A, A', n)
    ensures PosDef(A, n) == PosDef(A', n)
  {
    hide Dot;
    forall x: Vec | |x| == n ensures Quad(A, n, x) == Quad(A', n, x) {
      QuadSameLower(A, A', n, x);
    }
  }

  lemma QuadSameLower(A: Mat, A': Mat, n: nat, x: Vec)
    requires LowerShape(A, n) && LowerShape(A', n) && SameLower(A, A', n) && |x| == n
    ensures Quad(A, n, x) == Quad(A', n, x)
  {
    hide Dot;
    forall i | 0 <= i < n ensures SymRow(A, n, i) == SymRow(A', n, i) {
    }
    assert MatVec(A, n, x) == MatVec(A', n, x);
  }

  lemma FactorSameLower(L: Mat, A: Mat, A': Mat, n: nat)
    requires LowerShape(A, n) && LowerShape(A', n) && SameLower(A, A', n)
    ensures IsFactor(L, A, n) == IsFactor(L, A', n)
  {
    hide Dot;
  }

  /** A factor extended by the row of cholesky_add_row, when the number under the square root was positive. */
  lemma ExtendedFactor(m: Mat, M: Mat, K: Mat, n: nat)
    requires LowerShape(K, n + 1) && IsFactor(m, K, n) && |K[n]| == n + 1
    requires |M| == n + 1 && forall i | 0 <= i < n + 1 :: |M[i]| == n + 1
    requires forall i, j | 0 <= j <= i < n :: M[i][j] == m[i][j]
    requires RowDone(m, n, K[n], M[n], n)
    requires M[n][n] > 0.0 && Times(M[n][n], M[n][n]) == K[n][n] - Dot(M[n], M[n], n)
    ensures IsFactor(M, K, n + 1)
  {
    hide Dot, Times;
    forall i, j | 0 <= j <= i < n + 1 ensures Dot(M[i], M[j], j + 1) == K[i][j] {
      if i < n {
        assert M[i][..j + 1] == m[i][..j + 1] && M[j][..j + 1] == m[j][..j + 1];
        DotCongruent(M[i], m[i], M[j], m[j], j + 1);
      } else if j < n {
        assert Dot(m[j], M[n], j + 1) == K[n][j];
        assert M[j][..j + 1] == m[j][..j + 1];
        DotCongruent(M[j], m[j], M[n], M[n], j + 1);
        DotCommutes(M[n], M[j], j + 1);
      } else {
        DotStep(M[n], M[n], n);
      }
    }
    forall i | 0 <= i < n ensures M[i][i] > 0.0 {
      assert M[i][i] == m[i][i];
    }
  }

  /** One incremental update against one kernel matrix: the new matrix holds the factor exactly when the
      bordered matrix is positive definite, if the old matrix held one exactly when its block was. */
  lemma AddRowDecides(m: Mat, M: Mat, K: Mat, n: nat, sqrt: real -> real)
    requires LowerShape(K, n + 1) && LowerShape(m, n) && |K[n]| == n + 1 && IsSqrt(sqrt)
    requires |M| == n + 1 && forall i | 0 <= i < n + 1 :: |M[i]| == n + 1
    requires forall i, j | 0 <= j <= i < n :: M[i][j] == m[i][j]
    requires NonzeroDiagonal(m, n) ==> RowDone(m, n, K[n], M[n], n)
    requires M[n][n] == sqrt(K[n][n] - Dot(M[n], M[n], n))
    requires IsFactor(m, K, n) <==> PosDef(K, n)
    ensures IsFactor(M, K, n + 1) <==> PosDef(K, n + 1)
  {
    hide Dot, Times, PosDef, Reproduces, IsSqrt;
    if IsFactor(M, K, n + 1) {
      FactorImpliesPosDef(M, K, n + 1);
    }
    if PosDef(K, n + 1) {
      PosDefLeading(K, n + 1, n);
      var l := M[n][..n];
      NewRowExtends(m, M[n], K, n);
      PosDefIffPivot(m, K, n, l);
      DotCongruent(l, M[n], l, M[n], n);
      var q := K[n][n] - Dot(M[n], M[n], n);
      PositiveRoot(sqrt, q);
      ExtendedFactor(m, M, K, n);
    }
  }

  lemma NewRowExtends(m: Mat, row: Vec, K: Mat, n: nat)
    requires LowerShape(K, n + 1) && LowerShape(m, n) && |K[n]| == |row| == n + 1
    requires RowDone(m, n, K[n], row, n)
    ensures ExtendsRow(m, K, n, row[..n])
  {
    hide Dot;
    forall j | 0 <= j < n ensures Dot(m[j], row[..n], j + 1) == K[n][j] {
      DotCongruent(m[j], m[j], row, row[..n], j + 1);
    }
  }

  lemma PositiveRoot(sqrt: real -> real, q: real)
    requires IsSqrt(sqrt) && q > 0.0
    ensures sqrt(q) > 0.0 && Times(sqrt(q), sqrt(q)) == q
  {
    hide Times;
    assert Times(sqrt(q), sqrt(q)) == q;
    TimesUnits(sqrt(q));
  }

  /** y minus the mean at the samples. */
  function Residual(mean: (Params, Point) -> real, theta: Params, X: seq<Point>, Y: Vec): (r: Vec)
    requires |X| == |Y|
    ensures |r| == |Y|
  {
    seq(|Y|, i requires 0 <= i < |Y| => Y[i] - mean(theta, X[i]))
  }

  /** The kernel matrix K with one more row and column for a query point, whose own entry has no nugget. */
  ghost function Bordered(K: Mat, kn: Vec, kq: real): Mat {
    K + [kn + [kq]]
  }

  /** Two triangular solves give the product with the inverse: if L v = k, L alpha = r and A w = r then
      <v, alpha> = <k, w>. */
  lemma SolvedProduct(L: Mat, A: Mat, n: nat, v: Vec, alpha: Vec, w: Vec)
    requires LowerShape(A, n) && IsFactor(L, A, n) && |v| == |alpha| == |w| == n
    requires MatVec(A, n, w) == LowMul(L, n, alpha)
    ensures Dot(v, alpha, n) == Dot(LowMul(L, n, v), w, n)
  {
    hide Dot, LowMul, MatVec, TransMul, Reproduces;
    var t := TransMul(L, n, w);
    FactorMatVec(L, A, n, w);
    LowMulInjective(L, n, alpha, t, n);
    assert alpha[..n] == alpha && t[..n] == t;
    Adjoint(L, n, w, v);
    DotCommutes(w, LowMul(L, n, v), n);
    DotCommutes(v, alpha, n);
  }

  /** A system with a factored matrix has a solution. */
  lemma SolutionExists(L: Mat, A: Mat, n: nat, alpha: Vec) returns (w: Vec)
    requires LowerShape(A, n) && IsFactor(L, A, n) && |alpha| == n
    ensures |w| == n && MatVec(A, n, w) == LowMul(L, n, alpha)
  {
    hide Dot, LowMul, MatVec, TransMul, Reproduces, BackSolve;
    w := BackSolve(L, n, alpha);
    BackSolveSolves(L, n, alpha);
    FactorMatVec(L, A, n, w);
  }

  /** The predictive bracket is positive exactly when the bordered kernel matrix is positive definite. */
  lemma BracketDecides(L: Mat, A: Mat, n: nat, kn: Vec, kq: real, v: Vec)
    requires |A| == n && LowerShape(A, n) && IsFactor(L, A, n) && |kn| == |v| == n && LowMul(L, n, v) == kn
    ensures LowerShape(Bordered(A, kn, kq), n + 1)
    ensures kq - Dot(v, v, n) > 0.0 <==> PosDef(Bordered(A, kn, kq), n + 1)
  {
    hide Dot, PosDef;
    var B := Bordered(A, kn, kq);
    FactorSameLower(L, A, B, n);
    forall j | 0 <= j < n ensures Dot(L[j], v, j + 1) == B[n][j] {
      assert LowMul(L, n, v)[j] == kn[j];
    }
    PosDefIffPivot(L, B, n, v);
  }

  /** The value is <k, A^-1 r>: A w = r has a solution, and every solution w gives <k, w> = value. */
  ghost predicate SolvedAgainst(A: Mat, n: nat, r: Vec, k: Vec, value: real)
    requires |A| == n && LowerShape(A, n) && |r| == |k| == n
  {
    && (exists w: Vec :: |w| == n && MatVec(A, n, w) == r)
    && (forall w: Vec | |w| == n && MatVec(A, n, w) == r :: value == Dot(k, w, n))
  }

  lemma SolvesGiveProduct(L: Mat, A: Mat, n: nat, r: Vec, k: Vec, alpha: Vec, v: Vec)
    requires |A| == n && LowerShape(A, n) && IsFactor(L, A, n) && |r| == |k| == |alpha| == |v| == n
    requires LowMul(L, n, alpha) == r && LowMul(L, n, v) == k
    ensures SolvedAgainst(A, n, r, k, Dot(v, alpha, n))
  {
    hide Dot, LowMul, Reproduces, PositiveDiagonal, MatVec;
    forall w: Vec | |w| == n && MatVec(A, n, w) == r ensures Dot(v, alpha, n) == Dot(k, w, n) {
      SolvedProduct(L, A, n, v, alpha, w);
    }
    var w := SolutionExists(L, A, n, alpha);
  }

  /** What a prediction means, for the kernel matrix A, the residual r, the cross-correlation kn and the
      self-correlation kq: `shift` is what is added to the basis, `bracket` is the scaled variance. */
  ghost predicate Predicts(A: Mat, n: nat, r: Vec, kn: Vec, kq: real, shift: real, bracket: real)
    requires |A| == n && LowerShape(A, n) && |r| == |kn| == n
  {
    && SolvedAgainst(A, n, r, kn, shift)
    && SolvedAgainst(A, n, kn, kn, kq - bracket)
    && LowerShape(Bordered(A, kn, kq), n + 1)
    && (bracket > 0.0 <==> PosDef(Bordered(A, kn, kq), n + 1))
  }

  lemma SolvesPredict(L: Mat, A: Mat, n: nat, r: Vec, kn: Vec, kq: real, alpha: Vec, v: Vec)
    requires |A| == n && LowerShape(A, n) && IsFactor(L, A, n) && |r| == |kn| == |alpha| == |v| == n
    requires LowMul(L, n, alpha) == r && LowMul(L, n, v) == kn
    ensures Predicts(A, n, r, kn, kq, Dot(v, alpha, n), kq - Dot(v, v, n))
  {
    hide Dot, LowMul, PosDef, IsFactor, SolvedAgainst;
    SolvesGiveProduct(L, A, n, r, kn, alpha, v);
    SolvesGiveProduct(L, A, n, kn, kn, v, v);
    BracketDecides(L, A, n, kn, kq, v);
  }

  /** The row that the incremental update adds: it takes the new sample as the second argument of the kernel. */
  function NewRow(kernel: Kernel, theta: Params, X: seq<Point>, nugget: real): (r: Vec)
    requires |X| > 0
    ensures |r| == |X|
  {
    var row := CrossCorrelation(kernel, theta, X, X[|X| - 1]);
    row[|X| - 1 := row[|X| - 1] + nugget]
  }

  /** The kernel is symmetric between the last sample and every other one. */
  ghost predicate SymmetricAtLast(kernel: Kernel, theta: Params, X: seq<Point>)
    requires |X| > 0
  {
    forall i | 0 <= i < |X| - 1 :: kernel(theta, X[i], X[|X| - 1]) == kernel(theta, X[|X| - 1], X[i])
  }

  /** The new row is that of the kernel matrix exactly when the kernel is symmetric there. */
  lemma NewRowIff(kernel: Kernel, theta: Params, X: seq<Point>, nugget: real)
    requires |X| > 0
    ensures NewRow(kernel, theta, X, nugget) == KernelMatrix(kernel, theta, X, nugget)[|X| - 1]
        <==> SymmetricAtLast(kernel, theta, X)
  {
    var n, row, last := |X| - 1, NewRow(kernel, theta, X, nugget), KernelMatrix(kernel, theta, X, nugget)[|X| - 1];
    forall i | 0 <= i < n ensures row[i] == kernel(theta, X[i], X[n]) && last[i] == kernel(theta, X[n], X[i]) {
    }
    assert row[n] == last[n];
  }

  /** The extended matrix is a factor of K only if the row that was added is that of K. */
  lemma FactorNeedsRow(m: Mat, M: Mat, K: Mat, n: nat, row: Vec)
    requires LowerShape(K, n + 1) && LowerShape(m, n) && |row| == n + 1
    requires |M| == n + 1 && forall i | 0 <= i < n + 1 :: |M[i]| == n + 1
    requires forall i, j | 0 <= j <= i < n :: M[i][j] == m[i][j]
    requires RowDone(m, n, row, M[n], n) && IsFactor(M, K, n + 1)
    ensures forall j | 0 <= j < n :: row[j] == K[n][j]
  {
    hide Dot;
    forall j | 0 <= j < n ensures row[j] == K[n][j] {
      assert Dot(m[j], M[n], j + 1) == row[j] && Dot(M[n], M[j], j + 1) == K[n][j];
      assert M[j][..j + 1] == m[j][..j + 1];
      DotCongruent(M[j], m[j], M[n], M[n], j + 1);
      DotCommutes(M[n], M[j], j + 1);
    }
  }

  /** An incremental update of a right factor gives a factor of the kernel matrix, when that is positive definite, if
      and only if the kernel is symmetric between the new sample and the old ones. */
  lemma UpdateIsRightIff(kernel: Kernel, theta: Params, X: seq<Point>, nugget: real, m: Mat, M: Mat, sqrt: real -> real)
    requires |X| > 0 && IsSqrt(sqrt)
    requires var n, K := |X| - 1, KernelMatrix(kernel, theta, X, nugget); IsFactor(m, K, n) && PosDef(K, n + 1)
    requires |M| == |X| && forall i | 0 <= i < |X| :: |M[i]| == |X|
    requires forall i, j | 0 <= j <= i < |X| - 1 :: M[i][j] == m[i][j]
    requires var n, row := |X| - 1, NewRow(kernel, theta, X, nugget);
             RowDone(m, n, row, M[n], n) && M[n][n] == sqrt(row[n] - Dot(M[n], M[n], n))
    ensures IsFactor(M, KernelMatrix(kernel, theta, X, nugget), |X|) <==> SymmetricAtLast(kernel, theta, X)
  {
    hide Dot, PosDef, IsSqrt, Reproduces;
    var n, K, row := |X| - 1, KernelMatrix(kernel, theta, X, nugget), NewRow(kernel, theta, X, nugget);
    NewRowIff(kernel, theta, X, nugget);
    if IsFactor(M, K, n + 1) {
      FactorNeedsRow(m, M, K, n, row);
      assert row[n] == K[n][n];
      assert row == K[n];
    }
    if SymmetricAtLast(kernel, theta, X) {
      PosDefLeading(K, n + 1, n);
      AddRowDecides(m, M, K, n, sqrt);
    }
  }

  /** One more sample: the new row is that of the kernel matrix if the kernel is symmetric there, and the block of the
      old samples is the old kernel matrix. */
  lemma KernelGrows(kernel: Kernel, theta: Params, X: seq<Point>, nugget: real, m: Mat)
    requires |X| > 0 && SymmetricAtLast(kernel, theta, X)
    requires var n := |X| - 1; var K' := KernelMatrix(kernel, theta, X[..n], nugget);
             IsFactor(m, K', n) <==> PosDef(K', n)
    ensures var n, K := |X| - 1, KernelMatrix(kernel, theta, X, nugget);
            IsFactor(m, K, n) <==> PosDef(K, n)
    ensures NewRow(kernel, theta, X, nugget) == KernelMatrix(kernel, theta, X, nugget)[|X| - 1]
  {
    hide PosDef, IsFactor;
    var n := |X| - 1;
    NewRowIff(kernel, theta, X, nugget);
    KernelLeading(kernel, theta, X, nugget, n);
    PosDefSameLower(KernelMatrix(kernel, theta, X, nugget), KernelMatrix(kernel, theta, X[..n], nugget), n);
    FactorSameLower(m, KernelMatrix(kernel, theta, X, nugget), KernelMatrix(kernel, theta, X[..n], nugget), n);
  }

  // ----- predictions at a sample

  lemma {:induction false} DotRaised(u: Vec, w: Vec, j: nat, c: real, m: nat)
    requires j < |u| && m <= |u| && m <= |w| && j < |w|
    ensures Dot(u[j := u[j] + c], w, m) == Dot(u, w, m) + if j < m then Times(c, w[j]) else 0.0
  {
    hide Times;
    if m > 0 {
      DotRaised(u, w, j, c, m - 1);
      TimesCommutes(u[j] + c, w[j]);
      TimesCommutes(u[j], w[j]);
      TimesCommutes(c, w[j]);
      TimesAdds(w[j], u[j], c);
    }
  }

  /** For a symmetric kernel, row j of the kernel matrix is the cross-correlation with sample j, and the nugget. */
  lemma SampleRow(kernel: Kernel, theta: Params, X: seq<Point>, nugget: real, j: nat)
    requires IsSymmetric(kernel) && j < |X|
    ensures var K, kn := KernelMatrix(kernel, theta, X, nugget), CrossCorrelation(kernel, theta, X, X[j]);
            SymRow(K, |X|, j) == kn[j := kn[j] + nugget]
  {
  }

  /** At a sample the prediction gives the sample back, up to the nugget. */
  lemma Interpolates(kernel: Kernel, theta: Params, X: seq<Point>, nugget: real, j: nat, w: Vec)
    requires IsSymmetric(kernel) && j < |X| == |w|
    ensures MatVec(KernelMatrix(kernel, theta, X, nugget), |X|, w)[j]
         == Dot(CrossCorrelation(kernel, theta, X, X[j]), w, |X|) + Times(nugget, w[j])
  {
    hide Dot, Times, KernelMatrix, CrossCorrelation;
    SampleRow(kernel, theta, X, nugget, j);
    var kn := CrossCorrelation(kernel, theta, X, X[j]);
    DotRaised(kn, w, j, nugget, |X|);
  }

  lemma {:induction false} DotUnit(u: Vec, n: nat, j: nat, m: nat)
    requires |u| == n && j < n && m <= n
    ensures Dot(u, Unit(n, j), m) == if j < m then u[j] else 0.0
  {
    hide Times;
    if m > 0 {
      DotUnit(u, n, j, m - 1);
      TimesUnits(u[m - 1]);
    }
  }

  /** Without a nugget, the unit vector solves for the cross-correlation with sample j. */
  lemma UnitSolves(kernel: Kernel, theta: Params, X: seq<Point>, j: nat)
    requires IsSymmetric(kernel) && j < |X|
    ensures var K, kn := KernelMatrix(kernel, theta, X, 0.0), CrossCorrelation(kernel, theta, X, X[j]);
            MatVec(K, |X|, Unit(|X|, j)) == kn && Dot(kn, Unit(|X|, j), |X|) == kernel(theta, X[j], X[j])
  {
    hide Dot;
    var n, K, kn := |X|, KernelMatrix(kernel, theta, X, 0.0), CrossCorrelation(kernel, theta, X, X[j]);
    forall i | 0 <= i < n ensures MatVec(K, n, Unit(n, j))[i] == kn[i] {
      DotUnit(SymRow(K, n, i), n, j, n);
      assert Sym(K, n, i, j) == kernel(theta, X[i], X[j]);
    }
    DotUnit(kn, n, j, n);
  }

  /** w solves K w = y - m. */
  ghost predicate Solves(kernel: Kernel, mean: (Params, Point) -> real, theta: Params, nugget: real,
                         X: seq<Point>, Y: Vec, w: Vec)
  {
    && |w| == |X| == |Y|
    && forall i | 0 <= i < |X| ::
         MatVec(KernelMatrix(kernel, theta, X, nugget), |X|, w)[i] == Y[i] - mean(theta, X[i])
  }

  /** kn are the correlations of the samples with the query. */
  ghost predicate Correlates(kernel: Kernel, theta: Params, X: seq<Point>, query: Point, kn: Vec) {
    |kn| == |X| && forall i | 0 <= i < |X| :: kn[i] == kernel(theta, X[i], query)
  }

  /** What the predictive mean is: K w = y - m has solutions, and each gives m(q) + <k, w>; at sample j this is
      y[j] - nugget w[j], if the kernel is symmetric. */
  ghost predicate IsMean(kernel: Kernel, mean: (Params, Point) -> real, theta: Params, nugget: real,
                         X: seq<Point>, Y: Vec, query: Point, yPred: real)
    requires |X| == |Y|
  {
    && (exists w: Vec :: Solves(kernel, mean, theta, nugget, X, Y, w))
    && forall w: Vec | Solves(kernel, mean, theta, nugget, X, Y, w) ::
         IsMeanFor(kernel, mean, theta, nugget, X, Y, query, yPred, w)
  }

  ghost predicate IsMeanFor(kernel: Kernel, mean: (Params, Point) -> real, theta: Params, nugget: real,
                            X: seq<Point>, Y: Vec, query: Point, yPred: real, w: Vec)
    requires |X| == |Y| == |w|
  {
    && (forall kn: Vec | Correlates(kernel, theta, X, query, kn) :: yPred == mean(theta, query) + Dot(kn, w, |X|))
    && (IsSymmetric(kernel) ==> forall j | 0 <= j < |X| && X[j] == query :: yPred == Y[j] - Times(nugget, w[j]))
  }

  /** At a sample the prediction is the sample, and certain. */
  ghost predicate ReturnsSample(X: seq<Point>, Y: Vec, query: Point, yPred: real, sPred: real)
    requires |X| == |Y|
  {
    forall j | 0 <= j < |X| && X[j] == query :: yPred == Y[j] && sPred == 0.0
  }

  lemma SolvesIff(kernel: Kernel, mean: (Params, Point) -> real, theta: Params, nugget: real,
                  X: seq<Point>, Y: Vec, w: Vec)
    requires |X| == |Y| == |w|
    ensures Solves(kernel, mean, theta, nugget, X, Y, w)
       <==> MatVec(KernelMatrix(kernel, theta, X, nugget), |X|, w) == Residual(mean, theta, X, Y)
  {
    hide Dot, MatVec, KernelMatrix;
    var v, r := MatVec(KernelMatrix(kernel, theta, X, nugget), |X|, w), Residual(mean, theta, X, Y);
    assert forall i | 0 <= i < |X| :: r[i] == Y[i] - mean(theta, X[i]);
    if Solves(kernel, mean, theta, nugget, X, Y, w) {
      assert forall i | 0 <= i < |X| :: v[i] == r[i];
    }
  }

  lemma MeanFor(kernel: Kernel, mean: (Params, Point) -> real, theta: Params, nugget: real,
                X: seq<Point>, Y: Vec, query: Point, yPred: real, w: Vec)
    requires |X| == |Y| == |w| && Solves(kernel, mean, theta, nugget, X, Y, w)
    requires yPred - mean(theta, query) == Dot(CrossCorrelation(kernel, theta, X, query), w, |X|)
    ensures IsMeanFor(kernel, mean, theta, nugget, X, Y, query, yPred, w)
  {
    hide Dot, Times, MatVec, KernelMatrix;
    forall kn: Vec | Correlates(kernel, theta, X, query, kn) ensures kn == CrossCorrelation(kernel, theta, X, query) {
    }
    if IsSymmetric(kernel) {
      forall j: nat | j < |X| && X[j] == query ensures yPred == Y[j] - Times(nugget, w[j]) {
        Interpolates(kernel, theta, X, nugget, j, w);
      }
    }
  }

  /** The prediction in terms of the kernel matrix, from any solution. */
  lemma PredictionMeans(kernel: Kernel, mean: (Params, Point) -> real, theta: Params, nugget: real,
                        X: seq<Point>, Y: Vec, query: Point, yPred: real, bracket: real)
    requires |X| == |Y|
    requires Predicts(KernelMatrix(kernel, theta, X, nugget), |X|, Residual(mean, theta, X, Y),
                      CrossCorrelation(kernel, theta, X, query), kernel(theta, query, query),
                      yPred - mean(theta, query), bracket)
    ensures IsMean(kernel, mean, theta, nugget, X, Y, query, yPred)
  {
    hide Dot, Solves, IsMeanFor, MatVec, KernelMatrix, Residual, CrossCorrelation, PosDef, Bordered;
    var K, r := KernelMatrix(kernel, theta, X, nugget), Residual(mean, theta, X, Y);
    var w0: Vec :| |w0| == |X| && MatVec(K, |X|, w0) == r;
    SolvesIff(kernel, mean, theta, nugget, X, Y, w0);
    forall w: Vec | Solves(kernel, mean, theta, nugget, X, Y, w)
      ensures |w| == |X| && IsMeanFor(kernel, mean, theta, nugget, X, Y, query, yPred, w)
    {
      SolutionSize(kernel, mean, theta, nugget, X, Y, w);
      SolvesIff(kernel, mean, theta, nugget, X, Y, w);
      MeanFor(kernel, mean, theta, nugget, X, Y, query, yPred, w);
    }
  }

  lemma SolutionSize(kernel: Kernel, mean: (Params, Point) -> real, theta: Params, nugget: real,
                     X: seq<Point>, Y: Vec, w: Vec)
    requires Solves(kernel, mean, theta, nugget, X, Y, w)
    ensures |w| == |X|
  {
  }

  lemma ZeroSpread(sqrt: real -> real, sigma: real, bracket: real)
    requires IsSqrt(sqrt)
    ensures bracket == 0.0 ==> sqrt(Times(sigma, bracket)) == 0.0
  {
    hide Times;
    TimesUnits(sigma);
    assert Times(sqrt(0.0), sqrt(0.0)) == 0.0;
    TimesSquare(sqrt(0.0));
  }

  lemma SampleReturned(kernel: Kernel, mean: (Params, Point) -> real, theta: Params, nugget: real,
                       X: seq<Point>, Y: Vec, query: Point, yPred: real, sPred: real, bracket: real)
    requires |X| == |Y| && IsMean(kernel, mean, theta, nugget, X, Y, query, yPred)
    requires Predicts(KernelMatrix(kernel, theta, X, nugget), |X|, Residual(mean, theta, X, Y),
                      CrossCorrelation(kernel, theta, X, query), kernel(theta, query, query),
                      yPred - mean(theta, query), bracket)
    requires bracket == 0.0 ==> sPred == 0.0
    ensures IsSymmetric(kernel) && nugget == 0.0 ==> ReturnsSample(X, Y, query, yPred, sPred)
  {
    hide Dot, Times, Solves, MatVec, KernelMatrix, Residual, CrossCorrelation, PosDef, Bordered, IsSymmetric;
    if IsSymmetric(kernel) && nugget == 0.0 {
      var w: Vec :| Solves(kernel, mean, theta, nugget, X, Y, w);
      SolutionSize(kernel, mean, theta, nugget, X, Y, w);
      assert IsMeanFor(kernel, mean, theta, nugget, X, Y, query, yPred, w);
      forall j: nat | j < |X| && X[j] == query ensures yPred == Y[j] && sPred == 0.0 {
        TimesUnits(w[j]);
        UnitSolves(kernel, theta, X, j);
      }
    }
  }

  class GaussianProcess {
    const kernel: Kernel
    const mean: (Params, Point) -> real
    const sqrt: real -> real
    const regularizer: real
    const sigma: real
    var theta: Params
    var mX: seq<Point>
    var mY: Vec
    var mL: array2<real>
    var mAlphaV: array<real>

    constructor (kernel: Kernel, mean: (Params, Point) -> real, sqrt: real -> real, regularizer: real, sigma: real,
                 theta: Params, X: seq<Point>, Y: Vec)
      requires |X| == |Y|
      ensures this.kernel == kernel && this.mean == mean && this.sqrt == sqrt
      ensures this.regularizer == regularizer && this.sigma == sigma
      ensures this.theta == theta && mX == X && mY == Y
      ensures fresh(mL) && fresh(mAlphaV)
    {
      this.kernel, this.mean, this.sqrt := kernel, mean, sqrt;
      this.regularizer, this.sigma := regularizer, sigma;
      this.theta, mX, mY := theta, X, Y;
      mL := new real[0, 0];
      mAlphaV := new real[0];
    }

    /** What callers can rely on between calls: the sizes agree. */
    ghost predicate Valid()
      reads this, mL, mAlphaV
    {
      |mX| == |mY| == mL.Length0 == mL.Length1 == mAlphaV.Length && IsSqrt(sqrt)
    }

    /** The current kernel matrix. */
    ghost function K(): (K: Mat)
      reads this
      ensures |K| == |mX| && forall i | 0 <= i < |K| :: |K[i]| == |mX|
    {
      KernelMatrix(kernel, theta, mX, regularizer)
    }

    /** The cached factor is the factor of the current kernel matrix, and the cached vector solves L alpha = y - m. */
    ghost predicate Fitted()
      reads this, mL, mAlphaV
    {
      && Valid()
      && IsFactor(View(mL), K(), |mX|)
      && LowMul(View(mL), |mX|, mAlphaV[..]) == Residual(mean, theta, mX, mY)
    }

    /** Appends a sample; the caches now lag behind by one. */
    method AddSample(x: Point, y: real)
      modifies this
      ensures mX == old(mX) + [x] && mY == old(mY) + [y]
      ensures theta == old(theta) && mL == old(mL) && mAlphaV == old(mAlphaV)
    {
      mX, mY := mX + [x], mY + [y];
    }

    method SetSamples(X: seq<Point>, Y: Vec)
      modifies this`mX, this`mY
      ensures mX == X && mY == Y
    {
      mX, mY := X, Y;
    }

    method SetHyperParameters(theta: Params)
      modifies this`theta
      ensures this.theta == theta
    {
      this.theta := theta;
    }

    method PrecomputePrediction()
      requires |mX| == |mY| == mL.Length0 == mL.Length1
      modifies this`mAlphaV
      ensures fresh(mAlphaV) && mAlphaV.Length == |mY|
      ensures NonzeroDiagonal(View(mL), |mY|) ==>
                LowMul(View(mL), |mY|, mAlphaV[..]) == Residual(mean, theta, mX, mY)
      ensures NonzeroDiagonal(View(mL), |mY|) ==> forall i | 0 <= i < |mY| ::
                LowMul(View(mL), |mY|, mAlphaV[..])[i] + mean(theta, mX[i]) == mY[i]
    {
      hide LowMul;
      var r := Residual(mean, theta, mX, mY);
      mAlphaV := new real[|mY|](i requires 0 <= i < |r| => r[i]);
      assert mAlphaV[..] == r;
      SolveLower(mL, mAlphaV);
    }

    /** The full update. A code other than 0 is the line of the "Cholesky decomposition error". */
    method FitSurrogateModel() returns (code: nat)
      requires |mX| == |mY| && IsSqrt(sqrt)
      modifies this`mL, this`mAlphaV
      ensures code <= |mX|
      ensures code == 0 <==> PosDef(K(), |mX|)
      ensures code > 0 ==> PosDef(K(), code - 1) && !PosDef(K(), code)
      ensures code == 0 ==> Fitted() && fresh(mL) && fresh(mAlphaV)
    {
      hide Dot, LowMul, PosDef, IsSqrt, Reproduces;
      var n := |mX|;
      mL := new real[n, n];
      var corr := new real[n, n];
      ComputeCorrMatrix(kernel, theta, mX, regularizer, corr);
      code := CholeskyDecompose(corr, mL, sqrt);
      OutcomeDecidesPosDef(K(), n, code, View(mL));
      if code == 0 {
        PrecomputePrediction();
      }
    }

    /** Extends the cached factor by one row of the kernel matrix. */
    method AddNewPointToCholesky(newK: Vec)
      requires |mX| == mL.Length0 + 1 && mL.Length0 == mL.Length1 && IsSqrt(sqrt) && newK == K()[mL.Length0]
      requires IsFactor(View(mL), K(), mL.Length0) <==> PosDef(K(), mL.Length0)
      modifies this`mL
      ensures fresh(mL) && mL.Length0 == mL.Length1 == |mX|
      ensures IsFactor(View(mL), K(), |mX|) <==> PosDef(K(), |mX|)
    {
      hide Dot, PosDef, IsFactor, IsSqrt, RowDone, KernelMatrix;
      ghost var m, n := View(mL), mL.Length0;
      mL := CholeskyAddRow(mL, newK, sqrt);
      AddRowDecides(m, View(mL), K(), n, sqrt);
    }

    /** The incremental update, after one sample was appended: it keeps "the caches are right exactly when the
        kernel matrix is positive definite" true, if the kernel is symmetric between the sample and the others. */
    method UpdateSurrogateModel()
      requires |mX| == |mY| == mL.Length0 + 1 && mL.Length0 == mL.Length1 && IsSqrt(sqrt)
      requires SymmetricAtLast(kernel, theta, mX)
      requires var K', n := KernelMatrix(kernel, theta, mX[..mL.Length0], regularizer), mL.Length0;
               IsFactor(View(mL), K', n) <==> PosDef(K', n)
      modifies this`mL, this`mAlphaV
      ensures Valid() && fresh(mL) && fresh(mAlphaV)
      ensures Fitted() <==> PosDef(K(), |mX|)
    {
      hide LowMul, PosDef, IsSqrt, Reproduces, KernelMatrix;
      var n := |mX| - 1;
      KernelGrows(kernel, theta, mX, regularizer, View(mL));
      var newK := CrossCorrelation(kernel, theta, mX, mX[n]);
      newK := newK[n := newK[n] + regularizer];
      AddNewPointToCholesky(newK);
      PrecomputePrediction();
    }

    /** The predictive mean and standard deviation at a query. `bracket` is what is multiplied by sigma under
        the square root. At a sample without noise the prediction is certain, and is the sample. */
    method Prediction(query: Point) returns (yPred: real, sPred: real, ghost bracket: real)
      requires Fitted()
      ensures IsMean(kernel, mean, theta, regularizer, mX, mY, query, yPred)
      ensures IsSymmetric(kernel) && regularizer == 0.0 ==> ReturnsSample(mX, mY, query, yPred, sPred)
      ensures Predicts(K(), |mX|, Residual(mean, theta, mX, mY), CrossCorrelation(kernel, theta, mX, query),
                kernel(theta, query, query), yPred - mean(theta, query), bracket)
      ensures sPred == sqrt(Times(sigma, bracket))
    {
      hide Dot, Times, LowMul, PosDef, IsSqrt, Reproduces, Predicts;
      var n := |mX|;
      var kq := kernel(theta, query, query);
      var kn := CrossCorrelation(kernel, theta, mX, query);
      var vd := new real[n](i requires 0 <= i < |kn| => kn[i]);
      assert vd[..] == kn;
      SolveLower(mL, vd);
      SolvesPredict(View(mL), K(), n, Residual(mean, theta, mX, mY), kn, kq, mAlphaV[..], vd[..]);
      var basis := mean(theta, query);
      yPred := basis + Dot(vd[..], mAlphaV[..], n);
      var spread := kq - Dot(vd[..], vd[..], n);
      sPred := sqrt(Times(sigma, spread));
      bracket := spread;
      hide IsMean, ReturnsSample, SolvedAgainst, Residual, CrossCorrelation, KernelMatrix, IsSymmetric, IsFactor;
      PredictionMeans(kernel, mean, theta, regularizer, mX, mY, query, yPred, bracket);
      ZeroSpread(sqrt, sigma, bracket);
      SampleReturned(kernel, mean, theta, regularizer, mX, mY, query, yPred, sPred, bracket);
    }
  }
}
