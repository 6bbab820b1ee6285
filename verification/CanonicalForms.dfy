/** When the semi-canonical form is canonical (src/aig/aig/aigCanon.c): exactly when every tie of signatures comes from
    a symmetry of the table. */
module CanonicalForms {
  import opened TruthTables
  import opened SemiCanonical

  function NumLeq(x: nat, y: nat): bool {
    x <= y
  }

  lemma {:induction false} AdjacentIncreasing(p: seq<nat>, i: nat, j: nat)
    requires forall k | 0 <= k < |p| - 1 :: p[k] < p[k + 1]
    requires i < j < |p|
    ensures p[i] < p[j]
    decreases j
  {
    if i < j - 1 {
      AdjacentIncreasing(p, i, j - 1);
      assert p[j - 1] < p[j - 1 + 1];
    }
  }

  lemma SortedPermutationIsIdentity(p: seq<nat>, n: nat)
    requires IsPermutation(p, n) && forall k | 0 <= k < n - 1 :: p[k] <= p[k + 1]
    ensures p == Identity(n)
  {
    forall k | 0 <= k < n - 1 ensures p[k] < p[k + 1] {
      assert p[k] != p[k + 1];
    }
    forall i, j | 0 <= i < j < n ensures p[i] < p[j] {
      AdjacentIncreasing(p, i, j);
    }
    forall i | 0 <= i < n ensures p[i] == i {
      IncreasingIsIdentity(p, n, i);
    }
  }

  // ----- the condition

  /** An input with equally many ones in its two cofactors may be complemented without changing the table. */
  ghost predicate PhaseTiesAreSymmetries(t: Table, n: nat)
    requires |t| == Pow2(n)
  {
    forall v: nat | v < n && CofactorOnes(t, n, v, false) == CofactorOnes(t, n, v, true) :: ChangePhase(t, n, v) == t
  }

  /** Neighbours with equal keys may be exchanged without changing the table. */
  ghost predicate KeyTiesAreSymmetries(t: Table, n: nat)
    requires |t| == Pow2(n)
  {
    forall i: nat | i + 1 < n && NegativeOnes(t, n)[i] == NegativeOnes(t, n)[i + 1] :: SwapAdjacentVars(t, n, i) == t
  }

  ghost predicate TiesAreSymmetries(t: Table, n: nat) {
    |t| == Pow2(n) && PhaseTiesAreSymmetries(t, n) && KeyTiesAreSymmetries(t, n)
  }

  /** The class of t has no other semi-canonical table. */
  ghost predicate OnlyForm(t: Table, n: nat) {
    forall g | IsSemiCanonical(g, n) && Equivalent(t, g, n) :: g == t
  }

  // ----- symmetric ties leave one form

  /** An input that a transformation between semi-canonical tables complements is tied. */
  lemma FlippedIsTied(c: Table, g: Table, n: nat, x: Transform, v: nat)
    requires IsSemiCanonical(c, n) && IsSemiCanonical(g, n) && Related(c, g, n, x) && v < n && x.flip[v]
    ensures CofactorOnes(c, n, v, false) == CofactorOnes(c, n, v, true)
  {
    hide SigLeq, CompareSigs, CofactorOnes, Agree, Pow2;
    CofactorOnesMove(c, g, n, x, v, false);
    CofactorOnesMove(c, g, n, x, v, true);
    var a, b, w := CofactorOnes(c, n, v, false), CofactorOnes(c, n, v, true), x.perm[v];
    assert SigLeq(a, b) && SigLeq(CofactorOnes(g, n, w, false), CofactorOnes(g, n, w, true));
    SigOrder(a, b, a);
  }

  lemma ActUnflipped(x: Transform, n: nat, v: nat, a: Assignment)
    requires ValidTransform(x, n) && v < n == |a|
    ensures Act(x.(flip := Flip(x.flip, v)), n, a) == Flip(Act(x, n, a), v)
  {
  }

  /** If complementing input v does not change c, the transformation need not complement it. */
  lemma DropFlip(c: Table, g: Table, n: nat, x: Transform, v: nat)
    requires Related(c, g, n, x) && v < n && ChangePhase(c, n, v) == c
    ensures Related(c, g, n, x.(flip := Flip(x.flip, v)))
  {
    hide Pow2, Eval, Agree, ChangePhase, Act, Flip;
    var y := x.(flip := Flip(x.flip, v));
    forall a: Assignment | |a| == n ensures Eval(g, a) == Eval(c, Act(y, n, a)) {
      RelatedAt(c, g, n, x, a);
      ActUnflipped(x, n, v, a);
      ChangePhaseAt(c, n, v, Act(x, n, a));
    }
    AgreeIntro(c, g, n, y);
  }

  lemma {:induction false} DropFlips(c: Table, g: Table, n: nat, x: Transform, m: nat) returns (y: Transform)
    requires IsSemiCanonical(c, n) && IsSemiCanonical(g, n) && PhaseTiesAreSymmetries(c, n) && Related(c, g, n, x)
      && m <= n
    ensures Related(c, g, n, y) && y.perm == x.perm && forall v | 0 <= v < m :: !y.flip[v]
  {
    hide Pow2, Agree, IsSemiCanonical, CofactorOnes, ChangePhase;
    y := x;
    if m > 0 {
      y := DropFlips(c, g, n, x, m - 1);
      var v := m - 1;
      if y.flip[v] {
        FlippedIsTied(c, g, n, y, v);
        DropFlip(c, g, n, y, v);
        y := y.(flip := Flip(y.flip, v));
      }
    }
  }

  /** Two neighbours that a permutation between semi-canonical tables puts out of order have equal keys. */
  lemma DisorderedIsTied(c: Table, g: Table, n: nat, p: seq<nat>, i: nat)
    requires IsSemiCanonical(c, n) && IsSemiCanonical(g, n) && Related(c, g, n, PermTransform(p)) && i + 1 < n
    requires p[i + 1] < p[i]
    ensures NegativeOnes(c, n)[i] == NegativeOnes(c, n)[i + 1]
  {
    hide SigLeq, CompareSigs, CofactorOnes, Agree, Pow2;
    CofactorOnesMove(c, g, n, PermTransform(p), i, false);
    CofactorOnesMove(c, g, n, PermTransform(p), i + 1, false);
    var s, t := NegativeOnes(c, n), NegativeOnes(g, n);
    assert SigLeq(s[i], s[i + 1]) && SigLeq(t[p[i + 1]], t[p[i]]);
    SigOrder(s[i], s[i + 1], s[i]);
  }

  lemma {:induction false} DropPermutation(c: Table, g: Table, n: nat, p: seq<nat>)
    requires IsSemiCanonical(c, n) && IsSemiCanonical(g, n) && KeyTiesAreSymmetries(c, n)
    requires IsPermutation(p, n) && Related(c, g, n, PermTransform(p))
    ensures c == g
    decreases Inversions(p, NumLeq)
  {
    hide Pow2, Related, IsSemiCanonical, NegativeOnes, SwapAdjacentVars, Inversions, Exchange;
    if i: nat :| i + 1 < n && p[i + 1] < p[i] {
      DisorderedIsTied(c, g, n, p, i);
      TrackSwap(c, g, n, p, i);
      InversionsExchange(p, i, NumLeq);
      DropPermutation(c, g, n, Exchange(p, i));
    } else {
      SortedPermutationIsIdentity(p, n);
      RelatedByIdentity(c, g, n);
    }
  }

  lemma SymmetriesGiveOneForm(c: Table, g: Table, n: nat)
    requires IsSemiCanonical(c, n) && IsSemiCanonical(g, n) && Equivalent(c, g, n) && TiesAreSymmetries(c, n)
    ensures g == c
  {
    hide Pow2, Agree, IsSemiCanonical, PhaseTiesAreSymmetries, KeyTiesAreSymmetries;
    var x :| Related(c, g, n, x);
    var y := DropFlips(c, g, n, x, n);
    assert y.flip == NoFlips(n);
    assert y == PermTransform(y.perm);
    DropPermutation(c, g, n, y.perm);
  }

  // ----- one form needs symmetric ties

  /** Complementing a tied input gives a semi-canonical table again. */
  lemma TiedPhaseIsForm(c: Table, n: nat, v: nat)
    requires IsSemiCanonical(c, n) && v < n && CofactorOnes(c, n, v, false) == CofactorOnes(c, n, v, true)
    ensures IsSemiCanonical(ChangePhase(c, n, v), n) && Equivalent(c, ChangePhase(c, n, v), n)
  {
    hide SigLeq, CofactorOnes, Related, Pow2, ChangePhase;
    var u, x := ChangePhase(c, n, v), PhaseTransform(Flip(NoFlips(n), v));
    ChangePhaseRelated(c, n, v);
    forall w: nat, b | w < n ensures CofactorOnes(u, n, w, b) == CofactorOnes(c, n, w, b) {
      CofactorOnesMove(c, u, n, x, w, b);
    }
    assert NegativeOnes(u, n) == NegativeOnes(c, n);
  }

  /** So does exchanging neighbours with equal keys. */
  lemma TiedSwapIsForm(c: Table, n: nat, i: nat)
    requires IsSemiCanonical(c, n) && i + 1 < n && NegativeOnes(c, n)[i] == NegativeOnes(c, n)[i + 1]
    ensures IsSemiCanonical(SwapAdjacentVars(c, n, i), n) && Equivalent(c, SwapAdjacentVars(c, n, i), n)
  {
    hide SigLeq, CofactorOnes, Related, Pow2, SwapAdjacentVars;
    var u := SwapAdjacentVars(c, n, i);
    SwapRelated(c, n, i);
    forall w: nat, b | w < n ensures CofactorOnes(u, n, w, b) == CofactorOnes(c, n, Swapped(i, w), b) {
      CofactorOnesAfterSwap(c, n, i, w, b);
    }
    assert NegativeOnes(u, n) == NegativeOnes(c, n);
  }

  /** The semi-canonical form is canonical for a class if and only if the ties of one form are symmetries. */
  lemma CanonicalIff(c: Table, n: nat)
    requires IsSemiCanonical(c, n)
    ensures OnlyForm(c, n) <==> TiesAreSymmetries(c, n)
  {
    hide Pow2, Equivalent, IsSemiCanonical, CofactorOnes, NegativeOnes, ChangePhase, SwapAdjacentVars;
    assert |c| == Pow2(n) by { FormSize(c, n); }
    if TiesAreSymmetries(c, n) {
      forall g | IsSemiCanonical(g, n) && Equivalent(c, g, n) ensures g == c {
        SymmetriesGiveOneForm(c, g, n);
      }
    }
    if OnlyForm(c, n) {
      forall v: nat | v < n && CofactorOnes(c, n, v, false) == CofactorOnes(c, n, v, true)
        ensures ChangePhase(c, n, v) == c
      {
        TiedPhaseIsForm(c, n, v);
      }
      forall i: nat | i + 1 < n && NegativeOnes(c, n)[i] == NegativeOnes(c, n)[i + 1]
        ensures SwapAdjacentVars(c, n, i) == c
      {
        TiedSwapIsForm(c, n, i);
      }
    }
  }

  lemma FormSize(c: Table, n: nat)
    requires IsSemiCanonical(c, n)
    ensures |c| == Pow2(n)
  {
  }

  /** In particular when there are no ties: no input has equally many ones in its two cofactors, and the uniqueness
      test passes. */
  lemma NoTiesIsEnough(f: Table, f': Table, n: nat)
    requires Equivalent(f, f', n) && IsSemiCanonical(f', n)
    requires |f| == Pow2(n) && NoPhaseTies(f, n) && AdjacentDiffer(NegativeOnes(f', n))
    ensures TiesAreSymmetries(f', n)
  {
    hide Related, IsSemiCanonical, Pow2, CofactorOnes, NegativeOnes;
    FormSize(f', n);
    var x :| Related(f, f', n, x);
    NoPhaseTiesInvariant(f, f', n, x);
  }

  // ----- ties that are symmetries

  /** The conjunction of two inputs. */
  function And(): (t: Table)
    ensures |t| == Pow2(2)
  {
    assert Pow2(2) == 2 * Pow2(1) == 4 * Pow2(0);
    [false, false, false, true]
  }

  lemma AndAt(a: Assignment)
    requires |a| == 2
    ensures Eval(And(), a) == (a[0] && a[1])
  {
    assert a[1..][1..] == [];
    assert Index(a[1..]) == if a[1] then 1 else 0;
  }

  lemma AndSwapped()
    ensures SwapAdjacentVars(And(), 2, 0) == And()
  {
    hide Pow2, Eval, SwapAdjacentVars, And;
    forall a: Assignment | |a| == 2 ensures Eval(SwapAdjacentVars(And(), 2, 0), a) == Eval(And(), a) {
      SwapAdjacentVarsAt(And(), 2, 0, a);
      AndAt(a);
      AndAt(Exchange(a, 0));
    }
    Extensional(SwapAdjacentVars(And(), 2, 0), And(), 2);
  }

  /** A conjunction has no ones where an input is 0, and some where it is 1. */
  lemma AndCounts(v: nat)
    requires v < 2
    ensures CofactorOnes(And(), 2, v, false) == 0 < CofactorOnes(And(), 2, v, true)
  {
    hide Pow2, And, Cofactor, Eval, Index, Bits;
    var u, w := Cofactor(And(), 2, v, false), Cofactor(And(), 2, v, true);
    forall k | 0 <= k < |u| ensures !u[k] {
      IndexOfBits(k, 2);
      CofactorAt(And(), 2, v, false, Bits(k, 2));
      AndAt(Bits(k, 2)[v := false]);
      EvalAt(u, Bits(k, 2));
    }
    CountOnesIsCardinality(u);
    assert Ones(u) == {};
    var a := [true, true];
    CofactorAt(And(), 2, v, true, a);
    AndAt(a[v := true]);
    EvalAt(w, a);
    CountOnesIsCardinality(w);
    assert Index(a) in Ones(w);
  }

  lemma EvalAt(t: Table, a: Assignment)
    requires |t| == Pow2(|a|)
    ensures Index(a) < |t| && Eval(t, a) == t[Index(a)]
  {
  }

  lemma AndKeys()
    ensures NegativeOnes(And(), 2) == [0, 0]
  {
    hide Pow2, And, CofactorOnes;
    AndCounts(0);
    AndCounts(1);
  }

  lemma AndForm()
    ensures IsSemiCanonical(And(), 2)
  {
    hide And, CofactorOnes, CompareSigs, Pow2;
    AndKeys();
    CompareOneByte(0, 0);
    assert Pow2(2) == 4 by { PowFour(); }
    forall v: nat | v < 2 ensures SigLeq(CofactorOnes(And(), 2, v, false), CofactorOnes(And(), 2, v, true)) {
      AndCounts(v);
      CompareOneByte(0, CofactorOnes(And(), 2, v, true));
    }
  }

  lemma PowFour()
    ensures Pow2(2) == 4
  {
    assert Pow2(2) == 2 * Pow2(1) == 4 * Pow2(0);
  }

  lemma AndTies()
    ensures TiesAreSymmetries(And(), 2)
  {
    hide And, CofactorOnes, Pow2, ChangePhase, SwapAdjacentVars, NegativeOnes;
    assert Pow2(2) == 4 by { PowFour(); }
    forall v: nat | v < 2 ensures CofactorOnes(And(), 2, v, false) != CofactorOnes(And(), 2, v, true) {
      AndCounts(v);
    }
    AndSwapped();
  }

  /** The uniqueness test is not necessary: the two inputs of a conjunction are tied, and yet its class has one form. */
  lemma ConjunctionIsCanonical()
    ensures IsSemiCanonical(And(), 2) && OnlyForm(And(), 2)
    ensures !AdjacentDiffer(NegativeOnes(And(), 2))
  {
    hide And, CofactorOnes, Pow2, OnlyForm, IsSemiCanonical, TiesAreSymmetries, NegativeOnes;
    AndForm();
    AndTies();
    CanonicalIff(And(), 2);
    AndKeys();
    var s := [0, 0];
    assert s[0] == s[0 + 1];
  }
}
