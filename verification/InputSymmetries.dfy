/** When a function has one semi-canonical form, in terms of the function itself (src/aig/aig/aigCanon.c): exactly when
    its tied inputs can be complemented or exchanged without changing it. */
module InputSymmetries {
  import opened CanonicalForms
  import opened SemiCanonical
  import opened TruthTables

  // ----- exchanging two inputs

  /** Exchanges inputs i and j, and complements both if b. */
  function Exchanging(n: nat, i: nat, j: nat, b: bool): Transform
    requires i < n && j < n
  {
    Transform(Identity(n)[i := j][j := i], NoFlips(n)[i := b][j := b])
  }

  lemma ExchangingIsValid(n: nat, i: nat, j: nat, b: bool)
    requires i < n && j < n && i != j
    ensures ValidTransform(Exchanging(n, i, j, b), n)
  {
  }

  lemma ActExchanging(n: nat, i: nat, j: nat, b: bool, a: Assignment)
    requires i < n && j < n && i != j && |a| == n
    ensures ValidTransform(Exchanging(n, i, j, b), n)
    ensures Act(Exchanging(n, i, j, b), n, a) == a[i := a[j] != b][j := a[i] != b]
  {
    ExchangingIsValid(n, i, j, b);
  }

  /** An input with equally many ones in its two cofactors may be complemented, and two inputs may be exchanged if a
      cofactor of the one has as many ones as one of the other, both complemented if their polarities differ. */
  ghost predicate TiedInputsAreSymmetries(f: Table, n: nat)
    requires |f| == Pow2(n)
  {
    PhaseTiesAreSymmetries(f, n) && ExchangeTiesAreSymmetries(f, n)
  }

  ghost predicate ExchangeTiesAreSymmetries(f: Table, n: nat)
    requires |f| == Pow2(n)
  {
    forall i: nat, j: nat, k, l | i < n && j < n && i != j && CofactorOnes(f, n, i, k) == CofactorOnes(f, n, j, l) ::
      Related(f, f, n, Exchanging(n, i, j, k != l))
  }

  // ----- the counts of the two cofactors

  lemma {:induction false} CountsAdd(a: Table, b: Table, c: Table, d: Table)
    requires |a| == |b| == |c| == |d|
    requires forall k | 0 <= k < |a| :: (a[k] == c[k] && b[k] == d[k]) || (a[k] == d[k] && b[k] == c[k])
    ensures CountOnes(a) + CountOnes(b) == CountOnes(c) + CountOnes(d)
  {
    if a != [] {
      var m := |a| - 1;
      CountsAdd(a[..m], b[..m], c[..m], d[..m]);
    }
  }

  /** Together the two cofactors have twice the ones of the table. */
  lemma OnesSum(f: Table, n: nat, v: nat)
    requires |f| == Pow2(n) && v < n
    ensures CofactorOnes(f, n, v, false) + CofactorOnes(f, n, v, true) == 2 * CountOnes(f)
  {
    hide Pow2, Index, Bits, Cofactor, ChangePhase, Related, CountOnes;
    var f0, f1, g := Cofactor(f, n, v, false), Cofactor(f, n, v, true), ChangePhase(f, n, v);
    forall k | 0 <= k < |f| ensures (f0[k] == f[k] && f1[k] == g[k]) || (f0[k] == g[k] && f1[k] == f[k]) {
      IndexOfBits(k, n);
      var a := Bits(k, n);
      CofactorAt(f, n, v, false, a);
      CofactorAt(f, n, v, true, a);
      ChangePhaseAt(f, n, v, a);
      assert a[v := a[v]] == a;
    }
    CountsAdd(f0, f1, f, g);
    ChangePhaseRelated(f, n, v);
    OnesInvariant(f, g, n, PhaseTransform(Flip(NoFlips(n), v)));
  }

  ghost predicate SameCounts(f: Table, g: Table, n: nat)
    requires |f| == |g| == Pow2(n)
  {
    forall v: nat, k | v < n :: CofactorOnes(g, n, v, k) == CofactorOnes(f, n, v, k)
  }

  lemma PhaseKeepsCounts(f: Table, n: nat, v: nat)
    requires |f| == Pow2(n) && v < n && CofactorOnes(f, n, v, false) == CofactorOnes(f, n, v, true)
    ensures SameCounts(f, ChangePhase(f, n, v), n)
  {
    hide Pow2, CofactorOnes, Related, ChangePhase;
    var x, g := PhaseTransform(Flip(NoFlips(n), v)), ChangePhase(f, n, v);
    ChangePhaseRelated(f, n, v);
    forall w: nat, k | w < n ensures CofactorOnes(g, n, w, k) == CofactorOnes(f, n, w, k) {
      CofactorOnesMove(f, g, n, x, w, k);
    }
  }

  lemma ExchangeKeepsCounts(f: Table, g: Table, n: nat, i: nat, j: nat, k: bool, l: bool)
    requires i < n && j < n && i != j && Related(f, g, n, Exchanging(n, i, j, k != l))
    requires CofactorOnes(f, n, i, k) == CofactorOnes(f, n, j, l)
    ensures SameCounts(f, g, n)
  {
    hide Pow2, CofactorOnes, Agree;
    var x := Exchanging(n, i, j, k != l);
    OnesSum(f, n, i);
    OnesSum(f, n, j);
    forall w: nat, m | w < n ensures CofactorOnes(g, n, w, m) == CofactorOnes(f, n, w, m) {
      CofactorOnesMove(f, g, n, x, if w == i then j else if w == j then i else w, m);
    }
  }

  // ----- one form needs symmetric inputs

  ghost function Transformed(f: Table, n: nat, x: Transform): (g: Table)
    requires |f| == Pow2(n) && ValidTransform(x, n)
    ensures |g| == Pow2(n)
  {
    Tabulate(n, (a: Assignment) requires |a| == n => Eval(f, Act(x, n, a)))
  }

  lemma TransformedRelated(f: Table, n: nat, x: Transform)
    requires |f| == Pow2(n) && ValidTransform(x, n)
    ensures Related(f, Transformed(f, n, x), n, x)
  {
    hide Pow2, Act;
    forall a: Assignment | |a| == n ensures Eval(Transformed(f, n, x), a) == Eval(f, Act(x, n, a)) {
      EvalTabulate(n, (a: Assignment) requires |a| == n => Eval(f, Act(x, n, a)), a);
    }
  }

  lemma SameOrigin(f: Table, g: Table, c: Table, n: nat, x: Transform)
    requires Related(f, c, n, x) && Related(g, c, n, x)
    ensures f == g
  {
    hide Pow2, Act, Agree, Eval;
    var y := InverseTransform(x, n);
    forall a: Assignment | |a| == n ensures Eval(f, a) == Eval(g, a) {
      RelatedAt(f, c, n, x, Act(y, n, a));
      RelatedAt(g, c, n, x, Act(y, n, a));
    }
    Extensional(f, g, n);
  }

  lemma SameCountsMove(f: Table, g: Table, c: Table, d: Table, n: nat, x: Transform)
    requires Related(f, c, n, x) && Related(g, d, n, x) && SameCounts(f, g, n)
    ensures SameCounts(c, d, n)
  {
    hide Pow2, CofactorOnes, Agree;
    forall w: nat, k | w < n ensures CofactorOnes(d, n, w, k) == CofactorOnes(c, n, w, k) {
      var v := PermutationOnto(x.perm, n, w);
      CofactorOnesMove(f, c, n, x, v, k);
      CofactorOnesMove(g, d, n, x, v, k);
    }
  }

  lemma SameCountsForm(c: Table, d: Table, n: nat)
    requires IsSemiCanonical(c, n) && |d| == Pow2(n) && SameCounts(c, d, n)
    ensures IsSemiCanonical(d, n)
  {
    hide Pow2, CofactorOnes, SigLeq;
    assert NegativeOnes(d, n) == NegativeOnes(c, n);
  }

  /** If the class has one form, a function of the class with the same counts is the same function. */
  lemma SameCountsSameFunction(f: Table, g: Table, c: Table, n: nat)
    requires Equivalent(f, g, n) && Equivalent(f, c, n) && IsSemiCanonical(c, n) && OnlyForm(c, n)
    requires |f| == |g| == Pow2(n) && SameCounts(f, g, n)
    ensures g == f
  {
    hide Pow2, IsSemiCanonical, SameCounts, Transformed, Agree;
    var x :| Related(f, c, n, x);
    var d := Transformed(g, n, x);
    TransformedRelated(g, n, x);
    SameCountsMove(f, g, c, d, n, x);
    SameCountsForm(c, d, n);
    EquivalentSymmetric(f, c, n);
    EquivalentTransitive(c, f, g, n);
    EquivalentTransitive(c, g, d, n);
    SameOrigin(f, g, c, n, x);
  }

  lemma OneFormNeedsSymmetries(f: Table, c: Table, n: nat)
    requires Equivalent(f, c, n) && IsSemiCanonical(c, n) && OnlyForm(c, n) && |f| == Pow2(n)
    ensures TiedInputsAreSymmetries(f, n)
  {
    hide Pow2, IsSemiCanonical, SameCounts, CofactorOnes, ChangePhase, OnlyForm, Agree;
    forall v: nat | v < n && CofactorOnes(f, n, v, false) == CofactorOnes(f, n, v, true)
      ensures ChangePhase(f, n, v) == f
    {
      ChangePhaseRelated(f, n, v);
      PhaseKeepsCounts(f, n, v);
      SameCountsSameFunction(f, ChangePhase(f, n, v), c, n);
    }
    forall i: nat, j: nat, k, l | i < n && j < n && i != j && CofactorOnes(f, n, i, k) == CofactorOnes(f, n, j, l)
      ensures Related(f, f, n, Exchanging(n, i, j, k != l))
    {
      ExchangedIsSame(f, c, n, i, j, k, l);
    }
  }

  lemma ExchangedIsSame(f: Table, c: Table, n: nat, i: nat, j: nat, k: bool, l: bool)
    requires Equivalent(f, c, n) && IsSemiCanonical(c, n) && OnlyForm(c, n) && |f| == Pow2(n)
    requires i < n && j < n && i != j && CofactorOnes(f, n, i, k) == CofactorOnes(f, n, j, l)
    ensures Related(f, f, n, Exchanging(n, i, j, k != l))
  {
    hide Pow2, IsSemiCanonical, SameCounts, CofactorOnes, OnlyForm, Agree, Exchanging, Transformed;
    var x := Exchanging(n, i, j, k != l);
    ExchangingIsValid(n, i, j, k != l);
    var g := Transformed(f, n, x);
    TransformedRelated(f, n, x);
    ExchangeKeepsCounts(f, g, n, i, j, k, l);
    SameCountsSameFunction(f, g, c, n);
  }

  // ----- symmetric inputs give one form

  lemma ActFlip(x: Transform, n: nat, v: nat, a: Assignment)
    requires ValidTransform(x, n) && v < n == |a|
    ensures Act(x, n, Flip(a, x.perm[v])) == Flip(Act(x, n, a), v)
  {
    forall j | 0 <= j < n ensures Act(x, n, Flip(a, x.perm[v]))[j] == Flip(Act(x, n, a), v)[j] {
      assert j != v ==> x.perm[j] != x.perm[v];
    }
  }

  lemma PhaseSymmetryMoves(f: Table, c: Table, n: nat, x: Transform, v: nat)
    requires Related(f, c, n, x) && v < n && ChangePhase(f, n, v) == f
    ensures ChangePhase(c, n, x.perm[v]) == c
  {
    hide Pow2, Act, Agree, Eval, ChangePhase, Flip;
    var w := x.perm[v];
    forall a: Assignment | |a| == n ensures Eval(ChangePhase(c, n, w), a) == Eval(c, a) {
      ChangePhaseAt(c, n, w, a);
      RelatedAt(f, c, n, x, a);
      RelatedAt(f, c, n, x, Flip(a, w));
      ActFlip(x, n, v, a);
      ChangePhaseAt(f, n, v, Act(x, n, a));
    }
    Extensional(ChangePhase(c, n, w), c, n);
  }

  lemma ActExchange(x: Transform, n: nat, i: nat, j: nat, w: nat, a: Assignment)
    requires ValidTransform(x, n) && i < n && j < n && i != j && w + 1 < n == |a|
    requires x.perm[i] == w && x.perm[j] == w + 1
    ensures ValidTransform(Exchanging(n, i, j, x.flip[i] != x.flip[j]), n)
    ensures Act(x, n, Exchange(a, w)) == Act(Exchanging(n, i, j, x.flip[i] != x.flip[j]), n, Act(x, n, a))
  {
    var b := x.flip[i] != x.flip[j];
    var y := Act(x, n, a);
    ActExchanging(n, i, j, b, y);
    forall m | 0 <= m < n ensures Act(x, n, Exchange(a, w))[m] == y[i := y[j] != b][j := y[i] != b][m] {
      assert m != i ==> x.perm[m] != w;
      assert m != j ==> x.perm[m] != w + 1;
    }
  }

  lemma ExchangeSymmetryMoves(f: Table, c: Table, n: nat, x: Transform, i: nat, j: nat, w: nat)
    requires Related(f, c, n, x) && i < n && j < n && i != j && w + 1 < n && x.perm[i] == w && x.perm[j] == w + 1
    requires Related(f, f, n, Exchanging(n, i, j, x.flip[i] != x.flip[j]))
    ensures SwapAdjacentVars(c, n, w) == c
  {
    hide Pow2, Act, Agree, Eval, SwapAdjacentVars, Exchange, Exchanging;
    forall a: Assignment | |a| == n ensures Eval(SwapAdjacentVars(c, n, w), a) == Eval(c, a) {
      SwapAdjacentVarsAt(c, n, w, a);
      RelatedAt(f, c, n, x, a);
      RelatedAt(f, c, n, x, Exchange(a, w));
      ActExchange(x, n, i, j, w, a);
      RelatedAt(f, f, n, Exchanging(n, i, j, x.flip[i] != x.flip[j]), Act(x, n, a));
    }
    Extensional(SwapAdjacentVars(c, n, w), c, n);
  }

  lemma SymmetriesMove(f: Table, c: Table, n: nat, x: Transform)
    requires Related(f, c, n, x) && TiedInputsAreSymmetries(f, n)
    ensures TiesAreSymmetries(c, n)
  {
    hide Pow2, CofactorOnes, ChangePhase, SwapAdjacentVars, Agree, Exchanging;
    forall w: nat | w < n && CofactorOnes(c, n, w, false) == CofactorOnes(c, n, w, true)
      ensures ChangePhase(c, n, w) == c
    {
      var v := PermutationOnto(x.perm, n, w);
      CofactorOnesMove(f, c, n, x, v, false);
      CofactorOnesMove(f, c, n, x, v, true);
      PhaseSymmetryMoves(f, c, n, x, v);
    }
    forall w: nat | w + 1 < n && NegativeOnes(c, n)[w] == NegativeOnes(c, n)[w + 1]
      ensures SwapAdjacentVars(c, n, w) == c
    {
      var i := PermutationOnto(x.perm, n, w);
      var j := PermutationOnto(x.perm, n, w + 1);
      CofactorOnesMove(f, c, n, x, i, false);
      CofactorOnesMove(f, c, n, x, j, false);
      assert (false != x.flip[i]) != (false != x.flip[j]) <==> x.flip[i] != x.flip[j];
      ExchangeSymmetryMoves(f, c, n, x, i, j, w);
    }
  }

  // ----- the condition on the function

  /** All semi-canonical tables of the class of f are the same. */
  ghost predicate HasOneForm(f: Table, n: nat) {
    forall g, h | IsSemiCanonical(g, n) && IsSemiCanonical(h, n) && Equivalent(f, g, n) && Equivalent(f, h, n) :: g == h
  }

  /** The condition on a form is the condition on the function. */
  lemma TiesOfFormIff(f: Table, c: Table, n: nat)
    requires Equivalent(f, c, n) && IsSemiCanonical(c, n) && |f| == Pow2(n)
    ensures TiesAreSymmetries(c, n) <==> TiedInputsAreSymmetries(f, n)
  {
    hide Pow2, IsSemiCanonical, TiesAreSymmetries, TiedInputsAreSymmetries, Related;
    CanonicalIff(c, n);
    if TiesAreSymmetries(c, n) {
      OneFormNeedsSymmetries(f, c, n);
    }
    if TiedInputsAreSymmetries(f, n) {
      var x :| Related(f, c, n, x);
      SymmetriesMove(f, c, n, x);
    }
  }

  /** A function that has a form c has no other if and only if its tied inputs are symmetries. */
  lemma OneFormIff(f: Table, c: Table, n: nat)
    requires Equivalent(f, c, n) && IsSemiCanonical(c, n) && |f| == Pow2(n)
    ensures HasOneForm(f, n) <==> TiedInputsAreSymmetries(f, n)
  {
    hide Pow2, IsSemiCanonical, TiesAreSymmetries, TiedInputsAreSymmetries, Equivalent;
    TiesOfFormIff(f, c, n);
    CanonicalIff(c, n);
    EquivalentSymmetric(f, c, n);
    if OnlyForm(c, n) {
      forall g | IsSemiCanonical(g, n) && Equivalent(f, g, n) ensures g == c {
        EquivalentTransitive(c, f, g, n);
      }
    } else {
      var g :| IsSemiCanonical(g, n) && Equivalent(c, g, n) && g != c;
      EquivalentTransitive(f, c, g, n);
    }
  }

  /** Canonicity: functions that differ by a permutation and complementation of their inputs have one
      semi-canonical form, when the ties of the inputs of one of them are symmetries. */
  lemma Canonicity(f: Table, g: Table, f': Table, g': Table, n: nat)
    requires Equivalent(f, g, n) && Equivalent(f, f', n) && Equivalent(g, g', n) && |f| == Pow2(n)
    requires IsSemiCanonical(f', n) && IsSemiCanonical(g', n) && TiedInputsAreSymmetries(f, n)
    ensures f' == g'
  {
    hide Related, IsSemiCanonical, TiedInputsAreSymmetries, Pow2;
    OneFormIff(f, f', n);
    EquivalentTransitive(f, g, g', n);
  }

  /** Some semi-canonical table of the class of f is among the keys. */
  ghost predicate ClassRecorded(f: Table, n: nat, keys: seq<Table>) {
    exists k | k in keys :: IsSemiCanonical(k, n) && Equivalent(f, k, n)
  }

  /** A table of keys tells whether the class of f has been recorded, for any recorded keys, if and only if the ties
      of its inputs are symmetries. */
  lemma RecordedIffClassRecorded(f: Table, canon: Table, n: nat)
    requires Equivalent(f, canon, n) && IsSemiCanonical(canon, n) && |f| == Pow2(n)
    ensures (forall keys: seq<Table> :: canon in keys <==> ClassRecorded(f, n, keys)) <==> TiedInputsAreSymmetries(f, n)
  {
    hide Pow2, IsSemiCanonical, Equivalent, TiesAreSymmetries, TiedInputsAreSymmetries;
    TiesOfFormIff(f, canon, n);
    CanonicalIff(canon, n);
    EquivalentSymmetric(f, canon, n);
    if TiesAreSymmetries(canon, n) {
      forall keys: seq<Table> ensures canon in keys <==> ClassRecorded(f, n, keys) {
        forall k | k in keys && IsSemiCanonical(k, n) && Equivalent(f, k, n) ensures k == canon {
          EquivalentTransitive(canon, f, k, n);
        }
      }
    } else {
      var g :| IsSemiCanonical(g, n) && Equivalent(canon, g, n) && g != canon;
      EquivalentTransitive(f, canon, g, n);
      assert g in [g] && ClassRecorded(f, n, [g]) && canon !in [g];
    }
  }
}
