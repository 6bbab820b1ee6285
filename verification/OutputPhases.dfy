/** Functions and their complements, and the keys under which they are recorded (src/aig/aig/aigCanon.c): the output is
    complemented if the function is 1 where all inputs are 0. */
module OutputPhases {
  import opened CanonicalForms
  import opened InputSymmetries
  import opened SemiCanonical
  import opened TruthTables

  ghost predicate Complements(f: Table, g: Table) {
    |f| == |g| && forall k | 0 <= k < |f| :: g[k] == !f[k]
  }

  /** The key is a semi-canonical table of the one of f and its complement whose entry 0 is false. */
  ghost predicate IsKeyOf(f: Table, key: Table, n: nat) {
    && |f| == Pow2(n) && IsSemiCanonical(key, n)
    && forall g: Table | (g == f || Complements(f, g)) && !g[0] :: Equivalent(g, key, n)
  }

  lemma ComplementExists(f: Table) returns (g: Table)
    ensures Complements(f, g) && Complements(g, f)
  {
    g := seq(|f|, k requires 0 <= k < |f| => !f[k]);
  }

  /** One of the two is 0 where all inputs are 0. */
  lemma OneOfTwo(f: Table, n: nat) returns (g: Table)
    requires |f| == Pow2(n)
    ensures |g| == Pow2(n) && (g == f || Complements(f, g)) && !g[0]
    ensures g == f <==> !f[0]
  {
    g := f;
    if f[0] {
      g := ComplementExists(f);
    }
  }

  lemma ComplementUnique(f: Table, g: Table, h: Table)
    requires Complements(f, g) && Complements(f, h)
    ensures g == h
  {
  }

  // ----- complements and transformations

  lemma ComplementEval(f: Table, g: Table, a: Assignment)
    requires Complements(f, g) && |f| == Pow2(|a|)
    ensures Eval(g, a) == !Eval(f, a)
  {
  }

  lemma RelatedComplements(f: Table, g: Table, f': Table, g': Table, n: nat, x: Transform)
    requires Related(f, g, n, x) && Complements(f, f') && Complements(g, g')
    ensures Related(f', g', n, x)
  {
    hide Pow2, Act, Agree, Eval, Complements;
    assert |f'| == |f| && |g'| == |g| by { ComplementSize(f, f'); ComplementSize(g, g'); }
    forall a: Assignment | |a| == n ensures Eval(g', a) == Eval(f', Act(x, n, a)) {
      RelatedAt(f, g, n, x, a);
      ComplementEval(g, g', a);
      ComplementEval(f, f', Act(x, n, a));
    }
    AgreeIntro(f', g', n, x);
  }

  lemma ComplementSize(f: Table, g: Table)
    requires Complements(f, g)
    ensures |f| == |g|
  {
  }

  lemma EquivalentComplements(f: Table, g: Table, f': Table, g': Table, n: nat)
    requires Equivalent(f, g, n) && Complements(f, f') && Complements(g, g')
    ensures Equivalent(f', g', n)
  {
    hide Related, Complements;
    var x :| Related(f, g, n, x);
    RelatedComplements(f, g, f', g', n, x);
  }

  // ----- complements and counts

  lemma {:induction false} CountComplement(f: Table, g: Table)
    requires Complements(f, g)
    ensures CountOnes(f) + CountOnes(g) == |f|
  {
    if f != [] {
      CountComplement(f[..|f| - 1], g[..|g| - 1]);
    }
  }

  lemma CofactorComplement(f: Table, g: Table, n: nat, v: nat, c: bool)
    requires Complements(f, g) && |f| == Pow2(n) && v < n
    ensures CofactorOnes(g, n, v, c) == Pow2(n) - CofactorOnes(f, n, v, c)
  {
    hide Pow2, Cofactor, Complements, Index, Bits;
    ComplementSize(f, g);
    var f', g' := Cofactor(f, n, v, c), Cofactor(g, n, v, c);
    forall k | 0 <= k < Pow2(n) ensures g'[k] == !f'[k] {
      IndexOfBits(k, n);
      CofactorAt(f, n, v, c, Bits(k, n));
      CofactorAt(g, n, v, c, Bits(k, n));
      ComplementEval(f, g, Bits(k, n)[v := c]);
    }
    assert Complements(f', g') by { AreComplements(f', g'); }
    CountComplement(f', g');
  }

  lemma AreComplements(f: Table, g: Table)
    requires |f| == |g| && forall k | 0 <= k < |f| :: g[k] == !f[k]
    ensures Complements(f, g)
  {
  }

  lemma PhaseOfComplement(f: Table, g: Table, n: nat, v: nat)
    requires Complements(f, g) && |f| == Pow2(n) && v < n && ChangePhase(f, n, v) == f
    ensures |g| == Pow2(n) && ChangePhase(g, n, v) == g
  {
    hide Pow2, ChangePhase, Complements, Eval;
    ComplementSize(f, g);
    forall a: Assignment | |a| == n ensures Eval(ChangePhase(g, n, v), a) == Eval(g, a) {
      ChangePhaseAt(f, n, v, a);
      ChangePhaseAt(g, n, v, a);
      ComplementEval(f, g, a);
      ComplementEval(f, g, Flip(a, v));
    }
    Extensional(ChangePhase(g, n, v), g, n);
  }

  /** A function and its complement have the same ties and the same symmetries. */
  lemma TiesOfComplement(f: Table, g: Table, n: nat)
    requires Complements(f, g) && |f| == Pow2(n) && TiedInputsAreSymmetries(f, n)
    ensures |g| == Pow2(n) && TiedInputsAreSymmetries(g, n)
  {
    hide Pow2, ChangePhase, Complements, CofactorOnes, Related, Exchanging;
    ComplementSize(f, g);
    forall v: nat, c | v < n ensures CofactorOnes(g, n, v, c) == Pow2(n) - CofactorOnes(f, n, v, c) {
      CofactorComplement(f, g, n, v, c);
    }
    forall v: nat | v < n && CofactorOnes(g, n, v, false) == CofactorOnes(g, n, v, true)
      ensures ChangePhase(g, n, v) == g
    {
      PhaseOfComplement(f, g, n, v);
    }
    forall i: nat, j: nat, k, l | i < n && j < n && i != j && CofactorOnes(g, n, i, k) == CofactorOnes(g, n, j, l)
      ensures Related(g, g, n, Exchanging(n, i, j, k != l))
    {
      RelatedComplements(f, f, g, g, n, Exchanging(n, i, j, k != l));
    }
  }

  // ----- keys

  lemma KeyForm(f: Table, key: Table, n: nat) returns (g: Table)
    requires IsKeyOf(f, key, n)
    ensures |g| == Pow2(n) && (g == f || Complements(f, g)) && !g[0] && (g == f <==> !f[0])
    ensures Equivalent(g, key, n) && IsSemiCanonical(key, n)
  {
    hide Pow2, IsSemiCanonical, Equivalent;
    g := OneOfTwo(f, n);
  }

  lemma KeyOfForm(f: Table, g: Table, key: Table, n: nat)
    requires |f| == |g| == Pow2(n) && (g == f || Complements(f, g)) && !g[0]
    requires Equivalent(g, key, n) && IsSemiCanonical(key, n)
    ensures IsKeyOf(f, key, n)
  {
    hide Pow2, IsSemiCanonical, Equivalent;
    forall h: Table | (h == f || Complements(f, h)) && !h[0] ensures h == g {
      if g != f && h != f {
        ComplementUnique(f, g, h);
      }
    }
  }

  /** A function and its complement are recorded under one key, when the tied inputs are symmetries. */
  lemma ComplementsShareKey(f: Table, g: Table, keyF: Table, keyG: Table, n: nat)
    requires IsKeyOf(f, keyF, n) && IsKeyOf(g, keyG, n) && Complements(f, g) && TiedInputsAreSymmetries(f, n)
    ensures keyF == keyG
  {
    hide Pow2, IsSemiCanonical, Equivalent, TiedInputsAreSymmetries;
    var f0 := KeyForm(f, keyF, n);
    var g0 := KeyForm(g, keyG, n);
    assert f0 == g0;
    if f0 != f {
      TiesOfComplement(f, f0, n);
    }
    OneFormIff(f0, keyF, n);
  }

  /** Two functions that differ by a permutation and complementation of their inputs are recorded under one key if and
      only if both or none is 1 where all inputs are 0, or the function is equivalent to its complement. */
  lemma OneKeyIff(f: Table, g: Table, keyF: Table, keyG: Table, f': Table, n: nat)
    requires IsKeyOf(f, keyF, n) && IsKeyOf(g, keyG, n) && Equivalent(f, g, n) && Complements(f, f')
    requires TiedInputsAreSymmetries(f, n)
    ensures keyF == keyG <==> f[0] == g[0] || Equivalent(f, f', n)
  {
    hide Pow2, IsSemiCanonical, Equivalent, TiedInputsAreSymmetries, Complements;
    assert f' != f by { NotItself(f, f', n); }
    var f0 := KeyForm(f, keyF, n);
    var g0 := KeyForm(g, keyG, n);
    var g' := ComplementExists(g);
    NotItself(g, g', n);
    EquivalentComplements(f, g, f', g', n);
    if f0 != f {
      ComplementUnique(f, f', f0);
      TiesOfComplement(f, f0, n);
    }
    if g0 != g {
      ComplementUnique(g, g', g0);
    }
    SameKeyIff(f0, g0, keyF, keyG, n);
    ComplementEquivalence(f, g, f', g', n);
  }

  lemma NotItself(f: Table, g: Table, n: nat)
    requires Complements(f, g) && |f| == Pow2(n)
    ensures g != f
  {
    assert g[0] != f[0];
  }

  lemma SameKeyIff(f0: Table, g0: Table, keyF: Table, keyG: Table, n: nat)
    requires Equivalent(f0, keyF, n) && Equivalent(g0, keyG, n) && IsSemiCanonical(keyF, n) && IsSemiCanonical(keyG, n)
    requires |f0| == Pow2(n) && TiedInputsAreSymmetries(f0, n)
    ensures keyF == keyG <==> Equivalent(f0, g0, n)
  {
    hide Pow2, IsSemiCanonical, TiedInputsAreSymmetries, Related;
    if keyF == keyG {
      EquivalentSymmetric(g0, keyG, n);
      EquivalentTransitive(f0, keyF, g0, n);
    }
    if Equivalent(f0, g0, n) {
      EquivalentTransitive(f0, g0, keyG, n);
      OneFormIff(f0, keyF, n);
    }
  }

  /** How the four tables f, g and their complements are related, if f and g are. */
  lemma ComplementEquivalence(f: Table, g: Table, f': Table, g': Table, n: nat)
    requires Equivalent(f, g, n) && Equivalent(f', g', n)
    ensures Equivalent(f, g', n) <==> Equivalent(f, f', n)
    ensures Equivalent(f', g, n) <==> Equivalent(f, f', n)
  {
    hide Related;
    EquivalentSymmetric(f, g, n);
    EquivalentSymmetric(f', g', n);
    if Equivalent(f, g', n) {
      EquivalentTransitive(f, g', f', n);
    }
    if Equivalent(f, f', n) {
      EquivalentTransitive(f, f', g', n);
      EquivalentSymmetric(f, f', n);
      EquivalentTransitive(f', f, g, n);
    }
    if Equivalent(f', g, n) {
      EquivalentTransitive(f', g, f, n);
      EquivalentSymmetric(f', f, n);
    }
  }

  // ----- two keys for one class

  /** 1 if both inputs are 0. */
  function Nor(): (t: Table)
    ensures |t| == Pow2(2)
  {
    PowFour();
    [true, false, false, false]
  }

  lemma NorAt(a: Assignment)
    requires |a| == 2
    ensures Eval(Nor(), a) == (!a[0] && !a[1])
  {
    assert a[1..][1..] == [];
    assert Index(a[1..]) == if a[1] then 1 else 0;
  }

  lemma AndIsNor()
    ensures Equivalent(And(), Nor(), 2)
  {
    hide Pow2, Eval, And, Nor, Agree;
    var x := PhaseTransform([true, true]);
    PhaseIsTransform([true, true]);
    forall a: Assignment | |a| == 2 ensures Eval(Nor(), a) == Eval(And(), Act(x, 2, a)) {
      NorAt(a);
      AndAt(Act(x, 2, a));
      ActPhase([true, true], a, 0);
      ActPhase([true, true], a, 1);
    }
    AgreeIntro(And(), Nor(), 2, x);
  }

  lemma AndEntries()
    ensures Pow2(2) == 4 && And() == [false, false, false, true] && Nor() == [true, false, false, false]
  {
    PowFour();
  }

  lemma OnesOfAnd(g: Table)
    requires Complements(And(), g)
    ensures !Equivalent(And(), g, 2)
  {
    AndEntries();
    var f := [false, false, false, true];
    assert f[..3][..2][..1][..0] == [];
    assert CountOnes(f) == CountOnes(f[..3]) + 1;
    assert CountOnes(f[..3]) == CountOnes(f[..3][..2]) == CountOnes(f[..3][..2][..1]) == 0;
    CountComplement(f, g);
    hide Related, CountOnes, And;
    if Equivalent(And(), g, 2) {
      var x :| Related(And(), g, 2, x);
      OnesInvariant(And(), g, 2, x);
    }
  }

  /** Complementing both inputs of a conjunction changes its key: the output is complemented for one and not for the
      other. */
  lemma AndAndNorHaveTwoKeys(keyA: Table, keyN: Table)
    requires IsKeyOf(And(), keyA, 2) && IsKeyOf(Nor(), keyN, 2)
    ensures Equivalent(And(), Nor(), 2) && keyA != keyN
  {
    hide Pow2, IsSemiCanonical, Related, TiedInputsAreSymmetries, TiesAreSymmetries, IsKeyOf, And, Nor;
    AndIsNor();
    AndForm();
    AndTies();
    EquivalentItself(And(), 2);
    TiesOfFormIff(And(), And(), 2);
    var g := ComplementExists(And());
    OnesOfAnd(g);
    OneKeyIff(And(), Nor(), keyA, keyN, g, 2);
    AndEntries();
  }

  lemma EquivalentItself(f: Table, n: nat)
    requires |f| == Pow2(n)
    ensures Equivalent(f, f, n)
  {
    hide Related, Pow2;
    RelatedIdentity(f, n);
  }
}
