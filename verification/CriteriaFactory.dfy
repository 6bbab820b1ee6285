/** The factory that builds criteria from their expression (CriteriaFactory in
    lib/bayesopt/src/criteria_functors.cpp). A criterion is shown by its name and the criteria it combines. */
module CriteriaFactory {
  import opened ExpressionParser
  import opened ExpressionTrees
  import Texts

  datatype Creation = Created(c: Expr) | BadSyntax(input: string) | NotFound(name: string)

  /** The registered names. True stands for criteria that combine others: the rest ignores what is pushed. */
  type Registry = map<string, bool>

  predicate Combines(registry: Registry, name: string) {
    name in registry && registry[name]
  }

  function PushCriteria(registry: Registry, c: Expr, crit: Expr): Expr {
    if Combines(registry, c.name) then c.(args := c.args + [crit]) else c
  }

  // ----- what create computes, by recursion over the text

  ghost function Make(registry: Registry, input: string): Creation
    decreases |input|, 1, 0
  {
    match Parse(input)
    case Malformed => BadSyntax(input)
    case Parsed(parent, childs) =>
      if parent !in registry then NotFound(parent)
      else
        ChildrenAreSmaller(input);
        MakeAll(registry, |input|, childs, Expr(parent, []))
  }

  /** Creates the children, which are shorter than n, and pushes them one after another. */
  ghost function MakeAll(registry: Registry, n: nat, childs: seq<string>, c: Expr): Creation
    requires forall s | s in childs :: |s| < n
    decreases n, 0, |childs|
  {
    if childs == [] then Created(c)
    else
      var init := childs[..|childs| - 1];
      var rest := MakeAll(registry, n, init, c);
      if !rest.Created? then rest
      else
        var child := Make(registry, childs[|childs| - 1]);
        if child.Created? then Created(PushCriteria(registry, rest.c, child.c)) else child
  }

  method Create(registry: Registry, name: string) returns (r: Creation)
    ensures r == Make(registry, name)
    decreases |name|
  {
    hide Parse, MakeAll;
    var parsed := ParseExpression(name);
    match parsed {
      case Malformed => return BadSyntax(name);
      case Parsed(os, osc) =>
        if os !in registry {
          return NotFound(os);
        }
        ChildrenAreSmaller(name);
        var cFunc := Expr(os, []);
        assert osc[..0] == [];
        MakeNone(registry, |name|, cFunc);
        for i := 0 to |osc|
          invariant MakeAll(registry, |name|, osc[..i], Expr(os, [])) == Created(cFunc)
        {
          assert osc[i] in osc;
          MakeOneMore(registry, |name|, osc, i, Expr(os, []));
          var child := Create(registry, osc[i]);
          if !child.Created? {
            MakeStops(registry, |name|, osc, i + 1, Expr(os, []));
            return child;
          }
          cFunc := PushCriteria(registry, cFunc, child.c);
        }
        assert osc[..|osc|] == osc;
        r := Created(cFunc);
    }
  }

  lemma MakeNone(registry: Registry, n: nat, c: Expr)
    ensures MakeAll(registry, n, [], c) == Created(c)
  {
  }

  lemma MakeOneMore(registry: Registry, n: nat, childs: seq<string>, i: nat, c: Expr)
    requires i < |childs| && forall s | s in childs :: |s| < n
    ensures MakeAll(registry, n, childs[..i + 1], c) ==
      var rest := MakeAll(registry, n, childs[..i], c);
      if !rest.Created? then rest
      else
        var child := Make(registry, childs[i]);
        if child.Created? then Created(PushCriteria(registry, rest.c, child.c)) else child
  {
    hide Make, PushCriteria;
    assert childs[..i + 1][..i] == childs[..i];
  }

  /** The first failure is the result. */
  lemma {:induction false} MakeStops(registry: Registry, n: nat, childs: seq<string>, i: nat, c: Expr)
    requires i <= |childs| && (forall s | s in childs :: |s| < n) && !MakeAll(registry, n, childs[..i], c).Created?
    ensures MakeAll(registry, n, childs, c) == MakeAll(registry, n, childs[..i], c)
    decreases |childs| - i
  {
    hide Make, PushCriteria, MakeAll;
    if i < |childs| {
      MakeOneMore(registry, n, childs, i, c);
      MakeStops(registry, n, childs, i + 1, c);
    } else {
      assert childs[..i] == childs;
    }
  }

  // ----- when it fails

  /** Creation meets bad syntax if and only if the whole text is unbalanced: children never are. */
  lemma {:induction false} BadSyntaxIff(registry: Registry, input: string)
    ensures Make(registry, input).BadSyntax? <==> !Balanced(input)
    ensures !Balanced(input) ==> Make(registry, input) == BadSyntax(input)
    decreases |input|, 1, 0
  {
    hide Balanced, MakeAll;
    if Balanced(input) && Parse(input).parent in registry {
      ChildrenAreSmaller(input);
      GoodChildren(registry, |input|, Parse(input).childs, Expr(Parse(input).parent, []));
    }
  }

  lemma {:induction false} GoodChildren(registry: Registry, n: nat, childs: seq<string>, c: Expr)
    requires forall s | s in childs :: Balanced(s) && |s| < n
    ensures !MakeAll(registry, n, childs, c).BadSyntax?
    decreases n, 0, |childs|
  {
    hide Balanced, Make;
    if childs != [] {
      assert childs[|childs| - 1] in childs;
      GoodChildren(registry, n, childs[..|childs| - 1], c);
      BadSyntaxIff(registry, childs[|childs| - 1]);
    }
  }

  // ----- rebuilding a tree

  /** The names of the tree that are not registered, each before those below it and from left to right. */
  function Unknown(registry: Registry, e: Expr): seq<string> {
    (if e.name in registry then [] else [e.name]) + UnknownAll(registry, e.args)
  }

  function UnknownAll(registry: Registry, es: seq<Expr>): seq<string> {
    if es == [] then []
    else UnknownAll(registry, es[..|es| - 1]) + Unknown(registry, es[|es| - 1])
  }

  /** The tree without what is pushed to criteria that do not combine others. */
  function Pruned(registry: Registry, e: Expr): Expr {
    Expr(e.name, if Combines(registry, e.name) then PrunedAll(registry, e.args) else [])
  }

  function PrunedAll(registry: Registry, es: seq<Expr>): (ps: seq<Expr>)
    ensures |ps| == |es|
  {
    if es == [] then [] else PrunedAll(registry, es[..|es| - 1]) + [Pruned(registry, es[|es| - 1])]
  }

  function FirstUnknown(names: seq<string>, c: Expr): Creation {
    if names == [] then Created(c) else NotFound(names[0])
  }

  /** From the printed text, creation rebuilds the tree, or names the first criterion that is not registered. */
  lemma {:induction false} CreateInvertsPrint(registry: Registry, e: Expr)
    requires Named(e)
    ensures Make(registry, Print(e)) == FirstUnknown(Unknown(registry, e), Pruned(registry, e))
    decreases e, |e.args| + 1
  {
    hide Parse, Print, Named, MakeAll;
    ParseInvertsPrint(e);
    ChildrenAreSmaller(Print(e));
    NamedParts(e);
    if e.name in registry {
      CreateInvertsAll(registry, e, e.args, |Print(e)|);
      assert [] + UnknownAll(registry, e.args) == UnknownAll(registry, e.args);
    }
  }

  lemma {:induction false} CreateInvertsAll(registry: Registry, e: Expr, es: seq<Expr>, n: nat)
    requires (forall a | a in es :: a in e.args && Named(a)) && forall s | s in PrintAll(es) :: |s| < n
    ensures MakeAll(registry, n, PrintAll(es), Expr(e.name, []))
         == FirstUnknown(UnknownAll(registry, es),
                         Expr(e.name, if Combines(registry, e.name) then PrunedAll(registry, es) else []))
    decreases e, |es|
  {
    hide Make, Print, Named, Unknown, Pruned;
    if es != [] {
      var init, last := es[..|es| - 1], es[|es| - 1];
      assert last in es;
      assert PrintAll(es)[..|es| - 1] == PrintAll(init);
      CreateInvertsAll(registry, e, init, n);
      var k :| 0 <= k < |e.args| && e.args[k] == last;
      CreateInvertsPrint(registry, e.args[k]);
    }
  }

  /** Only criteria that combine others have arguments. */
  predicate WellPlaced(registry: Registry, e: Expr) {
    (e.args == [] || Combines(registry, e.name)) && forall a | a in e.args :: WellPlaced(registry, a)
  }

  /** The tree is rebuilt as it was if and only if arguments are given to combining criteria only. */
  lemma {:induction false} RebuiltIff(registry: Registry, e: Expr)
    ensures Pruned(registry, e) == e <==> WellPlaced(registry, e)
    decreases e, |e.args| + 1
  {
    hide Combines;
    RebuiltAllIff(registry, e, e.args);
  }

  lemma {:induction false} RebuiltAllIff(registry: Registry, e: Expr, es: seq<Expr>)
    requires forall a | a in es :: a in e.args
    ensures PrunedAll(registry, es) == es <==> forall a | a in es :: WellPlaced(registry, a)
    decreases e, |es|
  {
    hide Combines, WellPlaced, Pruned;
    if es != [] {
      var init, last := es[..|es| - 1], es[|es| - 1];
      assert last in es && es == init + [last];
      RebuiltAllIff(registry, e, init);
      var k :| 0 <= k < |e.args| && e.args[k] == last;
      RebuiltIff(registry, e.args[k]);
    }
  }

  /** An argument of a criterion that does not combine others is lost. */
  lemma ArgumentIsLost()
    ensures Make(map["cEI" := false], "cEI(cEI)") == Created(Expr("cEI", []))
  {
    hide Make;
    var registry, leaf := map["cEI" := false], Expr("cEI", []);
    var e := Expr("cEI", [leaf]);
    CreateInvertsPrint(registry, e);
    hide Parse;
    assert PrintAll([leaf]) == [Print(leaf)] == ["cEI"] by { PrintLeaf(leaf); }
    assert Print(e) == "cEI(cEI)" by { JoinOne("cEI"); }
    assert UnknownAll(registry, [leaf]) == [];
  }

  lemma PrintLeaf(leaf: Expr)
    requires leaf.args == []
    ensures PrintAll([leaf]) == [leaf.name] && Print(leaf) == leaf.name
  {
    assert [leaf][..0] == [];
  }

  lemma JoinOne(s: string)
    ensures Texts.Join([s]) == s
  {
  }
}
