/** Expressions as trees: parsing what is printed, and the factory that builds criteria from their expression
    (parseExpresion in lib/bayesopt/utils/parser.cpp, CriteriaFactory::create in
    lib/bayesopt/src/criteria_functors.cpp). */
module ExpressionTrees {
  import opened ExpressionParser
  import opened Texts

  // ----- the children that the parser finds

  /** What holds at depth d, with the parent p, after reading n characters. */
  ghost predicate Sound(st: State, n: nat) {
    && (forall c | c in st.childs :: Balanced(c) && |c| < n)
    && NeverNegative(st.current) && |st.current| <= n
    && st.depth >= 0 && Depth(st.current) == (if st.depth == 0 then 0 else st.depth - 1)
    && Depth(st.parent) == 0 && NoParentheses(st.parent)
  }

  ghost predicate NoParentheses(s: string) {
    forall k | 0 <= k < |s| :: s[k] != '(' && s[k] != ')'
  }

  lemma AdvanceIsSound(st: State, c: char, n: nat)
    requires Sound(st, n) && Advance(st, c).depth >= 0
    ensures Sound(Advance(st, c), n + 1)
  {
    hide Depth, NeverNegative;
    Extended(st.current, c);
    Extended(st.parent, c);
    Empty();
  }

  lemma Empty()
    ensures Depth("") == 0 && NeverNegative("")
  {
  }

  lemma {:induction false} RunIsSound(s: string, k: nat)
    requires NeverNegative(s) && k <= |s|
    ensures Sound(Run(START, s[..k]), k)
  {
    hide Sound, Advance;
    if k == 0 {
      StartIsSound(s);
    } else {
      RunIsSound(s, k - 1);
      PrefixStep(s, k - 1);
      AdvanceIsSound(Run(START, s[..k - 1]), s[k - 1], k - 1);
    }
  }

  lemma StartIsSound(s: string)
    ensures Sound(Run(START, s[..0]), 0)
  {
    Empty();
    assert s[..0] == [];
  }

  /** Every child is balanced again and shorter than the input: so a recursion over children ends, and it meets no
      malformed text when the whole is not malformed. */
  lemma ChildrenAreSmaller(s: string)
    requires Parse(s).Parsed?
    ensures forall c | c in Parse(s).childs :: Balanced(c) && |c| < |s|
  {
    hide Sound;
    RunIsSound(s, |s|);
    SoundChildren(Run(START, s[..|s|]), |s|);
    assert s[..|s|] == s;
  }

  lemma SoundChildren(st: State, n: nat)
    requires Sound(st, n)
    ensures forall c | c in st.childs :: Balanced(c) && |c| < n
    ensures NoParentheses(st.parent)
  {
  }

  // ----- printing

  datatype Expr = Expr(name: string, args: seq<Expr>)

  /** An expression from its name and its printed children. */
  function Assemble(parent: string, childs: seq<string>): string {
    if childs == [] then parent else parent + "(" + Join(childs) + ")"
  }

  function Print(e: Expr): string {
    Assemble(e.name, PrintAll(e.args))
  }

  function PrintAll(es: seq<Expr>): (ps: seq<string>)
    ensures |ps| == |es|
  {
    if es == [] then [] else PrintAll(es[..|es| - 1]) + [Print(es[|es| - 1])]
  }

  /** A character of a name. */
  predicate IsPlain(c: char) {
    !IsSpace(c) && c != '(' && c != ')' && c != ','
  }

  predicate IsName(s: string) {
    forall k | 0 <= k < |s| :: IsPlain(s[k])
  }

  predicate Named(e: Expr) {
    IsName(e.name) && forall a | a in e.args :: Named(a)
  }

  /** Balanced text without spaces, and with commas only inside its parentheses. */
  ghost predicate Closed(s: string) {
    Balanced(s) && forall k | 0 <= k < |s| :: !IsSpace(s[k]) && (s[k] == ',' ==> Depth(s[..k]) >= 1)
  }

  /** Inside parentheses, closed text is collected as it is. */
  lemma {:induction false} ClosedIsCollected(st: State, s: string, k: nat)
    requires st.depth >= 1 && Closed(s) && k <= |s|
    ensures Run(st, s[..k]) == State(st.depth + Depth(s[..k]), st.parent, st.childs, st.current + s[..k])
  {
    if k == 0 {
      assert s[..0] == [];
    } else {
      ClosedIsCollected(st, s, k - 1);
      var init, c := s[..k - 1], s[k - 1];
      assert s[..k] == init + [c];
      RunStep(st, init, c);
      Extended(init, c);
      assert Depth(s[..k]) >= 0 && !IsSpace(c) && (c == ',' ==> Depth(init) >= 1);
      hide Run, Depth, Closed, IsSpace;
      assert st.current + init + [c] == st.current + s[..k];
    }
  }

  lemma Collected(st: State, s: string)
    requires st.depth >= 1 && Closed(s)
    ensures Run(st, s) == st.(current := st.current + s)
  {
    ClosedIsCollected(st, s, |s|);
    assert s[..|s|] == s;
  }

  lemma {:induction false} NameIsCollected(s: string)
    requires IsName(s)
    ensures Run(START, s) == START.(parent := s) && Balanced(s)
  {
    if s == [] {
      Empty();
    } else {
      var n := |s| - 1;
      NameIsCollected(s[..n]);
      assert s == s[..n] + [s[n]];
      assert IsPlain(s[n]);
      RunStep(START, s[..n], s[n]);
      Extended(s[..n], s[n]);
    }
  }

  /** Closed parts are collected one by one. */
  lemma {:induction false} PartsAreCollected(parent: string, parts: seq<string>)
    requires parts != [] && forall p | p in parts :: Closed(p)
    ensures Run(State(1, parent, [], ""), Join(parts)) == State(1, parent, parts[..|parts| - 1], parts[|parts| - 1])
  {
    hide Closed, Join, Run;
    var n := |parts| - 1;
    var init, last := parts[..n], parts[n];
    assert parts == init + [last] && last in parts;
    JoinMore(init, last);
    if n == 0 {
      Collected(State(1, parent, [], ""), last);
    } else {
      PartsAreCollected(parent, init);
      OneMoreCollected(parent, init, last);
    }
  }

  lemma OneMoreCollected(parent: string, init: seq<string>, last: string)
    requires init != [] && Closed(last)
    requires Run(State(1, parent, [], ""), Join(init)) == State(1, parent, init[..|init| - 1], init[|init| - 1])
    ensures Run(State(1, parent, [], ""), Join(init) + "," + last) == State(1, parent, init, last)
  {
    hide Closed, Join, Run;
    var st, n := State(1, parent, [], ""), |init| - 1;
    RunStep(st, Join(init), ',');
    assert init[..n] + [init[n]] == init;
    RunJoin(st, Join(init) + ",", last);
    Collected(State(1, parent, init, ""), last);
  }

  lemma {:induction false} JoinIsClosed(parts: seq<string>)
    requires parts != [] && forall p | p in parts :: Closed(p)
    ensures Balanced(Join(parts)) && forall k | 0 <= k < |Join(parts)| :: !IsSpace(Join(parts)[k])
  {
    hide Depth;
    var n := |parts| - 1;
    assert parts[n] in parts;
    if n > 0 {
      var init := parts[..n];
      JoinIsClosed(init);
      Extended(Join(init), ',');
      NeverNegativeJoin(Join(init) + ",", parts[n]);
      DepthJoin(Join(init) + ",", parts[n]);
    }
  }

  lemma AssembledIsClosed(parent: string, childs: seq<string>)
    requires IsName(parent) && childs != [] && forall c | c in childs :: Closed(c)
    ensures Closed(Assemble(parent, childs))
  {
    hide Depth, NeverNegative, Join;
    NameIsCollected(parent);
    JoinIsClosed(childs);
    var inner := Join(childs);
    Bracketed(parent, inner);
    var s := Assemble(parent, childs);
    assert s == parent + "(" + inner + ")";
    forall k | 0 <= k < |s| ensures !IsSpace(s[k]) && (s[k] == ',' ==> Depth(s[..k]) >= 1) {
      if k < |parent| {
        assert s[k] == parent[k];
      } else if |parent| < k < |s| - 1 {
        assert s[k] == inner[k - |parent| - 1];
      }
    }
  }

  /** Text of the form parent(inner): the depth is positive between the parentheses. */
  lemma Bracketed(parent: string, inner: string)
    requires NoParentheses(parent) || Balanced(parent)
    requires Balanced(inner)
    ensures var s := parent + "(" + inner + ")";
      Balanced(s) && forall k | |parent| < k < |s| :: Depth(s[..k]) >= 1
  {
    hide Depth;
    if NoParentheses(parent) {
      PlainIsBalanced(parent);
    }
    var s, open := parent + "(" + inner + ")", parent + "(";
    Extended(parent, '(');
    forall k | 0 <= k <= |inner| ensures Depth(inner[..k]) >= 0 {
    }
    NeverNegativeJoin(open, inner);
    DepthJoin(open, inner);
    assert inner[..|inner|] == inner;
    Extended(open + inner, ')');
    assert s == (open + inner) + [')'];
    forall k | |parent| < k < |s| ensures Depth(s[..k]) >= 1 {
      var j := k - |parent| - 1;
      assert s[..k] == open + inner[..j];
      DepthJoin(open, inner[..j]);
    }
  }

  lemma {:induction false} PlainIsBalanced(s: string)
    requires NoParentheses(s)
    ensures Balanced(s)
  {
    if s == [] {
      Empty();
    } else {
      var n := |s| - 1;
      PlainIsBalanced(s[..n]);
      assert s == s[..n] + [s[n]];
      Extended(s[..n], s[n]);
    }
  }

  lemma {:induction false} PrintIsClosed(e: Expr)
    requires Named(e)
    ensures Closed(Print(e))
    decreases e, |e.args| + 1
  {
    hide Closed, Assemble, IsName;
    if e.args == [] {
      NameIsClosed(e.name);
    } else {
      PrintAllClosed(e, e.args);
      AssembledIsClosed(e.name, PrintAll(e.args));
    }
  }

  lemma NameIsClosed(s: string)
    requires IsName(s)
    ensures Closed(Assemble(s, []))
  {
    NameIsCollected(s);
    forall k | 0 <= k < |s| ensures !IsSpace(s[k]) && s[k] != ',' {
      assert IsPlain(s[k]);
    }
  }

  lemma {:induction false} PrintAllClosed(e: Expr, es: seq<Expr>)
    requires Named(e) && forall a | a in es :: a in e.args
    ensures forall p | p in PrintAll(es) :: Closed(p)
    decreases e, |es|
  {
    hide Closed, Print;
    if es != [] {
      var n := |es| - 1;
      assert es[n] in es;
      PrintAllClosed(e, es[..n]);
      var k :| 0 <= k < |e.args| && e.args[k] == es[n];
      PrintIsClosed(e.args[k]);
    }
  }

  /** Parsing a printed expression gives its name and its printed children. */
  lemma ParseInvertsPrint(e: Expr)
    requires Named(e)
    ensures Parse(Print(e)) == Parsed(e.name, PrintAll(e.args))
  {
    hide Depth, Named, Closed, Join, PrintAll, IsName, NeverNegative;
    NamedParts(e);
    NameIsCollected(e.name);
    PrintIsClosed(e);
    ClosedIsBalanced(Print(e));
    if e.args != [] {
      PrintAllClosed(e, e.args);
      AssembledIsParsed(e.name, PrintAll(e.args));
    } else {
      NothingPrinted();
    }
  }

  lemma NothingPrinted()
    ensures PrintAll([]) == []
  {
  }

  lemma AssembledIsParsed(name: string, parts: seq<string>)
    requires IsName(name) && parts != [] && forall p | p in parts :: Closed(p)
    ensures Run(START, Assemble(name, parts)).parent == name && Run(START, Assemble(name, parts)).childs == parts
  {
    hide Closed, Join, IsName, Run;
    var open, inner := name + "(", Join(parts);
    NameIsCollected(name);
    RunStep(START, name, '(');
    RunJoin(START, open, inner);
    PartsAreCollected(name, parts);
    RunStep(START, open + inner, ')');
    assert Assemble(name, parts) == (open + inner) + [')'];
    assert parts[..|parts| - 1] + [parts[|parts| - 1]] == parts;
  }

  lemma NamedParts(e: Expr)
    requires Named(e)
    ensures IsName(e.name) && forall a | a in e.args :: Named(a)
  {
  }

  lemma ClosedIsBalanced(s: string)
    requires Closed(s)
    ensures Balanced(s)
  {
  }

  // ----- printing what was parsed

  /** A parenthesis that closes down to depth 0 is the last character. */
  ghost predicate EndsAtClose(s: string) {
    forall k | 0 <= k < |s| - 1 && s[k] == ')' :: Depth(s[..k + 1]) > 0
  }

  ghost predicate NoSpaces(s: string) {
    forall k | 0 <= k < |s| :: !IsSpace(s[k])
  }

  /** The text that the state stands for: the pushed children, each with its comma, and the current one. */
  function TextOf(st: State): string {
    if st.depth <= 0 then Assemble(st.parent, st.childs)
    else st.parent + "(" + (if st.childs == [] then "" else Join(st.childs) + ",") + st.current
  }

  lemma AdvanceText(st: State, c: char)
    requires !IsSpace(c) && st.depth >= 0 && Advance(st, c).depth >= 0
    requires st.depth == 0 ==> st.childs == [] && st.current == ""
    ensures TextOf(Advance(st, c)) == TextOf(st) + [c]
  {
    hide Join;
    JoinMore(st.childs, st.current);
    if c == ')' && st.depth == 1 {
      AssembleMore(st.parent, st.childs, st.current);
    }
  }

  lemma AssembleMore(parent: string, childs: seq<string>, current: string)
    ensures Assemble(parent, childs + [current])
         == parent + "(" + (if childs == [] then "" else Join(childs) + ",") + current + ")"
  {
    hide Join;
    JoinMore(childs, current);
  }

  /** Nothing has been read after a closing parenthesis at depth 0. */
  lemma {:induction false} TextIsKept(s: string, k: nat)
    requires NeverNegative(s) && NoSpaces(s) && EndsAtClose(s) && k <= |s|
    ensures TextOf(Run(START, s[..k])) == s[..k]
    ensures k < |s| && Depth(s[..k]) == 0 ==> Run(START, s[..k]).childs == [] && Run(START, s[..k]).current == ""
  {
    hide TextOf;
    if k == 0 {
      assert s[..0] == [];
      StartText();
    } else {
      TextIsKept(s, k - 1);
      PrefixStep(s, k - 1);
      RunCounts(s[..k - 1]);
      var st, c := Run(START, s[..k - 1]), s[k - 1];
      AdvanceText(st, c);
      Extended(s[..k - 1], c);
    }
  }

  lemma StartText()
    ensures TextOf(Run(START, [])) == []
  {
  }

  lemma AssembledEndsAtClose(parent: string, childs: seq<string>)
    requires NoParentheses(parent) && forall c | c in childs :: Balanced(c)
    ensures EndsAtClose(Assemble(parent, childs))
  {
    hide Depth, NeverNegative, Join, Balanced;
    if childs != [] {
      JoinIsBalanced(childs);
      Bracketed(parent, Join(childs));
      var s := Assemble(parent, childs);
      assert s == parent + "(" + Join(childs) + ")";
    }
  }

  lemma {:induction false} JoinIsBalanced(parts: seq<string>)
    requires parts != [] && forall p | p in parts :: Balanced(p)
    ensures Balanced(Join(parts))
  {
    hide Depth;
    var n := |parts| - 1;
    assert parts[n] in parts;
    if n > 0 {
      var init := parts[..n];
      JoinIsBalanced(init);
      Extended(Join(init), ',');
      NeverNegativeJoin(Join(init) + ",", parts[n]);
      DepthJoin(Join(init) + ",", parts[n]);
    }
  }

  /** Printing what was parsed gives the text back if and only if nothing follows the closing parenthesis: the parser
      would take it for more of the name, and of the last child. */
  lemma PrintInvertsParseIff(s: string)
    requires Balanced(s) && NoSpaces(s)
    ensures Assemble(Parse(s).parent, Parse(s).childs) == s <==> EndsAtClose(s)
  {
    hide Assemble, Depth, NeverNegative, Sound;
    assert s[..|s|] == s;
    if EndsAtClose(s) {
      TextIsKept(s, |s|);
      RunCounts(s);
    }
    RunIsSound(s, |s|);
    SoundChildren(Run(START, s), |s|);
    AssembledEndsAtClose(Parse(s).parent, Parse(s).childs);
  }

  /** What follows the closing parenthesis becomes a part of the name. */
  lemma NameAfterClose()
    ensures Parse("a(b)c") == Parsed("ac", ["b"]) && Assemble("ac", ["b"]) == "ac(b)"
  {
    hide Advance, Depth, NeverNegative;
    var s := "a(b)c";
    Advances();
    ReadOne(s, 0, START, State(0, "a", [], ""));
    ReadOne(s, 1, State(0, "a", [], ""), State(1, "a", [], ""));
    ReadOne(s, 2, State(1, "a", [], ""), State(1, "a", [], "b"));
    ReadOne(s, 3, State(1, "a", [], "b"), State(0, "a", ["b"], "b"));
    ReadOne(s, 4, State(0, "a", ["b"], "b"), State(0, "ac", ["b"], "b"));
    assert s[..5] == s;
    NeverNegativeFive(s);
  }

  lemma Advances()
    ensures Advance(START, 'a') == State(0, "a", [], "")
    ensures Advance(State(0, "a", [], ""), '(') == State(1, "a", [], "")
    ensures Advance(State(1, "a", [], ""), 'b') == State(1, "a", [], "b")
    ensures Advance(State(1, "a", [], "b"), ')') == State(0, "a", ["b"], "b")
    ensures Advance(State(0, "a", ["b"], "b"), 'c') == State(0, "ac", ["b"], "b")
  {
  }

  lemma NeverNegativeFive(s: string)
    requires |s| == 5 && Depth(s[..1]) >= 0 && Depth(s[..2]) >= 0 && Depth(s[..3]) >= 0 && Depth(s[..4]) >= 0
    requires Depth(s) >= 0
    ensures NeverNegative(s)
  {
    hide Depth;
    Empty();
    assert s[..0] == "" && s[..5] == s;
    forall k | 0 <= k <= 5 ensures Depth(s[..k]) >= 0 {
      assert k == 0 || k == 1 || k == 2 || k == 3 || k == 4 || k == 5;
    }
  }

  lemma ReadOne(s: string, k: nat, st: State, st': State)
    requires k < |s| && (if k == 0 then st == START else Run(START, s[..k]) == st) && Advance(st, s[k]) == st'
    ensures Run(START, s[..k + 1]) == st' && Depth(s[..k + 1]) == st'.depth
  {
    hide Advance, Depth;
    assert k == 0 ==> s[..k] == "";
    PrefixStep(s, k);
  }

  // ----- spaces

  function WithoutSpaces(s: string): string {
    if s == [] then [] else WithoutSpaces(s[..|s| - 1]) + if IsSpace(s[|s| - 1]) then [] else [s[|s| - 1]]
  }

  lemma {:induction false} SpacesDoNotCount(s: string)
    ensures Run(START, WithoutSpaces(s)) == Run(START, s) && Depth(WithoutSpaces(s)) == Depth(s)
    ensures NeverNegative(WithoutSpaces(s)) <==> NeverNegative(s)
  {
    hide Advance, Depth, NeverNegative;
    if s != [] {
      var init, c := s[..|s| - 1], s[|s| - 1];
      SpacesDoNotCount(init);
      assert s == init + [c];
      RunStep(START, init, c);
      Extended(init, c);
      if IsSpace(c) {
        SpaceStays(Run(START, init), c);
        assert WithoutSpaces(s) == WithoutSpaces(init);
        if NeverNegative(init) {
          assert Depth(init) >= 0 by { NonnegativeDepth(init); }
        }
      } else {
        RunStep(START, WithoutSpaces(init), c);
        Extended(WithoutSpaces(init), c);
      }
    }
  }

  lemma NonnegativeDepth(s: string)
    requires NeverNegative(s)
    ensures Depth(s) >= 0
  {
    assert s[..|s|] == s;
  }

  /** Spaces make no difference. */
  lemma ParseIgnoresSpaces(s: string)
    ensures Parse(s) == Parse(WithoutSpaces(s))
  {
    SpacesDoNotCount(s);
  }
}
