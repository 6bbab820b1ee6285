/** Parsing expressions of the form Parent(Child1, ..., ChildN) (the vector overload of parseExpresion in
    lib/bayesopt/utils/parser.cpp). */
module ExpressionParser {

  datatype Parsed = Parsed(parent: string, childs: seq<string>) | Malformed

  /** What extracting a character from a stream skips: the space, and the control characters from the tab to the
      carriage return. */
  predicate IsSpace(c: char): (r: bool)
    ensures r <==> c as int == 32 || 9 <= c as int <= 13
  {
    c == ' ' || c == '\t' || c == '\n' || c == '\r' || c == '\U{0B}' || c == '\U{0C}'
  }

  // ----- parentheses

  /** Opened minus closed parentheses. */
  function Depth(s: string): int {
    if s == [] then 0
    else Depth(s[..|s| - 1]) + if s[|s| - 1] == '(' then 1 else if s[|s| - 1] == ')' then -1 else 0
  }

  /** No prefix closes more than it opens. */
  ghost predicate NeverNegative(s: string) {
    forall k | 0 <= k <= |s| :: Depth(s[..k]) >= 0
  }

  ghost predicate Balanced(s: string) {
    NeverNegative(s) && Depth(s) == 0
  }

  lemma {:induction false} DepthJoin(a: string, b: string)
    ensures Depth(a + b) == Depth(a) + Depth(b)
  {
    if b == [] {
      assert a + b == a;
    } else {
      assert (a + b)[..|a + b| - 1] == a + b[..|b| - 1];
      DepthJoin(a, b[..|b| - 1]);
    }
  }

  lemma NeverNegativeJoin(a: string, b: string)
    requires NeverNegative(a) && forall k | 0 <= k <= |b| :: Depth(a) + Depth(b[..k]) >= 0
    ensures NeverNegative(a + b)
  {
    forall k | 0 <= k <= |a + b| ensures Depth((a + b)[..k]) >= 0 {
      if k <= |a| {
        assert (a + b)[..k] == a[..k];
      } else {
        assert (a + b)[..k] == a + b[..k - |a|];
        DepthJoin(a, b[..k - |a|]);
      }
    }
  }

  lemma DepthOne(c: char)
    ensures Depth([c]) == if c == '(' then 1 else if c == ')' then -1 else 0
  {
    assert [c][..0] == [];
  }

  /** One more character. */
  lemma Extended(s: string, c: char)
    ensures Depth(s + [c]) == Depth(s) + if c == '(' then 1 else if c == ')' then -1 else 0
    ensures NeverNegative(s + [c]) <==> NeverNegative(s) && Depth(s + [c]) >= 0
  {
    DepthJoin(s, [c]);
    DepthOne(c);
    assert (s + [c])[..|s| + 1] == s + [c];
    forall k | 0 <= k <= |s| ensures (s + [c])[..k] == s[..k] {
    }
    if NeverNegative(s + [c]) {
      forall k | 0 <= k <= |s| ensures Depth(s[..k]) >= 0 {
        assert Depth((s + [c])[..k]) >= 0;
      }
    }
  }

  // ----- the parser

  /** The depth i, the parent os, the children pushed, and os1. */
  datatype State = State(depth: int, parent: string, childs: seq<string>, current: string)

  /** One round of the loop, as long as the depth is not negative. */
  function Advance(st: State, c: char): State {
    if IsSpace(c) then st
    else if c == '(' then
      st.(depth := st.depth + 1, current := if st.depth + 1 > 1 then st.current + [c] else st.current)
    else if c == ')' then
      if st.depth - 1 == 0 then st.(depth := 0, childs := st.childs + [st.current])
      else st.(depth := st.depth - 1, current := st.current + [c])
    else if st.depth == 1 && c == ',' then st.(childs := st.childs + [st.current], current := "")
    else if st.depth == 0 then st.(parent := st.parent + [c])
    else st.(current := st.current + [c])
  }

  function Run(st: State, s: string): State {
    if s == [] then st else Advance(Run(st, s[..|s| - 1]), s[|s| - 1])
  }

  const START := State(0, "", [], "")

  ghost function Parse(s: string): Parsed {
    if Balanced(s) then Parsed(Run(START, s).parent, Run(START, s).childs) else Malformed
  }

  lemma RunStep(st: State, s: string, c: char)
    ensures Run(st, s + [c]) == Advance(Run(st, s), c)
  {
    assert (s + [c])[..|s|] == s;
  }

  lemma {:induction false} RunJoin(st: State, a: string, b: string)
    ensures Run(st, a + b) == Run(Run(st, a), b)
  {
    hide Advance;
    if b == [] {
      assert a + b == a;
    } else {
      RunJoin(st, a, b[..|b| - 1]);
      assert (a + b)[..|a + b| - 1] == a + b[..|b| - 1];
    }
  }

  /** The parser counts the depth. */
  lemma {:induction false} RunCounts(s: string)
    ensures Run(START, s).depth == Depth(s)
  {
    if s != [] {
      RunCounts(s[..|s| - 1]);
      assert s == s[..|s| - 1] + [s[|s| - 1]];
    }
  }

  lemma PrefixStep(s: string, k: nat)
    requires k < |s|
    ensures s[..k + 1] == s[..k] + [s[k]] && Run(START, s[..k + 1]) == Advance(Run(START, s[..k]), s[k])
    ensures Run(START, s[..k + 1]).depth == Depth(s[..k + 1])
  {
    assert s[..k + 1] == s[..k] + [s[k]];
    RunStep(START, s[..k], s[k]);
    RunCounts(s[..k + 1]);
  }

  /** A closing parenthesis too many cannot be made good. */
  lemma NegativeStays(s: string, k: nat)
    requires k <= |s| && Depth(s[..k]) < 0
    ensures !Balanced(s)
  {
  }

  lemma {:induction false} PrefixesCount(s: string, k: nat)
    requires k < |s| && NeverNegative(s[..k]) && (IsSpace(s[k]) || Depth(s[..k + 1]) >= 0)
    ensures NeverNegative(s[..k + 1])
  {
    assert s[..k + 1] == s[..k] + [s[k]];
    assert s[..k] == s[..k][..k];
    Extended(s[..k], s[k]);
  }

  method ParseExpression(input: string) returns (r: Parsed)
    ensures r == Parse(input)
  {
    hide Advance, Depth;
    var os, os1, childs := "", "", [];
    var i := 0;
    ghost var st := START;
    Begins(input);
    for k := 0 to |input|
      invariant st == Run(START, input[..k]) && st == State(i, os, childs, os1) && i == Depth(input[..k])
      invariant i >= 0 ==> NeverNegative(input[..k])
      invariant i < 0 ==> !Balanced(input)
    {
      var c := input[k];
      PrefixStep(input, k);
      if !IsSpace(c) {
        if i < 0 {
          return Malformed;
        }
        Advances(st, c);
        if c == '(' {
          i := i + 1;
          if i > 1 {
            os1 := os1 + [c];
          }
        } else if c == ')' && i - 1 == 0 {
          i := i - 1;
          childs := childs + [os1];
        } else {
          if c == ')' {
            i := i - 1;
          }
          if i == 1 && c == ',' {
            childs := childs + [os1];
            os1 := "";
          } else if i == 0 {
            os := os + [c];
          } else {
            os1 := os1 + [c];
          }
        }
      } else {
        SpaceStays(st, c);
      }
      if i >= 0 {
        PrefixesCount(input, k);
      } else {
        NegativeStays(input, k + 1);
      }
      st := Run(START, input[..k + 1]);
    }
    assert input[..|input|] == input;
    if i != 0 {
      return Malformed;
    }
    r := Parsed(os, childs);
  }

  lemma Begins(input: string)
    ensures input[..0] == [] && Run(START, input[..0]) == START && Depth(input[..0]) == 0 && NeverNegative(input[..0])
  {
  }

  lemma SpaceStays(st: State, c: char)
    requires IsSpace(c)
    ensures Advance(st, c) == st
  {
  }

  lemma Advances(st: State, c: char)
    requires !IsSpace(c)
    ensures Advance(st, c) ==
      if c == '(' then
        State(st.depth + 1, st.parent, st.childs, if st.depth + 1 > 1 then st.current + [c] else st.current)
      else if c == ')' && st.depth - 1 == 0 then State(0, st.parent, st.childs + [st.current], st.current)
      else if c == ')' then State(st.depth - 1, st.parent, st.childs, st.current + [c])
      else if st.depth == 1 && c == ',' then State(st.depth, st.parent, st.childs + [st.current], "")
      else if st.depth == 0 then State(st.depth, st.parent + [c], st.childs, st.current)
      else State(st.depth, st.parent, st.childs, st.current + [c])
  {
  }
}
