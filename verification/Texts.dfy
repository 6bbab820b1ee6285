/** Comma-separated texts, and taking them apart (split in lib/bayesopt/utils/parser.cpp). */
module Texts {

  function Join(parts: seq<string>): string {
    if parts == [] then ""
    else if |parts| == 1 then parts[0]
    else Join(parts[..|parts| - 1]) + "," + parts[|parts| - 1]
  }

  lemma JoinMore(parts: seq<string>, p: string)
    ensures Join(parts + [p]) == if parts == [] then p else Join(parts) + "," + p
  {
    assert (parts + [p])[..|parts|] == parts;
  }

  /** The place of the first c in s, or |s|. */
  function FirstOf(s: string, c: char): (k: nat)
    ensures k <= |s| && c !in s[..k] && (k < |s| ==> s[k] == c)
  {
    if s == "" || s[0] == c then 0
    else
      var k := 1 + FirstOf(s[1..], c);
      assert s[..k] == [s[0]] + s[1..][..k - 1];
      k
  }

  lemma FirstOfIs(s: string, c: char, k: nat)
    requires k <= |s| && c !in s[..k] && (k < |s| ==> s[k] == c)
    ensures FirstOf(s, c) == k
  {
    var j := FirstOf(s, c);
    forall m | 0 <= m < k ensures s[m] != c {
      assert s[m] in s[..k];
    }
    forall m | 0 <= m < j ensures s[m] != c {
      assert s[m] in s[..j];
    }
  }

  /** The items that getline reads: nothing follows a delimiter at the end. */
  function Items(s: string, delim: char): seq<string> {
    if s == "" then []
    else
      var k := FirstOf(s, delim);
      if k == |s| then [s] else [s[..k]] + Items(s[k + 1..], delim)
  }

  /** Reads the next item, and reports whether there is one. */
  method GetLine(s: string, delim: char, pos: nat) returns (ok: bool, item: string, pos': nat)
    requires pos <= |s|
    ensures ok <==> pos < |s|
    ensures ok ==> pos < pos' <= |s| && Items(s[pos..], delim) == [item] + Items(s[pos'..], delim)
    ensures !ok ==> item == "" && pos' == pos
  {
    hide Items;
    item, pos' := "", pos;
    ok := pos < |s|;
    while pos' < |s| && s[pos'] != delim
      invariant pos <= pos' <= |s| && item == s[pos..pos'] && delim !in item
    {
      item := item + [s[pos']];
      pos' := pos' + 1;
    }
    if ok {
      ItemAt(s, delim, pos, pos');
    }
    if pos' < |s| {
      pos' := pos' + 1;
    }
  }

  lemma ItemAt(s: string, delim: char, pos: nat, end: nat)
    requires pos <= end <= |s| && pos < |s| && delim !in s[pos..end] && (end < |s| ==> s[end] == delim)
    ensures Items(s[pos..], delim) == [s[pos..end]] + Items(s[if end < |s| then end + 1 else end..], delim)
  {
    var t, k := s[pos..], end - pos;
    assert t[..k] == s[pos..end];
    FirstOfIs(t, delim, k);
    if end < |s| {
      assert t[k + 1..] == s[end + 1..];
    } else {
      assert s[end..] == "" && t == s[pos..end];
    }
  }

  lemma NoItems(s: string, delim: char)
    requires s == ""
    ensures Items(s, delim) == []
  {
  }

  method Split(input: string, delim: char, elems0: seq<string>) returns (elems: seq<string>)
    ensures elems == elems0 + Items(input, delim)
  {
    hide Items;
    elems := elems0;
    var pos := 0;
    assert input[0..] == input;
    assert Items(input[|input|..], delim) == [] by { NoItems(input[|input|..], delim); }
    var ok, item, next := GetLine(input, delim, pos);
    while ok
      invariant pos <= |input| && elems + Items(input[pos..], delim) == elems0 + Items(input, delim)
      invariant ok <==> pos < |input|
      invariant ok ==> pos < next <= |input| && Items(input[pos..], delim) == [item] + Items(input[next..], delim)
      decreases |input| - pos
    {
      elems := elems + [item];
      pos := next;
      ok, item, next := GetLine(input, delim, pos);
    }
  }

  /** No part has a comma. */
  predicate CommaFree(parts: seq<string>) {
    forall p | p in parts :: ',' !in p
  }

  /** A comma starts a new item. */
  lemma {:induction false} ItemsAfterComma(s: string, x: string)
    ensures Items(s + "," + x, ',') == Items(s + ",", ',') + Items(x, ',')
    decreases |s|
  {
    hide Items;
    var k := FirstOf(s, ',');
    if k < |s| {
      var rest := s[k + 1..];
      Regroup(s, k, x);
      FirstItem(s[..k], rest + "," + x);
      FirstItem(s[..k], rest + ",");
      ItemsAfterComma(rest, x);
      calc {
        Items(s + "," + x, ',');
        [s[..k]] + (Items(rest + ",", ',') + Items(x, ','));
        ([s[..k]] + Items(rest + ",", ',')) + Items(x, ',');
        Items(s + ",", ',') + Items(x, ',');
      }
    } else {
      FirstItem(s, x);
      OnlyItem(s);
    }
  }

  lemma Regroup(s: string, k: nat, x: string)
    requires k < |s| && s[k] == ','
    ensures s + "," + x == s[..k] + "," + (s[k + 1..] + "," + x)
    ensures s + "," == s[..k] + "," + (s[k + 1..] + ",")
  {
    assert s == s[..k] + [','] + s[k + 1..];
  }

  lemma FirstItem(t: string, x: string)
    requires ',' !in t
    ensures Items(t + "," + x, ',') == [t] + Items(x, ',')
  {
    var all := t + "," + x;
    assert all[..|t|] == t && all[|t| + 1..] == x;
    FirstOfIs(all, ',', |t|);
  }

  lemma OnlyItem(t: string)
    requires ',' !in t
    ensures Items(t, ',') == (if t == "" then [] else [t]) && Items(t + ",", ',') == [t]
  {
    assert t[..|t|] == t;
    FirstOfIs(t, ',', |t|);
    FirstItem(t, "");
    assert t + "," + "" == t + ",";
  }

  /** The items of a text that ends with a comma are all parts. */
  lemma {:induction false} ItemsOfJoinComma(parts: seq<string>)
    requires parts != [] && CommaFree(parts)
    ensures Items(Join(parts) + ",", ',') == parts
  {
    hide Items, Join, CommaFree;
    var n := |parts| - 1;
    var init, last := parts[..n], parts[n];
    assert parts == init + [last];
    CommaFreeParts(parts);
    JoinMore(init, last);
    OnlyItem(last);
    if n > 0 {
      ItemsOfJoinComma(init);
      ItemsAfterComma(Join(init), last + ",");
      assert Join(parts) + "," == Join(init) + "," + (last + ",");
    }
  }

  /** What becomes of a joined list: all parts come back, except for an empty last one. */
  lemma ItemsOfJoin(parts: seq<string>)
    requires CommaFree(parts)
    ensures Items(Join(parts), ',')
         == if parts != [] && parts[|parts| - 1] == "" then parts[..|parts| - 1] else parts
  {
    hide Items, Join, CommaFree;
    if parts == [] {
      NothingJoined();
    } else {
      var n := |parts| - 1;
      CommaFreeParts(parts);
      assert parts == parts[..n] + [parts[n]];
      ItemsOfJoinMore(parts[..n], parts[n]);
    }
  }

  lemma CommaFreeParts(parts: seq<string>)
    requires parts != [] && CommaFree(parts)
    ensures CommaFree(parts[..|parts| - 1]) && ',' !in parts[|parts| - 1]
  {
    assert parts[|parts| - 1] in parts;
  }

  lemma NothingJoined()
    ensures Join([]) == "" && Items(Join([]), ',') == []
  {
  }

  lemma ItemsOfJoinMore(init: seq<string>, last: string)
    requires CommaFree(init) && ',' !in last
    ensures Items(Join(init + [last]), ',') == init + if last == "" then [] else [last]
  {
    hide Items, Join;
    JoinMore(init, last);
    OnlyItem(last);
    if init != [] {
      ItemsOfJoinComma(init);
      ItemsAfterComma(Join(init), last);
    }
  }

  /** Splitting inverts joining if and only if the last part, if there is one, is not empty. */
  lemma SplitInvertsJoinIff(parts: seq<string>)
    requires CommaFree(parts)
    ensures Items(Join(parts), ',') == parts <==> parts == [] || parts[|parts| - 1] != ""
  {
    hide Items, Join;
    ItemsOfJoin(parts);
  }
}
