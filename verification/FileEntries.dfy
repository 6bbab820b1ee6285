/** What is written to the store can be read (FileParser::write and movePointer in
    lib/bayesopt/utils/fileparser.cpp): exactly when, for entries of any texts, line breaks included. */
module FileEntries {
  import opened Texts
  import opened FileStore

  type Entries = seq<(string, string)>

  /** The lines of the file after the entries have been written. */
  function FileLines(es: Entries): seq<string> {
    if es == [] then []
    else FileLines(es[..|es| - 1]) + WrittenLines(LineOf(es[|es| - 1].0, es[|es| - 1].1))
  }

  lemma FileLinesMore(es: Entries, e: (string, string))
    ensures FileLines(es + [e]) == FileLines(es) + WrittenLines(LineOf(e.0, e.1))
  {
    assert (es + [e])[..|es|] == es;
  }

  /** The answer that a query for a name deserves: the value that was written under it, or nothing if no line has it. */
  ghost predicate Answers(es: Entries, name: string, value: string) {
    && (forall i | 0 <= i < |es| && es[i].0 == name :: value == es[i].1)
    && (!HasLine(FileLines(es), name + "=") ==> value == "")
  }

  ghost predicate AllAnswers(es: Entries, names: seq<string>, values: seq<string>)
    requires |values| == |names|
  {
    forall i | 0 <= i < |names| :: Answers(es, names[i], values[i])
  }

  // ----- the lines that reads can end at

  /** The text up to the last equals sign, or nothing. */
  function LongestKey(line: string): (key: string)
    ensures StartsWith(line, key) && (key != "" ==> key[|key| - 1] == '=')
  {
    if line == "" || line[|line| - 1] == '=' then line else LongestKey(line[..|line| - 1])
  }

  lemma {:induction false} KeysAreShorter(line: string, name: string)
    requires StartsWith(line, name + "=")
    ensures StartsWith(LongestKey(line), name + "=") && LongestKey(line) != ""
  {
    var key := name + "=";
    assert line[|name|] == key[|name|] == '=';
    if line[|line| - 1] != '=' {
      KeysAreShorter(line[..|line| - 1], name);
    }
  }

  /** Some reads end at line m: it has an equals sign, and after every earlier line that starts with its longest key
      there is another such line before m. */
  ghost predicate Reachable(lines: seq<string>, m: nat)
    requires m < |lines|
    decreases m
  {
    var key := LongestKey(lines[m]);
    && key != ""
    && forall k: nat | k < m && StartsWith(lines[k], key) :: exists q: nat :: k < q < m && Reachable(lines, q)
  }

  /** The cursor is at the start or at a reachable line. */
  ghost predicate OnLine(lines: seq<string>, c: Cursor) {
    c == START
    || (0 < c.position <= |lines| && c.line == lines[c.position - 1] && Reachable(lines, c.position - 1))
  }

  /** The first line with a key after a reachable one is reachable. */
  lemma SearchReaches(lines: seq<string>, name: string, p: nat, m: nat)
    requires p <= m < |lines| && StartsWith(lines[m], name + "=")
    requires forall k | p <= k < m :: !StartsWith(lines[k], name + "=")
    requires p == 0 || (Reachable(lines, p - 1) && !StartsWith(lines[p - 1], name + "="))
    ensures Reachable(lines, m)
  {
    KeysAreShorter(lines[m], name);
    var key := LongestKey(lines[m]);
    forall k: nat | k < m && StartsWith(lines[k], key) ensures exists q: nat :: k < q < m && Reachable(lines, q) {
      PrefixOfPrefix(lines[k], key, name + "=");
      assert k < p - 1;
    }
  }

  lemma PrefixOfPrefix(line: string, key: string, short: string)
    requires StartsWith(line, key) && StartsWith(key, short)
    ensures StartsWith(line, short)
  {
  }

  /** A read ends at a reachable line of the name, or at the start if there is none. */
  lemma ReadEnds(lines: seq<string>, c: Cursor, name: string)
    requires OnLine(lines, c)
    ensures c.position <= |lines|
    ensures var r := ReadNext(lines, c, name);
      && OnLine(lines, r.1)
      && (if HasLine(lines, name + "=") then StartsWith(r.1.line, name + "=") && r.1.line == LineOf(name, r.0)
        else r.0 == "")
  {
    hide Reachable;
    var key, r := name + "=", ReadNext(lines, c, name);
    assert |key| > 0;
    if StartsWith(c.line, key) {
      assert c.line == key + c.line[|key|..];
      assert lines[c.position - 1] == c.line;
    } else {
      var k := Sought(lines, c.position, key);
      if k < |lines| {
        assert lines[k] == key + lines[k][|key|..];
        if FirstLine(lines, c.position, key) < |lines| {
          SearchReaches(lines, name, c.position, k);
        } else {
          SearchReaches(lines, name, 0, k);
        }
      }
    }
  }

  function CursorAfter(lines: seq<string>, c: Cursor, names: seq<string>): (c': Cursor)
    requires c.position <= |lines|
    ensures c'.position <= |lines|
    decreases |names|
  {
    if names == [] then c else ReadNext(lines, CursorAfter(lines, c, names[..|names| - 1]), names[|names| - 1]).1
  }

  lemma {:induction false} ReadOneMore(lines: seq<string>, c: Cursor, names: seq<string>, name: string)
    requires c.position <= |lines|
    ensures ReadAll(lines, c, names + [name])
         == ReadAll(lines, c, names) + [ReadNext(lines, CursorAfter(lines, c, names), name).0]
    decreases |names|
  {
    hide ReadNext;
    if names == [] {
      assert ([] + [name])[1..] == [];
    } else {
      var c' := ReadNext(lines, c, names[0]).1;
      ReadOneMore(lines, c', names[1..], name);
      CursorFirst(lines, c, names);
      assert (names + [name])[1..] == names[1..] + [name];
    }
  }

  lemma {:induction false} CursorFirst(lines: seq<string>, c: Cursor, names: seq<string>)
    requires c.position <= |lines| && names != []
    ensures CursorAfter(lines, c, names) == CursorAfter(lines, ReadNext(lines, c, names[0]).1, names[1..])
    decreases |names|
  {
    hide ReadNext;
    var n := |names| - 1;
    if n == 0 {
      assert names[..0] == [] && names[1..] == [];
      assert CursorAfter(lines, c, names[..0]) == c;
    } else {
      CursorFirst(lines, c, names[..n]);
      assert names[..n][1..] == names[1..][..n - 1];
    }
  }

  /** There are reads that end at a reachable line. */
  lemma {:induction false} Visit(lines: seq<string>, m: nat) returns (names: seq<string>)
    requires m < |lines| && Reachable(lines, m)
    ensures CursorAfter(lines, START, names) == Cursor(m + 1, lines[m])
    decreases m
  {
    var key := LongestKey(lines[m]);
    var name := key[..|key| - 1];
    assert key == name + "=";
    if exists k: nat :: k < m && StartsWith(lines[k], key) {
      var k := LastBefore(lines, m, key);
      var q: nat :| k < q < m && Reachable(lines, q);
      names := Visit(lines, q);
      VisitNext(lines, Cursor(q + 1, lines[q]), m, name);
      assert (names + [name])[..|names|] == names;
      names := names + [name];
    } else {
      VisitNext(lines, START, m, name);
      names := [name];
      assert CursorAfter(lines, START, names[..0]) == START;
    }
  }

  lemma VisitNext(lines: seq<string>, c: Cursor, m: nat, name: string)
    requires c.position <= m < |lines| && StartsWith(lines[m], name + "=") && !StartsWith(c.line, name + "=")
    requires forall k | c.position <= k < m :: !StartsWith(lines[k], name + "=")
    ensures ReadNext(lines, c, name).1 == Cursor(m + 1, lines[m])
  {
  }

  lemma {:induction false} LastBefore(lines: seq<string>, m: nat, key: string) returns (k: nat)
    requires m <= |lines| && exists k: nat :: k < m && StartsWith(lines[k], key)
    ensures k < m && StartsWith(lines[k], key) && forall j | k < j < m :: !StartsWith(lines[j], key)
  {
    if StartsWith(lines[m - 1], key) {
      k := m - 1;
    } else {
      k := LastBefore(lines, m - 1, key);
    }
  }

  // ----- when every read is answered rightly

  /** Every line at which a read of the name can end is that of the entry; without any such line, its value is empty. */
  ghost predicate EntryRetrievable(lines: seq<string>, name: string, value: string) {
    if HasLine(lines, name + "=") then
      forall m: nat | m < |lines| && StartsWith(lines[m], name + "=") && Reachable(lines, m) ::
        lines[m] == LineOf(name, value)
    else value == ""
  }

  ghost predicate Retrievable(es: Entries) {
    forall i | 0 <= i < |es| :: EntryRetrievable(FileLines(es), es[i].0, es[i].1)
  }

  lemma RetrievableAnswer(es: Entries, c: Cursor, name: string)
    requires Retrievable(es) && OnLine(FileLines(es), c)
    ensures c.position <= |FileLines(es)| && Answers(es, name, ReadNext(FileLines(es), c, name).0)
  {
    hide ReadNext, HasLine, Reachable, FileLines;
    var ls := FileLines(es);
    ReadEnds(ls, c, name);
    var r := ReadNext(ls, c, name);
    forall i | 0 <= i < |es| && es[i].0 == name ensures r.0 == es[i].1 {
      assert EntryRetrievable(ls, name, es[i].1);
      if HasLine(ls, name + "=") {
        assert StartsWith(ls[r.1.position - 1], name + "=");
        SameRest(name, r.0, es[i].1);
      }
    }
  }

  lemma SameRest(name: string, v: string, w: string)
    ensures LineOf(name, v) == LineOf(name, w) ==> v == w
  {
    assert LineOf(name, v)[|name| + 1..] == v && LineOf(name, w)[|name| + 1..] == w;
  }

  lemma {:induction false} RetrievableAnswers(es: Entries, c: Cursor, names: seq<string>)
    requires Retrievable(es) && OnLine(FileLines(es), c)
    ensures c.position <= |FileLines(es)| && AllAnswers(es, names, ReadAll(FileLines(es), c, names))
    decreases |names|
  {
    hide FileLines, Retrievable, ReadNext, Answers, OnLine;
    PositionFits(FileLines(es), c);
    if names != [] {
      RetrievableAnswer(es, c, names[0]);
      ReadEnds(FileLines(es), c, names[0]);
      RetrievableAnswers(es, ReadNext(FileLines(es), c, names[0]).1, names[1..]);
    }
  }

  lemma PositionFits(lines: seq<string>, c: Cursor)
    requires OnLine(lines, c)
    ensures c.position <= |lines|
  {
  }

  lemma ReadHere(lines: seq<string>, c: Cursor, name: string)
    requires c.position <= |lines|
    ensures StartsWith(c.line, name + "=") ==> c.line == LineOf(name, ReadNext(lines, c, name).0)
    ensures c == START && !HasLine(lines, name + "=") ==> ReadNext(lines, c, name).0 == ""
  {
    hide FirstLine;
    var key := name + "=";
    assert StartsWith(c.line, key) ==> c.line == key + c.line[|key|..];
  }

  lemma LastIsWrong(es: Entries, names: seq<string>, i: nat)
    requires i < |es|
    requires ReadNext(FileLines(es), CursorAfter(FileLines(es), START, names), es[i].0).0 != es[i].1
    ensures !AllAnswers(es, names + [es[i].0], ReadAll(FileLines(es), START, names + [es[i].0]))
  {
    hide ReadNext, ReadAll, FileLines, CursorAfter, HasLine;
    var ls, name := FileLines(es), es[i].0;
    ReadOneMore(ls, START, names, name);
    var value := ReadNext(ls, CursorAfter(ls, START, names), name).0;
    assert !Answers(es, name, value);
    assert ReadAll(ls, START, names + [name])[|names|] == value && (names + [name])[|names|] == name;
  }

  /** An entry that is not retrievable is answered wrongly after some reads. */
  lemma NotRetrievable(es: Entries, i: nat) returns (names: seq<string>)
    requires i < |es| && !EntryRetrievable(FileLines(es), es[i].0, es[i].1)
    ensures !AllAnswers(es, names, ReadAll(FileLines(es), START, names))
  {
    hide Reachable, FileLines, ReadNext, ReadAll, AllAnswers, HasLine, LineOf;
    var ls, name := FileLines(es), es[i].0;
    names := [];
    if HasLine(ls, name + "=") {
      var m: nat :| m < |ls| && StartsWith(ls[m], name + "=") && Reachable(ls, m) && ls[m] != LineOf(name, es[i].1);
      names := Visit(ls, m);
    }
    ReadHere(ls, CursorAfter(ls, START, names), name);
    LastIsWrong(es, names, i);
    names := names + [name];
  }

  /** Every list of reads is answered rightly if and only if the entries are retrievable. */
  lemma AlwaysAnsweredIff(es: Entries)
    ensures (forall names: seq<string> :: AllAnswers(es, names, ReadAll(FileLines(es), START, names)))
      <==> Retrievable(es)
  {
    hide ReadAll, AllAnswers, LineOf, EntryRetrievable, FileLines;
    if Retrievable(es) {
      forall names: seq<string> ensures AllAnswers(es, names, ReadAll(FileLines(es), START, names)) {
        RetrievableAnswers(es, START, names);
      }
    } else {
      var i :| 0 <= i < |es| && !EntryRetrievable(FileLines(es), es[i].0, es[i].1);
      var names := NotRetrievable(es, i);
    }
  }

  /** Writes any entries and then reads any names, in whatever order. */
  method WriteThenRead(file: FileParser, es: Entries, names: seq<string>) returns (values: seq<string>)
    requires file.Valid()
    modifies file
    ensures file.Valid() && file.lines == FileLines(es)
    ensures values == ReadAll(FileLines(es), START, names)
    ensures Retrievable(es) ==> AllAnswers(es, names, values)
  {
    hide LineOf, WrittenLines, Retrievable, ReadNext, ReadAll, AllAnswers, FileLines;
    file.OpenOutput();
    assert FileLines(es[..0]) == [] by { NothingWritten(); }
    for i := 0 to |es|
      invariant file.Valid() && file.isWriting && file.lines == FileLines(es[..i])
    {
      FileLinesMore(es[..i], es[i]);
      assert es[..i] + [es[i]] == es[..i + 1];
      file.Write(es[i].0, es[i].1);
    }
    assert es[..|es|] == es;
    file.OpenInput();
    values := [];
    assert names[0..] == names;
    for i := 0 to |names|
      invariant file.Valid() && file.isReading && file.lines == FileLines(es)
      invariant values + ReadAll(FileLines(es), file.At(), names[i..]) == ReadAll(FileLines(es), START, names)
    {
      ReadAllStep(FileLines(es), file.At(), names, i);
      var value := file.Read(names[i]);
      values := values + [value];
    }
    NoReads(FileLines(es), file.At());
    if Retrievable(es) {
      RetrievableAnswers(es, START, names);
    }
  }

  lemma NothingWritten()
    ensures FileLines([]) == []
  {
  }

  lemma NoReads(lines: seq<string>, c: Cursor)
    requires c.position <= |lines|
    ensures ReadAll(lines, c, []) == []
  {
  }

  // ----- entries of one line each

  function LinesOf(es: Entries): (ls: seq<string>)
    ensures |ls| == |es|
  {
    seq(|es|, i requires 0 <= i < |es| => LineOf(es[i].0, es[i].1))
  }

  lemma KeyIsName(name: string, value: string, key: string)
    requires '=' !in name && '=' !in key && StartsWith(LineOf(name, value), key + "=")
    ensures key == name
  {
    var line := LineOf(name, value);
    assert line[..|name|] == name && line[|name|] == '=';
    assert line[..|key|] == key && line[|key|] == (key + "=")[|key|] == '=';
    FirstOfIs(line, '=', |name|);
    FirstOfIs(line, '=', |key|);
  }

  /** Each entry takes one line. */
  ghost predicate SingleLines(es: Entries) {
    forall i | 0 <= i < |es| :: '\n' !in LineOf(es[i].0, es[i].1)
  }

  /** No other line starts with the name of an entry and an equals sign. */
  ghost predicate Unambiguous(es: Entries) {
    forall i, j | 0 <= i < |es| && 0 <= j < |es| && StartsWith(LinesOf(es)[j], es[i].0 + "=") ::
      LinesOf(es)[j] == LinesOf(es)[i]
  }

  /** Distinct names without an equals sign are unambiguous. */
  lemma DistinctNamesAreUnambiguous(es: Entries)
    requires forall i | 0 <= i < |es| :: '=' !in es[i].0
    requires forall i, j | 0 <= i < j < |es| :: es[i].0 != es[j].0
    ensures Unambiguous(es)
  {
    forall i, j | 0 <= i < |es| && 0 <= j < |es| && StartsWith(LinesOf(es)[j], es[i].0 + "=")
      ensures LinesOf(es)[j] == LinesOf(es)[i]
    {
      KeyIsName(es[j].0, es[j].1, es[i].0);
    }
  }

  /** In a file of unambiguous entries, whatever line answers to a name has its value. */
  lemma EntryIsFound(es: Entries, i: nat, value: string)
    requires Unambiguous(es) && i < |es|
    ensures HasLine(LinesOf(es), es[i].0 + "=")
    ensures LineOf(es[i].0, value) in LinesOf(es) ==> value == es[i].1
  {
    var name, ls := es[i].0, LinesOf(es);
    assert StartsWith(ls[i], name + "=");
    if LineOf(name, value) in ls {
      var k :| 0 <= k < |ls| && ls[k] == LineOf(name, value);
      assert StartsWith(ls[k], name + "=");
      assert ls[k][|name| + 1..] == value && ls[i][|name| + 1..] == es[i].1;
    }
  }

  lemma {:induction false} OneLineEach(es: Entries)
    requires SingleLines(es)
    ensures FileLines(es) == LinesOf(es)
  {
    hide LineOf, WrittenLines;
    if es != [] {
      var n := |es| - 1;
      OneLineEach(es[..n]);
      OneLine(LineOf(es[n].0, es[n].1));
      assert LinesOf(es) == LinesOf(es[..n]) + [LineOf(es[n].0, es[n].1)];
    }
  }

  /** If line j starts with the name of entry i and an equals sign, and is not its line, then of reads of entry j and
      entry i, in this order, at least one is answered wrongly. */
  lemma AmbiguousMisleads(es: Entries, i: nat, j: nat)
    requires SingleLines(es) && i < |es| && j < |es|
    requires StartsWith(LinesOf(es)[j], es[i].0 + "=") && LinesOf(es)[j] != LinesOf(es)[i]
    ensures var names := [es[j].0] + [es[i].0];
      !AllAnswers(es, names, ReadAll(FileLines(es), START, names))
  {
    OneLineEach(es);
    assert StartsWith(LinesOf(es)[j], es[j].0 + "=");
    assert HasLine(LinesOf(es), es[j].0 + "=");
    hide ReadNext, ReadAll, FileLines, Reachable, HasLine, LineOf, CursorAfter, AllAnswers, StartsWith;
    var r := ReadNext(FileLines(es), START, es[j].0);
    ReadEnds(FileLines(es), START, es[j].0);
    CursorAfterOne(FileLines(es), es[j].0);
    if r.0 == es[j].1 {
      ReadHere(FileLines(es), r.1, es[i].0);
      LastIsWrong(es, [es[j].0], i);
    } else {
      WrongFirst(es, [es[j].0] + [es[i].0], j);
    }
  }

  lemma CursorAfterOne(lines: seq<string>, name: string)
    ensures CursorAfter(lines, START, [name]) == ReadNext(lines, START, name).1
  {
    assert CursorAfter(lines, START, [name][..0]) == START;
  }

  lemma WrongFirst(es: Entries, names: seq<string>, j: nat)
    requires j < |es| && names != [] && names[0] == es[j].0 && ReadNext(FileLines(es), START, names[0]).0 != es[j].1
    ensures !AllAnswers(es, names, ReadAll(FileLines(es), START, names))
  {
    hide FileLines, ReadNext, HasLine;
    var values := ReadAll(FileLines(es), START, names);
    assert !Answers(es, names[0], values[0]);
  }

  lemma TwoReads(lines: seq<string>, names: seq<string>)
    requires |names| == 2
    ensures var r := ReadNext(lines, START, names[0]);
      && ReadAll(lines, START, names) == [r.0, ReadNext(lines, r.1, names[1]).0]
      && (StartsWith(r.1.line, names[1] + "=") ==> ReadNext(lines, r.1, names[1]).0 == r.1.line[|names[1]| + 1..])
  {
    hide Sought;
    assert names[1..][1..] == [];
  }

  lemma UnambiguousEntry(es: Entries, i: nat)
    requires Unambiguous(es) && i < |es|
    ensures EntryRetrievable(LinesOf(es), es[i].0, es[i].1)
  {
    hide Reachable, LineOf;
    EntryIsFound(es, i, es[i].1);
  }

  /** Entries of one line each are retrievable if and only if they are unambiguous. */
  lemma SingleLinesIff(es: Entries)
    requires SingleLines(es)
    ensures Retrievable(es) <==> Unambiguous(es)
  {
    hide ReadAll, AllAnswers, FileLines, EntryRetrievable;
    OneLineEach(es);
    if Unambiguous(es) {
      forall i | 0 <= i < |es| ensures EntryRetrievable(FileLines(es), es[i].0, es[i].1) {
        UnambiguousEntry(es, i);
      }
    } else {
      var i, j :| 0 <= i < |es| && 0 <= j < |es| && StartsWith(LinesOf(es)[j], es[i].0 + "=")
                  && LinesOf(es)[j] != LinesOf(es)[i];
      AmbiguousMisleads(es, i, j);
      AlwaysAnsweredIff(es);
    }
  }

  /** With an equals sign in a name, one variable hides another: after a=b is read, the value of a is wrong. */
  lemma EqualsSignHides()
    ensures ReadAll(FileLines([("a", "2"), ("a=b", "1")]), START, ["a=b", "a"]) == ["1", "b=1"]
  {
    EqualsSignLines();
    hide FileLines, ReadNext;
    var ls := ["a=2", "a=b=1"];
    ReadSecond(ls);
    TwoReads(ls, ["a=b", "a"]);
    ReadHere(ls, Cursor(2, "a=b=1"), "a");
    assert LineOf("a", "b=1") == "a=b=1";
    SameRest("a", "b=1", ReadNext(ls, Cursor(2, "a=b=1"), "a").0);
  }

  lemma EqualsSignLines()
    ensures FileLines([("a", "2"), ("a=b", "1")]) == ["a=2", "a=b=1"]
  {
    var es := [("a", "2"), ("a=b", "1")];
    assert LineOf("a", "2") == "a=2" && LineOf("a=b", "1") == "a=b=1";
    assert LinesOf(es) == ["a=2", "a=b=1"];
    OneLineEach(es);
  }

  lemma ReadSecond(ls: seq<string>)
    requires ls == ["a=2", "a=b=1"]
    ensures ReadNext(ls, START, "a=b") == ("1", Cursor(2, "a=b=1"))
  {
    assert |ls[0]| == 3;
    FirstLineFrom(ls, 0, "a=b=");
    FirstLineFrom(ls, 1, "a=b=");
  }

  // ----- line breaks

  lemma {:induction false} ItemsAreWhole(s: string, delim: char, item: string)
    requires item in Items(s, delim)
    ensures delim !in item
    decreases |s|
  {
    var k := FirstOf(s, delim);
    if k < |s| && item in Items(s[k + 1..], delim) {
      ItemsAreWhole(s[k + 1..], delim, item);
    }
  }

  lemma {:induction false} ItemsAreShort(s: string, delim: char, item: string)
    requires item in Items(s, delim)
    ensures |item| <= |s| && (s[|s| - 1] == delim ==> |item| < |s|)
    decreases |s|
  {
    var k := FirstOf(s, delim);
    if k < |s| && item in Items(s[k + 1..], delim) {
      ItemsAreShort(s[k + 1..], delim, item);
    } else {
      assert k == |s| ==> s[..|s|] == s && s[|s| - 1] in s[..k];
    }
  }

  /** The lines of a text that fits a string fit. */
  lemma WrittenFits(text: string)
    ensures |text| < NPOS ==> FitStrings(WrittenLines(text))
  {
    forall line | line in WrittenLines(text) ensures |line| <= |text| {
      ItemsAreShort(text + "\n", '\n', line);
    }
  }

  /** No line of a file has a line break. */
  lemma {:induction false} LinesAreWhole(es: Entries, line: string)
    requires line in FileLines(es)
    ensures '\n' !in line
  {
    hide LineOf, Items;
    var n := |es| - 1;
    if line in FileLines(es[..n]) {
      LinesAreWhole(es[..n], line);
    } else {
      ItemsAreWhole(LineOf(es[n].0, es[n].1) + "\n", '\n', line);
    }
  }

  /** The first line that is written starts with the name, if the name has no line break. */
  lemma FirstWritten(name: string, value: string)
    requires '\n' !in name
    ensures WrittenLines(LineOf(name, value)) != [] && StartsWith(WrittenLines(LineOf(name, value))[0], name + "=")
  {
    var text := LineOf(name, value) + "\n";
    var k := FirstOf(text, '\n');
    forall j | 0 <= j <= |name| ensures text[j] != '\n' {
      assert text[j] == (name + "=")[j];
    }
    assert text[|text| - 1] == '\n' && text[..|text|] == text;
    assert text[..k][..|name| + 1] == name + "=";
  }

  lemma {:induction false} WrittenHasLine(es: Entries, i: nat)
    requires i < |es| && '\n' !in es[i].0
    ensures HasLine(FileLines(es), es[i].0 + "=")
  {
    hide LineOf, WrittenLines;
    var n, key, init := |es| - 1, es[i].0 + "=", FileLines(es[..|es| - 1]);
    var more := WrittenLines(LineOf(es[n].0, es[n].1));
    if i < n {
      WrittenHasLine(es[..n], i);
      var k :| 0 <= k < |init| && StartsWith(init[k], key);
      assert FileLines(es)[k] == init[k];
    } else {
      FirstWritten(es[n].0, es[n].1);
      assert FileLines(es)[|init|] == more[0];
    }
  }

  lemma FirstIsReachable(lines: seq<string>, name: string) returns (m: nat)
    requires HasLine(lines, name + "=")
    ensures m < |lines| && StartsWith(lines[m], name + "=") && Reachable(lines, m)
  {
    hide Reachable;
    m := FirstLine(lines, 0, name + "=");
    SearchReaches(lines, name, 0, m);
  }

  lemma KeyWithBreak(lines: seq<string>, name: string)
    requires '\n' in name && forall line | line in lines :: '\n' !in line
    ensures !HasLine(lines, name + "=")
  {
    var key := name + "=";
    var j :| 0 <= j < |name| && name[j] == '\n';
    assert key[j] == '\n';
    forall k | 0 <= k < |lines| ensures !StartsWith(lines[k], key) {
      assert lines[k] in lines;
      if |key| <= |lines[k]| {
        assert lines[k][j] != '\n';
      }
    }
  }

  /** A value with a line break is never answered rightly, and a name with a line break only if its value is empty. */
  lemma BreaksAreLost(es: Entries, i: nat)
    requires Retrievable(es) && i < |es|
    ensures '\n' !in es[i].1 && ('\n' in es[i].0 ==> es[i].1 == "")
  {
    hide FileLines, Reachable;
    var ls, name, value := FileLines(es), es[i].0, es[i].1;
    assert EntryRetrievable(ls, name, value);
    forall line | line in ls ensures '\n' !in line {
      LinesAreWhole(es, line);
    }
    if '\n' in name {
      KeyWithBreak(ls, name);
    } else {
      WrittenHasLine(es, i);
      var m := FirstIsReachable(ls, name);
      assert '\n' !in LineOf(name, value);
    }
  }

  /** For a single entry this is all. */
  lemma OneEntryIff(name: string, value: string)
    ensures Retrievable([(name, value)]) <==> '\n' !in value && ('\n' in name ==> value == "")
  {
    hide FileLines, Reachable, LinesOf;
    var es := [(name, value)];
    if Retrievable(es) {
      BreaksAreLost(es, 0);
    }
    if '\n' !in value && '\n' !in name {
      SingleLinesIff(es);
    } else if '\n' !in value && value == "" {
      forall line | line in FileLines(es) ensures '\n' !in line {
        LinesAreWhole(es, line);
      }
      KeyWithBreak(FileLines(es), name);
    }
  }

  /** The value of a with a line break in it is read without what follows. */
  lemma LineBreakHides()
    ensures FileLines([("a", "x\ny")]) == ["a=x", "y"] && ReadAll(["a=x", "y"], START, ["a"]) == ["x"]
  {
    var text := "a=x\ny\n";
    FirstOfIs(text, '\n', 3);
    assert text[4..] == "y\n" && text[..3] == "a=x";
    FirstOfIs("y\n", '\n', 1);
    assert "y\n"[..1] == "y" && "y\n"[2..] == "";
    assert Items("y\n", '\n') == ["y"];
    assert Items(text, '\n') == ["a=x", "y"];
    assert LineOf("a", "x\ny") + "\n" == text;
    assert FileLines([("a", "x\ny")][..0]) == [];
    FirstLineFrom(["a=x", "y"], 0, "a=");
    assert ["a"][1..] == [];
  }
}
