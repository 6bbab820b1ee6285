/** The key and array store of lib/bayesopt/utils/fileparser.cpp. Numbers are written and read by functions that are
    parameters. */
module FileStore {
  import opened Texts

  // ----- lines

  function LineOf(name: string, value: string): string {
    name + "=" + value
  }

  /** The lines of a text that is written with a line break at its end. */
  function WrittenLines(text: string): seq<string> {
    Items(text + "\n", '\n')
  }

  lemma OneLine(text: string)
    requires '\n' !in text
    ensures WrittenLines(text) == [text]
  {
    var all := text + "\n";
    assert all[..|text|] == text && all[|text| + 1..] == "";
    FirstOfIs(all, '\n', |text|);
    NoItems(all[|text| + 1..], '\n');
    assert Items(all, '\n') == [all[..|text|]] + Items(all[|text| + 1..], '\n');
  }

  /** The text starts with sub. */
  predicate StartsWith(all: string, sub: string) {
    sub <= all
  }

  /** The first line from the given one on that starts with the key, or the number of lines. */
  function FirstLine(lines: seq<string>, from: nat, key: string): (k: nat)
    requires from <= |lines|
    ensures from <= k <= |lines| && (k < |lines| ==> StartsWith(lines[k], key))
    ensures forall i | from <= i < k :: !StartsWith(lines[i], key)
    decreases |lines| - from
  {
    if from == |lines| || StartsWith(lines[from], key) then from else FirstLine(lines, from + 1, key)
  }

  lemma FirstLineFrom(lines: seq<string>, i: nat, key: string)
    requires i < |lines|
    ensures FirstLine(lines, i, key) == if StartsWith(lines[i], key) then i else FirstLine(lines, i + 1, key)
  {
  }

  lemma NoLineLeft(lines: seq<string>, key: string)
    ensures FirstLine(lines, |lines|, key) == |lines|
  {
  }

  ghost predicate HasLine(lines: seq<string>, key: string) {
    exists k :: 0 <= k < |lines| && StartsWith(lines[k], key)
  }

  /** The line that a search from the position finds: on from there, and then from the start. */
  function Sought(lines: seq<string>, position: nat, key: string): (k: nat)
    requires position <= |lines|
    ensures k <= |lines| && (k < |lines| <==> HasLine(lines, key)) && (k < |lines| ==> StartsWith(lines[k], key))
  {
    var k := FirstLine(lines, position, key);
    if k < |lines| then k else FirstLine(lines, 0, key)
  }

  /** Where a search goes on: the position in the file and the line that was found last. */
  datatype Cursor = Cursor(position: nat, line: string)

  const START := Cursor(0, "")

  /** What a read of a variable gives, and the cursor after it. */
  function ReadNext(lines: seq<string>, c: Cursor, name: string): (r: (string, Cursor))
    requires c.position <= |lines|
    ensures r.1.position <= |lines|
  {
    var key := name + "=";
    if StartsWith(c.line, key) then (c.line[|key|..], c)
    else
      var k := Sought(lines, c.position, key);
      if k < |lines| then (lines[k][|key|..], Cursor(k + 1, lines[k])) else ("", START)
  }

  /** Line k starts with the key, and no line before it does when one reads on from the position, and from the start
      after the end. */
  ghost predicate IsNext(lines: seq<string>, position: nat, key: string, k: nat) {
    && k < |lines| && key <= lines[k]
    && (forall i | position <= i < |lines| && (k < position || i < k) :: !(key <= lines[i]))
    && (k < position ==> forall i | 0 <= i < k :: !(key <= lines[i]))
  }

  /** A read stays in the line that was found last if that is one of the variable, and goes on to its next line
      otherwise; without one it gives nothing and starts again. */
  lemma ReadNextMeans(lines: seq<string>, c: Cursor, name: string)
    requires c.position <= |lines|
    ensures var r, key := ReadNext(lines, c, name), name + "=";
      if key <= c.line then r.1 == c && c.line == key + r.0
      else if HasLine(lines, key) then
        r.1.position > 0 && IsNext(lines, c.position, key, r.1.position - 1)
        && r.1.line == lines[r.1.position - 1] == key + r.0
      else r == ("", Cursor(0, ""))
  {
    hide FirstLine;
    var key := name + "=";
    if !(key <= c.line) && HasLine(lines, key) {
      var k := FirstLine(lines, c.position, key);
      assert k == |lines| ==> forall i | c.position <= i < |lines| :: !StartsWith(lines[i], key);
    }
  }

  /** What reads of the names give, one after the other. */
  function ReadAll(lines: seq<string>, c: Cursor, names: seq<string>): (values: seq<string>)
    requires c.position <= |lines|
    ensures |values| == |names|
    decreases |names|
  {
    if names == [] then []
    else
      var r := ReadNext(lines, c, names[0]);
      [r.0] + ReadAll(lines, r.1, names[1..])
  }

  lemma ReadAllStep(lines: seq<string>, c: Cursor, names: seq<string>, i: nat)
    requires c.position <= |lines| && i < |names|
    ensures var r := ReadNext(lines, c, names[i]);
      ReadAll(lines, c, names[i..]) == [r.0] + ReadAll(lines, r.1, names[i + 1..])
  {
    hide ReadNext;
    assert names[i..][1..] == names[i + 1..];
  }

  class FileParser {
    var lines: seq<string>
    var isReading: bool
    var isWriting: bool
    var position: nat
    var currentLine: string

    ghost predicate Valid()
      reads this
    {
      && position <= |lines| && !(isReading && isWriting)
      && (currentLine == "" || (isReading && currentLine in lines))
    }

    ghost function At(): Cursor
      reads this
    {
      Cursor(position, currentLine)
    }

    constructor (contents: seq<string>)
      ensures Valid() && !isReading && !isWriting && lines == contents
    {
      lines, isReading, isWriting, position, currentLine := contents, false, false, 0, "";
    }

    method Close()
      modifies this
      ensures Valid() && !isReading && !isWriting && lines == old(lines) && position == 0 && currentLine == ""
    {
      isReading, isWriting, position := false, false, 0;
      currentLine := "";
    }

    /** Opening for output empties the file. */
    method OpenOutput()
      modifies this
      ensures Valid() && isWriting && lines == []
    {
      Close();
      lines, isWriting := [], true;
    }

    method OpenInput()
      modifies this
      ensures Valid() && isReading && lines == old(lines) && position == 0 && currentLine == ""
    {
      Close();
      isReading := true;
    }

    /** Writes the variable and a line break. Without an open output nothing is written. */
    method Write(name: string, value: string)
      requires Valid()
      modifies this
      ensures Valid() && isWriting == old(isWriting) && isReading == old(isReading)
      ensures lines == old(lines) + if isWriting then WrittenLines(LineOf(name, value)) else []
    {
      if isWriting {
        lines := lines + WrittenLines(LineOf(name, value));
      }
    }

    /** Reads the next line of an open input. */
    method NextLine() returns (ok: bool)
      requires Valid()
      modifies this`position, this`currentLine
      ensures Valid() && ok == (isReading && old(position) < |lines|)
      ensures ok ==> currentLine == lines[old(position)] && position == old(position) + 1
      ensures !ok ==> position == old(position) && currentLine == (if isReading then "" else old(currentLine))
    {
      ok := isReading && position < |lines|;
      if ok {
        currentLine := lines[position];
        position := position + 1;
      } else if isReading {
        currentLine := "";
      }
    }

    /** Searches from the position to the end. */
    method SearchOn(key: string) returns (found: bool)
      requires Valid() && isReading && key != ""
      modifies this`position, this`currentLine
      ensures Valid()
      ensures found == (FirstLine(lines, old(position), key) < |lines|)
      ensures found ==> position == FirstLine(lines, old(position), key) + 1 && currentLine == lines[position - 1]
      ensures !found ==> position == |lines| && currentLine == ""
    {
      hide FirstLine;
      found := false;
      NoLineLeft(lines, key);
      var ok := NextLine();
      while ok
        invariant Valid() && old(position) <= position
        invariant ok ==> old(position) < position && currentLine == lines[position - 1]
        invariant !ok ==> position == |lines| && currentLine == ""
        invariant FirstLine(lines, if ok then position - 1 else position, key) == FirstLine(lines, old(position), key)
        decreases |lines| - position, ok
      {
        FirstLineFrom(lines, position - 1, key);
        if |currentLine| > 0 && StartsWith(currentLine, key) {
          return true;
        }
        ok := NextLine();
      }
    }

    /** Finds the variable: first in the current line, then from the position on, then from the start of the file. */
    method MovePointer(name: string) returns (found: bool, contents: string)
      requires Valid()
      modifies this`position, this`currentLine
      ensures Valid()
      ensures found <==> isReading && HasLine(lines, name + "=")
      ensures found ==> LineOf(name, contents) in lines
      ensures isReading ==> (contents, At()) == ReadNext(lines, old(At()), name)
      ensures !found ==> contents == ""
    {
      var key := name + "=";
      assert |key| > 0 && key[|key| - 1] == '=';
      if |currentLine| > 0 && StartsWith(currentLine, key) {
        assert currentLine == key + currentLine[|key|..];
        return true, currentLine[|key|..];
      }
      for i := 0 to 2
        invariant Valid() && (i > 0 ==> position == 0 || !isReading)
        invariant i == 0 ==> position == old(position)
        invariant i > 0 && isReading ==> currentLine == "" && FirstLine(lines, old(position), key) == |lines|
        invariant i > 1 && isReading ==> FirstLine(lines, 0, key) == |lines|
      {
        if isReading {
          var ok := SearchOn(key);
          if ok {
            assert currentLine == key + currentLine[|key|..];
            return true, currentLine[|key|..];
          }
          position := 0;
        }
      }
      return false, "";
    }

    /** The value of the variable, or nothing for a variable that is not there. */
    method Read(name: string) returns (value: string)
      requires Valid()
      modifies this`position, this`currentLine
      ensures Valid()
      ensures if isReading then (value, At()) == ReadNext(lines, old(At()), name) else value == ""
    {
      var found;
      found, value := MovePointer(name);
    }
  }

  // ----- arrays

  function ArrayText(arr: seq<string>, dims: seq<string>): string {
    "[" + Join(dims) + "](" + Join(arr) + ")"
  }

  method FormatArray(arr: seq<string>, dims: seq<string>) returns (text: string)
    ensures text == ArrayText(arr, dims)
  {
    var d := JoinItems(dims);
    var a := JoinItems(arr);
    text := "[" + d + "]" + "(" + a + ")";
  }

  /** A comma before every item but the first. */
  method JoinItems(items: seq<string>) returns (text: string)
    ensures text == Join(items)
  {
    hide Join;
    text := "";
    assert Join(items[..0]) == "" by { NothingJoined(); }
    for i := 0 to |items|
      invariant text == Join(items[..i])
    {
      JoinMore(items[..i], items[i]);
      assert items[..i + 1] == items[..i] + [items[i]];
      if i != 0 {
        text := text + ",";
      }
      text := text + items[i];
    }
    assert items[..|items|] == items;
  }

  /** The part of the text after the first `open` and before the first `close`: from the start if there is no `open`,
      and to the end if `close` is missing or comes first. */
  function Enclosed(s: string, open: char, close: char): string {
    var first := if open in s then FirstOf(s, open) + 1 else 0;
    var end := FirstOf(s, close);
    if first <= end then s[first..end] else s[first..]
  }

  /** Positions in a text are unsigned words; the largest one stands for "not found". */
  const NPOS := 0xFFFF_FFFF_FFFF_FFFF

  /** Every line is short enough for a string. */
  ghost predicate FitStrings(lines: seq<string>) {
    forall line | line in lines :: |line| < NPOS
  }

  function Wrapped(x: int): (w: int)
    ensures 0 <= w <= NPOS
  {
    x % (NPOS + 1)
  }

  function Find(s: string, c: char): (k: int)
    ensures 0 <= k <= |s| || k == NPOS
  {
    if c in s then FirstOf(s, c) else NPOS
  }

  /** At most count characters from pos on. */
  function Substr(s: string, pos: int, count: int): string
    requires 0 <= pos <= |s| && 0 <= count
  {
    if pos + count <= |s| then s[pos..pos + count] else s[pos..]
  }

  /** The positions around the brackets, computed with wrap-around: a missing `open` gives 0, and a missing or early
      `close` a count that reaches beyond the end. */
  lemma EnclosedByWords(s: string, open: char, close: char)
    requires |s| < NPOS
    ensures var init, end := Wrapped(Find(s, open) + 1), Wrapped(Find(s, close) - 1);
      init <= |s| && Substr(s, init, Wrapped(end - init + 1)) == Enclosed(s, open, close)
  {
    hide Wrapped;
    hide FirstOf;
    var f, g := Find(s, open), Find(s, close);
    WrappedIs(f + 1);
    WrappedIs(g - 1);
    var init, end := Wrapped(f + 1), Wrapped(g - 1);
    WrappedIs(end - init + 1);
  }

  lemma WrappedIs(x: int)
    requires -NPOS <= x <= 2 * NPOS + 1
    ensures Wrapped(x) == if x < 0 then x + NPOS + 1 else if x <= NPOS then x else x - NPOS - 1
  {
  }

  method ParseArray(contents: string) returns (arr: seq<string>, dims: seq<string>)
    requires |contents| < NPOS
    ensures arr == Items(Enclosed(contents, '(', ')'), ',') && dims == Items(Enclosed(contents, '[', ']'), ',')
  {
    hide Wrapped, Find, Substr, Items, Enclosed;
    EnclosedByWords(contents, '(', ')');
    var initArr := Wrapped(Find(contents, '(') + 1);
    var endArr := Wrapped(Find(contents, ')') - 1);
    arr := Split(Substr(contents, initArr, Wrapped(endArr - initArr + 1)), ',', []);
    EnclosedByWords(contents, '[', ']');
    var initDims := Wrapped(Find(contents, '[') + 1);
    var endDims := Wrapped(Find(contents, ']') - 1);
    dims := Split(Substr(contents, initDims, Wrapped(endDims - initDims + 1)), ',', []);
  }

  /** A printed number: not empty, and without the characters that structure the text. */
  predicate IsToken(s: string) {
    s != "" && forall c | c in s :: c !in "[](),=\n"
  }

  predicate AllTokens(ts: seq<string>) {
    forall t | t in ts :: IsToken(t)
  }

  lemma {:induction false} JoinOfTokens(ts: seq<string>)
    requires AllTokens(ts)
    ensures forall c | c in Join(ts) :: c !in "[]()=\n"
  {
    if |ts| > 0 {
      var init, last := ts[..|ts| - 1], ts[|ts| - 1];
      assert last in ts && IsToken(last);
      JoinOfTokens(init);
    }
  }

  lemma EnclosedIs(before: string, open: char, inner: string, close: char, after: string)
    requires open !in before && close !in before && open != close && close !in inner
    ensures Enclosed(before + [open] + inner + [close] + after, open, close) == inner
  {
    var s := before + [open] + inner + [close] + after;
    assert s[|before|] == open;
    FirstOfIs(s, open, |before|);
    var k := |before| + 1 + |inner|;
    assert s[..k] == before + [open] + inner && s[k] == close;
    FirstOfIs(s, close, k);
    assert s[|before| + 1..k] == inner;
  }

  /** Parsing the text of an array gives its items and its dimensions. */
  lemma ParseInvertsFormat(arr: seq<string>, dims: seq<string>)
    requires AllTokens(arr) && AllTokens(dims)
    ensures var text := ArrayText(arr, dims);
      Items(Enclosed(text, '(', ')'), ',') == arr && Items(Enclosed(text, '[', ']'), ',') == dims
  {
    hide Items, Join, Enclosed, FirstOf;
    var a, d := Join(arr), Join(dims);
    JoinOfTokens(arr);
    JoinOfTokens(dims);
    var text := ArrayText(arr, dims);
    assert text == ("[" + d + "]") + ['('] + a + [')'] + "";
    EnclosedIs("[" + d + "]", '(', a, ')', "");
    assert text == "" + ['['] + d + [']'] + ("(" + a + ")");
    EnclosedIs("", '[', d, ']', "(" + a + ")");
    TokensSplit(arr);
    TokensSplit(dims);
  }

  lemma TokensSplit(ts: seq<string>)
    requires AllTokens(ts)
    ensures Items(Join(ts), ',') == ts
  {
    hide Items, Join;
    forall t | t in ts ensures ',' !in t && t != "" {
      assert IsToken(t);
    }
    if ts != [] {
      assert ts[|ts| - 1] in ts;
    }
    SplitInvertsJoinIff(ts);
  }
}
