/** Lists of vectors in the store (write_vecOfvec and read_vecOfvec in lib/bayesopt/utils/fileparser.cpp): row by row,
    with the two dimensions in front. */
module FileMatrices {
  import opened Texts
  import opened FileStore
  import opened FileEntries
  import opened Sequences

  // ----- dimensions

  function Digit(n: nat): char
    requires n < 10
  {
    ('0' as int + n) as char
  }

  /** The number is written in decimal. */
  function Decimal(n: nat): (s: string)
    ensures s != ""
  {
    if n < 10 then [Digit(n)] else Decimal(n / 10) + [Digit(n % 10)]
  }

  predicate IsDigit(c: char) {
    '0' <= c <= '9'
  }

  /** The value of the digits at the start of the text. */
  function Number(s: string): nat {
    NumberOf(s, 0)
  }

  function NumberOf(s: string, n: nat): nat {
    if s == "" || !IsDigit(s[0]) then n else NumberOf(s[1..], 10 * n + (s[0] as int - '0' as int))
  }

  lemma {:induction false} NumberOfMore(s: string, c: char, n: nat)
    requires IsDigit(c) && AllDigits(s)
    ensures NumberOf(s + [c], n) == 10 * NumberOf(s, n) + (c as int - '0' as int)
  {
    if s == "" {
      assert [c][1..] == "";
      assert s + [c] == [c];
    } else {
      assert (s + [c])[1..] == s[1..] + [c];
      NumberOfMore(s[1..], c, 10 * n + (s[0] as int - '0' as int));
    }
  }

  ghost predicate AllDigits(s: string) {
    forall k | 0 <= k < |s| :: IsDigit(s[k])
  }

  lemma {:induction false} DecimalIsNumber(n: nat)
    ensures Number(Decimal(n)) == n && AllDigits(Decimal(n)) && IsToken(Decimal(n))
  {
    hide IsToken;
    if n < 10 {
      NumberOfDigit(n);
    } else {
      DecimalIsNumber(n / 10);
      NumberOfDigit(n % 10);
      NumberOfMore(Decimal(n / 10), Digit(n % 10), 0);
    }
    DigitsAreToken(Decimal(n));
  }

  function Power10(k: nat): nat {
    if k == 0 then 1 else 10 * Power10(k - 1)
  }

  /** The digits with their places: the last one counts ones. */
  function Positional(s: string): int {
    if s == "" then 0 else (s[0] as int - 48) * Power10(|s| - 1) + Positional(s[1..])
  }

  lemma {:induction false} PositionalMore(s: string, c: char)
    ensures Positional(s + [c]) == 10 * Positional(s) + (c as int - 48)
  {
    if s == "" {
      assert "" + [c] == [c] && [c][1..] == "";
    } else {
      assert (s + [c])[1..] == s[1..] + [c];
      PositionalMore(s[1..], c);
      TenTimes(s[0] as int - 48, Power10(|s| - 1));
    }
  }

  lemma TenTimes(a: int, b: int)
    ensures a * (10 * b) == 10 * (a * b)
  {
  }

  /** The digits of the number are right, and the first one is not 0 if there are more. */
  lemma {:induction false} DecimalMeans(n: nat)
    ensures var s := Decimal(n);
      && Positional(s) == n && (forall k | 0 <= k < |s| :: 48 <= s[k] as int < 58)
      && (|s| > 1 ==> s[0] as int > 48)
  {
    if n < 10 {
      OneDigit(Digit(n));
    } else {
      var s := Decimal(n / 10);
      DecimalMeans(n / 10);
      PositionalMore(s, Digit(n % 10));
      if |s| == 1 {
        OneDigit(s[0]);
        assert s == [s[0]];
      }
    }
  }

  lemma OneDigit(c: char)
    ensures Positional([c]) == c as int - 48
  {
    assert [c][1..] == "";
    assert Power10(0) == 1;
  }

  lemma NumberOfDigit(n: nat)
    requires n < 10
    ensures Number([Digit(n)]) == n && IsDigit(Digit(n))
  {
    assert [Digit(n)][1..] == "";
    assert NumberOf([Digit(n)], 0) == NumberOf("", 10 * 0 + n);
  }

  lemma DigitsAreToken(s: string)
    requires s != "" && AllDigits(s)
    ensures IsToken(s)
  {
  }

  // ----- rows

  ghost predicate Rectangular<T>(rows: seq<seq<T>>, d: nat) {
    forall i | 0 <= i < |rows| :: |rows[i]| == d
  }

  lemma RowFits(i: nat, n: nat, d: nat)
    requires i < n
    ensures (i + 1) * d == i * d + d <= n * d
    ensures 0 <= i * d
  {
    NoNegativeProduct(n - 1 - i, d);
    NoNegativeProduct(i, d);
    assert n * d == (n - 1 - i) * d + i * d + d;
  }

  lemma NoNegativeProduct(a: nat, b: nat)
    ensures 0 <= a * b
  {
  }

  lemma PlaceFits(i: nat, j: nat, n: nat, d: nat)
    requires i < n && j < d
    ensures 0 <= i * d + j < n * d
  {
    RowFits(i, n, d);
  }

  function ItemAt<T>(arr: seq<T>, i: nat, j: nat, n: nat, d: nat): T
    requires i < n && j < d && n * d <= |arr|
  {
    PlaceFits(i, j, n, d);
    arr[i * d + j]
  }

  function Unflatten<T>(arr: seq<T>, n: nat, d: nat): (rows: seq<seq<T>>)
    requires n * d <= |arr|
    ensures |rows| == n
  {
    seq(n, i requires 0 <= i < n => seq(d, j requires 0 <= j < d => ItemAt(arr, i, j, n, d)))
  }

  lemma {:induction false} FlattenPlaces<T>(rows: seq<seq<T>>, d: nat)
    requires Rectangular(rows, d)
    ensures |Flatten(rows)| == |rows| * d
    ensures forall i: nat, j: nat | i < |rows| && j < d :: ItemAt(Flatten(rows), i, j, |rows|, d) == rows[i][j]
  {
    if rows != [] {
      var n := |rows| - 1;
      var init := rows[..n];
      FlattenPlaces(init, d);
      assert (n + 1) * d == n * d + d;
      forall i: nat, j: nat | i < |rows| && j < d ensures ItemAt(Flatten(rows), i, j, |rows|, d) == rows[i][j] {
        if i < n {
          PlaceFits(i, j, n, d);
          assert ItemAt(Flatten(init), i, j, n, d) == rows[i][j];
        }
      }
    }
  }

  /** Row-major order is undone if and only if all rows have the length of the first. */
  lemma UnflattenInvertsIff<T>(rows: seq<seq<T>>)
    requires rows != []
    ensures (|rows| * |rows[0]| <= |Flatten(rows)| && Unflatten(Flatten(rows), |rows|, |rows[0]|) == rows)
       <==> Rectangular(rows, |rows[0]|)
  {
    var n, d := |rows|, |rows[0]|;
    if Rectangular(rows, d) {
      FlattenPlaces(rows, d);
      forall i | 0 <= i < n ensures Unflatten(Flatten(rows), n, d)[i] == rows[i] {
      }
    } else if n * d <= |Flatten(rows)| && Unflatten(Flatten(rows), n, d) == rows {
      forall i | 0 <= i < n ensures |rows[i]| == d {
        assert |Unflatten(Flatten(rows), n, d)[i]| == d;
      }
    }
  }

  // ----- writing and reading

  function Shown<T>(items: seq<T>, show: T -> string): (ts: seq<string>)
    ensures |ts| == |items|
  {
    seq(|items|, i requires 0 <= i < |items| => show(items[i]))
  }

  function Values<T>(ts: seq<string>, value: string -> T): (items: seq<T>)
    ensures |items| == |ts|
  {
    seq(|ts|, i requires 0 <= i < |ts| => value(ts[i]))
  }

  function MatrixText<T>(rows: seq<seq<T>>, show: T -> string): string
    requires rows != []
  {
    ArrayText(Shown(Flatten(rows), show), [Decimal(|rows|), Decimal(|rows[0]|)])
  }

  datatype Result<T> = Ok(rows: seq<seq<T>>) | OutOfRange

  /** What is read from the contents of a variable. */
  function MatrixOf<T>(contents: string, value: string -> T): Result<T> {
    var arr, dims := Items(Enclosed(contents, '(', ')'), ','), Items(Enclosed(contents, '[', ']'), ',');
    if |dims| < 2 then OutOfRange
    else
      var n, d := Number(dims[0]), Number(dims[1]);
      if n * d <= |arr| then Ok(Unflatten(Values(arr, value), n, d)) else OutOfRange
  }

  /** The printed items can be read again. */
  ghost predicate Printable<T>(items: seq<T>, show: T -> string, value: string -> T) {
    forall i | 0 <= i < |items| :: IsToken(show(items[i])) && value(show(items[i])) == items[i]
  }

  /** What is read back from a written matrix: the same matrix if and only if it is rectangular. */
  lemma MatrixIsReadIff<T>(rows: seq<seq<T>>, show: T -> string, value: string -> T)
    requires rows != [] && Printable(Flatten(rows), show, value)
    ensures MatrixOf(MatrixText(rows, show), value) == Ok(rows) <==> Rectangular(rows, |rows[0]|)
  {
    hide Flatten, Items, Join, Enclosed, IsToken, Unflatten, Rectangular, ArrayText;
    var items, n, d := Flatten(rows), |rows|, |rows[0]|;
    var ts, dims := Shown(items, show), [Decimal(n), Decimal(d)];
    DecimalIsNumber(n);
    DecimalIsNumber(d);
    assert AllTokens(ts) && AllTokens(dims);
    ParseInvertsFormat(ts, dims);
    assert Values(ts, value) == items;
    UnflattenInvertsIff(rows);
  }

  method WriteVecOfVec<T>(file: FileParser, name: string, rows: seq<seq<T>>, show: T -> string) returns (ok: bool)
    requires file.Valid()
    modifies file
    ensures file.Valid() && ok == (rows != [])
    ensures !ok ==> file.lines == old(file.lines)
    ensures ok && old(file.isWriting) ==>
      file.lines == old(file.lines) + WrittenLines(LineOf(name, MatrixText(rows, show)))
    ensures ok && !old(file.isWriting) ==> file.lines == old(file.lines)
  {
    if rows == [] {
      return false;
    }
    var dims := [Decimal(|rows|), Decimal(|rows[0]|)];
    var arr: seq<string> := [];
    assert Shown(Flatten(rows[..0]), show) == [];
    for i := 0 to |rows|
      invariant arr == Shown(Flatten(rows[..i]), show)
    {
      assert rows[..i + 1][..i] == rows[..i];
      for j := 0 to |rows[i]|
        invariant arr == Shown(Flatten(rows[..i]) + rows[i][..j], show)
      {
        assert Flatten(rows[..i]) + rows[i][..j + 1] == (Flatten(rows[..i]) + rows[i][..j]) + [rows[i][j]];
        arr := arr + [show(rows[i][j])];
      }
      assert rows[i][..|rows[i]|] == rows[i];
    }
    assert rows[..|rows|] == rows;
    var text := FormatArray(arr, dims);
    file.Write(name, text);
    ok := true;
  }

  /** One row of the matrix, unless the items end before it does. */
  method ReadRow<T>(arr: seq<string>, i: nat, d: nat, value: string -> T) returns (ok: bool, row: seq<T>)
    requires i * d <= |arr|
    ensures ok <==> i * d + d <= |arr|
    ensures ok ==> |row| == d && forall j | 0 <= j < d :: row[j] == value(arr[i * d + j])
  {
    row := [];
    for j := 0 to d
      invariant i * d + j <= |arr| && |row| == j && forall k | 0 <= k < j :: row[k] == value(arr[i * d + k])
    {
      if i * d + j >= |arr| {
        return false, row;
      }
      row := row + [value(arr[i * d + j])];
    }
    ok := true;
  }

  /** The rows from the items, or OutOfRange if there are not enough of them. */
  method ReadRows<T>(arr: seq<string>, n: nat, d: nat, value: string -> T) returns (r: Result<T>)
    ensures r == if n * d <= |arr| then Ok(Unflatten(Values(arr, value), n, d)) else OutOfRange
  {
    var rows: seq<seq<T>> := [];
    for i := 0 to n
      invariant 0 <= i * d <= |arr| && |rows| == i
      invariant rows == Unflatten(Values(arr, value), i, d)
    {
      RowFits(i, n, d);
      var ok, row := ReadRow(arr, i, d, value);
      if !ok {
        return OutOfRange;
      }
      AddRow(arr, i, d, value, row);
      rows := rows + [row];
    }
    r := Ok(rows);
  }

  lemma AddRow<T>(arr: seq<string>, n: nat, d: nat, value: string -> T, row: seq<T>)
    requires (n + 1) * d == n * d + d <= |arr| && |row| == d && forall j | 0 <= j < d :: row[j] == value(arr[n * d + j])
    ensures Unflatten(Values(arr, value), n, d) + [row] == Unflatten(Values(arr, value), n + 1, d)
  {
    var items := Values(arr, value);
    var before, after := Unflatten(items, n, d), Unflatten(items, n + 1, d);
    forall i | 0 <= i < n ensures before[i] == after[i] {
      forall j | 0 <= j < d ensures before[i][j] == after[i][j] {
        PlaceFits(i, j, n, d);
      }
    }
    assert after[n] == row;
  }

  method ReadVecOfVec<T>(file: FileParser, name: string, value: string -> T) returns (r: Result<T>)
    requires file.Valid() && FitStrings(file.lines)
    modifies file`position, file`currentLine
    ensures file.Valid()
    ensures file.isReading && HasLine(file.lines, name + "=")
        ==> (exists contents :: LineOf(name, contents) in file.lines && r == MatrixOf(contents, value))
    ensures !(file.isReading && HasLine(file.lines, name + "=")) ==> r == OutOfRange
  {
    hide Items, Enclosed, Number, Unflatten, HasLine;
    var found, contents := file.MovePointer(name);
    if !found {
      return OutOfRange;
    }
    assert |contents| < |LineOf(name, contents)|;
    var arr, dims := ParseArray(contents);
    if |dims| < 2 {
      r := OutOfRange;
    } else {
      r := ReadRows(arr, Number(dims[0]), Number(dims[1]), value);
    }
    assert LineOf(name, contents) in file.lines && r == MatrixOf(contents, value);
  }

  /** A matrix that is written to a new file is read back if and only if it is rectangular, and its name has no line
      break. */
  method StoreMatrix<T>(file: FileParser, name: string, rows: seq<seq<T>>, show: T -> string, value: string -> T)
    returns (r: Result<T>)
    requires file.Valid() && rows != [] && Printable(Flatten(rows), show, value)
    requires |LineOf(name, MatrixText(rows, show))| < NPOS
    modifies file
    ensures file.Valid() && (r == Ok(rows) <==> Rectangular(rows, |rows[0]|) && '\n' !in name)
  {
    hide Flatten, MatrixText, MatrixOf, Printable, Rectangular, HasLine, LineOf, WrittenLines;
    ghost var text := MatrixText(rows, show);
    TextHasNoBreaks(rows, show, value);
    file.OpenOutput();
    var _ := WriteVecOfVec(file, name, rows, show);
    file.OpenInput();
    OneEntryLines(name, text);
    assert file.lines == WrittenLines(LineOf(name, text));
    r := ReadVecOfVec(file, name, value);
    if '\n' !in name {
      ghost var contents :| LineOf(name, contents) in file.lines && r == MatrixOf(contents, value);
      SameRest(name, contents, text);
      MatrixIsReadIff(rows, show, value);
    }
  }

  /** The file with one entry. */
  lemma OneEntryLines(name: string, value: string)
    requires '\n' !in value
    ensures FitStrings(WrittenLines(LineOf(name, value))) || |LineOf(name, value)| >= NPOS
    ensures '\n' in name ==> !HasLine(WrittenLines(LineOf(name, value)), name + "=")
    ensures '\n' !in name ==> WrittenLines(LineOf(name, value)) == [LineOf(name, value)]
    ensures '\n' !in name ==> HasLine([LineOf(name, value)], name + "=")
  {
    hide WrittenLines;
    var lines := WrittenLines(LineOf(name, value));
    FileLinesMore([], (name, value));
    if '\n' in name {
      forall line | line in lines ensures '\n' !in line {
        LinesAreWhole([(name, value)], line);
      }
      KeyWithBreak(lines, name);
    } else {
      OneLine(LineOf(name, value));
      assert StartsWith(lines[0], name + "=");
    }
    WrittenFits(LineOf(name, value));
  }

  lemma TextHasNoBreaks<T>(rows: seq<seq<T>>, show: T -> string, value: string -> T)
    requires rows != [] && Printable(Flatten(rows), show, value)
    ensures '\n' !in MatrixText(rows, show)
  {
    hide Flatten, Join, IsToken;
    var ts, dims := Shown(Flatten(rows), show), [Decimal(|rows|), Decimal(|rows[0]|)];
    DecimalIsNumber(|rows|);
    DecimalIsNumber(|rows[0]|);
    JoinOfTokens(ts);
    JoinOfTokens(dims);
    var a, d := Join(ts), Join(dims);
    assert '\n' !in a && '\n' !in d;
    assert MatrixText(rows, show) == "[" + d + "](" + a + ")";
  }
}
