/**
 Seed data: how values are written into an insert statement, and that PostgreSQL reads the
 same values back out of the statement the splitter recovers.
 */
module Literals {
  import opened Options
  import opened Text
  import opened DdlSplit
  import opened DdlRoundTrip

  // ----- decimal numbers -------------------------------------------------------------

  function DigitChar(d: nat): char
    requires d < 10
  {
    '0' + d as char
  }

  function DigitValue(c: char): nat
    requires IsDigit(c)
  {
    (c - '0') as nat
  }

  function NatText(n: nat): string {
    (if n < 10 then "" else NatText(n / 10)) + [DigitChar(n % 10)]
  }

  function Itoa(n: int): string {
    if n < 0 then "-" + NatText(-n) else NatText(n)
  }

  /** Reads digits off the front, given the value of the digits already read. */
  function ReadDigits(acc: int, t: string): (int, string)
    decreases |t|
  {
    if t != "" && IsDigit(t[0]) then ReadDigits(acc * 10 + DigitValue(t[0]), t[1..]) else (acc, t)
  }

  lemma {:induction false} ReadDigitsOfNat(n: nat, t: string)
    ensures ReadDigits(0, NatText(n) + t) == ReadDigits(n, t)
    ensures NatText(n) != "" && IsDigit(NatText(n)[0])
    decreases n
  {
    var last := [DigitChar(n % 10)];
    var rest := last + t;
    assert rest[1..] == t && rest[0] == DigitChar(n % 10);
    if n < 10 {
      assert NatText(n) + t == rest;
    } else {
      ReadDigitsOfNat(n / 10, rest);
      assert NatText(n) + t == NatText(n / 10) + rest;
    }
    assert (n / 10) * 10 + n % 10 == n;
  }

  /** Distinct numbers have distinct decimal texts. */
  lemma NatTextInjective(m: nat, n: nat)
    requires NatText(m) == NatText(n)
    ensures m == n
  {
    hide NatText;
    ReadDigitsOfNat(m, "");
    ReadDigitsOfNat(n, "");
  }

  // ----- writing a string literal ----------------------------------------------------

  /** `strings.ReplaceAll` for a one-character pattern. */
  function ReplaceChar(s: string, c: char, repl: string): string {
    if s == "" then "" else (if s[0] == c then repl else [s[0]]) + ReplaceChar(s[1..], c, repl)
  }

  function EscapePostgresString(s: string): string {
    if '\n' in s || '\'' in s then
      var slashes := ReplaceChar(s, '\\', "\\\\");
      var quotes := ReplaceChar(slashes, '\'', "\\'");
      "E'" + ReplaceChar(quotes, '\n', "\\n") + "'"
    else "'" + s + "'"
  }

  // ----- reading one, by sections 4.1.2.1 and 4.1.2.2 of the PostgreSQL manual ---------

  function Prepend(c: char, r: Option<(string, string)>): Option<(string, string)> {
    if r.None? then None else Some(([c] + r.value.0, r.value.1))
  }

  /** The rest of a literal after its opening quote: its value and the text behind it. */
  function ReadQuoted(t: string, escapes: bool): Option<(string, string)>
    decreases |t|
  {
    if t == "" then None
    else if t[0] == '\'' then
      if |t| > 1 && t[1] == '\'' then Prepend('\'', ReadQuoted(t[2..], escapes)) else Some(("", t[1..]))
    else if escapes && t[0] == '\\' then
      if |t| == 1 || NumericEscape(t[1]) then None
      else Prepend(EscapedChar(t[1]), ReadQuoted(t[2..], escapes))
    else Prepend(t[0], ReadQuoted(t[1..], escapes))
  }

  /** Escapes that name a character by its code; the writer never produces them. */
  predicate NumericEscape(c: char) {
    '0' <= c <= '7' || c == 'x' || c == 'u' || c == 'U'
  }

  function EscapedChar(c: char): char {
    if c == 'n' then '\n' else if c == 't' then '\t' else if c == 'r' then '\r'
    else if c == 'b' then '\U{8}' else if c == 'f' then '\U{C}' else c
  }

  function ReadString(t: string): Option<(string, string)> {
    if |t| > 1 && (t[0] == 'E' || t[0] == 'e') && t[1] == '\'' then ReadQuoted(t[2..], true)
    else if t != "" && t[0] == '\'' then ReadQuoted(t[1..], false)
    else None
  }

  // ----- the round trip --------------------------------------------------------------

  function EscapeChar(c: char): string {
    if c == '\\' then "\\\\" else if c == '\'' then "\\'" else if c == '\n' then "\\n" else [c]
  }

  function EscapeEach(s: string): string {
    if s == "" then "" else EscapeChar(s[0]) + EscapeEach(s[1..])
  }

  lemma {:induction false} ReplaceCharConcat(a: string, b: string, c: char, repl: string)
    ensures ReplaceChar(a + b, c, repl) == ReplaceChar(a, c, repl) + ReplaceChar(b, c, repl)
  {
    if a == "" {
      assert a + b == b;
    } else {
      assert (a + b)[1..] == a[1..] + b;
      ReplaceCharConcat(a[1..], b, c, repl);
    }
  }

  /** The three replacements in a row escape each character once. */
  lemma {:induction false} ReplacementsEscapeEach(s: string)
    ensures ReplaceChar(ReplaceChar(ReplaceChar(s, '\\', "\\\\"), '\'', "\\'"), '\n', "\\n") == EscapeEach(s)
  {
    if s != "" {
      var c, rest := s[0], s[1..];
      ReplacementsEscapeEach(rest);
      var c1 := if c == '\\' then "\\\\" else [c];
      ReplaceCharConcat(c1, ReplaceChar(rest, '\\', "\\\\"), '\'', "\\'");
      var c2 := ReplaceChar(c1, '\'', "\\'");
      EscapeOne(c);
      ReplaceCharConcat(c2, ReplaceChar(ReplaceChar(rest, '\\', "\\\\"), '\'', "\\'"), '\n', "\\n");
    }
  }

  lemma EscapeOne(c: char)
    ensures ReplaceChar(ReplaceChar(if c == '\\' then "\\\\" else [c], '\'', "\\'"), '\n', "\\n") == EscapeChar(c)
  {
    if c == '\\' {
      ReplaceTwo('\\', '\\', '\'', "\\'");
      ReplaceTwo('\\', '\\', '\n', "\\n");
    } else {
      ReplaceOne(c, '\'', "\\'");
      if c == '\'' {
        ReplaceTwo('\\', '\'', '\n', "\\n");
      } else {
        ReplaceOne(c, '\n', "\\n");
      }
    }
  }

  lemma ReplaceOne(x: char, c: char, repl: string)
    ensures ReplaceChar([x], c, repl) == if x == c then repl else [x]
  {
    assert [x][1..] == "";
  }

  lemma ReplaceTwo(x: char, y: char, c: char, repl: string)
    requires x != c && y != c
    ensures ReplaceChar([x, y], c, repl) == [x, y]
  {
    assert [x, y][1..] == [y];
    ReplaceOne(y, c, repl);
  }

  predicate NoQuoteFirst(t: string) {
    t == "" || t[0] != '\''
  }

  lemma {:induction false} ReadEscaped(s: string, rest: string)
    requires NoQuoteFirst(rest)
    ensures ReadQuoted(EscapeEach(s) + "'" + rest, true) == Some((s, rest))
  {
    if s == "" {
      assert EscapeEach(s) + "'" + rest == "'" + rest;
    } else {
      ReadEscaped(s[1..], rest);
      var more := EscapeEach(s[1..]) + "'" + rest;
      var t := EscapeChar(s[0]) + more;
      assert EscapeEach(s) + "'" + rest == t;
      assert |EscapeChar(s[0])| == 2 ==> t[2..] == more;
      assert |EscapeChar(s[0])| == 1 ==> t[1..] == more;
      assert [s[0]] + s[1..] == s;
    }
  }

  lemma {:induction false} ReadPlain(s: string, rest: string)
    requires NoQuoteFirst(rest) && '\'' !in s
    ensures ReadQuoted(s + "'" + rest, false) == Some((s, rest))
  {
    if s == "" {
      assert s + "'" + rest == "'" + rest;
    } else {
      ReadPlain(s[1..], rest);
      var t := s + "'" + rest;
      assert t[0] == s[0] && t[1..] == s[1..] + "'" + rest;
      assert [s[0]] + s[1..] == s;
    }
  }

  /** Every string is read back from its literal, whatever follows the closing quote. */
  lemma LiteralReadsBack(s: string, rest: string)
    requires NoQuoteFirst(rest)
    ensures ReadString(EscapePostgresString(s) + rest) == Some((s, rest))
  {
    hide ReadQuoted, EscapeEach, ReplaceChar;
    var t := EscapePostgresString(s) + rest;
    if '\n' in s || '\'' in s {
      ReplacementsEscapeEach(s);
      assert t[2..] == EscapeEach(s) + "'" + rest;
      ReadEscaped(s, rest);
    } else {
      assert t[1..] == s + "'" + rest;
      ReadPlain(s, rest);
    }
  }

  lemma {:induction false} EscapeEachHasNo(s: string, c: char)
    requires c == '\n' || (c == '$' && c !in s)
    ensures c !in EscapeEach(s)
  {
    if s != "" {
      EscapeEachHasNo(s[1..], c);
    }
  }

  /** A literal is a single line, and holds a dollar only if its value does. */
  lemma LiteralIsOneLine(s: string)
    ensures '\n' !in EscapePostgresString(s)
    ensures '$' !in s ==> OneLine(EscapePostgresString(s))
  {
    hide EscapeEach, ReplaceChar;
    ReplacementsEscapeEach(s);
    EscapeEachHasNo(s, '\n');
    if '$' !in s {
      EscapeEachHasNo(s, '$');
    }
  }

  // ----- seed rows -------------------------------------------------------------------

  /** A seed value; a column may come without one. */
  datatype SeedValue = IntValue(n: int) | StrValue(s: string) | NoValue

  datatype SeedColumn = SeedColumn(column: string, value: SeedValue)

  function ValueText(v: SeedValue): string
    requires !v.NoValue?
  {
    match v
    case IntValue(n) => Itoa(n)
    case StrValue(s) => EscapePostgresString(s)
  }

  function ColumnNames(row: seq<SeedColumn>): seq<string> {
    if row == [] then [] else [row[0].column] + ColumnNames(row[1..])
  }

  function UpdateNames(row: seq<SeedColumn>): seq<string> {
    if row == [] then [] else ["excluded." + row[0].column] + UpdateNames(row[1..])
  }

  /** A column without a value adds its name but no text here. */
  function ValueTexts(row: seq<SeedColumn>): seq<string> {
    if row == [] then []
    else (if row[0].value.NoValue? then [] else [ValueText(row[0].value)]) + ValueTexts(row[1..])
  }

  function InsertText(table: string, conflict: string, cols: seq<string>, vals: seq<string>, updates: seq<string>): string {
    "insert into " + table + " (" + Join(cols, ", ") + ") values (" + Join(vals, ", ") + ")"
    + if conflict != "" then
        " on conflict (" + conflict + ") do update set (" + Join(cols, ", ") + ") = (" + Join(updates, ", ") + ")"
      else ""
  }

  function InsertRow(table: string, conflict: string, row: seq<SeedColumn>): string {
    InsertText(table, conflict, ColumnNames(row), ValueTexts(row), UpdateNames(row))
  }

  function InsertRows(table: string, conflict: string, rows: seq<seq<SeedColumn>>): seq<string> {
    if rows == [] then [] else [InsertRow(table, conflict, rows[0])] + InsertRows(table, conflict, rows[1..])
  }

  lemma {:induction false} NamesSnoc(row: seq<SeedColumn>, i: nat)
    requires i < |row|
    ensures ColumnNames(row[..i + 1]) == ColumnNames(row[..i]) + [row[i].column]
    ensures UpdateNames(row[..i + 1]) == UpdateNames(row[..i]) + ["excluded." + row[i].column]
    decreases i
  {
    PrefixTail(row, i);
    if i > 0 {
      NamesSnoc(row[1..], i - 1);
    }
  }

  lemma {:induction false} ValuesSnoc(row: seq<SeedColumn>, i: nat)
    requires i < |row|
    ensures ValueTexts(row[..i + 1]) ==
      ValueTexts(row[..i]) + if row[i].value.NoValue? then [] else [ValueText(row[i].value)]
    decreases i
  {
    hide ValueText;
    PrefixTail(row, i);
    if i > 0 {
      ValuesSnoc(row[1..], i - 1);
    }
  }

  lemma PrefixTail<T>(s: seq<T>, i: nat)
    requires i < |s|
    ensures s[..i + 1][1..] == s[1..][..i]
    ensures i > 0 ==> s[..i][1..] == s[1..][..i - 1]
  {
  }

  lemma {:induction false} RowsSnoc(table: string, conflict: string, rows: seq<seq<SeedColumn>>, i: nat)
    requires i < |rows|
    ensures InsertRows(table, conflict, rows[..i + 1]) == InsertRows(table, conflict, rows[..i]) + [InsertRow(table, conflict, rows[i])]
    decreases i
  {
    hide InsertRow;
    var p := rows[..i + 1];
    if i > 0 {
      assert p[1..] == rows[1..][..i] && rows[..i][1..] == rows[1..][..i - 1];
      RowsSnoc(table, conflict, rows[1..], i - 1);
    } else {
      assert p[1..] == [] && rows[..i] == [];
    }
  }

  method SeedDataStatements(table: string, conflict: string, rows: seq<seq<SeedColumn>>) returns (statements: seq<string>)
    ensures statements == InsertRows(table, conflict, rows)
  {
    hide InsertRows, ColumnNames, UpdateNames, ValueTexts, InsertText;
    statements := [];
    assert InsertRows(table, conflict, rows[..0]) == [] by { NoRows(table, conflict); }
    for r := 0 to |rows|
      invariant statements == InsertRows(table, conflict, rows[..r])
    {
      var row := rows[r];
      var cols, vals, updateVals := [], [], [];
      assert row[..0] == [];
      NoColumns();
      for c := 0 to |row|
        invariant cols == ColumnNames(row[..c]) && updateVals == UpdateNames(row[..c])
        invariant vals == ValueTexts(row[..c])
      {
        NamesSnoc(row, c);
        ValuesSnoc(row, c);
        cols := cols + [row[c].column];
        updateVals := updateVals + ["excluded." + row[c].column];
        if !row[c].value.NoValue? {
          vals := vals + [ValueText(row[c].value)];
        }
      }
      assert row[..|row|] == row;
      RowsSnoc(table, conflict, rows, r);
      statements := statements + [InsertText(table, conflict, cols, vals, updateVals)];
    }
    assert rows[..|rows|] == rows;
  }

  lemma NoRows(table: string, conflict: string)
    ensures InsertRows(table, conflict, []) == []
  {
  }

  lemma NoColumns()
    ensures ColumnNames([]) == [] && UpdateNames([]) == [] && ValueTexts([]) == []
  {
  }

  // ----- reading a value list --------------------------------------------------------

  function ReadValue(t: string): Option<(SeedValue, string)> {
    if t != "" && IsDigit(t[0]) then
      var r := ReadDigits(0, t);
      Some((IntValue(r.0), r.1))
    else if |t| > 1 && t[0] == '-' && IsDigit(t[1]) then
      var r := ReadDigits(0, t[1..]);
      Some((IntValue(-r.0), r.1))
    else
      var r := ReadString(t);
      if r.None? then None else Some((StrValue(r.value.0), r.value.1))
  }

  /** Reads `n` values separated by commas, and the closing parenthesis after the last. */
  function ReadValues(t: string, n: nat): Option<seq<SeedValue>>
    requires n > 0
    decreases n
  {
    var v := ReadValue(t);
    if v.None? then None
    else
      var rest := v.value.1;
      if n == 1 then (if rest != "" && rest[0] == ')' then Some([v.value.0]) else None)
      else if |rest| < 2 || rest[0] != ',' || rest[1] != ' ' then None
      else
        var more := ReadValues(rest[2..], n - 1);
        if more.None? then None else Some([v.value.0] + more.value)
  }

  function Values(row: seq<SeedColumn>): seq<SeedValue> {
    if row == [] then [] else [row[0].value] + Values(row[1..])
  }

  lemma ValueReadsBack(v: SeedValue, rest: string)
    requires !v.NoValue? && rest != "" && rest[0] != '\'' && !IsDigit(rest[0])
    ensures ReadValue(ValueText(v) + rest) == Some((v, rest))
  {
    hide EscapePostgresString, ReadString, NatText, ReadDigits;
    match v
    case StrValue(s) =>
      LiteralReadsBack(s, rest);
      LiteralHead(s);
    case IntValue(n) =>
      var m := if n < 0 then -n else n;
      ReadDigitsOfNat(m, rest);
      DigitsStop(m, rest);
      var t := ValueText(v) + rest;
      if n < 0 {
        assert t[1..] == NatText(m) + rest;
        assert t[1] == NatText(m)[0];
      } else {
        assert t[0] == NatText(m)[0];
      }
  }

  lemma DigitsStop(m: nat, rest: string)
    requires rest != "" && !IsDigit(rest[0])
    ensures ReadDigits(m, rest) == (m, rest)
  {
  }

  lemma LiteralHead(s: string)
    ensures EscapePostgresString(s) != "" && !IsDigit(EscapePostgresString(s)[0]) && EscapePostgresString(s)[0] != '-'
  {
    hide ReplaceChar;
  }

  predicate AllValued(row: seq<SeedColumn>) {
    forall i :: 0 <= i < |row| ==> !row[i].value.NoValue?
  }

  lemma {:induction false} ListReadsBack(row: seq<SeedColumn>, rest: string)
    requires row != [] && AllValued(row)
    ensures ReadValues(Join(ValueTexts(row), ", ") + ")" + rest, |row|) == Some(Values(row))
    decreases |row|
  {
    hide ValueText, ReadValue;
    var texts := ValueTexts(row);
    var v := row[0].value;
    assert ValueTexts(row)[1..] == ValueTexts(row[1..]);
    if |row| == 1 {
      assert texts == [ValueText(v)];
      var t := ValueText(v) + (")" + rest);
      assert Join(texts, ", ") + ")" + rest == t;
      ValueReadsBack(v, ")" + rest);
      assert Values(row) == [v];
    } else {
      ListReadsBack(row[1..], rest);
      var more := Join(ValueTexts(row[1..]), ", ") + ")" + rest;
      assert |texts| > 1 by { assert ValueTexts(row[1..]) != []; }
      var t := ValueText(v) + (", " + more);
      assert Join(texts, ", ") + ")" + rest == t;
      ValueReadsBack(v, ", " + more);
      assert (", " + more)[2..] == more;
    }
  }

  // ----- seed statements through the stored plan -------------------------------------

  predicate CleanRow(row: seq<SeedColumn>) {
    row != [] && forall i :: 0 <= i < |row| ==> SingleLine(row[i].column)
  }

  lemma {:induction false} NatTextOneLine(n: nat)
    ensures SingleLine(NatText(n))
    decreases n
  {
    if n >= 10 {
      NatTextOneLine(n / 10);
    }
  }

  lemma {:induction false} JoinOneLine(parts: seq<string>)
    requires forall i :: 0 <= i < |parts| ==> SingleLine(parts[i])
    ensures SingleLine(Join(parts, ", "))
    decreases |parts|
  {
    if |parts| > 1 {
      JoinOneLine(parts[1..]);
    }
  }

  lemma {:induction false} RowOneLine(row: seq<SeedColumn>)
    requires row == [] || CleanRow(row)
    ensures forall i :: 0 <= i < |ColumnNames(row)| ==> SingleLine(ColumnNames(row)[i])
    ensures forall i :: 0 <= i < |UpdateNames(row)| ==> SingleLine(UpdateNames(row)[i])
    ensures forall i :: 0 <= i < |ValueTexts(row)| ==> SingleLine(ValueTexts(row)[i])
    decreases |row|
  {
    hide EscapePostgresString, NatText;
    if row != [] {
      RowOneLine(row[1..]);
      match row[0].value
      case IntValue(n) => NatTextOneLine(if n < 0 then -n else n);
      case StrValue(s) => LiteralIsOneLine(s);
      case NoValue =>
    }
  }

  lemma InsertIsOneLine(table: string, conflict: string, row: seq<SeedColumn>)
    requires SingleLine(table) && SingleLine(conflict) && CleanRow(row)
    ensures SingleLine(InsertRow(table, conflict, row))
    ensures var t := InsertRow(table, conflict, row); t != "" && Trimmed(t)
  {
    hide ColumnNames, UpdateNames, ValueTexts, Join;
    RowOneLine(row);
    JoinOneLine(ColumnNames(row));
    JoinOneLine(UpdateNames(row));
    JoinOneLine(ValueTexts(row));
  }

  function AsLines(texts: seq<string>): seq<Piece> {
    if texts == [] then [] else [Line(texts[0])] + AsLines(texts[1..])
  }

  /** All texts, a semicolon on all but the last. */
  function WithSemicolons(texts: seq<string>): seq<string> {
    if texts == [] then [] else if |texts| == 1 then texts else [texts[0] + ";"] + WithSemicolons(texts[1..])
  }

  lemma {:induction false} PlainLinesSplit(texts: seq<string>)
    requires forall i :: 0 <= i < |texts| ==> SingleLine(texts[i]) && texts[i] != "" && Trimmed(texts[i])
    ensures |AsLines(texts)| == |texts|
    ensures forall i :: 0 <= i < |texts| ==> ValidPiece(AsLines(texts)[i]) && AsLines(texts)[i] == Line(texts[i])
    ensures Rendered(AsLines(texts)) == texts && Expected(AsLines(texts)) == WithSemicolons(texts)
    decreases |texts|
  {
    hide Trim, Flatten;
    if texts != [] {
      var t := texts[0];
      PlainLinesSplit(texts[1..]);
      TrimIdentity(t);
      FlattenOneLine(t);
      FlattenSemicolon(t);
      assert AsLines(texts)[1..] == AsLines(texts[1..]);
      assert AsLines(texts)[0] == Line(t);
    }
  }

  /**
   Seed rows survive exactly if no insert but the last leaves a dollar-quote delimiter open: the
   stored plan then splits into the insert statements, one per row.
   */
  lemma SeedRowsSurviveIff(table: string, conflict: string, rows: seq<seq<SeedColumn>>)
    requires SingleLine(table) && SingleLine(conflict)
    requires rows != [] && forall i :: 0 <= i < |rows| ==> CleanRow(rows[i])
    ensures var texts := InsertRows(table, conflict, rows);
      && |texts| == |rows|
      && (Statements(Join(texts, ";\n")) == WithSemicolons(texts) <==>
        forall i :: 0 <= i < |rows| - 1 ==> OpensNothing(InsertRow(table, conflict, rows[i]) + ";"))
  {
    hide Statements, Join, CleanRow, ValidPiece, OpensNothing, InsertRow, SingleLine;
    var texts := InsertRows(table, conflict, rows);
    InsertRowsClean(table, conflict, rows);
    PlainLinesSplit(texts);
    var ps := AsLines(texts);
    SplitInvertsJoinIff(ps);
    assert forall i :: 0 <= i < |ps| ==> (Quiet(ps[i]) <==> OpensNothing(InsertRow(table, conflict, rows[i]) + ";"));
  }

  lemma {:induction false} InsertRowsClean(table: string, conflict: string, rows: seq<seq<SeedColumn>>)
    requires SingleLine(table) && SingleLine(conflict)
    requires forall i :: 0 <= i < |rows| ==> CleanRow(rows[i])
    ensures |InsertRows(table, conflict, rows)| == |rows|
    ensures forall i :: 0 <= i < |rows| ==>
      var t := InsertRows(table, conflict, rows)[i];
      t == InsertRow(table, conflict, rows[i]) && SingleLine(t) && t != "" && Trimmed(t)
    decreases |rows|
  {
    hide InsertRow, CleanRow;
    if rows != [] {
      InsertIsOneLine(table, conflict, rows[0]);
      InsertRowsClean(table, conflict, rows[1..]);
    }
  }

  /** Where the value list of an insert starts, its values read back in order. */
  lemma InsertValuesReadBack(table: string, conflict: string, row: seq<SeedColumn>, semicolon: string)
    requires row != [] && AllValued(row)
    ensures var t := InsertRow(table, conflict, row) + semicolon;
      var start := |"insert into " + table + " (" + Join(ColumnNames(row), ", ") + ") values ("|;
      start <= |t| && ReadValues(t[start..], |row|) == Some(Values(row))
  {
    hide ReadValues, ColumnNames, UpdateNames, ValueTexts, Values, Join;
    var head := "insert into " + table + " (" + Join(ColumnNames(row), ", ") + ") values (";
    var vals := Join(ValueTexts(row), ", ");
    var tail := if conflict != "" then
        " on conflict (" + conflict + ") do update set (" + Join(ColumnNames(row), ", ") + ") = (" + Join(UpdateNames(row), ", ") + ")"
      else "";
    var t := InsertRow(table, conflict, row) + semicolon;
    assert t == head + vals + ")" + tail + semicolon;
    Tail(head, vals, tail, semicolon);
    ListReadsBack(row, tail + semicolon);
  }

  lemma Tail(head: string, vals: string, tail: string, semicolon: string)
    ensures (head + vals + ")" + tail + semicolon)[|head|..] == vals + ")" + (tail + semicolon)
  {
  }
}
