/** Reading an insert statement back: its columns, and what it does to a row that is already there. */
module SeedText {
  import opened Text
  import opened Parens
  import opened ElementLists
  import opened Literals
  import IndexText

  /** The text behind the first parenthesized group. */
  function BehindGroup(s: string): string {
    var end := IndexOfChar(s, '(') + |ElementList(s)| + 2;
    if 0 <= end <= |s| then s[end..] else ""
  }

  lemma FirstGroup(prefix: string, list: string, tail: string)
    requires '(' !in prefix && Balanced(list)
    ensures var s := prefix + "(" + list + ")" + tail; ElementList(s) == list && BehindGroup(s) == tail
  {
    hide ElementList, IndexOfChar;
    IndexText.GroupAt(prefix, list, tail);
  }

  /** The part of an insert behind its values. */
  function Behind(table: string, conflict: string, row: seq<SeedColumn>): string {
    var t, front := InsertRow(table, conflict, row),
      "insert into " + table + " (" + Join(ColumnNames(row), ", ") + ") values (" + Join(ValueTexts(row), ", ") + ")";
    if |front| <= |t| then t[|front|..] else ""
  }

  lemma {:induction false} NamesAt(row: seq<SeedColumn>, i: nat)
    requires i < |row|
    ensures |ColumnNames(row)| == |row| && ColumnNames(row)[i] == row[i].column
    ensures |UpdateNames(row)| == |row| && UpdateNames(row)[i] == "excluded." + row[i].column
  {
    if |row| > 1 {
      NamesAt(row[1..], if i > 0 then i - 1 else 0);
    }
  }

  /** Column names that a list keeps apart, also behind a qualifier. */
  ghost predicate PlainNames(row: seq<SeedColumn>) {
    IndexText.Listable(ColumnNames(row)) && IndexText.Listable(UpdateNames(row))
  }

  lemma ColumnsReadBack(table: string, conflict: string, row: seq<SeedColumn>)
    requires '(' !in table && PlainNames(row)
    ensures IndexText.ListOf(ElementList(InsertRow(table, conflict, row))) == ColumnNames(row)
  {
    var cols, vals := Join(ColumnNames(row), ", "), Join(ValueTexts(row), ", ");
    var tail := if conflict != "" then
        " on conflict (" + conflict + ") do update set (" + cols + ") = (" + Join(UpdateNames(row), ", ") + ")"
      else "";
    assert InsertRow(table, conflict, row) == ("insert into " + table + " ") + "(" + cols + ")" + (" values (" + vals + ")" + tail) by {
      hide ColumnNames, UpdateNames, ValueTexts, Join;
    }
    hide ColumnNames, UpdateNames, ValueTexts, Join, ElementList, InsertRow, IndexText.ListOf, IndexText.Listable;
    IndexText.ListReadsBack(ColumnNames(row));
    FirstGroup("insert into " + table + " ", cols, " values (" + vals + ")" + tail);
  }

  /** The part behind the values, group by group. */
  function Upsert(conflict: string, cols: string, ups: string): string {
    " on conflict " + "(" + conflict + ")" + (" do update set " + "(" + cols + ")" + (" = " + "(" + ups + ")" + ""))
  }

  lemma UpsertIs(conflict: string, cols: string, ups: string)
    ensures " on conflict (" + conflict + ") do update set (" + cols + ") = (" + ups + ")" == Upsert(conflict, cols, ups)
  {
    assert " on conflict (" == " on conflict " + "(" && ") do update set (" == ")" + " do update set " + "(";
    assert ") = (" == ")" + " = " + "(";
  }

  lemma BehindIs(table: string, conflict: string, row: seq<SeedColumn>)
    ensures Behind(table, conflict, row) ==
      if conflict == "" then "" else Upsert(conflict, Join(ColumnNames(row), ", "), Join(UpdateNames(row), ", "))
  {
    var cols, ups := Join(ColumnNames(row), ", "), Join(UpdateNames(row), ", ");
    UpsertIs(conflict, cols, ups);
    var front := "insert into " + table + " (" + cols + ") values (" + Join(ValueTexts(row), ", ") + ")";
    var tail := if conflict != "" then " on conflict (" + conflict + ") do update set (" + cols + ") = (" + ups + ")" else "";
    assert InsertRow(table, conflict, row) == front + tail;
    hide ColumnNames, UpdateNames, ValueTexts, Join, InsertRow, Upsert;
    assert (front + tail)[|front|..] == tail;
  }

  /** Without a key to conflict on nothing follows; with one, every column is set to the row's own value. */
  lemma ConflictReadsBack(table: string, conflict: string, row: seq<SeedColumn>)
    requires PlainNames(row) && Balanced(conflict)
    ensures conflict == "" ==> Behind(table, conflict, row) == ""
    ensures conflict != "" ==>
      var u := Behind(table, conflict, row); var set_ := BehindGroup(u);
      && ElementList(u) == conflict
      && IndexText.ListOf(ElementList(set_)) == ColumnNames(row)
      && IndexText.ListOf(ElementList(BehindGroup(set_))) == UpdateNames(row)
  {
    BehindIs(table, conflict, row);
    hide Behind, BehindGroup, ElementList, ColumnNames, UpdateNames, Join, IndexText.ListOf, IndexText.Listable;
    IndexText.ListReadsBack(ColumnNames(row));
    IndexText.ListReadsBack(UpdateNames(row));
    var cols, ups := Join(ColumnNames(row), ", "), Join(UpdateNames(row), ", ");
    FirstGroup(" = ", ups, "");
    FirstGroup(" do update set ", cols, " = " + "(" + ups + ")" + "");
    FirstGroup(" on conflict ", conflict, " do update set " + "(" + cols + ")" + (" = " + "(" + ups + ")" + ""));
  }
}
