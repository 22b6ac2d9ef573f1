/** Printing the element list of an index and reading it back from the catalog's definition. */
module IndexElements {
  import opened Text
  import opened ElementLists
  import opened Comparators

  // ----- printing ----------------------------------------------------------------------

  datatype IndexSpec = IndexSpec(
    name: string, isUnique: bool, method_: string, columns: seq<string>,
    sortedColumns: seq<IndexColumn>, expressions: seq<string>, withOptions: seq<(string, string)>, where_: string)

  function SortText(sort: string): string {
    var dir := Upper(Trim(sort));
    if dir == "DESC" then " desc" else if dir == "ASC" then " asc" else ""
  }

  function NullsText(nulls: string): string {
    var n := Upper(Trim(nulls));
    if n == "FIRST" then " nulls first" else if n == "LAST" then " nulls last" else ""
  }

  function SortedElement(sc: IndexColumn): string {
    var op := Lower(Trim(sc.opClass));
    sc.column + (if op != "" then " " + op else "") + SortText(sc.sort) + NullsText(sc.nulls)
  }

  function SortedElements(scs: seq<IndexColumn>): seq<string> {
    if scs == [] then [] else [SortedElement(scs[0])] + SortedElements(scs[1..])
  }

  function ExpressionElements(xs: seq<string>): seq<string> {
    if xs == [] then [] else ["(" + Trim(xs[0]) + ")"] + ExpressionElements(xs[1..])
  }

  function BuildIndexElements(ix: IndexSpec): seq<string> {
    ix.columns + SortedElements(ix.sortedColumns) + ExpressionElements(ix.expressions)
  }

  function WithTexts(options: seq<(string, string)>): seq<string> {
    if options == [] then [] else [options[0].0 + " = " + options[0].1] + WithTexts(options[1..])
  }

  /** Everything in front of the element list; the table comes quoted. */
  function IndexHead(table: string, ix: IndexSpec): string {
    var m := Lower(Trim(ix.method_));
    "create " + (if ix.isUnique then "unique " else "") + "index " + ix.name + " on " + table
    + (if m != "" && m != "btree" then " using " + "\"" + m + "\"" else "") + " "
  }

  function IndexTail(ix: IndexSpec): string {
    (if ix.withOptions == [] then "" else " with (" + Join(WithTexts(ix.withOptions), ", ") + ")")
    + (if Trim(ix.where_) == "" then "" else " where " + Trim(ix.where_))
  }

  function AddIndexStatement(table: string, ix: IndexSpec): string {
    IndexHead(table, ix) + "(" + Join(BuildIndexElements(ix), ", ") + ")" + IndexTail(ix)
  }

  // ----- reading -----------------------------------------------------------------------

  predicate OrderingKeyword(w: string) {
    w == "asc" || w == "desc" || w == "nulls" || w == "first" || w == "last"
  }

  /** The first field that is not an ordering keyword. */
  function OpClassOf(fields: seq<string>): string {
    if fields == [] then ""
    else if !OrderingKeyword(Lower(fields[0])) then Lower(fields[0])
    else OpClassOf(fields[1..])
  }

  function SortOf(upper: string): string {
    if Contains(upper, " DESC") then "DESC" else if Contains(upper, " ASC") then "ASC" else ""
  }

  function NullsOf(upper: string): string {
    if Contains(upper, "NULLS FIRST") then "FIRST" else if Contains(upper, "NULLS LAST") then "LAST" else ""
  }

  function SortedColumnOf(e: string): IndexColumn {
    var fields := Fields(e);
    if fields == [] then IndexColumn("", "", "", "")
    else IndexColumn(fields[0], OpClassOf(fields[1..]), SortOf(Upper(e)), NullsOf(Upper(e)))
  }

  method ParseSortedColumnElement(e: string) returns (col: IndexColumn)
    ensures col == SortedColumnOf(e)
  {
    hide Fields, Contains, Upper, Lower, OrderingKeyword;
    var fields := Fields(e);
    if |fields| == 0 {
      return IndexColumn("", "", "", "");
    }
    var opClass := "";
    var i := 1;
    while i < |fields|
      invariant 1 <= i <= |fields|
      invariant opClass == "" && OpClassOf(fields[1..]) == OpClassOf(fields[i..])
    {
      assert fields[i..][1..] == fields[i + 1..];
      if !OrderingKeyword(Lower(fields[i])) {
        opClass := Lower(fields[i]);
        break;
      }
      i := i + 1;
    }
    var upper := Upper(e);
    col := IndexColumn(fields[0], opClass, SortOf(upper), NullsOf(upper));
  }

  predicate IsExpression(e: string) {
    '(' in e
  }

  predicate HasBlank(e: string) {
    ' ' in e || '\t' in e
  }

  predicate Rich(es: seq<string>) {
    exists i :: 0 <= i < |es| && (IsExpression(es[i]) || HasBlank(es[i]))
  }

  predicate HasExpression(es: seq<string>) {
    exists i :: 0 <= i < |es| && IsExpression(es[i])
  }

  predicate HasPlain(es: seq<string>) {
    exists i :: 0 <= i < |es| && !IsExpression(es[i])
  }

  predicate MentionsOrdering(e: string) {
    var u := Upper(e);
    HasBlank(u) && (Contains(u, " ASC") || Contains(u, " DESC") || Contains(u, "NULLS"))
  }

  predicate PlainMentionsOrdering(es: seq<string>) {
    exists i :: 0 <= i < |es| && !IsExpression(es[i]) && MentionsOrdering(es[i])
  }

  function PlainColumns(es: seq<string>): seq<IndexColumn> {
    if es == [] then []
    else (if IsExpression(es[0]) then [] else [SortedColumnOf(es[0])]) + PlainColumns(es[1..])
  }

  function ExpressionsOf(es: seq<string>): seq<string> {
    if es == [] then []
    else (if IsExpression(es[0]) then [es[0]] else []) + ExpressionsOf(es[1..])
  }

  function ElementsOf(es: seq<string>): (seq<IndexColumn>, seq<string>) {
    if !Rich(es) then ([], [])
    else if HasExpression(es) && HasPlain(es) && !PlainMentionsOrdering(es) then ([], es)
    else (PlainColumns(es), ExpressionsOf(es))
  }

  function ParsedElements(def: string): (seq<IndexColumn>, seq<string>) {
    var body := ElementList(def);
    if body == "" then ([], []) else ElementsOf(TrimEach(SplitTop(body)))
  }

  method TrimAll(parts: seq<string>) returns (es: seq<string>)
    ensures es == TrimEach(parts)
  {
    hide Trim;
    es := [];
    assert parts[0..] == parts;
    for i := 0 to |parts|
      invariant es + TrimEach(parts[i..]) == TrimEach(parts)
    {
      assert parts[i..][1..] == parts[i + 1..] && parts[i..][0] == parts[i];
      es := es + [Trim(parts[i])];
    }
    assert parts[|parts|..] == [];
  }

  method ParseIndexElements(def: string) returns (sortedColumns: seq<IndexColumn>, expressions: seq<string>)
    ensures (sortedColumns, expressions) == ParsedElements(def)
  {
    hide ElementList, SplitTop, TrimEach, MentionsOrdering, SortedColumnOf, IsExpression, HasBlank;
    var body := ExtractIndexElementList(def);
    if body == "" {
      return [], [];
    }
    var raw := SplitTopLevelCommas(body);
    var es := TrimAll(raw);
    var hasRich, hasExpr, hasPlain, ordered := false, false, false, false;
    for i := 0 to |es|
      invariant hasRich <==> exists k :: 0 <= k < i && (IsExpression(es[k]) || HasBlank(es[k]))
      invariant hasExpr <==> exists k :: 0 <= k < i && IsExpression(es[k])
      invariant hasPlain <==> exists k :: 0 <= k < i && !IsExpression(es[k])
      invariant ordered <==> exists k :: 0 <= k < i && !IsExpression(es[k]) && MentionsOrdering(es[k])
    {
      if IsExpression(es[i]) {
        hasExpr := true;
        hasRich := true;
      } else {
        hasPlain := true;
        if HasBlank(es[i]) {
          hasRich := true;
        }
        if MentionsOrdering(es[i]) {
          ordered := true;
        }
      }
    }
    if !hasRich {
      return [], [];
    }
    if hasExpr && hasPlain && !ordered {
      return [], es;
    }
    sortedColumns, expressions := SplitElements(es);
  }

  method SplitElements(es: seq<string>) returns (sortedColumns: seq<IndexColumn>, expressions: seq<string>)
    ensures sortedColumns == PlainColumns(es) && expressions == ExpressionsOf(es)
  {
    hide SortedColumnOf, IsExpression;
    sortedColumns, expressions := [], [];
    assert es[0..] == es;
    for i := 0 to |es|
      invariant sortedColumns + PlainColumns(es[i..]) == PlainColumns(es)
      invariant expressions + ExpressionsOf(es[i..]) == ExpressionsOf(es)
    {
      assert es[i..][1..] == es[i + 1..] && es[i..][0] == es[i];
      if IsExpression(es[i]) {
        expressions := expressions + [es[i]];
      } else {
        var col := ParseSortedColumnElement(es[i]);
        sortedColumns := sortedColumns + [col];
      }
    }
    assert es[|es|..] == [];
  }
}
