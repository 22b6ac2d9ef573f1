/** Inputs at which the code does not do what one would expect, one lemma each. */
module FailingInputs {
  import opened Options
  import opened Text
  import opened Parens
  import opened Comparators
  import opened IndexElements
  import opened IndexRoundTrip
  import opened IndexListLaws
  import opened Names
  import opened DdlSplit
  import opened DdlRoundTrip
  import opened FunctionText
  import opened FunctionLaws
  import opened Diff
  import opened DiffLaws
  import opened IndexPlan
  import opened TablePlan
  import opened Settling
  import opened StoredIndexes
  import opened QuoteLaws
  import opened StoredExclusions
  import opened Canonical
  import opened CanonicalLaws
  import opened ElementLists
  import opened ExclusionText
  import opened NewTables
  import AsDeclared

  // ----- names the server changes -------------------------------------------------------------

  function ZeroDigest(s: string): string {
    seq(64, i => '0')
  }

  lemma ZeroDigestIsHex()
    ensures HexDigest(ZeroDigest)
  {
  }

  function NothingReserved(s: string): bool {
    false
  }

  /** A server that stores what it is told, as it is written. */
  function PlainServer(): (e: Server)
    ensures HexDigest(e.hash)
  {
    ZeroDigestIsHex();
    Server(ZeroDigest, "t",
      (d: CheckSpec) => ListedCheck(ZeroDigest, "t", d),
      FoldedIndex,
      (d: ExclusionConstraint) => ListedExclusion(NothingReserved, ZeroDigest, "t", d),
      (d: TriggerSpec) => Trigger(Truncated(d.name), if d.text.Ok? then d.text.value else ""),
      (d: PolicySpec) => ToPolicy(d).(name := Truncated(d.name)))
  }

  function FoldedIndex(d: IndexSpec): Index {
    ToIndex(d).(name := Folded(d.name))
  }

  function LongName(): (n: string)
    ensures |n| == 64
  {
    seq(64, i => 'a')
  }

  lemma BalancedLetter()
    ensures Trim("x") == "x" && Balanced("x")
  {
    TrimIdentity("x");
    assert "x"[1..] == "";
  }

  /** A check with an explicit name of 64 bytes is planned again and again. */
  lemma LongCheckNeverSettles()
    ensures !Settles(Checks(PlainServer()), [CheckSpec(LongName(), "x")], [], map[])
  {
    var e := PlainServer();
    var ds := [CheckSpec(LongName(), "x")];
    BalancedLetter();
    assert ds[0].expression == "x";
    hide Settles, HexDigest, Renders, GenerateCheckName, ListedCheck, LongName, Balanced, Trim;
    StoredChecksRender(e, ds);
    GeneratedChecksSettle(e, ds, [], map[]);
    assert |ds[0].name| > MAX_IDENTIFIER;
  }

  function MixedCaseIndex(): IndexSpec {
    IndexSpec("I", true, "", ["x"], [], [], [], "")
  }

  lemma MixedCaseIsFolded()
    ensures Lower("I") != "I"
  {
    LowerAt("I", 0);
  }

  lemma FoldedIndexesRender(ds: seq<IndexSpec>)
    ensures Renders(Indexes(FoldedIndex), ds)
  {
    var f := Indexes(FoldedIndex);
    hide Folded, IndexEquals;
    forall i | 0 <= i < |ds|
      ensures f.nameIn(f.render(ds[i])) == f.filed(f.nameOf(ds[i]))
      ensures FiledVerbatim(f, ds[i]) ==> f.same(ds[i], f.render(ds[i]))
    {
      IndexEqualsReflexive(ToIndex(ds[i]));
    }
  }

  /** An index with an upper-case letter in its name never settles on a table without it... */
  lemma MixedCaseNeverSettles()
    ensures !IndexesSettle(FoldedIndex, [MixedCaseIndex()], [], [], IndexCatalog(map[], {}))
  {
    var ds, cat := [MixedCaseIndex()], IndexCatalog(map[], {});
    var f := Indexes(FoldedIndex);
    FoldedIndexesRender(ds);
    MixedCaseIsFolded();
    assert ds[0].name == "I" && !FiledAsDeclared(ds[0].name) && !Kept(f, ds[0], cat.indexes);
    hide IndexesSettle, Renders, Lower, ConfusedKept, FiledAsDeclared;
    IndexPlanSettlesIff(FoldedIndex, ds, [], [], cat);
  }

  /** ... but an unnamed unique one does where `create table` stored it, quoted under its generated name, whatever its case. */
  lemma StoredUnnamedSettles(hash: string -> string, table: string, d: IndexSpec)
    requires HexDigest(hash) && PlainUnique(d) && d.name == ""
    ensures var n := GenerateIndexName(hash, table, d.columns); var c := ListedConstraint(UniqueConstraint(n, d.columns));
      var ds := [WithName(hash, table, d)];
      IndexesSettle(FoldedIndex, ds, [c], [n], IndexCatalog(map[n := c], {n})) && IndexStatements(true, ds, [c], [n]) == []
  {
    var n := GenerateIndexName(hash, table, d.columns);
    var c, named := ListedConstraint(UniqueConstraint(n, d.columns)), WithName(hash, table, d);
    assert named.name == n && c.name == n;
    hide IndexesSettle, IndexStatements, GenerateIndexName, PlainUnique, HexDigest, WithName, Kept, Indexes;
    GeneratedNameIsKept(hash, table, FoldedIndex, d, map[n := c]);
    OneKeptSettles(n, named, c);
  }

  lemma OneKeptSettles(n: string, d: IndexSpec, c: Index)
    requires d.name == n && c.name == n && Kept(Indexes(FoldedIndex), d, map[n := c])
    ensures IndexesSettle(FoldedIndex, [d], [c], [n], IndexCatalog(map[n := c], {n})) && IndexStatements(true, [d], [c], [n]) == []
  {
    var ds, cur, cat := [d], [c], IndexCatalog(map[n := c], {n});
    var f := Indexes(FoldedIndex);
    assert f.nameIn(cur[0]) == n && f.nameOf(ds[0]) == n;
    assert Lists(f, cur, cat.indexes) && DistinctDesired(f, ds) && cat.indexes.Keys == Diff.Names(f, ds);
    assert forall m :: !Confused(cat, [n], m);
    hide IndexesSettle, Renders, IndexEquals, FiledAsDeclared, IndexStatements, Lists, DistinctDesired, Indexes, Plan, Kept;
    FoldedIndexesRender(ds);
    IndexPlanSettlesIff(FoldedIndex, ds, cur, [n], cat);
    AsDeclared.IndexesPlanNothingIff(FoldedIndex, ds, cur, [n], cat.indexes);
  }

  /** An inline unique index with a name of its own is stored under the generated one, and added again by the next plan. */
  lemma NamedInlineIsAddedAgain(hash: string -> string, constraints: seq<string>)
    requires HexDigest(hash)
    ensures var d := NamedInline(); PlainUnique(d) && AddIndex(d) in IndexStatements(true, [d],
        [ListedConstraint(UniqueConstraint(GenerateIndexName(hash, "t", d.columns), d.columns))], constraints)
  {
    TrimIdentity("");
    GeneratedIsLong(hash, NamedInline().columns);
    hide IndexStatements, GenerateIndexName, HexDigest, Trim, Lower;
    var d := NamedInline();
    var n := GenerateIndexName(hash, "t", d.columns);
    assert PlainUnique(d) && |d.name| == 1 && d.name != n;
    hide PlainUnique;
    AddedUnlessListed(n, d, constraints);
  }

  function NamedInline(): IndexSpec {
    IndexSpec("u", true, "", ["x"], [], [], [], "")
  }

  lemma AddedUnlessListed(n: string, d: IndexSpec, constraints: seq<string>)
    requires d.name != n
    ensures AddIndex(d) in IndexStatements(true, [d], [ListedConstraint(UniqueConstraint(n, d.columns))], constraints)
  {
    var cur := [ListedConstraint(UniqueConstraint(n, d.columns))];
    var f := Indexes(FoldedIndex);
    assert f.nameIn(cur[0]) == n && Lists(f, cur, map[n := cur[0]]);
    hide IndexStatements, Lists;
    assert [d][0] == d;
    ExplicitNameIsAddedAgain(FoldedIndex, [d], cur, constraints, map[n := cur[0]], 0);
  }

  lemma GeneratedIsLong(hash: string -> string, columns: seq<string>)
    requires HexDigest(hash)
    ensures |GenerateIndexName(hash, "t", columns)| > 1
  {
    hide Join, BareTableName;
  }

  /** A plain index that shares its name with a constraint is removed as that constraint, and stays. */
  lemma SharedNameLeavesIndex()
    ensures var c := PlainIndex("n", ["x"]); var cat := IndexCatalog(map["n" := c], {});
      var plan := IndexStatements(true, [], [c], ["n"]);
      plan == [DropConstraint("n")] && IndexExec(FoldedIndex, cat, plan) == Some(cat)
  {
    var c := PlainIndex("n", ["x"]);
    var cat := IndexCatalog(map["n" := c], {});
    var cur, constraints := [c], ["n"];
    assert constraints[0] == "n" && cur[1..] == [];
    assert ForExistingIndex(cur[0], [], [], constraints) == [DropConstraint("n")];
    assert ExistingIndexes(cur, [], [], constraints) == [DropConstraint("n")] by { assert ExistingIndexes([], [], [], constraints) == []; }
    assert DesiredIndexes(true, [], cur, constraints) == [] && DroppedIndexes(true, [], cur) == [];
    assert IndexStatements(true, [], cur, constraints) == [] + [DropConstraint("n")];
    assert IndexExec(FoldedIndex, cat, [DropConstraint("n")]) == Some(cat);
  }

  function UpperColumn(): IndexSpec {
    IndexSpec("i", false, "", ["A"], [], [], [], "")
  }

  /** An index on an upper-case column is stored on the folded column and never compares equal. */
  lemma UpperColumnDiffers(others: seq<string>)
    ensures !IndexEquals(ListedIndex("t", others, UpperColumn()), ToIndex(UpperColumn()))
  {
    var d := UpperColumn();
    assert d.columns[0] == "A" && Folded("A") != "A" by { LowerAt("A", 0); }
    assert Name("A");
    hide IndexEquals, ListedIndex, ToIndex, Folded, Name, FiledAsDeclared;
    StoredIndexComparesIff("t", others, d);
  }

  function SpeltOutNulls(): IndexSpec {
    IndexSpec("i", false, "", [], [IndexColumn("c", "", "desc", "first")], [], [], "")
  }

  lemma DescendingColumn()
    ensures var sc := IndexColumn("c", "", "desc", "first"); ValidColumn(sc) && !ColumnSurvives(sc)
  {
    TrimIdentity("");
    TrimIdentity("desc");
    TrimIdentity("first");
    hide Trim;
    assert Lower("") == "" && Upper("desc") == "DESC" && Upper("first") == "FIRST";
    assert Name("c");
  }

  lemma SpeltOutIsReadable()
    ensures Readable("t", SpeltOutNulls()) && !Survives(SpeltOutNulls())
  {
    var d := SpeltOutNulls();
    DescendingColumn();
    assert d.sortedColumns[0] == IndexColumn("c", "", "desc", "first");
    hide ValidColumn, ColumnSurvives, Ordered, StoredColumn;
  }

  /** Nulls first behind a descending direction is implied, so it is not listed and never compares equal. */
  lemma SpeltOutNullsDiffer(others: seq<string>)
    ensures !IndexEquals(ListedIndex("t", others, SpeltOutNulls()), ToIndex(SpeltOutNulls()))
  {
    hide *;
    SpeltOutIsReadable();
    StoredIndexComparesIff("t", others, SpeltOutNulls());
  }

  // ----- texts that do not come back ------------------------------------------------------------

  function TwoLineFunction(): FunctionSchema {
    FunctionSchema("", [], "", false, true, "a\nb", "sql")
  }

  lemma TwoLines()
    ensures Trim("a\nb") == "a\nb" && '\n' in "a\nb" && !Contains("a\nb", TAG)
  {
    TrimIdentity("a\nb");
    assert "a\nb"[1] == '\n';
    assert |TAG| > 3;
  }

  lemma HeaderIsOneLine(name: string)
    requires OneLine(name)
    ensures OneLine(Header(name, TwoLineFunction()))
  {
  }

  /** A function body of two lines is replaced by every plan. */
  lemma TwoLineFunctionNeverSettles(name: string)
    requires OneLine(name)
    ensures var f := TwoLineFunction(); !FunctionDefinitionsEqual(Flatten(CreateFunctionStatements(name, f)[0] + ""), f)
  {
    TwoLines();
    HeaderIsOneLine(name);
    assert OneLine("sql") && Trimmed("sql");
    hide FunctionDefinitionsEqual, Flatten, Header, CreateFunctionStatements, Trim, Contains, MentionsDefiner;
    FunctionPlanSettlesIff(name, TwoLineFunction(), "");
  }

  lemma LoudFront(ps: seq<Piece>)
    requires |ps| == 2 && ps[0].Line? && OpeningTag(Trim(ps[0].text + ";")) != ""
    ensures !QuietFront(ps)
  {
    hide Trim, OpeningTag;
    assert !Quiet(ps[0]);
  }

  /** A statement with two dollars swallows the statement behind it. */
  lemma TwoDollarsSwallow(next: string)
    requires SingleLine(next) && Trim(next) != ""
    ensures var ps := [Line("a$b$"), Line(next)]; Statements(Stored(ps)) != Expected(ps)
  {
    var ps := [Line("a$b$"), Line(next)];
    TrimIdentity("a$b$");
    assert "a" + "$" + "b" + "$" + ";" == "a$b$;";
    assert forall i :: 0 <= i < |ps| ==> ValidPiece(ps[i]);
    assert "a$b$" + ";" == "a$b$;" && Trimmed("a$b$;");
    hide *;
    TwoDollarsOpen("a", "b", ";");
    LoudFront(ps);
    SplitInvertsJoinIff(ps);
  }

  function DefaultIndex(): IndexSpec {
    IndexSpec("i", false, "", [], [IndexColumn("c", "", "", "")], [], [], "")
  }

  lemma DefaultColumn()
    ensures var sc := IndexColumn("c", "", "", ""); ValidColumn(sc) && !Ordered(sc)
  {
    TrimIdentity("");
    hide Trim;
    assert Lower("") == "" && Upper("") == "";
    assert Name("c");
  }

  /** A sorted column without operator class, direction or nulls order is not read back. */
  lemma DefaultIndexDoesNotReadBack()
    ensures var (sorted, expressions) := ParsedElements(AddIndexStatement("t", DefaultIndex()));
      !SortedColumnsEqual(sorted, DefaultIndex().sortedColumns)
  {
    var ix := DefaultIndex();
    DefaultColumn();
    assert ix.sortedColumns[0] == IndexColumn("c", "", "", "");
    hide ValidColumn, Ordered, ParsedElements, AddIndexStatement, SortedColumnsEqual;
    SortedIndexReadsBackIff("t", ix);
  }

  // ----- comparisons -----------------------------------------------------------------------------

  /** Role lists that name the same roles, one of them twice, do not compare equal. */
  lemma RepeatedRoleDiffers()
    ensures Elements(["x", "x"]) == Elements(["x"]) && !RolesEqual(["x", "x"], ["x"])
  {
    var xx, x := ["x", "x"], ["x"];
    assert xx[0] == "x" && xx[1] == "x" && x[0] == "x";
    RolesEqualIff(xx, x);
    hide RolesEqual;
    assert |multiset(xx)| == 2 && |multiset(x)| == 1;
  }

  /** An item with a column and another expression: the expression is written, the column compared. */
  function TwoElements(): ExclusionConstraint {
    ExclusionConstraint("n", "gist", [ExclusionItem("a", "b", "=")], "")
  }

  lemma OneLetter(x: string)
    requires |x| == 1 && 'a' <= x[0] <= 'z'
    ensures Canonicalize(x) == x
  {
    hide Canonicalize;
    CanonicalFixedPoint(x);
  }

  lemma WrittenTwoElements()
    ensures WrittenItems(NothingReserved, TwoElements().items) == [Item("(b)", "=")]
  {
    TrimIdentity("b");
    TrimIdentity("=");
    hide Trim;
    assert "(" + "b" + ")" == "(b)";
    var items := TwoElements().items;
    assert items[1..] == [];
  }

  lemma ShortText(s: string)
    requires |s| < 4
    ensures NoWord(s, "where") && NoTopWith(s)
  {
  }

  /** A short element under an equality operator can be printed. */
  lemma ShortItemPrints(d: ExclusionConstraint, element: string)
    requires d.using == "gist" && d.where_ == "" && WrittenItems(NothingReserved, d.items) == [Item(element, "=")]
    requires 0 < |element| < 4 && Element(element) && Trimmed(element)
    ensures Printable(NothingReserved, d)
  {
    ShortText(element);
    ShortText("=");
    assert Element("=") && Trimmed("=") by { PlainIsElement("="); }
    Gist();
    assert Trim("") == "" && Balanced("");
    assert CatalogItem(Item(element, "="));
    hide Trim, WrittenItems, MethodName, NormalizeUsing, CatalogItem, Balanced;
  }

  lemma TwoElementsPrint()
    ensures Printable(NothingReserved, TwoElements())
  {
    hide Element, Trimmed, Printable, WrittenItems;
    WrittenTwoElements();
    WrappedLetter();
    ShortItemPrints(TwoElements(), "(b)");
  }

  lemma WrappedLetter()
    ensures Element("(b)") && Trimmed("(b)")
  {
    assert "b"[1..] == "";
    assert "(" + "b" + ")" == "(b)";
    WrappedIsElement("b");
  }

  lemma Gist()
    ensures NormalizeUsing("gist") == "gist" && MethodName("gist")
  {
    TrimIdentity("gist");
    hide Trim;
    LowerIs("gist", "gist");
    hide Lower;
  }

  lemma TwoElementsNeverSettle()
    ensures var d := TwoElements(); !ExclusionEquals(FromParsed("n", Parsed(StoredText(NothingReserved, d))), d)
  {
    var d := TwoElements();
    OneLetter("a");
    OneLetter("b");
    TwoElementsPrint();
    assert d.items[0] == ExclusionItem("a", "b", "=") && "a"[0] != "b"[0];
    hide Canonicalize, ExclusionEquals, Parsed, StoredText, Printable, FromParsed;
    MisstoredItemNeverCompares(NothingReserved, "n", d, 0);
  }

  /** An upper-case column is printed in quotes and compared without. */
  function UpperItem(): ExclusionConstraint {
    ExclusionConstraint("n", "gist", [ExclusionItem("A", "", "=")], "")
  }

  lemma WrittenUpperItem()
    ensures WrittenItems(NothingReserved, UpperItem().items) == [Item("\"A\"", "=")]
  {
    TrimIdentity("=");
    hide Trim;
    var items := UpperItem().items;
    assert "A"[0] == 'A';
    assert Quoted("A") == "\"A\"";
    assert items[1..] == [];
  }

  lemma QuotedLetter()
    ensures Element("\"A\"") && Trimmed("\"A\"")
  {
    PlainIsElement("\"A\"");
  }

  lemma UpperItemPrints()
    ensures Printable(NothingReserved, UpperItem())
  {
    hide Element, Trimmed, Printable, WrittenItems;
    WrittenUpperItem();
    QuotedLetter();
    ShortItemPrints(UpperItem(), "\"A\"");
  }

  lemma UpperItemNeverSettles()
    ensures var d := UpperItem(); !ExclusionEquals(FromParsed("n", Parsed(StoredText(NothingReserved, d))), d)
  {
    var d := UpperItem();
    UpperItemPrints();
    assert d.items[0] == ExclusionItem("A", "", "=") && "A"[0] == 'A';
    hide Canonicalize, ExclusionEquals, Parsed, StoredText, Printable, FromParsed;
    MisstoredItemNeverCompares(NothingReserved, "n", d, 0);
  }
}
