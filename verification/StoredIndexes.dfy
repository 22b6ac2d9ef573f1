/** What the server stores for a declared index, and how it compares once read back. */
module StoredIndexes {
  import opened Text
  import opened Parens
  import opened ElementLists
  import opened Canonical
  import opened Comparators
  import opened IndexElements
  import opened IndexRoundTrip
  import opened IndexListLaws
  import opened Names
  import opened Diff
  import opened IndexPlan
  import opened Settling

  // ----- the stored definition ---------------------------------------------------------------

  /** The order of nulls that a direction implies. */
  function DefaultNulls(dir: string): string {
    if dir == "DESC" then "FIRST" else "LAST"
  }

  /** The server folds an unquoted column and leaves out a direction and an order of nulls that are implied. */
  function StoredColumn(sc: IndexColumn): IndexColumn {
    var dir, nulls := Upper(Trim(sc.sort)), Upper(Trim(sc.nulls));
    IndexColumn(Folded(sc.column), sc.opClass, if dir == "DESC" then "DESC" else "", if nulls == DefaultNulls(dir) then "" else nulls)
  }

  function StoredColumns(scs: seq<IndexColumn>): (r: seq<IndexColumn>)
    ensures |r| == |scs|
  {
    if scs == [] then [] else [StoredColumn(scs[0])] + StoredColumns(scs[1..])
  }

  function FoldEach(cs: seq<string>): (r: seq<string>)
    ensures |r| == |cs|
  {
    if cs == [] then [] else [Folded(cs[0])] + FoldEach(cs[1..])
  }

  /** The declaration as the server stores it. */
  function StoredSpec(d: IndexSpec): IndexSpec {
    d.(columns := FoldEach(d.columns), sortedColumns := StoredColumns(d.sortedColumns))
  }

  /** The listing of an index: its elements are read from the stored definition; `others` names the elements of an extended one. */
  function ListedIndex(table: string, others: seq<string>, d: IndexSpec): Index {
    var elements := ParsedElements(AddIndexStatement(table, StoredSpec(d)));
    Index(if d.columns == [] then others else FoldEach(d.columns),
      Folded(d.name), d.isUnique, d.method_, d.where_, elements.1, elements.0)
  }

  ghost predicate PlainColumnsOnly(d: IndexSpec) {
    d.columns != [] && d.sortedColumns == [] && d.expressions == [] && forall i :: 0 <= i < |d.columns| ==> Name(d.columns[i])
  }

  ghost predicate SortedColumnsOnly(d: IndexSpec) {
    && d.columns == [] && d.sortedColumns != [] && d.expressions == []
    && forall i :: 0 <= i < |d.sortedColumns| ==> ValidColumn(d.sortedColumns[i])
  }

  ghost predicate ExpressionsOnly(d: IndexSpec) {
    && d.columns == [] && d.sortedColumns == [] && d.expressions != []
    && forall i :: 0 <= i < |d.expressions| ==> Balanced(Trim(d.expressions[i]))
  }

  /** An index of plain columns, of sorted columns or of balanced expressions. */
  ghost predicate Readable(table: string, d: IndexSpec) {
    PlainHead(table, d) && (PlainColumnsOnly(d) || SortedColumnsOnly(d) || ExpressionsOnly(d))
  }

  /** The column is filed under its own name, and no order of nulls is spelt out that is implied. */
  predicate ColumnSurvives(sc: IndexColumn) {
    Folded(sc.column) == sc.column && Upper(Trim(sc.nulls)) != DefaultNulls(Upper(Trim(sc.sort)))
  }

  /** Every sorted column survives, and one of them still carries an ordering in the stored definition. */
  ghost predicate SortedSurvive(scs: seq<IndexColumn>) {
    && (forall i :: 0 <= i < |scs| ==> ColumnSurvives(scs[i]))
    && exists i :: 0 <= i < |scs| && Ordered(StoredColumn(scs[i]))
  }

  // ----- one column -----------------------------------------------------------------------------

  lemma FoldedName(c: string)
    requires Name(c)
    ensures Name(Folded(c))
  {
    var l := Lower(c);
    hide Lower;
    forall i | 0 <= i < |l| ensures !IsSpace(l[i]) && l[i] != ',' && l[i] != '(' && l[i] != ')' {
      LowerAt(c, i);
      assert !IsSpace(c[i]);
    }
  }

  lemma StoredColumnIsValid(sc: IndexColumn)
    requires ValidColumn(sc)
    ensures ValidColumn(StoredColumn(sc))
  {
    var st := StoredColumn(sc);
    hide Lower, Upper, Trim, Folded, Name, StartsWithOrderingKeyword;
    FoldedName(sc.column);
    KeywordNormal(st.sort);
    KeywordNormal(st.nulls);
  }

  lemma StoredColumnComparesIff(sc: IndexColumn)
    requires ValidColumn(sc)
    ensures SortedColumnEqual(StoredColumn(sc), sc) <==> ColumnSurvives(sc)
  {
    var st := StoredColumn(sc);
    hide Lower, Upper, Trim, Folded, Name, StartsWithOrderingKeyword;
    KeywordNormal(st.sort);
    KeywordNormal(st.nulls);
  }

  lemma {:induction false} StoredColumnsAt(scs: seq<IndexColumn>, i: nat)
    requires i < |scs|
    ensures StoredColumns(scs)[i] == StoredColumn(scs[i])
  {
    hide StoredColumn;
    if i > 0 {
      StoredColumnsAt(scs[1..], i - 1);
    }
  }

  lemma EqualEither(a: IndexColumn, b: IndexColumn, c: IndexColumn)
    requires SortedColumnEqual(a, b)
    ensures SortedColumnEqual(a, c) <==> SortedColumnEqual(b, c)
  {
    hide NormalizeSort, Upper, Lower, Trim;
  }

  lemma ReadColumnComparesIff(c: IndexColumn, sc: IndexColumn)
    requires SortedColumnEqual(c, StoredColumn(sc)) && ValidColumn(sc)
    ensures SortedColumnEqual(c, sc) <==> ColumnSurvives(sc)
  {
    hide SortedColumnEqual, ValidColumn, ColumnSurvives, StoredColumn;
    StoredColumnComparesIff(sc);
    EqualEither(c, StoredColumn(sc), sc);
  }

  /** Columns read back as stored compare to the declared ones as the stored ones do. */
  lemma ReadColumnsCompareIff(sorted: seq<IndexColumn>, scs: seq<IndexColumn>)
    requires SortedColumnsEqual(sorted, StoredColumns(scs)) && forall i :: 0 <= i < |scs| ==> ValidColumn(scs[i])
    ensures SortedColumnsEqual(sorted, scs) <==> forall i :: 0 <= i < |scs| ==> ColumnSurvives(scs[i])
  {
    hide *;
    ColumnsEqualIff(sorted, StoredColumns(scs));
    ColumnsEqualIff(sorted, scs);
    forall i | 0 <= i < |scs| ensures SortedColumnEqual(sorted[i], scs[i]) <==> ColumnSurvives(scs[i]) {
      StoredColumnsAt(scs, i);
      ReadColumnComparesIff(sorted[i], scs[i]);
    }
  }

  lemma ColumnsEqualIff(a: seq<IndexColumn>, b: seq<IndexColumn>)
    ensures SortedColumnsEqual(a, b) <==> |a| == |b| && forall i :: 0 <= i < |a| ==> SortedColumnEqual(a[i], b[i])
  {
    hide SortedColumnEqual;
  }

  // ----- the whole index -----------------------------------------------------------------------

  ghost predicate SomeOrdered(scs: seq<IndexColumn>) {
    exists i :: 0 <= i < |scs| && Ordered(scs[i])
  }

  lemma StoredIsSorted(table: string, d: IndexSpec)
    requires PlainHead(table, d) && SortedColumnsOnly(d)
    ensures PlainHead(table, StoredSpec(d)) && SortedColumnsOnly(StoredSpec(d))
    ensures StoredSpec(d).sortedColumns == StoredColumns(d.sortedColumns)
  {
    hide ValidColumn, StoredColumn, StoredColumns;
    var scs := d.sortedColumns;
    forall i | 0 <= i < |scs| ensures ValidColumn(StoredColumns(scs)[i]) {
      StoredColumnsAt(scs, i);
      StoredColumnIsValid(scs[i]);
    }
  }

  lemma StoredOrderedIff(scs: seq<IndexColumn>)
    ensures SomeOrdered(StoredColumns(scs)) <==> exists i :: 0 <= i < |scs| && Ordered(StoredColumn(scs[i]))
  {
    hide Ordered, StoredColumn, StoredColumns;
    forall i | 0 <= i < |scs| ensures StoredColumns(scs)[i] == StoredColumn(scs[i]) {
      StoredColumnsAt(scs, i);
    }
  }

  lemma SortedReadBackIff(table: string, d: IndexSpec)
    requires PlainHead(table, d) && SortedColumnsOnly(d)
    ensures var (sorted, expressions) := ParsedElements(AddIndexStatement(table, StoredSpec(d)));
      expressions == [] && (SortedColumnsEqual(sorted, d.sortedColumns) <==> SortedSurvive(d.sortedColumns))
  {
    var scs, stored := d.sortedColumns, StoredSpec(d);
    StoredIsSorted(table, d);
    hide ParsedElements, AddIndexStatement, ValidColumn, Ordered, SortedColumnsEqual, StoredColumns, StoredColumn, ColumnSurvives,
      StoredSpec, PlainHead;
    StoredOrderedIff(scs);
    SortedIndexReadsBackIff(table, stored);
    var (sorted, expressions) := ParsedElements(AddIndexStatement(table, stored));
    if SomeOrdered(stored.sortedColumns) {
      ReadColumnsCompareIff(sorted, scs);
    } else {
      UnorderedReadsNothing(table, stored);
      NothingEqualsSome(scs);
    }
  }

  lemma NothingEqualsSome(scs: seq<IndexColumn>)
    requires scs != []
    ensures !SortedColumnsEqual([], scs)
  {
  }

  /** Without any ordering nothing is read at all. */
  lemma UnorderedReadsNothing(table: string, ix: IndexSpec)
    requires PlainHead(table, ix) && ix.columns == [] && ix.expressions == []
    requires ix.sortedColumns != [] && forall i :: 0 <= i < |ix.sortedColumns| ==> ValidColumn(ix.sortedColumns[i])
    requires !exists i :: 0 <= i < |ix.sortedColumns| && Ordered(ix.sortedColumns[i])
    ensures ParsedElements(AddIndexStatement(table, ix)) == ([], [])
  {
    var scs := ix.sortedColumns;
    var es := SortedElements(scs);
    assert BuildIndexElements(ix) == es by { assert ExpressionElements([]) == []; }
    HeadHasNoParen(table, ix);
    hide ParsedElements, IndexHead, IndexTail, ValidColumn, Ordered, SortedElements, BuildIndexElements, PlainHead, Join;
    SortedElementTexts(scs);
    PrintedListParses(IndexHead(table, ix), es, IndexTail(ix));
    JoinedColumns(scs);
  }

  // ----- plain columns ---------------------------------------------------------------------------

  lemma {:induction false} FoldEachAt(cs: seq<string>, i: nat)
    requires i < |cs|
    ensures FoldEach(cs)[i] == Folded(cs[i])
  {
    hide Folded;
    if i > 0 {
      FoldEachAt(cs[1..], i - 1);
    }
  }

  lemma PlainNameText(c: string)
    requires Name(c)
    ensures Element(c) && Trimmed(c) && !IsExpression(c) && !HasBlank(c)
  {
    NameIsPlain(c);
    PlainIsElement(c);
    PlainHasNoParen(c);
  }

  /** Plain columns are read as no extended elements. */
  lemma PlainReadsNothing(table: string, ix: IndexSpec)
    requires PlainHead(table, ix) && PlainColumnsOnly(ix)
    ensures ParsedElements(AddIndexStatement(table, ix)) == ([], [])
  {
    var es := ix.columns;
    assert BuildIndexElements(ix) == es by { assert SortedElements([]) == [] && ExpressionElements([]) == []; }
    HeadHasNoParen(table, ix);
    assert es[0] != "" && Join(es, ", ") != "";
    hide ParsedElements, IndexHead, IndexTail, BuildIndexElements, PlainHead, Join, Name, Element, Trimmed, IsExpression, HasBlank;
    forall i | 0 <= i < |es| ensures Element(es[i]) && Trimmed(es[i]) && !IsExpression(es[i]) && !HasBlank(es[i]) {
      PlainNameText(es[i]);
    }
    PrintedListParses(IndexHead(table, ix), es, IndexTail(ix));
  }

  lemma FoldedPlain(d: IndexSpec)
    requires PlainColumnsOnly(d)
    ensures PlainColumnsOnly(StoredSpec(d))
  {
    hide Name, Folded, FoldEach;
    forall i | 0 <= i < |d.columns| ensures Name(FoldEach(d.columns)[i]) {
      FoldEachAt(d.columns, i);
      FoldedName(d.columns[i]);
    }
  }

  /** Folded columns are the declared ones exactly if none is changed by folding. */
  lemma FoldedColumnsEqualIff(cs: seq<string>)
    ensures ColumnsEqual(FoldEach(cs), cs) <==> forall i :: 0 <= i < |cs| ==> Folded(cs[i]) == cs[i]
  {
    hide Folded, FoldEach;
    var fs := FoldEach(cs);
    forall i | 0 <= i < |cs| ensures fs[i] == Folded(cs[i]) {
      FoldEachAt(cs, i);
    }
    if ColumnsEqual(fs, cs) {
      forall i | 0 <= i < |cs| ensures Folded(cs[i]) == cs[i] {
        assert cs[i] in fs;
        var k :| 0 <= k < |fs| && fs[k] == cs[i];
        FilingTwice(cs[k]);
      }
    }
  }

  // ----- every kind of index -----------------------------------------------------------------------

  /** Nothing the comparison looks at is lost or changed in the stored definition. */
  ghost predicate Survives(d: IndexSpec) {
    && (forall i :: 0 <= i < |d.columns| ==> Folded(d.columns[i]) == d.columns[i])
    && (d.sortedColumns != [] ==> SortedSurvive(d.sortedColumns))
  }

  lemma SortedComparesIff(table: string, others: seq<string>, d: IndexSpec)
    requires PlainHead(table, d) && SortedColumnsOnly(d)
    ensures IndexEquals(ListedIndex(table, others, d), ToIndex(d)) <==> FiledAsDeclared(d.name) && Survives(d)
  {
    FoldedVerbatimIff(d.name);
    hide Canonicalize, NormalizeIndexMethod, ParsedElements, AddIndexStatement, SortedColumnEqual, ValidColumn, PlainHead, Folded, Lower,
      ColumnsOf, SortedSurvive, StoredSpec;
    SortedReadBackIff(table, d);
  }

  lemma ExpressionsCompareIff(table: string, others: seq<string>, d: IndexSpec)
    requires PlainHead(table, d) && ExpressionsOnly(d)
    ensures IndexEquals(ListedIndex(table, others, d), ToIndex(d)) <==> FiledAsDeclared(d.name) && Survives(d)
  {
    FoldedVerbatimIff(d.name);
    assert StoredSpec(d) == d;
    hide Canonicalize, NormalizeIndexMethod, ParsedElements, AddIndexStatement, SortedColumnEqual, Balanced, Trim, PlainHead, Folded, Lower,
      ColumnsOf, StoredSpec;
    ExpressionIndexReadsBack(table, d);
  }

  lemma PlainComparesIff(table: string, others: seq<string>, d: IndexSpec)
    requires PlainHead(table, d) && PlainColumnsOnly(d)
    ensures IndexEquals(ListedIndex(table, others, d), ToIndex(d)) <==> FiledAsDeclared(d.name) && Survives(d)
  {
    FoldedVerbatimIff(d.name);
    FoldedPlain(d);
    assert PlainHead(table, StoredSpec(d));
    PlainReadsNothing(table, StoredSpec(d));
    FoldedColumnsEqualIff(d.columns);
    hide Canonicalize, NormalizeIndexMethod, ParsedElements, AddIndexStatement, SortedColumnEqual, Name, PlainHead, Folded, Lower,
      ColumnsEqual, FoldEach, StoredSpec, ColumnsOf;
  }

  /**
   A stored index compares equal to its declaration exactly if its name is short and in lower
   case, every column is, no sorted column spells out an order of nulls that is implied, and, if
   there are sorted columns, one carries an operator class, a descending direction or another
   order of nulls.
   */
  lemma StoredIndexComparesIff(table: string, others: seq<string>, d: IndexSpec)
    requires Readable(table, d)
    ensures IndexEquals(ListedIndex(table, others, d), ToIndex(d)) <==> FiledAsDeclared(d.name) && Survives(d)
  {
    hide IndexEquals, ListedIndex, ToIndex, FiledAsDeclared, Survives, PlainHead, PlainColumnsOnly, SortedColumnsOnly, ExpressionsOnly;
    if PlainColumnsOnly(d) {
      PlainComparesIff(table, others, d);
    } else if SortedColumnsOnly(d) {
      SortedComparesIff(table, others, d);
    } else {
      ExpressionsCompareIff(table, others, d);
    }
  }

  /** Indexes that survive meet what the plan theorems assume of the server, whatever their names. */
  lemma StoredIndexesRender(render: IndexSpec -> Index, table: string, others: IndexSpec -> seq<string>, ds: seq<IndexSpec>)
    requires forall i :: 0 <= i < |ds| ==> Readable(table, ds[i]) && render(ds[i]) == ListedIndex(table, others(ds[i]), ds[i])
    requires forall i :: 0 <= i < |ds| && FiledAsDeclared(ds[i].name) ==> Survives(ds[i])
    ensures Renders(Indexes(render), ds)
  {
    hide IndexEquals, Readable, Folded, ParsedElements, AddIndexStatement, ToIndex, Lower, Survives;
    var f := Indexes(render);
    forall i | 0 <= i < |ds|
      ensures f.nameIn(f.render(ds[i])) == f.filed(f.nameOf(ds[i]))
      ensures FiledVerbatim(f, ds[i]) ==> f.same(ds[i], f.render(ds[i]))
    {
      FoldedVerbatimIff(ds[i].name);
      StoredIndexComparesIff(table, others(ds[i]), ds[i]);
    }
  }
}
