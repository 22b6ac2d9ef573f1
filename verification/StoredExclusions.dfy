/** What the server stores for a declared exclusion constraint, and how it compares once read back. */
module StoredExclusions {
  import opened Text
  import opened Parens
  import opened Canonical
  import opened WrapLaws
  import opened QuoteLaws
  import opened Comparators
  import opened ExclusionText
  import opened Names
  import opened Diff
  import opened TablePlan

  // ----- the stored text ---------------------------------------------------------------------

  predicate IdentifierStart(c: char) {
    'a' <= c <= 'z' || c == '_'
  }

  /** A lower-case identifier of letters, digits and underscores. */
  predicate PlainIdentifier(c: string) {
    c != "" && IdentifierStart(c[0]) && forall i :: 0 <= i < |c| ==> IdentifierStart(c[i]) || IsDigit(c[i])
  }

  /** The server prints a column bare only if it would read it back as that column. */
  predicate NeedsQuotes(reserved: string -> bool, c: string) {
    !PlainIdentifier(c) || reserved(c)
  }

  function PrintedColumn(reserved: string -> bool, c: string): string {
    if NeedsQuotes(reserved, c) then Quoted(c) else c
  }

  /** The stored element: the expression in parentheses if there is one, otherwise the column. */
  function WrittenItem(reserved: string -> bool, it: ExclusionItem): Item {
    Item(if it.expression != "" then "(" + Trim(it.expression) + ")" else PrintedColumn(reserved, it.column), Trim(it.operator))
  }

  function WrittenItems(reserved: string -> bool, items: seq<ExclusionItem>): (r: seq<Item>)
    ensures |r| == |items|
  {
    if items == [] then [] else [WrittenItem(reserved, items[0])] + WrittenItems(reserved, items[1..])
  }

  /** The definition the catalog prints for the constraint as written. */
  function StoredText(reserved: string -> bool, d: ExclusionConstraint): string {
    var m, items := NormalizeUsing(d.using), WrittenItems(reserved, d.items);
    if Trim(d.where_) == "" then Print(m, items) else PrintPartial(m, items, Trim(d.where_))
  }

  /** A read item keeps its element as an expression, whatever it was declared as. */
  function ReadItems(items: seq<Item>): (r: seq<ExclusionItem>)
    ensures |r| == |items|
  {
    if items == [] then [] else [ExclusionItem("", items[0].element, items[0].operator)] + ReadItems(items[1..])
  }

  function FromParsed(name: string, x: Exclusion): ExclusionConstraint {
    ExclusionConstraint(name, x.using, ReadItems(x.items), x.where_)
  }

  /** The listing of a declared constraint. */
  function ListedExclusion(reserved: string -> bool, hash: string -> string, table: string, d: ExclusionConstraint): ExclusionConstraint
    requires HexDigest(hash)
  {
    FromParsed(Truncated(GenerateExclusionName(hash, table, d.name, ItemElements(d.items))), Parsed(StoredText(reserved, d)))
  }

  /** The catalog can print the constraint so that it reads back. */
  ghost predicate Printable(reserved: string -> bool, d: ExclusionConstraint) {
    MethodName(NormalizeUsing(d.using)) && CatalogItems(WrittenItems(reserved, d.items)) && Balanced(Trim(d.where_))
  }

  /**
   An item that gives a column and an expression writes the one and compares by the other, and
   a column alone is compared without the quotes it is printed in.
   */
  predicate StoredAsCompared(reserved: string -> bool, it: ExclusionItem) {
    && (it.column != "" && it.expression != "" ==> Canonicalize(it.column) == Canonicalize(it.expression))
    && (it.expression == "" ==> !NeedsQuotes(reserved, it.column))
  }

  // ----- reading it back ---------------------------------------------------------------------

  lemma {:induction false} ItemsAt(reserved: string -> bool, items: seq<ExclusionItem>, i: nat)
    requires i < |items|
    ensures ReadItems(WrittenItems(reserved, items))[i]
         == ExclusionItem("", WrittenItem(reserved, items[i]).element, WrittenItem(reserved, items[i]).operator)
  {
    hide WrittenItem;
    var w := WrittenItems(reserved, items);
    assert w[0] == WrittenItem(reserved, items[0]) && w[1..] == WrittenItems(reserved, items[1..]);
    if i > 0 {
      ItemsAt(reserved, items[1..], i - 1);
    }
  }

  lemma ItemComparesIff(reserved: string -> bool, it: ExclusionItem)
    ensures ExclusionItemEqual(ExclusionItem("", WrittenItem(reserved, it).element, WrittenItem(reserved, it).operator), it) <==>
      StoredAsCompared(reserved, it)
  {
    hide Canonicalize, Trim, Quoted, PlainIdentifier;
    TrimIsInvisible(it.operator);
    WrappingIsInvisible(it.expression);
    QuotingIsVisible(it.column);
  }

  lemma ItemsCompareIff(reserved: string -> bool, items: seq<ExclusionItem>)
    ensures var r := ReadItems(WrittenItems(reserved, items));
      (forall i :: 0 <= i < |items| ==> ExclusionItemEqual(r[i], items[i])) <==>
      forall i :: 0 <= i < |items| ==> StoredAsCompared(reserved, items[i])
  {
    hide ExclusionItemEqual, StoredAsCompared, WrittenItem, ReadItems, WrittenItems;
    var r := ReadItems(WrittenItems(reserved, items));
    forall i | 0 <= i < |items| ensures ExclusionItemEqual(r[i], items[i]) <==> StoredAsCompared(reserved, items[i]) {
      ItemsAt(reserved, items, i);
      ItemComparesIff(reserved, items[i]);
    }
  }

  lemma MethodCompares(using: string)
    requires MethodName(NormalizeUsing(using))
    ensures NormalizeUsing(Lower(NormalizeUsing(using))) == NormalizeUsing(using)
  {
    var m := NormalizeUsing(using);
    assert Lower(m) == m by {
      LowerTwice(Trim(using));
      LowerIs("gist", "gist");
    }
    assert m != "" && Trimmed(m);
    hide Lower, Trim;
    TrimIdentity(m);
  }

  lemma StoredReadsBack(reserved: string -> bool, d: ExclusionConstraint)
    requires Printable(reserved, d)
    ensures var x := Parsed(StoredText(reserved, d));
      x.using == Lower(NormalizeUsing(d.using)) && x.items == WrittenItems(reserved, d.items)
      && Canonicalize(x.where_) == Canonicalize(d.where_)
  {
    hide Parsed, Print, PrintPartial, NormalizeUsing, WrittenItems, CatalogItems, MethodName, Canonicalize, Trim, Balanced, Lower;
    TrimIsInvisible(d.where_);
    if Trim(d.where_) == "" {
      TotalExclusionReadsBack(NormalizeUsing(d.using), WrittenItems(reserved, d.items));
    } else {
      PartialExclusionReadsBack(NormalizeUsing(d.using), WrittenItems(reserved, d.items), Trim(d.where_));
      TrimIdentity(Trim(d.where_));
    }
  }

  /**
   Under its declared name a stored constraint compares equal to its declaration exactly if no
   item gives a column and a different expression, or a column alone that needs quotes.
   */
  lemma StoredExclusionComparesIff(reserved: string -> bool, name: string, d: ExclusionConstraint)
    requires Printable(reserved, d) && (d.name != "" ==> name == d.name)
    ensures ExclusionEquals(FromParsed(name, Parsed(StoredText(reserved, d))), d) <==>
      forall i :: 0 <= i < |d.items| ==> StoredAsCompared(reserved, d.items[i])
  {
    StoredReadsBack(reserved, d);
    MethodCompares(d.using);
    ItemsCompareIff(reserved, d.items);
    hide Parsed, StoredText, NormalizeUsing, Canonicalize, ExclusionItemEqual, StoredAsCompared, ReadItems, WrittenItems, Lower;
  }

  /** With one item that does not, the constraint never does. */
  lemma MisstoredItemNeverCompares(reserved: string -> bool, name: string, d: ExclusionConstraint, i: nat)
    requires Printable(reserved, d) && (d.name != "" ==> name == d.name) && i < |d.items| && !StoredAsCompared(reserved, d.items[i])
    ensures !ExclusionEquals(FromParsed(name, Parsed(StoredText(reserved, d))), d)
  {
    hide Parsed, StoredText, Canonicalize, ExclusionEquals, StoredAsCompared, Printable;
    StoredExclusionComparesIff(reserved, name, d);
  }

  /** Stored exclusion constraints meet what the plan theorems assume of the server. */
  lemma StoredExclusionsRender(reserved: string -> bool, e: Server, ds: seq<ExclusionConstraint>)
    requires HexDigest(e.hash)
    requires forall i :: 0 <= i < |ds| ==> e.exclusion(ds[i]) == ListedExclusion(reserved, e.hash, e.table, ds[i])
    requires forall i :: 0 <= i < |ds| ==> Printable(reserved, ds[i])
    requires forall i, k :: 0 <= i < |ds| && 0 <= k < |ds[i].items| ==> StoredAsCompared(reserved, ds[i].items[k])
    ensures Renders(Exclusions(e), ds)
  {
    var f := Exclusions(e);
    hide Parsed, StoredText, Canonicalize, StoredAsCompared, Printable, CapIdentifier, HexDigest, ReadItems, ExclusionEquals, Truncated;
    forall i | 0 <= i < |ds|
      ensures f.nameIn(f.render(ds[i])) == f.filed(f.nameOf(ds[i]))
      ensures FiledVerbatim(f, ds[i]) ==> f.same(ds[i], f.render(ds[i]))
    {
      var n := GenerateExclusionName(e.hash, e.table, ds[i].name, ItemElements(ds[i].items));
      if Truncated(n) == n {
        StoredExclusionComparesIff(reserved, n, ds[i]);
      }
    }
  }
}
