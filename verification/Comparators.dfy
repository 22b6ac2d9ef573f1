/** How the planner decides that an introspected object already is the desired one. */
module Comparators {
  import opened Collections
  import opened Text
  import opened Canonical
  import opened StringOrder

  // ----- indexes -----------------------------------------------------------------------

  datatype IndexColumn = IndexColumn(column: string, opClass: string, sort: string, nulls: string)

  datatype Index = Index(
    columns: seq<string>, name: string, isUnique: bool, method_: string, where_: string,
    expressions: seq<string>, sortedColumns: seq<IndexColumn>)

  function NormalizeIndexMethod(m: string): string {
    var l := Lower(Trim(m));
    if l == "" then "btree" else l
  }

  function NormalizeSort(s: string): string {
    var u := Upper(Trim(s));
    if u == "" then "ASC" else u
  }

  predicate SortedColumnEqual(a: IndexColumn, b: IndexColumn) {
    && a.column == b.column
    && NormalizeSort(a.sort) == NormalizeSort(b.sort)
    && Upper(Trim(a.nulls)) == Upper(Trim(b.nulls))
    && Lower(Trim(a.opClass)) == Lower(Trim(b.opClass))
  }

  predicate SortedColumnsEqual(a: seq<IndexColumn>, b: seq<IndexColumn>) {
    |a| == |b| && forall i :: 0 <= i < |a| ==> SortedColumnEqual(a[i], b[i])
  }

  predicate ExpressionsEqual(a: seq<string>, b: seq<string>) {
    |a| == |b| && forall i :: 0 <= i < |a| ==> Canonicalize(a[i]) == Canonicalize(b[i])
  }

  /** Equal length and every column of `b` among those of `a`. */
  predicate ColumnsEqual(a: seq<string>, b: seq<string>) {
    |a| == |b| && forall i :: 0 <= i < |b| ==> b[i] in a
  }

  predicate Extended(i: Index) {
    i.sortedColumns != [] || i.expressions != []
  }

  predicate IndexEquals(a: Index, b: Index) {
    && a.name == b.name && a.isUnique == b.isUnique
    && NormalizeIndexMethod(a.method_) == NormalizeIndexMethod(b.method_)
    && Canonicalize(a.where_) == Canonicalize(b.where_)
    && if Extended(a) || Extended(b)
       then SortedColumnsEqual(a.sortedColumns, b.sortedColumns) && ExpressionsEqual(a.expressions, b.expressions)
       else ColumnsEqual(a.columns, b.columns)
  }

  method EqualColumns(a: seq<string>, b: seq<string>) returns (equal: bool)
    ensures equal == ColumnsEqual(a, b)
  {
    if |a| != |b| {
      return false;
    }
    for i := 0 to |b|
      invariant forall k :: 0 <= k < i ==> b[k] in a
    {
      var found := false;
      for j := 0 to |a|
        invariant !found
        invariant b[i] !in a[..j]
      {
        if a[j] == b[i] {
          found := true;
          break;
        }
      }
      if !found {
        assert a[..|a|] == a;
        return false;
      }
    }
    return true;
  }

  method EqualIndexes(a: Index, b: Index) returns (equal: bool)
    ensures equal == IndexEquals(a, b)
  {
    hide Canonicalize, NormalizeIndexMethod, SortedColumnEqual;
    if a.name != b.name || a.isUnique != b.isUnique {
      return false;
    }
    if NormalizeIndexMethod(a.method_) != NormalizeIndexMethod(b.method_) {
      return false;
    }
    var aw := CanonicalizeSQLExpr(a.where_);
    var bw := CanonicalizeSQLExpr(b.where_);
    if aw != bw {
      return false;
    }
    if |a.sortedColumns| > 0 || |b.sortedColumns| > 0 || |a.expressions| > 0 || |b.expressions| > 0 {
      if |a.sortedColumns| != |b.sortedColumns| {
        return false;
      }
      for i := 0 to |a.sortedColumns|
        invariant forall k :: 0 <= k < i ==> SortedColumnEqual(a.sortedColumns[k], b.sortedColumns[k])
      {
        if !SortedColumnEqual(a.sortedColumns[i], b.sortedColumns[i]) {
          return false;
        }
      }
      if |a.expressions| != |b.expressions| {
        return false;
      }
      for i := 0 to |a.expressions|
        invariant forall k :: 0 <= k < i ==> Canonicalize(a.expressions[k]) == Canonicalize(b.expressions[k])
      {
        var ae := CanonicalizeSQLExpr(a.expressions[i]);
        var be := CanonicalizeSQLExpr(b.expressions[i]);
        if ae != be {
          return false;
        }
      }
      return true;
    }
    equal := EqualColumns(a.columns, b.columns);
  }

  function Elements(s: seq<string>): set<string> {
    set i | 0 <= i < |s| :: s[i]
  }

  lemma {:induction false} ElementsCard(s: seq<string>)
    ensures |Elements(s)| <= |s|
    ensures NoDuplicates(s) ==> |Elements(s)| == |s|
  {
    if s != [] {
      var n := |s| - 1;
      ElementsCard(s[..n]);
      assert Elements(s) == Elements(s[..n]) + {s[n]};
      if NoDuplicates(s) {
        assert s[n] !in Elements(s[..n]);
      }
    }
  }

  /** Inclusion one way and equal length give inclusion the other way. */
  lemma ColumnsEqualSymmetric(a: seq<string>, b: seq<string>)
    requires ColumnsEqual(a, b) && NoDuplicates(b)
    ensures ColumnsEqual(b, a) && Elements(a) == Elements(b)
  {
    ElementsCard(a);
    ElementsCard(b);
    assert Elements(b) <= Elements(a);
    SubsetSameCard(Elements(b), Elements(a));
    forall i | 0 <= i < |a| ensures a[i] in b {
      assert a[i] in Elements(a);
    }
  }

  lemma SubsetSameCard(x: set<string>, y: set<string>)
    requires x <= y && |y| <= |x|
    ensures x == y
  {
    assert |y - x| == |y| - |x|;
    assert y == x + (y - x);
  }

  lemma IndexEqualsReflexive(a: Index)
    ensures IndexEquals(a, a)
  {
    hide Canonicalize, NormalizeIndexMethod, SortedColumnEqual;
    forall i | 0 <= i < |a.sortedColumns| ensures SortedColumnEqual(a.sortedColumns[i], a.sortedColumns[i]) {
      ColumnReflexive(a.sortedColumns[i]);
    }
  }

  lemma ColumnReflexive(c: IndexColumn)
    ensures SortedColumnEqual(c, c)
  {
  }

  /** Equal length and the same set of columns decide the comparison in the other direction. */
  lemma ColumnsEqualFlips(a: seq<string>, b: seq<string>)
    requires ColumnsEqual(a, b)
    ensures ColumnsEqual(b, a) <==> Elements(a) == Elements(b)
  {
    if Elements(a) == Elements(b) {
      forall i | 0 <= i < |a| ensures a[i] in b {
        assert a[i] in Elements(b);
      }
    }
  }

  /** The comparison holds in the other direction exactly if the index is extended or the column sets agree. */
  lemma IndexEqualsSymmetricIff(a: Index, b: Index)
    requires IndexEquals(a, b)
    ensures IndexEquals(b, a) <==> Extended(a) || Elements(a.columns) == Elements(b.columns)
  {
    hide Canonicalize, NormalizeIndexMethod, NormalizeSort, Trim, Lower, Upper;
    if !Extended(a) && !Extended(b) {
      ColumnsEqualFlips(a.columns, b.columns);
    }
  }

  /** So it does as soon as the right-hand columns are free of duplicates. */
  lemma IndexEqualsSymmetric(a: Index, b: Index)
    requires IndexEquals(a, b) && NoDuplicates(b.columns)
    ensures IndexEquals(b, a)
  {
    IndexEqualsSymmetricIff(a, b);
    PlainAndExtendedDiffer(a, b);
    hide Canonicalize, NormalizeIndexMethod, NormalizeSort, Trim, Lower, Upper;
    if !Extended(a) {
      ColumnsEqualSymmetric(a.columns, b.columns);
    }
  }

  /** Transitive on all indexes, repeated columns or not. */
  lemma IndexEqualsTransitive(a: Index, b: Index, c: Index)
    requires IndexEquals(a, b) && IndexEquals(b, c)
    ensures IndexEquals(a, c)
  {
    hide Canonicalize, NormalizeIndexMethod, NormalizeSort, Trim, Lower, Upper;
  }

  /** Plain and extended indexes never compare equal. */
  lemma PlainAndExtendedDiffer(a: Index, b: Index)
    requires IndexEquals(a, b)
    ensures Extended(a) <==> Extended(b)
  {
    hide Canonicalize, NormalizeIndexMethod, SortedColumnEqual;
  }

  function PlainIndex(name: string, columns: seq<string>): Index {
    Index(columns, name, false, "", "", [], [])
  }

  /** With a repeated column the comparison is not symmetric. */
  lemma RepeatedColumnBreaksSymmetry()
    ensures IndexEquals(PlainIndex("i", ["x", "y"]), PlainIndex("i", ["x", "x"]))
    ensures !IndexEquals(PlainIndex("i", ["x", "x"]), PlainIndex("i", ["x", "y"]))
  {
    hide Canonicalize, NormalizeIndexMethod;
    var xx, xy := ["x", "x"], ["x", "y"];
    assert xx[0] == "x" && xx[1] == "x" && xy[0] == "x" && xy[1] == "y";
    assert "y" !in xx by { assert "y"[0] != "x"[0]; }
    assert xx[0] in xy;
  }

  // ----- row-level security policies -----------------------------------------------------

  datatype Policy = Policy(name: string, command: string, permissive: bool, roles: seq<string>, using: string, withCheck: string)

  function NormalizePolicyCommand(c: string): string {
    var u := Upper(Trim(c));
    if u == "" then "ALL" else u
  }

  function NormalizePolicyRoles(roles: seq<string>): seq<string> {
    if roles == [] then ["public"] else SortStrings(roles)
  }

  predicate RolesEqual(a: seq<string>, b: seq<string>) {
    NormalizePolicyRoles(a) == NormalizePolicyRoles(b)
  }

  predicate AttributesEqual(p: Policy, q: Policy) {
    && NormalizePolicyCommand(p.command) == NormalizePolicyCommand(q.command)
    && p.permissive == q.permissive
    && RolesEqual(p.roles, q.roles)
  }

  /** The roles a policy applies to, nobody named meaning everybody. */
  function RoleBag(roles: seq<string>): multiset<string> {
    if roles == [] then multiset{"public"} else multiset(roles)
  }

  /** Sorting makes the comparison one of role multisets, whatever their order. */
  lemma RolesEqualIff(a: seq<string>, b: seq<string>)
    ensures RolesEqual(a, b) <==> RoleBag(a) == RoleBag(b)
  {
    hide SortStrings;
    var pub := ["public"];
    SortedSingleton("public");
    SortsEqualIff(a, b);
    SortsEqualIff(a, pub);
    SortsEqualIff(pub, b);
    assert multiset(pub) == multiset{"public"};
  }

  lemma SortedSingleton(x: string)
    ensures SortStrings([x]) == [x]
  {
    assert [x][1..] == [];
  }

  lemma AttributesEqualIsEquivalence(p: Policy, q: Policy, r: Policy)
    ensures AttributesEqual(p, p)
    ensures AttributesEqual(p, q) ==> AttributesEqual(q, p)
    ensures AttributesEqual(p, q) && AttributesEqual(q, r) ==> AttributesEqual(p, r)
    ensures AttributesEqual(p, q) ==> RoleBag(p.roles) == RoleBag(q.roles)
  {
    hide NormalizePolicyCommand, NormalizePolicyRoles, RoleBag;
    RolesEqualIff(p.roles, q.roles);
  }

  // ----- exclusion constraints -----------------------------------------------------------

  datatype ExclusionItem = ExclusionItem(column: string, expression: string, operator: string)
  {
    function Element(): string {
      if column != "" then column else expression
    }
  }

  datatype ExclusionConstraint = ExclusionConstraint(name: string, using: string, items: seq<ExclusionItem>, where_: string)

  function NormalizeUsing(u: string): string {
    var l := Lower(Trim(u));
    if l == "" then "gist" else l
  }

  predicate ExclusionItemEqual(a: ExclusionItem, b: ExclusionItem) {
    && Canonicalize(a.Element()) == Canonicalize(b.Element())
    && Canonicalize(a.operator) == Canonicalize(b.operator)
  }

  predicate ExclusionEquals(a: ExclusionConstraint, b: ExclusionConstraint) {
    && (a.name != "" && b.name != "" ==> a.name == b.name)
    && NormalizeUsing(a.using) == NormalizeUsing(b.using)
    && Canonicalize(a.where_) == Canonicalize(b.where_)
    && |a.items| == |b.items|
    && forall i :: 0 <= i < |a.items| ==> ExclusionItemEqual(a.items[i], b.items[i])
  }
}
