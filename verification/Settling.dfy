/**
 When plans settle: which names the server files as declared, and that the forms the catalog
 stores and the readers recover compare equal to the declarations.
 */
module Settling {
  import opened Text
  import opened Parens
  import opened Canonical
  import opened WrapLaws
  import opened ElementLists
  import opened Comparators
  import opened IndexElements
  import opened IndexListLaws
  import opened Names
  import opened Diff
  import opened DiffLaws
  import opened IndexPlan
  import opened TablePlan

  // ----- names -----------------------------------------------------------------------------

  /** Declared checks settle exactly if no name is longer than the server keeps. */
  lemma CheckPlanSettlesIff(e: Server, ds: seq<CheckSpec>, cur: seq<CheckConstraint>, cat: map<string, CheckConstraint>)
    requires HexDigest(e.hash) && DistinctDesired(Checks(e), ds) && Renders(Checks(e), ds)
    requires Lists(Checks(e), cur, cat) && forall n :: n in cat ==> |n| <= MAX_IDENTIFIER
    ensures Settles(Checks(e), ds, cur, cat) <==>
      forall i :: 0 <= i < |ds| ==> |GenerateCheckName(e.hash, e.table, ds[i].name, ds[i].expression)| <= MAX_IDENTIFIER
  {
    var f := Checks(e);
    hide Settles, Renders, Lists, DistinctDesired, GenerateCheckName, HexDigest, Canonicalize;
    forall n: string ensures f.filed(n) == Truncated(n) && f.filed(f.filed(n)) == f.filed(n) {
      FilingTwice(n);
    }
    forall i | 0 <= i < |ds|
      ensures Fits(f, ds[i], cat) <==> |GenerateCheckName(e.hash, e.table, ds[i].name, ds[i].expression)| <= MAX_IDENTIFIER
    {
      assert f.nameOf(ds[i]) == GenerateCheckName(e.hash, e.table, ds[i].name, ds[i].expression);
    }
    SettlesIff(f, ds, cur, cat);
  }

  /** Only an explicit name can be too long: generated ones are capped. */
  lemma GeneratedChecksSettle(e: Server, ds: seq<CheckSpec>, cur: seq<CheckConstraint>, cat: map<string, CheckConstraint>)
    requires HexDigest(e.hash) && DistinctDesired(Checks(e), ds) && Renders(Checks(e), ds)
    requires Lists(Checks(e), cur, cat) && forall n :: n in cat ==> |n| <= MAX_IDENTIFIER
    ensures Settles(Checks(e), ds, cur, cat) <==> forall i :: 0 <= i < |ds| ==> |ds[i].name| <= MAX_IDENTIFIER
  {
    hide Settles, Renders, Lists, DistinctDesired, HexDigest, Canonicalize, CapIdentifier, BareTableName, SanitizedFragment, Checks;
    CheckPlanSettlesIff(e, ds, cur, cat);
    forall i | 0 <= i < |ds|
      ensures |GenerateCheckName(e.hash, e.table, ds[i].name, ds[i].expression)| <= MAX_IDENTIFIER <==> |ds[i].name| <= MAX_IDENTIFIER
    {
      CheckNameLength(e.hash, e.table, ds[i].name, ds[i].expression);
    }
  }

  lemma CheckNameLength(hash: string -> string, table: string, name: string, expression: string)
    requires HexDigest(hash)
    ensures |GenerateCheckName(hash, table, name, expression)| <= MAX_IDENTIFIER <==> |name| <= MAX_IDENTIFIER
  {
    hide BareTableName, SanitizedFragment;
  }

  predicate FiledAsDeclared(n: string) {
    |n| <= MAX_IDENTIFIER && Lower(n) == n
  }

  /**
   Index names are written unquoted, so on every catalog the declared indexes settle exactly if
   each has a short lower-case name or is already stored as declared (as `create table` stores
   unique ones under a quoted name), and no plain index to be dropped is taken for a constraint.
   */
  lemma IndexPlanSettlesIff(render: IndexSpec -> Index, ds: seq<IndexSpec>, cur: seq<Index>, constraints: seq<string>, cat: IndexCatalog)
    requires var f := Indexes(render); DistinctDesired(f, ds) && Renders(f, ds) && Lists(f, cur, cat.indexes)
    requires ListsConstraints(constraints, cat)
    ensures IndexesSettle(render, ds, cur, constraints, cat) <==>
      && (forall i :: 0 <= i < |ds| ==> FiledAsDeclared(ds[i].name) || Kept(Indexes(render), ds[i], cat.indexes))
      && ConfusedKept(render, ds, constraints, cat)
  {
    var f := Indexes(render);
    hide IndexesSettle, Renders, Lists, DistinctDesired, IndexEquals, Lower, ConfusedKept, ListsConstraints, Kept;
    forall i | 0 <= i < |ds| ensures FiledVerbatim(f, ds[i]) <==> FiledAsDeclared(ds[i].name) {
      FoldedVerbatimIff(ds[i].name);
    }
    assert forall i :: 0 <= i < |ds| ==>
      (Fits(f, ds[i], cat.indexes) <==> FiledAsDeclared(ds[i].name) || Kept(f, ds[i], cat.indexes));
    IndexesSettleIff(render, ds, cur, constraints, cat);
  }

  // ----- what the server lists ----------------------------------------------------------------

  /** The predicate recovered from the catalog's `CHECK ((...))` compares equal to the declared one. */
  lemma StoredCheckComparesEqual(x: string)
    requires Balanced(Trim(x))
    ensures Canonicalize(CheckBody("CHECK" + " (" + ("(" + Trim(x) + ")") + ")")) == Canonicalize(x)
  {
    var p := "(" + Trim(x) + ")";
    assert EqualFold("CHECK", "check") by { LowerCheck(); }
    hide Trim, Canonicalize, CheckBody, Lower, BalancedFrom;
    WrappedIsElement(Trim(x));
    CheckBodyOf("CHECK", p);
    TrimIdentity(p);
    WrappingIsInvisible(x);
  }

  lemma LowerCheck()
    ensures Lower("CHECK") == Lower("check")
  {
    LowerIs("CHECK", "check");
    LowerIs("check", "check");
    hide Lower;
  }

  /** The listing of a check whose predicate the server stores as written. */
  function ListedCheck(hash: string -> string, table: string, d: CheckSpec): CheckConstraint
    requires HexDigest(hash)
  {
    CheckConstraint(Truncated(GenerateCheckName(hash, table, d.name, d.expression)),
      CheckBody("CHECK" + " (" + ("(" + Trim(d.expression) + ")") + ")"))
  }

  lemma StoredChecksRender(e: Server, ds: seq<CheckSpec>)
    requires HexDigest(e.hash)
    requires forall i :: 0 <= i < |ds| ==> e.check(ds[i]) == ListedCheck(e.hash, e.table, ds[i]) && Balanced(Trim(ds[i].expression))
    ensures Renders(Checks(e), ds)
  {
    hide Canonicalize, CheckBody, Trim, GenerateCheckName, HexDigest, BalancedFrom;
    var f := Checks(e);
    forall i | 0 <= i < |ds|
      ensures f.nameIn(f.render(ds[i])) == f.filed(f.nameOf(ds[i])) && f.same(ds[i], f.render(ds[i]))
    {
      StoredCheckComparesEqual(ds[i].expression);
    }
  }
}
