/** The indexes of a table that is created: some as constraints inside `create table`, the others behind it. */
module NewTables {
  import opened Collections
  import opened Text
  import opened Canonical
  import opened WrapLaws
  import opened Comparators
  import opened IndexElements
  import opened Names
  import opened Diff
  import opened IndexPlan
  import AsDeclared

  /** A unique constraint inside `create table`. */
  datatype UniqueConstraint = UniqueConstraint(name: string, columns: seq<string>)

  function InlineConstraints(hash: string -> string, table: string, specs: seq<IndexSpec>): seq<UniqueConstraint>
    requires HexDigest(hash)
  {
    if specs == [] then [] else InlineConstraint(hash, table, specs[0]) + InlineConstraints(hash, table, specs[1..])
  }

  function InlineConstraint(hash: string -> string, table: string, d: IndexSpec): seq<UniqueConstraint>
    requires HexDigest(hash)
  {
    if InlineFoldable(d) then [UniqueConstraint(GenerateIndexName(hash, table, d.columns), d.columns)] else []
  }

  method BuildInlineConstraints(hash: string -> string, table: string, specs: seq<IndexSpec>) returns (r: seq<UniqueConstraint>)
    requires HexDigest(hash)
    ensures r == InlineConstraints(hash, table, specs)
  {
    hide InlineFoldable, HexDigest, GenerateIndexName;
    r := [];
    assert specs[0..] == specs;
    for i := 0 to |specs|
      invariant r + InlineConstraints(hash, table, specs[i..]) == InlineConstraints(hash, table, specs)
    {
      assert specs[i..][1..] == specs[i + 1..] && specs[i..][0] == specs[i];
      Associative(r, InlineConstraint(hash, table, specs[i]), InlineConstraints(hash, table, specs[i + 1..]));
      if InlineFoldable(specs[i]) {
        r := r + [UniqueConstraint(GenerateIndexName(hash, table, specs[i].columns), specs[i].columns)];
      } else {
        assert r + [] == r;
      }
    }
    assert specs[|specs|..] == [];
  }

  // ----- which go where -----------------------------------------------------------------------------

  /** Unique, total, over plain columns, by the default method. */
  predicate PlainUnique(d: IndexSpec) {
    && d.isUnique && (Lower(Trim(d.method_)) == "" || Lower(Trim(d.method_)) == "btree") && Trim(d.where_) == ""
    && d.sortedColumns == [] && d.expressions == []
  }

  /** The others, in order. */
  function Separately(ds: seq<IndexSpec>): seq<IndexStmt> {
    if ds == [] then [] else (if PlainUnique(ds[0]) then [] else [AddIndex(ds[0])]) + Separately(ds[1..])
  }

  lemma {:induction false} DesiredOfNew(ds: seq<IndexSpec>, constraints: seq<string>)
    ensures DesiredIndexes(false, ds, [], constraints) == Separately(ds)
    decreases |ds|
  {
    if ds != [] {
      DesiredOfNew(ds[1..], constraints);
      hide Lower, Trim;
      assert [] + [AddIndex(ds[0])] == [AddIndex(ds[0])];
    }
  }

  /** On a new table the builder adds exactly the indexes that are not plainly unique, in order. */
  lemma NewTableIndexes(ds: seq<IndexSpec>, constraints: seq<string>)
    ensures IndexStatements(false, ds, [], constraints) == Separately(ds)
  {
    DesiredOfNew(ds, constraints);
    assert Separately(ds) + [] == Separately(ds);
  }

  /** The constraint on an index's columns, under the name they give it. */
  function ConstraintFor(hash: string -> string, table: string, d: IndexSpec): UniqueConstraint
    requires HexDigest(hash)
  {
    UniqueConstraint(GenerateIndexName(hash, table, d.columns), d.columns)
  }

  /** A plainly unique index is declared inside `create table`, under the name its columns give it; no other is. */
  lemma {:induction false} InlineIff(hash: string -> string, table: string, specs: seq<IndexSpec>, c: UniqueConstraint)
    requires HexDigest(hash)
    ensures c in InlineConstraints(hash, table, specs) <==>
      exists i :: 0 <= i < |specs| && PlainUnique(specs[i]) && c == ConstraintFor(hash, table, specs[i])
    decreases |specs|
  {
    if specs != [] {
      InlineIff(hash, table, specs[1..], c);
      hide GenerateIndexName, Lower, Trim, HexDigest;
      if i :| 0 <= i < |specs| && PlainUnique(specs[i]) && c == ConstraintFor(hash, table, specs[i]) {
        if i > 0 { assert specs[1..][i - 1] == specs[i]; }
      }
      if i :| 0 <= i < |specs[1..]| && PlainUnique(specs[1..][i]) && c == ConstraintFor(hash, table, specs[1..][i]) {
        assert specs[i + 1] == specs[1..][i];
      }
    }
  }

  // ----- planning again -------------------------------------------------------------------------------

  /** What the server lists for a unique constraint. */
  function ListedConstraint(c: UniqueConstraint): Index {
    Index(c.columns, c.name, true, "btree", "", [], [])
  }

  lemma InlineComparesIff(name: string, d: IndexSpec)
    requires PlainUnique(d)
    ensures IndexEquals(ListedConstraint(UniqueConstraint(name, d.columns)), ToIndex(d)) <==> name == d.name
  {
    TrimIsInvisible(d.where_);
    TrimIdentity("btree");
    LowerIs("btree", "btree");
    AsDeclared.IndexEqualsIff(ListedConstraint(UniqueConstraint(name, d.columns)), d);
    hide Canonicalize, Lower, Trim, IndexEquals;
  }

  /** Where the table holds its constraint, an index without a name of its own, or with the generated one, is kept. */
  lemma GeneratedNameIsKept(hash: string -> string, table: string, render: IndexSpec -> Index, d: IndexSpec, cat: map<string, Index>)
    requires HexDigest(hash) && PlainUnique(d)
    requires var n := GenerateIndexName(hash, table, d.columns);
      (d.name == "" || d.name == n) && n in cat && cat[n] == ListedConstraint(UniqueConstraint(n, d.columns))
    ensures Kept(Indexes(render), WithName(hash, table, d), cat)
  {
    var named := WithName(hash, table, d);
    assert named.name == GenerateIndexName(hash, table, d.columns) && named.columns == d.columns && PlainUnique(named);
    hide GenerateIndexName, PlainUnique, IndexEquals, HexDigest;
    InlineComparesIff(named.name, named);
  }

  /** `create table` ignores an explicit name: unless something else has it, the very next plan adds the index again. */
  lemma ExplicitNameIsAddedAgain(render: IndexSpec -> Index, ds: seq<IndexSpec>, cur: seq<Index>, constraints: seq<string>,
      cat: map<string, Index>, i: nat)
    requires Lists(Indexes(render), cur, cat) && i < |ds| && ds[i].name !in cat
    ensures AddIndex(ds[i]) in IndexStatements(true, ds, cur, constraints)
  {
    var f := Indexes(render);
    assert !AnyEqual(cur, ds[i]) by {
      forall k | 0 <= k < |cur| ensures !IndexEquals(cur[k], ToIndex(ds[i])) {
        assert f.nameIn(cur[k]) in cat && cur[k].name != ds[i].name;
      }
    }
    hide IndexEquals;
    AddedWithin(ds, cur, constraints, i);
  }

  lemma {:induction false} AddedWithin(ds: seq<IndexSpec>, cur: seq<Index>, constraints: seq<string>, i: nat)
    requires i < |ds| && !AnyEqual(cur, ds[i])
    ensures AddIndex(ds[i]) in DesiredIndexes(true, ds, cur, constraints)
    decreases |ds|
  {
    hide AnyEqual, HasName, Removal, InlineFoldable;
    if i == 0 {
      var here := ForDeclared(true, ds[0], cur, constraints);
      assert here[|here| - 1] == AddIndex(ds[0]);
    } else {
      assert ds[1..][i - 1] == ds[i];
      AddedWithin(ds[1..], cur, constraints, i - 1);
    }
  }
}
