/**
 Index changes. Equal indexes are skipped by comparing whole indexes rather than names, and
 an index a constraint stands behind has to go with the constraint.
 */
module IndexPlan {
  import opened Options
  import opened Collections
  import opened Text
  import opened Comparators
  import opened IndexElements
  import opened Names
  import opened Diff
  import opened DiffLaws

  datatype IndexStmt = DropConstraint(name: string) | DropIndex(name: string) | AddIndex(desired: IndexSpec)

  // ----- what the schema declares ----------------------------------------------------------

  function ColumnsOf(scs: seq<IndexColumn>): seq<string> {
    if scs == [] then [] else [scs[0].column] + ColumnsOf(scs[1..])
  }

  function ToIndex(d: IndexSpec): Index {
    Index(if d.columns == [] then ColumnsOf(d.sortedColumns) else d.columns,
      d.name, d.isUnique, d.method_, d.where_, d.expressions, d.sortedColumns)
  }

  /** A unique index that `create table` already declares inline. */
  predicate InlineFoldable(d: IndexSpec) {
    var m := Lower(Trim(d.method_));
    d.isUnique && (m == "" || m == "btree") && Trim(d.where_) == "" && d.expressions == [] && d.sortedColumns == []
  }

  predicate Skipped(tableExists: bool, d: IndexSpec) {
    !tableExists && InlineFoldable(d)
  }

  function WithName(hash: string -> string, table: string, d: IndexSpec): IndexSpec
    requires HexDigest(hash)
  {
    if d.name == "" then d.(name := GenerateIndexName(hash, table, d.columns)) else d
  }

  function NamedIndex(hash: string -> string, table: string, tableExists: bool, d: IndexSpec): IndexSpec
    requires HexDigest(hash)
  {
    if Skipped(tableExists, d) then d else WithName(hash, table, d)
  }

  /** The declared indexes once the builder has filled in the missing names. */
  function NameAll(hash: string -> string, table: string, tableExists: bool, specs: seq<IndexSpec>): (r: seq<IndexSpec>)
    requires HexDigest(hash)
    ensures |r| == |specs|
  {
    if specs == [] then []
    else [NamedIndex(hash, table, tableExists, specs[0])] + NameAll(hash, table, tableExists, specs[1..])
  }

  // ----- the plan as the builder makes it --------------------------------------------------

  predicate AnyEqual(cur: seq<Index>, d: IndexSpec) {
    exists i :: 0 <= i < |cur| && IndexEquals(cur[i], ToIndex(d))
  }

  predicate EqualsAny(c: Index, ds: seq<IndexSpec>) {
    exists i :: 0 <= i < |ds| && IndexEquals(c, ToIndex(ds[i]))
  }

  predicate HasName(cur: seq<Index>, n: string) {
    exists i :: 0 <= i < |cur| && cur[i].name == n
  }

  function Removal(constraints: seq<string>, n: string): IndexStmt {
    if n in constraints then DropConstraint(n) else DropIndex(n)
  }

  function ForDesiredIndex(d: IndexSpec, cur: seq<Index>, constraints: seq<string>): seq<IndexStmt> {
    if AnyEqual(cur, d) then []
    else (if HasName(cur, d.name) then [Removal(constraints, d.name)] else []) + [AddIndex(d)]
  }

  function ForDeclared(tableExists: bool, d: IndexSpec, cur: seq<Index>, constraints: seq<string>): seq<IndexStmt> {
    if Skipped(tableExists, d) then [] else ForDesiredIndex(d, cur, constraints)
  }

  function DesiredIndexes(tableExists: bool, ds: seq<IndexSpec>, cur: seq<Index>, constraints: seq<string>): seq<IndexStmt> {
    if ds == [] then []
    else ForDeclared(tableExists, ds[0], cur, constraints) + DesiredIndexes(tableExists, ds[1..], cur, constraints)
  }

  function DroppedFor(tableExists: bool, d: IndexSpec, cur: seq<Index>): seq<string> {
    if !Skipped(tableExists, d) && !AnyEqual(cur, d) && HasName(cur, d.name) then [d.name] else []
  }

  function DroppedIndexes(tableExists: bool, ds: seq<IndexSpec>, cur: seq<Index>): seq<string> {
    if ds == [] then []
    else DroppedFor(tableExists, ds[0], cur) + DroppedIndexes(tableExists, ds[1..], cur)
  }

  function ForExistingIndex(c: Index, ds: seq<IndexSpec>, dropped: seq<string>, constraints: seq<string>): seq<IndexStmt> {
    if EqualsAny(c, ds) || c.name in dropped then [] else [Removal(constraints, c.name)]
  }

  function ExistingIndexes(cur: seq<Index>, ds: seq<IndexSpec>, dropped: seq<string>, constraints: seq<string>): seq<IndexStmt> {
    if cur == [] then []
    else ForExistingIndex(cur[0], ds, dropped, constraints) + ExistingIndexes(cur[1..], ds, dropped, constraints)
  }

  function IndexStatements(tableExists: bool, ds: seq<IndexSpec>, cur: seq<Index>, constraints: seq<string>): seq<IndexStmt> {
    DesiredIndexes(tableExists, ds, cur, constraints)
    + ExistingIndexes(cur, ds, DroppedIndexes(tableExists, ds, cur), constraints)
  }

  // ----- the builder's loops ---------------------------------------------------------------

  method RemoveIndex(constraints: seq<string>, n: string) returns (s: IndexStmt)
    ensures s == Removal(constraints, n)
  {
    var isConstraint := false;
    for i := 0 to |constraints|
      invariant isConstraint == (n in constraints[..i])
    {
      if n == constraints[i] {
        isConstraint := true;
      }
    }
    assert constraints[..|constraints|] == constraints;
    s := if isConstraint then DropConstraint(n) else DropIndex(n);
  }

  method DiffIndex(d: IndexSpec, cur: seq<Index>, constraints: seq<string>) returns (statements: seq<IndexStmt>, dropped: seq<string>)
    ensures statements == ForDesiredIndex(d, cur, constraints)
    ensures dropped == if !AnyEqual(cur, d) && HasName(cur, d.name) then [d.name] else []
  {
    hide IndexEquals, ToIndex, Removal;
    statements, dropped := [], [];
    var matched: Option<Index> := None;
    for i := 0 to |cur|
      invariant forall k :: 0 <= k < i ==> !IndexEquals(cur[k], ToIndex(d))
      invariant matched.Some? <==> exists k :: 0 <= k < i && cur[k].name == d.name
      invariant matched.Some? ==> matched.value.name == d.name
    {
      var equal := EqualIndexes(cur[i], ToIndex(d));
      if equal {
        return;
      }
      if cur[i].name == d.name {
        matched := Some(cur[i]);
      }
    }
    if matched.Some? {
      var removal := RemoveIndex(constraints, matched.value.name);
      statements := statements + [removal];
      dropped := dropped + [matched.value.name];
    }
    statements := statements + [AddIndex(d)];
  }

  method KeepsIndex(c: Index, ds: seq<IndexSpec>) returns (keep: bool)
    ensures keep == EqualsAny(c, ds)
  {
    hide IndexEquals, ToIndex;
    for i := 0 to |ds|
      invariant forall k :: 0 <= k < i ==> !IndexEquals(c, ToIndex(ds[k]))
    {
      var equal := EqualIndexes(c, ToIndex(ds[i]));
      if equal {
        return true;
      }
    }
    return false;
  }

  lemma NameStep(hash: string -> string, table: string, tableExists: bool, specs: seq<IndexSpec>, i: nat)
    requires HexDigest(hash) && i < |specs|
    ensures NameAll(hash, table, tableExists, specs[i..]) ==
      [NamedIndex(hash, table, tableExists, specs[i])] + NameAll(hash, table, tableExists, specs[i + 1..])
  {
    hide Skipped, WithName;
    assert specs[i..][1..] == specs[i + 1..] && specs[i..][0] == specs[i];
  }

  /** The desired pass; the builder names each declared index in place before it looks for it. */
  method DiffDesiredIndexes(hash: string -> string, table: string, tableExists: bool, specs: seq<IndexSpec>, cur: seq<Index>,
      constraints: seq<string>) returns (statements: seq<IndexStmt>, dropped: seq<string>, indexes: seq<IndexSpec>)
    requires HexDigest(hash)
    ensures indexes == NameAll(hash, table, tableExists, specs)
    ensures statements == DesiredIndexes(tableExists, indexes, cur, constraints)
    ensures dropped == DroppedIndexes(tableExists, indexes, cur)
  {
    hide Skipped, WithName, AnyEqual, HasName, Removal, DesiredIndexes, DroppedIndexes, NameAll, ForDesiredIndex, HexDigest;
    statements, dropped, indexes := [], [], specs;
    PassStart(hash, table, tableExists, specs, cur, constraints);
    for i := 0 to |specs|
      invariant |indexes| == |specs| && indexes[i..] == specs[i..]
      invariant indexes[..i] + NameAll(hash, table, tableExists, specs[i..]) == NameAll(hash, table, tableExists, specs)
      invariant statements == DesiredIndexes(tableExists, indexes[..i], cur, constraints)
      invariant dropped == DroppedIndexes(tableExists, indexes[..i], cur)
    {
      NameStep(hash, table, tableExists, specs, i);
      assert indexes[i] == indexes[i..][0] && specs[i] == specs[i..][0];
      ghost var front := indexes[..i];
      ghost var before := indexes;
      if Skipped(tableExists, indexes[i]) {
        PassStep(tableExists, front, indexes[i], cur, constraints);
        assert statements + [] == statements && dropped + [] == dropped;
      } else {
        if indexes[i].name == "" {
          indexes := indexes[i := indexes[i].(name := GenerateIndexName(hash, table, indexes[i].columns))];
        }
        NamedNotSkipped(hash, table, tableExists, specs[i]);
        var more, gone := DiffIndex(indexes[i], cur, constraints);
        PassStep(tableExists, front, indexes[i], cur, constraints);
        statements := statements + more;
        dropped := dropped + gone;
      }
      assert indexes[..i + 1] == front + [indexes[i]];
      forall k | i + 1 <= k < |specs| ensures indexes[k] == specs[k] {
        assert specs[i..][k - i] == specs[k] && before[i..][k - i] == before[k];
      }
      Associative(front, [indexes[i]], NameAll(hash, table, tableExists, specs[i + 1..]));
    }
    PassStart(hash, table, tableExists, specs, cur, constraints);
    assert indexes[..|specs|] == indexes;
  }

  lemma PassStart(hash: string -> string, table: string, tableExists: bool, specs: seq<IndexSpec>, cur: seq<Index>,
      constraints: seq<string>)
    requires HexDigest(hash)
    ensures specs[..0] == [] && specs[..0] + NameAll(hash, table, tableExists, specs[0..]) == NameAll(hash, table, tableExists, specs)
    ensures NameAll(hash, table, tableExists, specs[|specs|..]) == []
    ensures DesiredIndexes(tableExists, [], cur, constraints) == [] && DroppedIndexes(tableExists, [], cur) == []
  {
    assert specs[0..] == specs && specs[|specs|..] == [];
  }

  lemma NamedNotSkipped(hash: string -> string, table: string, tableExists: bool, d: IndexSpec)
    requires HexDigest(hash)
    ensures Skipped(tableExists, WithName(hash, table, d)) <==> Skipped(tableExists, d)
    ensures d.name != "" ==> WithName(hash, table, d) == d
    ensures d.name == "" ==> WithName(hash, table, d) == d.(name := GenerateIndexName(hash, table, d.columns))
  {
    hide Trim, Lower, GenerateIndexName;
  }

  /** Both results of the desired pass grow by one index at a time. */
  lemma {:induction false} PassStep(tableExists: bool, ds: seq<IndexSpec>, d: IndexSpec, cur: seq<Index>, constraints: seq<string>)
    ensures DesiredIndexes(tableExists, ds + [d], cur, constraints) ==
      DesiredIndexes(tableExists, ds, cur, constraints) + ForDeclared(tableExists, d, cur, constraints)
    ensures DroppedIndexes(tableExists, ds + [d], cur) == DroppedIndexes(tableExists, ds, cur) + DroppedFor(tableExists, d, cur)
    decreases |ds|
  {
    hide ForDeclared, DroppedFor;
    if ds == [] {
      assert ds + [d] == [d] && [d][1..] == [];
    } else {
      assert (ds + [d])[1..] == ds[1..] + [d] && (ds + [d])[0] == ds[0];
      PassStep(tableExists, ds[1..], d, cur, constraints);
    }
  }

  lemma ExistingIndexStep(cur: seq<Index>, i: nat, ds: seq<IndexSpec>, dropped: seq<string>, constraints: seq<string>, done: seq<IndexStmt>)
    requires i < |cur|
    ensures done + ExistingIndexes(cur[i..], ds, dropped, constraints) ==
      (done + ForExistingIndex(cur[i], ds, dropped, constraints)) + ExistingIndexes(cur[i + 1..], ds, dropped, constraints)
  {
    hide ForExistingIndex;
    assert cur[i..][1..] == cur[i + 1..] && cur[i..][0] == cur[i];
    Associative(done, ForExistingIndex(cur[i], ds, dropped, constraints), ExistingIndexes(cur[i + 1..], ds, dropped, constraints));
  }

  lemma ExistingIndexEnds(cur: seq<Index>, ds: seq<IndexSpec>, dropped: seq<string>, constraints: seq<string>, done: seq<IndexStmt>)
    ensures cur[0..] == cur && done + ExistingIndexes(cur[|cur|..], ds, dropped, constraints) == done
  {
    assert cur[|cur|..] == [];
  }

  method BuildIndexStatements(hash: string -> string, table: string, tableExists: bool, specs: seq<IndexSpec>, cur: seq<Index>,
      constraints: seq<string>) returns (statements: seq<IndexStmt>, indexes: seq<IndexSpec>)
    requires HexDigest(hash)
    ensures indexes == NameAll(hash, table, tableExists, specs)
    ensures statements == IndexStatements(tableExists, indexes, cur, constraints)
  {
    hide DesiredIndexes, DroppedIndexes, ExistingIndexes, EqualsAny, Removal, NameAll, HexDigest;
    var dropped;
    statements, dropped, indexes := DiffDesiredIndexes(hash, table, tableExists, specs, cur, constraints);
    ghost var desired := statements;
    ExistingIndexEnds(cur, indexes, dropped, constraints, []);
    for i := 0 to |cur|
      invariant statements + ExistingIndexes(cur[i..], indexes, dropped, constraints)
        == desired + ExistingIndexes(cur, indexes, dropped, constraints)
    {
      ExistingIndexStep(cur, i, indexes, dropped, constraints, statements);
      assert statements + [] == statements;
      var keep := KeepsIndex(cur[i], indexes);
      if keep {
        continue;
      }
      var gone := IsDropped(dropped, cur[i].name);
      if gone {
        continue;
      }
      var removal := RemoveIndex(constraints, cur[i].name);
      statements := statements + [removal];
    }
    ExistingIndexEnds(cur, indexes, dropped, constraints, statements);
  }

  // ----- the same plan as a two-pass diff ----------------------------------------------------

  /** Indexes are created under an unquoted name, so the server folds it. */
  function Indexes(render: IndexSpec -> Index): Family<IndexSpec, Index> {
    Family((d: IndexSpec) => d.name, (c: Index) => c.name, (d: IndexSpec, c: Index) => IndexEquals(c, ToIndex(d)), Folded, render)
  }

  function Tag(s: Stmt<IndexSpec>, constraints: seq<string>): IndexStmt {
    match s
    case Drop(n) => Removal(constraints, n)
    case Create(d) => AddIndex(d)
  }

  function Tagged(plan: seq<Stmt<IndexSpec>>, constraints: seq<string>): seq<IndexStmt> {
    if plan == [] then []
    else [Tag(plan[0], constraints)] + Tagged(plan[1..], constraints)
  }

  lemma {:induction false} TaggedConcat(p: seq<Stmt<IndexSpec>>, q: seq<Stmt<IndexSpec>>, constraints: seq<string>)
    ensures Tagged(p + q, constraints) == Tagged(p, constraints) + Tagged(q, constraints)
    decreases |p|
  {
    hide Removal;
    if p == [] {
      assert p + q == q;
    } else {
      assert (p + q)[0] == p[0] && (p + q)[1..] == p[1..] + q;
      TaggedConcat(p[1..], q, constraints);
    }
  }

  /** Equal indexes have the same name, so comparing whole indexes finds the one of that name. */
  lemma EqualIsNamed(render: IndexSpec -> Index, cur: seq<Index>, d: IndexSpec)
    requires DistinctCurrent(Indexes(render), cur)
    ensures var m := Lookup(Indexes(render), cur, d.name);
      && (HasName(cur, d.name) <==> m.Some?)
      && (AnyEqual(cur, d) <==> m.Some? && IndexEquals(m.value, ToIndex(d)))
  {
    var f := Indexes(render);
    forall c: Index | IndexEquals(c, ToIndex(d)) ensures c.name == d.name {
      EqualNames(c, d);
    }
    hide IndexEquals, ToIndex;
    LookupFinds(f, cur, d.name);
    var m := Lookup(f, cur, d.name);
    if m.Some? {
      var i :| 0 <= i < |cur| && cur[i] == m.value;
      assert f.nameIn(cur[i]) == cur[i].name;
      if AnyEqual(cur, d) {
        var k :| 0 <= k < |cur| && IndexEquals(cur[k], ToIndex(d));
        assert f.nameIn(cur[k]) == d.name;
        assert k == i;
      }
    } else {
      forall i | 0 <= i < |cur| ensures cur[i].name != d.name {
        assert f.nameIn(cur[i]) == cur[i].name;
      }
    }
  }

  lemma EqualNames(c: Index, d: IndexSpec)
    requires IndexEquals(c, ToIndex(d))
    ensures c.name == d.name
  {
  }

  lemma {:induction false} DesiredAsDiff(render: IndexSpec -> Index, ds: seq<IndexSpec>, cur: seq<Index>, constraints: seq<string>)
    requires DistinctCurrent(Indexes(render), cur)
    ensures DesiredIndexes(true, ds, cur, constraints) == Tagged(DesiredPass(Indexes(render), ds, cur), constraints)
    decreases |ds|
  {
    if ds != [] {
      var f := Indexes(render);
      DesiredAsDiff(render, ds[1..], cur, constraints);
      TaggedConcat(ForDesired(f, ds[0], cur), DesiredPass(f, ds[1..], cur), constraints);
      OneAsDiff(render, ds[0], cur, constraints);
    }
  }

  lemma OneAsDiff(render: IndexSpec -> Index, d: IndexSpec, cur: seq<Index>, constraints: seq<string>)
    requires DistinctCurrent(Indexes(render), cur)
    ensures ForDesiredIndex(d, cur, constraints) == Tagged(ForDesired(Indexes(render), d, cur), constraints)
  {
    var f := Indexes(render);
    EqualIsNamed(render, cur, d);
    hide AnyEqual, HasName, IndexEquals, ToIndex, Removal;
    TaggedOne(Create(d), constraints);
    TaggedOne(Drop(d.name), constraints);
    TaggedConcat([Drop(d.name)], [Create(d)], constraints);
    assert [Drop(d.name)] + [Create(d)] == [Drop(d.name), Create(d)];
  }

  lemma TaggedOne(s: Stmt<IndexSpec>, constraints: seq<string>)
    ensures Tagged([s], constraints) == [Tag(s, constraints)]
  {
    assert [s][1..] == [];
  }

  lemma {:induction false} DroppedAre(ds: seq<IndexSpec>, cur: seq<Index>, n: string)
    ensures n in DroppedIndexes(true, ds, cur) <==>
      exists i :: 0 <= i < |ds| && ds[i].name == n && !AnyEqual(cur, ds[i]) && HasName(cur, ds[i].name)
    decreases |ds|
  {
    hide AnyEqual, HasName;
    if ds != [] {
      DroppedAre(ds[1..], cur, n);
      if i :| 0 <= i < |ds| && ds[i].name == n && !AnyEqual(cur, ds[i]) && HasName(cur, ds[i].name) {
        if i > 0 { assert ds[1..][i - 1] == ds[i]; }
      }
      if i :| 0 <= i < |ds[1..]| && ds[1..][i].name == n && !AnyEqual(cur, ds[1..][i]) && HasName(cur, ds[1..][i].name) {
        assert ds[i + 1] == ds[1..][i];
      }
    }
  }

  /** A listed index survives the existing pass exactly if its name is declared. */
  lemma SurvivesIffNamed(render: IndexSpec -> Index, ds: seq<IndexSpec>, cur: seq<Index>, k: nat)
    requires DistinctCurrent(Indexes(render), cur) && k < |cur|
    ensures EqualsAny(cur[k], ds) || cur[k].name in DroppedIndexes(true, ds, cur) <==> Named(Indexes(render), ds, cur[k].name)
  {
    var f, c := Indexes(render), cur[k];
    DroppedAre(ds, cur, c.name);
    if EqualsAny(c, ds) {
      var i :| 0 <= i < |ds| && IndexEquals(c, ToIndex(ds[i]));
      EqualNames(c, ds[i]);
      assert f.nameOf(ds[i]) == c.name;
    }
    hide IndexEquals, ToIndex;
    if Named(f, ds, c.name) && !EqualsAny(c, ds) {
      var i :| 0 <= i < |ds| && f.nameOf(ds[i]) == c.name;
      EqualIsNamed(render, cur, ds[i]);
      LookupAtDistinct(f, cur, k);
      assert !AnyEqual(cur, ds[i]) && HasName(cur, ds[i].name);
    }
    if i :| 0 <= i < |ds| && ds[i].name == c.name && !AnyEqual(cur, ds[i]) && HasName(cur, ds[i].name) {
      assert f.nameOf(ds[i]) == c.name;
    }
  }

  lemma LookupAtDistinct<D, C>(f: Family<D, C>, cur: seq<C>, k: nat)
    requires DistinctCurrent(f, cur) && k < |cur|
    ensures Lookup(f, cur, f.nameIn(cur[k])) == Some(cur[k])
  {
    LookupFinds(f, cur, f.nameIn(cur[k]));
  }

  lemma {:induction false} ExistingAsDiff(render: IndexSpec -> Index, cur: seq<Index>, ds: seq<IndexSpec>, dropped: seq<string>,
      constraints: seq<string>)
    requires forall k :: 0 <= k < |cur| ==>
      (EqualsAny(cur[k], ds) || cur[k].name in dropped <==> Named(Indexes(render), ds, cur[k].name))
    ensures ExistingIndexes(cur, ds, dropped, constraints) == Tagged(ExistingPass(Indexes(render), cur, ds), constraints)
    decreases |cur|
  {
    hide Named, EqualsAny, Removal;
    if cur != [] {
      var f := Indexes(render);
      forall k | 0 <= k < |cur[1..]| ensures cur[1..][k] == cur[k + 1] {
      }
      ExistingAsDiff(render, cur[1..], ds, dropped, constraints);
      TaggedConcat(ForExisting(f, cur[0], ds), ExistingPass(f, cur[1..], ds), constraints);
      assert f.nameIn(cur[0]) == cur[0].name;
      TaggedOne(Drop(cur[0].name), constraints);
    }
  }

  /** On an existing table the index builder is the two-pass diff with tagged removals. */
  lemma IndexStatementsAreDiff(render: IndexSpec -> Index, ds: seq<IndexSpec>, cur: seq<Index>, constraints: seq<string>)
    requires DistinctCurrent(Indexes(render), cur)
    ensures IndexStatements(true, ds, cur, constraints) == Tagged(Plan(Indexes(render), ds, cur), constraints)
  {
    hide DesiredIndexes, ExistingIndexes, DroppedIndexes, EqualsAny, Named, Tagged, DesiredPass, ExistingPass;
    var f := Indexes(render);
    DesiredAsDiff(render, ds, cur, constraints);
    forall k | 0 <= k < |cur|
      ensures EqualsAny(cur[k], ds) || cur[k].name in DroppedIndexes(true, ds, cur) <==> Named(f, ds, cur[k].name)
    {
      SurvivesIffNamed(render, ds, cur, k);
    }
    ExistingAsDiff(render, cur, ds, DroppedIndexes(true, ds, cur), constraints);
    TaggedConcat(DesiredPass(f, ds, cur), ExistingPass(f, cur, ds), constraints);
  }

  // ----- running it ----------------------------------------------------------------------------

  /** The indexes of a table and which of them a constraint stands behind. */
  datatype IndexCatalog = IndexCatalog(indexes: map<string, Index>, backed: set<string>)

  /** `drop constraint` aimed at an index that no constraint stands behind. */
  predicate Strays(cat: IndexCatalog, s: IndexStmt) {
    s.DropConstraint? && s.name in cat.indexes && s.name !in cat.backed
  }

  /** A removal that strays leaves the index where it is: it takes some other constraint of that name along. */
  function IndexStep(render: IndexSpec -> Index, cat: IndexCatalog, s: IndexStmt): Option<IndexCatalog> {
    match s
    case DropConstraint(n) =>
      if n !in cat.indexes then None
      else if n in cat.backed then Some(IndexCatalog(cat.indexes - {n}, cat.backed - {n}))
      else Some(cat)
    case DropIndex(n) =>
      if n in cat.indexes && n !in cat.backed then Some(IndexCatalog(cat.indexes - {n}, cat.backed)) else None
    case AddIndex(d) =>
      if Folded(d.name) in cat.indexes then None else Some(IndexCatalog(cat.indexes[Folded(d.name) := render(d)], cat.backed))
  }

  function IndexExec(render: IndexSpec -> Index, cat: IndexCatalog, plan: seq<IndexStmt>): Option<IndexCatalog>
    decreases |plan|
  {
    if plan == [] then Some(cat) else
    match IndexStep(render, cat, plan[0])
    case None => None
    case Some(next) => IndexExec(render, next, plan[1..])
  }

  /** No removal of the run strays. */
  predicate NeverStrays(render: IndexSpec -> Index, cat: IndexCatalog, plan: seq<IndexStmt>)
    decreases |plan|
  {
    plan == [] ||
    (!Strays(cat, plan[0]) &&
     var next := IndexStep(render, cat, plan[0]);
     next.Some? ==> NeverStrays(render, next.value, plan[1..]))
  }

  /** Every dropped name is a listed constraint exactly if a constraint stands behind the index. */
  ghost predicate TagsFit(drops: seq<string>, constraints: seq<string>, backed: set<string>) {
    forall i :: 0 <= i < |drops| ==> (drops[i] in constraints <==> drops[i] in backed)
  }

  /** If every tag fits, a tagged plan never strays and does what the plan does. */
  lemma {:induction false} TaggedRuns(render: IndexSpec -> Index, plan: seq<Stmt<IndexSpec>>, constraints: seq<string>, cat: IndexCatalog)
    requires NoDuplicates(Drops(plan)) && TagsFit(Drops(plan), constraints, cat.backed)
    ensures NeverStrays(render, cat, Tagged(plan, constraints))
    ensures IndexExec(render, cat, Tagged(plan, constraints)).Some? <==> Exec(Indexes(render), cat.indexes, plan).Some?
    ensures IndexExec(render, cat, Tagged(plan, constraints)).Some? ==>
      IndexExec(render, cat, Tagged(plan, constraints)).value ==
      IndexCatalog(Exec(Indexes(render), cat.indexes, plan).value, cat.backed - SetOf(Drops(plan)))
    decreases |plan|, 1
  {
    if plan == [] {
      assert cat.backed - SetOf(Drops(plan)) == cat.backed;
    } else {
      var s, rest := plan[0], plan[1..];
      var tagged := Tagged(plan, constraints);
      assert tagged[1..] == Tagged(rest, constraints);
      match s {
        case Create(d) =>
          assert Drops(plan) == Drops(rest);
          if Folded(d.name) !in cat.indexes {
            TaggedRuns(render, rest, constraints, cat.(indexes := cat.indexes[Folded(d.name) := render(d)]));
          }
        case Drop(n) =>
          assert Drops(plan) == [n] + Drops(rest);
          if n in cat.indexes {
            DropRuns(render, n, rest, constraints, cat);
          } else {
            assert tagged[0] == Removal(constraints, n);
          }
      }
    }
  }

  lemma DropRuns(render: IndexSpec -> Index, n: string, rest: seq<Stmt<IndexSpec>>, constraints: seq<string>, cat: IndexCatalog)
    requires n in cat.indexes && NoDuplicates([n] + Drops(rest)) && TagsFit([n] + Drops(rest), constraints, cat.backed)
    ensures var tagged := [Removal(constraints, n)] + Tagged(rest, constraints); var end := IndexExec(render, cat, tagged);
      var plain := Exec(Indexes(render), cat.indexes - {n}, rest);
      && NeverStrays(render, cat, tagged)
      && (end.Some? <==> plain.Some?)
      && (end.Some? ==> end.value == IndexCatalog(plain.value, cat.backed - SetOf([n] + Drops(rest))))
    decreases |rest|, 2
  {
    var drops := [n] + Drops(rest);
    var tagged := [Removal(constraints, n)] + Tagged(rest, constraints);
    assert tagged[0] == Removal(constraints, n) && tagged[1..] == Tagged(rest, constraints);
    var next := IndexCatalog(cat.indexes - {n}, cat.backed - {n});
    assert n !in cat.backed ==> cat.backed - {n} == cat.backed;
    DropsTail(n, Drops(rest), constraints, cat.backed);
    TaggedRuns(render, rest, constraints, next);
    assert IndexStep(render, cat, tagged[0]) == Some(next);
    assert cat.backed - SetOf(drops) == (cat.backed - {n}) - SetOf(Drops(rest));
  }

  lemma DropsTail(n: string, rest: seq<string>, constraints: seq<string>, backed: set<string>)
    requires NoDuplicates([n] + rest)
    ensures NoDuplicates(rest)
    ensures TagsFit([n] + rest, constraints, backed) <==>
      (n in constraints <==> n in backed) && TagsFit(rest, constraints, backed - {n})
  {
    var all := [n] + rest;
    assert all[0] == n;
    forall i | 0 <= i < |rest| ensures rest[i] == all[i + 1] && rest[i] != n {
    }
  }

  /** A plain index that shares its name with a listed constraint. */
  ghost predicate Confused(cat: IndexCatalog, constraints: seq<string>, n: string) {
    n in cat.indexes && n !in cat.backed && n in constraints
  }

  /** Every such index is declared just as it is stored, so that no statement is about it. */
  ghost predicate ConfusedKept(render: IndexSpec -> Index, ds: seq<IndexSpec>, constraints: seq<string>, cat: IndexCatalog) {
    forall n :: Confused(cat, constraints, n) ==> exists i :: 0 <= i < |ds| && ds[i].name == n && Kept(Indexes(render), ds[i], cat.indexes)
  }

  /** The catalog names a constraint behind every index that has one. */
  ghost predicate ListsConstraints(constraints: seq<string>, cat: IndexCatalog) {
    forall n :: n in cat.backed ==> n in constraints
  }

  lemma TagsFitIff(render: IndexSpec -> Index, ds: seq<IndexSpec>, cur: seq<Index>, constraints: seq<string>, cat: IndexCatalog)
    requires var f := Indexes(render); DistinctDesired(f, ds) && Lists(f, cur, cat.indexes)
    requires ListsConstraints(constraints, cat)
    ensures TagsFit(Drops(Plan(Indexes(render), ds, cur)), constraints, cat.backed) <==> ConfusedKept(render, ds, constraints, cat)
  {
    var f := Indexes(render);
    var drops := Drops(Plan(f, ds, cur));
    assert forall i :: 0 <= i < |ds| ==> f.nameOf(ds[i]) == ds[i].name;
    hide Plan, Drops, Kept, Lists, DistinctDesired, Indexes;
    DropsOnce(f, ds, cur, cat.indexes);
    if TagsFit(drops, constraints, cat.backed) {
      forall n | Confused(cat, constraints, n)
        ensures exists i :: 0 <= i < |ds| && ds[i].name == n && Kept(f, ds[i], cat.indexes)
      {
        assert n !in drops;
        var i :| 0 <= i < |ds| && f.nameOf(ds[i]) == n && Kept(f, ds[i], cat.indexes);
        assert ds[i].name == n;
      }
    }
    if ConfusedKept(render, ds, constraints, cat) {
      forall n | Confused(cat, constraints, n) ensures n !in drops {
        var i :| 0 <= i < |ds| && ds[i].name == n && Kept(f, ds[i], cat.indexes);
        assert f.nameOf(ds[i]) == n;
      }
      forall k | 0 <= k < |drops| ensures drops[k] in constraints <==> drops[k] in cat.backed {
        assert drops[k] in drops && drops[k] in cat.indexes && !Confused(cat, constraints, drops[k]);
      }
    }
  }

  // ----- an index that is taken for a constraint --------------------------------------------------

  /** No statement drops the index as an index. */
  ghost predicate NeverDropped(plan: seq<IndexStmt>, n: string) {
    forall i :: 0 <= i < |plan| ==> plan[i] != DropIndex(n)
  }

  lemma StatementsNeverDrop(render: IndexSpec -> Index, ds: seq<IndexSpec>, cur: seq<Index>, constraints: seq<string>, n: string)
    requires DistinctCurrent(Indexes(render), cur) && n in constraints
    ensures NeverDropped(IndexStatements(true, ds, cur, constraints), n)
  {
    hide IndexStatements, Plan, Tagged;
    IndexStatementsAreDiff(render, ds, cur, constraints);
    var plan := IndexStatements(true, ds, cur, constraints);
    forall i | 0 <= i < |plan| ensures plan[i] != DropIndex(n) {
      if plan[i].DropIndex? {
        TaggedDropIndex(Plan(Indexes(render), ds, cur), constraints, i);
      }
    }
  }

  /** A plain index that is not dropped as an index stays, whatever constraint is dropped under its name. */
  lemma StepLeavesPlain(render: IndexSpec -> Index, cat: IndexCatalog, s: IndexStmt, n: string)
    requires n in cat.indexes && n !in cat.backed && s != DropIndex(n) && IndexStep(render, cat, s).Some?
    ensures var next := IndexStep(render, cat, s).value; n in next.indexes && next.indexes[n] == cat.indexes[n] && n !in next.backed
  {
  }

  lemma {:induction false} PlainStays(render: IndexSpec -> Index, cat: IndexCatalog, plan: seq<IndexStmt>, n: string)
    requires n in cat.indexes && n !in cat.backed && NeverDropped(plan, n) && IndexExec(render, cat, plan).Some?
    ensures var end := IndexExec(render, cat, plan).value; n in end.indexes && end.indexes[n] == cat.indexes[n] && n !in end.backed
    decreases |plan|
  {
    hide IndexStep;
    if plan != [] {
      StepLeavesPlain(render, cat, plan[0], n);
      forall i | 0 <= i < |plan[1..]| ensures plan[1..][i] != DropIndex(n) {
        assert plan[1..][i] == plan[i + 1];
      }
      PlainStays(render, IndexStep(render, cat, plan[0]).value, plan[1..], n);
    }
  }

  /**
   The index plan runs and ends with exactly the declared indexes if and only if every plain
   index that shares its name with a constraint is declared as it is stored; constraint-backed
   indexes are then removed by `drop constraint` only.
   */
  lemma IndexPlanReachesIff(render: IndexSpec -> Index, ds: seq<IndexSpec>, cur: seq<Index>, constraints: seq<string>, cat: IndexCatalog)
    requires var f := Indexes(render); Manageable(f, ds, cat.indexes) && Lists(f, cur, cat.indexes)
    requires ListsConstraints(constraints, cat)
    ensures var f := Indexes(render); var plan := IndexStatements(true, ds, cur, constraints); var end := IndexExec(render, cat, plan);
      && (end.Some? && Reached(f, cat.indexes, ds, end.value.indexes) <==> ConfusedKept(render, ds, constraints, cat))
      && (ConfusedKept(render, ds, constraints, cat) ==>
        NeverStrays(render, cat, plan) && end.value.backed == cat.backed - SetOf(Drops(Plan(f, ds, cur))))
  {
    var f := Indexes(render);
    assert DistinctDesired(f, ds);
    hide Plan, IndexStatements, Reached, Manageable, ConfusedKept, TagsFit, ListsConstraints, Exec, IndexExec, Indexes, NeverStrays;
    var plan := Plan(f, ds, cur);
    IndexStatementsAreDiff(render, ds, cur, constraints);
    PlanReachesDesired(f, ds, cur, cat.indexes);
    DropsOnce(f, ds, cur, cat.indexes);
    TagsFitIff(render, ds, cur, constraints, cat);
    var end := IndexExec(render, cat, IndexStatements(true, ds, cur, constraints));
    if ConfusedKept(render, ds, constraints, cat) {
      TaggedRuns(render, plan, constraints, cat);
    } else if end.Some? {
      MissedConfusion(render, ds, cur, constraints, cat);
    }
  }

  /** Otherwise one such index is left over, or left as it was. */
  lemma MissedConfusion(render: IndexSpec -> Index, ds: seq<IndexSpec>, cur: seq<Index>, constraints: seq<string>, cat: IndexCatalog)
    requires Lists(Indexes(render), cur, cat.indexes) && !ConfusedKept(render, ds, constraints, cat)
    requires IndexExec(render, cat, IndexStatements(true, ds, cur, constraints)).Some?
    ensures var end := IndexExec(render, cat, IndexStatements(true, ds, cur, constraints)).value;
      !(end.indexes.Keys == Diff.Names(Indexes(render), ds) && forall i :: 0 <= i < |ds| ==> Kept(Indexes(render), ds[i], end.indexes))
  {
    var f := Indexes(render);
    var n :| Confused(cat, constraints, n) && !exists i :: 0 <= i < |ds| && ds[i].name == n && Kept(f, ds[i], cat.indexes);
    hide IndexStatements, IndexExec;
    StatementsNeverDrop(render, ds, cur, constraints, n);
    PlainStays(render, cat, IndexStatements(true, ds, cur, constraints), n);
    var end := IndexExec(render, cat, IndexStatements(true, ds, cur, constraints)).value;
    LeftOver(f, ds, cat.indexes, end.indexes, n);
  }

  lemma LeftOver(f: Family<IndexSpec, Index>, ds: seq<IndexSpec>, cat: map<string, Index>, end: map<string, Index>, n: string)
    requires n in cat && n in end && end[n] == cat[n]
    requires !exists i :: 0 <= i < |ds| && f.nameOf(ds[i]) == n && Kept(f, ds[i], cat)
    ensures !(end.Keys == Diff.Names(f, ds) && forall i :: 0 <= i < |ds| ==> Kept(f, ds[i], end))
  {
    if n in Diff.Names(f, ds) {
      var i :| 0 <= i < |ds| && f.nameOf(ds[i]) == n;
      assert !Kept(f, ds[i], cat);
      assert !Kept(f, ds[i], end);
    }
  }

  /** The index statements run, and no listing of where they end yields another. */
  ghost predicate IndexesSettle(render: IndexSpec -> Index, ds: seq<IndexSpec>, cur: seq<Index>, constraints: seq<string>,
      cat: IndexCatalog) {
    var end := IndexExec(render, cat, IndexStatements(true, ds, cur, constraints));
    end.Some? && forall relisted, listed ::
      Lists(Indexes(render), relisted, end.value.indexes) && ListsConstraints(listed, end.value) ==>
      IndexStatements(true, ds, relisted, listed) == []
  }

  lemma IndexFilingSettles(render: IndexSpec -> Index)
    ensures FilingSettles(Indexes(render))
  {
    var f := Indexes(render);
    hide Folded;
    forall n: string ensures f.filed(f.filed(n)) == f.filed(n) {
      FilingTwice(n);
    }
  }

  lemma EmptyTagged(plan: seq<Stmt<IndexSpec>>, constraints: seq<string>)
    ensures Tagged(plan, constraints) == [] <==> plan == []
  {
  }

  /** Running the tagged plan, for any declarations, if nothing is confused. */
  lemma IndexExecIs(render: IndexSpec -> Index, ds: seq<IndexSpec>, cur: seq<Index>, constraints: seq<string>, cat: IndexCatalog)
    requires var f := Indexes(render); DistinctDesired(f, ds) && Lists(f, cur, cat.indexes)
    requires ListsConstraints(constraints, cat) && ConfusedKept(render, ds, constraints, cat)
    ensures var plain := Exec(Indexes(render), cat.indexes, Plan(Indexes(render), ds, cur));
      var plan := IndexStatements(true, ds, cur, constraints); var end := IndexExec(render, cat, plan);
      && NeverStrays(render, cat, plan)
      && (end.Some? <==> plain.Some?)
      && (end.Some? ==> end.value.indexes == plain.value && ListsConstraints(constraints, end.value))
  {
    var f := Indexes(render);
    var plan := Plan(f, ds, cur);
    hide Plan, IndexStatements, ConfusedKept, TagsFit, Exec, IndexExec, Indexes, NeverStrays;
    IndexStatementsAreDiff(render, ds, cur, constraints);
    DropsOnce(f, ds, cur, cat.indexes);
    TagsFitIff(render, ds, cur, constraints, cat);
    TaggedRuns(render, plan, constraints, cat);
  }

  /** Every created index is listed under the name it was filed under. */
  ghost predicate NamesRendered(render: IndexSpec -> Index, plan: seq<IndexStmt>) {
    forall i :: 0 <= i < |plan| && plan[i].AddIndex? ==> render(plan[i].desired).name == Folded(plan[i].desired.name)
  }

  ghost predicate IndexesNamed(cat: IndexCatalog) {
    forall n :: n in cat.indexes ==> cat.indexes[n].name == n
  }

  lemma StepKeepsNames(render: IndexSpec -> Index, cat: IndexCatalog, s: IndexStmt)
    requires IndexesNamed(cat) && (s.AddIndex? ==> render(s.desired).name == Folded(s.desired.name)) && IndexStep(render, cat, s).Some?
    ensures IndexesNamed(IndexStep(render, cat, s).value) && IndexStep(render, cat, s).value.backed <= cat.backed
  {
  }

  lemma {:induction false} ExecKeepsNames(render: IndexSpec -> Index, cat: IndexCatalog, plan: seq<IndexStmt>)
    requires IndexesNamed(cat) && NamesRendered(render, plan) && IndexExec(render, cat, plan).Some?
    ensures IndexesNamed(IndexExec(render, cat, plan).value) && IndexExec(render, cat, plan).value.backed <= cat.backed
    decreases |plan|
  {
    hide IndexStep, IndexesNamed;
    if plan != [] {
      StepKeepsNames(render, cat, plan[0]);
      ExecKeepsNames(render, IndexStep(render, cat, plan[0]).value, plan[1..]);
    }
  }

  lemma {:induction false} TaggedNames(render: IndexSpec -> Index, plan: seq<Stmt<IndexSpec>>, constraints: seq<string>)
    requires forall i :: 0 <= i < |plan| && plan[i].Create? ==> render(plan[i].desired).name == Folded(plan[i].desired.name)
    ensures NamesRendered(render, Tagged(plan, constraints))
    decreases |plan|
  {
    hide Folded;
    if plan != [] {
      forall i | 0 <= i < |plan[1..]| ensures plan[1..][i] == plan[i + 1] {
      }
      TaggedNames(render, plan[1..], constraints);
    }
  }

  lemma StatementsRender(render: IndexSpec -> Index, ds: seq<IndexSpec>, cur: seq<Index>, constraints: seq<string>)
    requires Renders(Indexes(render), ds) && DistinctCurrent(Indexes(render), cur)
    ensures NamesRendered(render, IndexStatements(true, ds, cur, constraints))
  {
    var f := Indexes(render);
    hide Plan, IndexStatements, Folded, IndexEquals, NamesRendered, DistinctCurrent;
    IndexStatementsAreDiff(render, ds, cur, constraints);
    PlanCreatesDesired(f, ds, cur);
    TaggedNames(render, Plan(f, ds, cur), constraints);
  }

  lemma ListedIsNamed(render: IndexSpec -> Index, cur: seq<Index>, cat: IndexCatalog)
    requires Lists(Indexes(render), cur, cat.indexes)
    ensures IndexesNamed(cat)
  {
    var f := Indexes(render);
    forall n | n in cat.indexes ensures cat.indexes[n].name == n {
      var i :| 0 <= i < |cur| && f.nameIn(cur[i]) == n;
    }
  }

  lemma NamedIsListed(render: IndexSpec -> Index, cat: IndexCatalog) returns (cur: seq<Index>)
    requires IndexesNamed(cat)
    ensures Lists(Indexes(render), cur, cat.indexes)
  {
    var f := Indexes(render);
    assert forall n :: n in cat.indexes ==> f.nameIn(cat.indexes[n]) == n;
    hide Lists;
    cur := SomeListing(f, cat.indexes);
  }

  /** Wherever the index statements end, the end can be listed, and only known constraints remain. */
  lemma IndexEndIsListed(render: IndexSpec -> Index, ds: seq<IndexSpec>, cur: seq<Index>, constraints: seq<string>, cat: IndexCatalog)
      returns (relisted: seq<Index>)
    requires Renders(Indexes(render), ds) && Lists(Indexes(render), cur, cat.indexes) && ListsConstraints(constraints, cat)
    requires IndexExec(render, cat, IndexStatements(true, ds, cur, constraints)).Some?
    ensures var end := IndexExec(render, cat, IndexStatements(true, ds, cur, constraints)).value;
      Lists(Indexes(render), relisted, end.indexes) && ListsConstraints(constraints, end)
  {
    ListedIsDistinct(Indexes(render), cur, cat.indexes);
    ListedIsNamed(render, cur, cat);
    hide IndexStatements, IndexExec, Lists, Renders, Indexes, IndexesNamed, DistinctCurrent;
    StatementsRender(render, ds, cur, constraints);
    ExecKeepsNames(render, cat, IndexStatements(true, ds, cur, constraints));
    relisted := NamedIsListed(render, IndexExec(render, cat, IndexStatements(true, ds, cur, constraints)).value);
  }

  /** If some listing of the end yields no statement, nothing was confused. */
  lemma EmptyReplanKeepsConfused(render: IndexSpec -> Index, ds: seq<IndexSpec>, cur: seq<Index>, constraints: seq<string>,
      cat: IndexCatalog,
      end: IndexCatalog, relisted: seq<Index>, listed: seq<string>)
    requires Lists(Indexes(render), cur, cat.indexes)
    requires forall n :: Confused(cat, constraints, n) ==> n in end.indexes && end.indexes[n] == cat.indexes[n]
    requires Lists(Indexes(render), relisted, end.indexes) && IndexStatements(true, ds, relisted, listed) == []
    ensures ConfusedKept(render, ds, constraints, cat)
  {
    var f := Indexes(render);
    ListedIsDistinct(f, relisted, end.indexes);
    IndexStatementsAreDiff(render, ds, relisted, listed);
    EmptyTagged(Plan(f, ds, relisted), listed);
    hide IndexStatements, Plan, Lists, IndexEquals;
    EmptyPlanMeans(f, ds, relisted, end.indexes);
    forall n | Confused(cat, constraints, n)
      ensures exists i :: 0 <= i < |ds| && ds[i].name == n && Kept(f, ds[i], cat.indexes)
    {
      assert n in Diff.Names(f, ds);
      var i :| 0 <= i < |ds| && f.nameOf(ds[i]) == n;
      assert Kept(f, ds[i], end.indexes);
      assert ds[i].name == n && Kept(f, ds[i], cat.indexes);
    }
  }

  /**
   On every catalog the declared indexes settle exactly if each is stored as declared or has a
   name the server files verbatim, and no plain index to be dropped is taken for a constraint.
   */
  lemma IndexesSettleIff(render: IndexSpec -> Index, ds: seq<IndexSpec>, cur: seq<Index>, constraints: seq<string>, cat: IndexCatalog)
    requires var f := Indexes(render); DistinctDesired(f, ds) && Renders(f, ds) && Lists(f, cur, cat.indexes)
    requires ListsConstraints(constraints, cat)
    ensures IndexesSettle(render, ds, cur, constraints, cat) <==>
      AllFit(Indexes(render), ds, cat.indexes) && ConfusedKept(render, ds, constraints, cat)
  {
    hide IndexesSettle, ConfusedKept, AllFit, Lists, Renders, DistinctDesired, ListsConstraints, Indexes;
    if IndexesSettle(render, ds, cur, constraints, cat) {
      SettlingIsUnconfused(render, ds, cur, constraints, cat);
      SettlingFits(render, ds, cur, constraints, cat);
    }
    if AllFit(Indexes(render), ds, cat.indexes) && ConfusedKept(render, ds, constraints, cat) {
      FittingSettles(render, ds, cur, constraints, cat);
    }
  }

  lemma SettlingIsUnconfused(render: IndexSpec -> Index, ds: seq<IndexSpec>, cur: seq<Index>, constraints: seq<string>, cat: IndexCatalog)
    requires Renders(Indexes(render), ds) && Lists(Indexes(render), cur, cat.indexes) && ListsConstraints(constraints, cat)
    requires IndexesSettle(render, ds, cur, constraints, cat)
    ensures ConfusedKept(render, ds, constraints, cat)
  {
    ListedIsDistinct(Indexes(render), cur, cat.indexes);
    hide IndexStatements, IndexExec, Lists, Renders, Indexes, ListsConstraints, ConfusedKept, DistinctCurrent;
    var plan := IndexStatements(true, ds, cur, constraints);
    var end := IndexExec(render, cat, plan).value;
    var relisted := IndexEndIsListed(render, ds, cur, constraints, cat);
    forall n | Confused(cat, constraints, n) ensures n in end.indexes && end.indexes[n] == cat.indexes[n] {
      StatementsNeverDrop(render, ds, cur, constraints, n);
      PlainStays(render, cat, plan, n);
    }
    EmptyReplanKeepsConfused(render, ds, cur, constraints, cat, end, relisted, constraints);
  }

  lemma SettlingFits(render: IndexSpec -> Index, ds: seq<IndexSpec>, cur: seq<Index>, constraints: seq<string>, cat: IndexCatalog)
    requires var f := Indexes(render); DistinctDesired(f, ds) && Renders(f, ds) && Lists(f, cur, cat.indexes)
    requires ListsConstraints(constraints, cat) && IndexesSettle(render, ds, cur, constraints, cat)
    requires ConfusedKept(render, ds, constraints, cat)
    ensures AllFit(Indexes(render), ds, cat.indexes)
  {
    var f := Indexes(render);
    hide Plan, IndexStatements, ConfusedKept, Exec, IndexExec, Indexes, Lists, Renders, DistinctDesired, Fits, ListsConstraints;
    IndexExecIs(render, ds, cur, constraints, cat);
    IndexFilingSettles(render);
    var end := IndexExec(render, cat, IndexStatements(true, ds, cur, constraints)).value;
    var relisted := EndIsListed(f, ds, cur, cat.indexes);
    ListedIsDistinct(f, relisted, end.indexes);
    IndexStatementsAreDiff(render, ds, relisted, constraints);
    EmptyTagged(Plan(f, ds, relisted), constraints);
    EmptyReplanFits(f, ds, cur, cat.indexes, relisted);
  }

  lemma FittingSettles(render: IndexSpec -> Index, ds: seq<IndexSpec>, cur: seq<Index>, constraints: seq<string>, cat: IndexCatalog)
    requires var f := Indexes(render); DistinctDesired(f, ds) && Renders(f, ds) && Lists(f, cur, cat.indexes)
    requires ListsConstraints(constraints, cat) && AllFit(Indexes(render), ds, cat.indexes) && ConfusedKept(render, ds, constraints, cat)
    ensures IndexesSettle(render, ds, cur, constraints, cat)
  {
    var f := Indexes(render);
    hide Plan, IndexStatements, ConfusedKept, Exec, IndexExec, Indexes, Lists, Renders, DistinctDesired, AllFit, ListsConstraints, Reached;
    IndexPlanReachesIff(render, ds, cur, constraints, cat);
    var end := IndexExec(render, cat, IndexStatements(true, ds, cur, constraints)).value;
    forall relisted, listed | Lists(f, relisted, end.indexes) ensures IndexStatements(true, ds, relisted, listed) == [] {
      IndexReplanIsEmpty(render, ds, cat.indexes, end.indexes, relisted, listed);
    }
  }

  lemma ListedIsDistinct<D, C>(f: Family<D, C>, cur: seq<C>, cat: map<string, C>)
    requires Lists(f, cur, cat)
    ensures DistinctCurrent(f, cur)
  {
  }

  /** Once reached, no listing of the indexes and no list of constraints yields a statement. */
  lemma IndexReplanIsEmpty(render: IndexSpec -> Index, ds: seq<IndexSpec>, cat: map<string, Index>, end: map<string, Index>,
      relisted: seq<Index>, constraints: seq<string>)
    requires var f := Indexes(render); Reached(f, cat, ds, end) && Lists(f, relisted, end)
    ensures IndexStatements(true, ds, relisted, constraints) == []
  {
    hide IndexStatements;
    IndexStatementsAreDiff(render, ds, relisted, constraints);
    ReplanIsEmpty(Indexes(render), ds, cat, end, relisted);
  }

  lemma {:induction false} TaggedDropIndex(plan: seq<Stmt<IndexSpec>>, constraints: seq<string>, i: nat)
    requires i < |Tagged(plan, constraints)| && Tagged(plan, constraints)[i].DropIndex?
    ensures Tagged(plan, constraints)[i].name !in constraints
    decreases |plan|
  {
    if i > 0 {
      assert Tagged(plan, constraints)[i] == Tagged(plan[1..], constraints)[i - 1];
      TaggedDropIndex(plan[1..], constraints, i - 1);
    }
  }

  /** `drop index` is never aimed at an index a constraint stands behind. */
  lemma BackedNeedsDropConstraint(render: IndexSpec -> Index, ds: seq<IndexSpec>, cur: seq<Index>, constraints: seq<string>,
      backed: set<string>, i: nat)
    requires DistinctCurrent(Indexes(render), cur) && forall n :: n in backed ==> n in constraints
    requires i < |IndexStatements(true, ds, cur, constraints)|
    ensures var s := IndexStatements(true, ds, cur, constraints)[i]; s.DropIndex? ==> s.name !in backed
  {
    hide IndexStatements, Plan, Tagged;
    IndexStatementsAreDiff(render, ds, cur, constraints);
    if IndexStatements(true, ds, cur, constraints)[i].DropIndex? {
      TaggedDropIndex(Plan(Indexes(render), ds, cur), constraints, i);
    }
  }
}
