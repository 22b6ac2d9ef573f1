/** Without a rebuild, the statements for a SQLite table all run and reach the declared table. */
module SqliteLaws {
  import opened Options
  import opened Collections
  import opened Comparators
  import opened ForeignKeys
  import opened Diff
  import opened DiffLaws
  import opened Sqlite

  // ----- the table -------------------------------------------------------------------------------

  /** Columns by name, key, indexes by name, which of them a constraint stands behind, and foreign keys. */
  datatype Table = Table(
    columns: map<string, Column>, key: seq<string>, indexes: map<string, Index>, constraints: set<string>,
    foreignKeys: multiset<ForeignKey>)

  /** The column as the table lists it once added. */
  type Render = Column -> Column

  predicate Uses(t: Table, n: string) {
    n in t.key || exists i :: i in t.indexes && n in t.indexes[i].columns
  }

  /** An index needs its columns; a constraint's index stays; a column in use, or the last one, cannot go. */
  function Step(render: Render, t: Table, s: TableStmt): Option<Table> {
    match s
    case AddColumn(c) => if c.name in t.columns then None else Some(t.(columns := t.columns[c.name := render(c)]))
    case DropIndex(n) => if n !in t.indexes || n in t.constraints then None else Some(t.(indexes := t.indexes - {n}))
    case CreateIndex(d) =>
      if d.name in t.indexes || exists i :: 0 <= i < |d.columns| && d.columns[i] !in t.columns then None
      else Some(t.(indexes := t.indexes[d.name := ToIndex(d)]))
    case DropColumn(n) =>
      if n !in t.columns || Uses(t, n) || t.columns.Keys == {n} then None else Some(t.(columns := t.columns - {n}))
  }

  function Run(render: Render, t: Table, plan: seq<TableStmt>): Option<Table>
    decreases |plan|
  {
    if plan == [] then Some(t) else
    var next := Step(render, t, plan[0]);
    if next.None? then None else Run(render, next.value, plan[1..])
  }

  lemma {:induction false} RunConcat(render: Render, t: Table, p: seq<TableStmt>, q: seq<TableStmt>)
    ensures Run(render, t, p + q) == if Run(render, t, p).None? then None else Run(render, Run(render, t, p).value, q)
    decreases |p|
  {
    hide Step;
    if p == [] {
      assert p + q == q;
    } else {
      assert (p + q)[0] == p[0] && (p + q)[1..] == p[1..] + q;
      var next := Step(render, t, p[0]);
      if next.Some? {
        RunConcat(render, next.value, p[1..], q);
      }
    }
  }

  lemma RunOne(render: Render, t: Table, s: TableStmt)
    ensures Run(render, t, [s]) == Step(render, t, s) && Run(render, t, []) == Some(t)
  {
    hide Step;
    assert [s][1..] == [];
    var next := Step(render, t, s);
    if next.Some? {
      assert Run(render, next.value, []) == next;
    }
  }

  // ----- what is listed and declared -------------------------------------------------------------

  predicate DistinctColumns(cs: seq<Column>) {
    forall i, j :: 0 <= i < j < |cs| ==> cs[i].name != cs[j].name
  }

  function ColumnNames(cs: seq<Column>): set<string> {
    set i | 0 <= i < |cs| :: cs[i].name
  }

  ghost predicate ListsColumns(cs: seq<Column>, columns: map<string, Column>) {
    && DistinctColumns(cs) && columns.Keys == ColumnNames(cs)
    && forall i :: 0 <= i < |cs| ==> cs[i].name in columns && columns[cs[i].name] == cs[i]
  }

  /** Created indexes are listed as declared, under their own name. */
  function Indexes(): Family<IndexSpec, Index> {
    Family((d: IndexSpec) => d.name, (c: Index) => c.name, (d: IndexSpec, c: Index) => Same(c, d), (n: string) => n, ToIndex)
  }

  ghost predicate Reports(cur: Listing, t: Table) {
    && ListsColumns(cur.columns, t.columns) && cur.key == t.key && Lists(Indexes(), cur.indexes, t.indexes)
    && cur.constraints == t.constraints && multiset(cur.foreignKeys) == t.foreignKeys
  }

  /** Distinct names, with the key and every index over declared columns, each named once. */
  ghost predicate WellDeclared(schema: Schema, ds: seq<IndexSpec>) {
    && schema.columns != [] && DistinctColumns(schema.columns)
    && DistinctDesired(Indexes(), ds)
    && NoDuplicates(schema.key) && Elements(schema.key) <= ColumnNames(schema.columns)
    && forall i :: 0 <= i < |ds| ==> NoDuplicates(ds[i].columns) && Elements(ds[i].columns) <= ColumnNames(schema.columns)
  }

  // ----- index statements as a two-pass diff ---------------------------------------------------------

  function Translate(s: Stmt<IndexSpec>): TableStmt {
    match s
    case Drop(n) => DropIndex(n)
    case Create(d) => CreateIndex(d)
  }

  function TranslateAll(plan: seq<Stmt<IndexSpec>>): seq<TableStmt> {
    if plan == [] then [] else [Translate(plan[0])] + TranslateAll(plan[1..])
  }

  lemma {:induction false} TranslateConcat(p: seq<Stmt<IndexSpec>>, q: seq<Stmt<IndexSpec>>)
    ensures TranslateAll(p + q) == TranslateAll(p) + TranslateAll(q)
    decreases |p|
  {
    hide Translate;
    if p == [] {
      assert p + q == q;
    } else {
      assert (p + q)[0] == p[0] && (p + q)[1..] == p[1..] + q;
      TranslateConcat(p[1..], q);
    }
  }

  lemma TranslateOne(s: Stmt<IndexSpec>)
    ensures TranslateAll([s]) == [Translate(s)] && TranslateAll([]) == []
  {
    assert [s][1..] == [];
  }

  lemma SameName(c: Index, d: IndexSpec)
    requires Same(c, d)
    ensures c.name == d.name
  {
  }

  /** Behind an index of the name, no other is dropped. */
  lemma {:induction false} NoFurther(cur: seq<Index>, d: IndexSpec)
    requires forall i :: 0 <= i < |cur| ==> cur[i].name != d.name
    ensures ForIndex(cur, d) == [CreateIndex(d)]
  {
    hide Same;
    if cur != [] {
      assert !Same(cur[0], d) by {
        if Same(cur[0], d) { SameName(cur[0], d); }
      }
      forall i | 0 <= i < |cur[1..]| ensures cur[1..][i].name != d.name {
        assert cur[1..][i] == cur[i + 1];
      }
      NoFurther(cur[1..], d);
      assert [] + ForIndex(cur[1..], d) == ForIndex(cur[1..], d);
    }
  }

  lemma {:induction false} ForIndexIsDiff(cur: seq<Index>, d: IndexSpec)
    requires DistinctCurrent(Indexes(), cur)
    ensures ForIndex(cur, d) == TranslateAll(ForDesired(Indexes(), d, cur))
    decreases |cur|
  {
    var f := Indexes();
    hide Same;
    TranslateOne(Create(d));
    if cur != [] {
      DistinctCurrentTail(f, cur);
      var r := cur[1..];
      assert f.nameIn(cur[0]) == cur[0].name && f.nameOf(d) == d.name;
      if cur[0].name == d.name {
        forall i | 0 <= i < |r| ensures r[i].name != d.name {
          assert f.nameIn(r[i]) == r[i].name;
        }
        NoFurther(r, d);
        TranslateOne(Drop(d.name));
        TranslateConcat([Drop(d.name)], [Create(d)]);
        assert [Drop(d.name)] + [Create(d)] == [Drop(d.name), Create(d)];
      } else {
        assert !Same(cur[0], d) by {
          if Same(cur[0], d) { SameName(cur[0], d); }
        }
        ForIndexIsDiff(r, d);
        assert [] + ForIndex(r, d) == ForIndex(r, d);
      }
    }
  }

  lemma {:induction false} ForIndexesAreDiff(ds: seq<IndexSpec>, cur: seq<Index>)
    requires DistinctCurrent(Indexes(), cur)
    ensures ForIndexes(ds, cur) == TranslateAll(DesiredPass(Indexes(), ds, cur))
    decreases |ds|
  {
    hide ForIndex, DistinctCurrent;
    if ds != [] {
      ForIndexIsDiff(cur, ds[0]);
      ForIndexesAreDiff(ds[1..], cur);
      TranslateConcat(ForDesired(Indexes(), ds[0], cur), DesiredPass(Indexes(), ds[1..], cur));
    }
  }

  lemma DeclaredIsNamed(ds: seq<IndexSpec>, n: string)
    ensures Declared(ds, n) <==> Named(Indexes(), ds, n)
  {
    var f := Indexes();
    assert forall i :: 0 <= i < |ds| ==> f.nameOf(ds[i]) == ds[i].name;
  }

  lemma {:induction false} DropIndexesAreDiff(cur: seq<Index>, ds: seq<IndexSpec>)
    ensures DropIndexes(cur, ds) == TranslateAll(ExistingPass(Indexes(), cur, ds))
    decreases |cur|
  {
    var f := Indexes();
    hide Declared, Named;
    if cur != [] {
      DropIndexesAreDiff(cur[1..], ds);
      DeclaredIsNamed(ds, cur[0].name);
      assert f.nameIn(cur[0]) == cur[0].name;
      TranslateOne(Drop(cur[0].name));
      TranslateConcat(ForExisting(f, cur[0], ds), ExistingPass(f, cur[1..], ds));
    }
  }

  lemma IndexStatementsAreDiff(ds: seq<IndexSpec>, cur: seq<Index>)
    requires DistinctCurrent(Indexes(), cur)
    ensures ForIndexes(ds, cur) + DropIndexes(cur, ds) == TranslateAll(Plan(Indexes(), ds, cur))
  {
    hide ForIndexes, DropIndexes, DistinctCurrent, DesiredPass, ExistingPass;
    ForIndexesAreDiff(ds, cur);
    DropIndexesAreDiff(cur, ds);
    TranslateConcat(DesiredPass(Indexes(), ds, cur), ExistingPass(Indexes(), cur, ds));
  }

  // ----- running the index statements -------------------------------------------------------------------

  /** Every created index is over columns the table has. */
  ghost predicate Coverable(ds: seq<IndexSpec>, columns: set<string>) {
    forall i :: 0 <= i < |ds| ==> Elements(ds[i].columns) <= columns
  }

  lemma {:induction false} IndexPlanRuns(render: Render, t: Table, plan: seq<Stmt<IndexSpec>>)
    requires Exec(Indexes(), t.indexes, plan).Some?
    requires Coverable(Creates(plan), t.columns.Keys) && forall n :: n in Drops(plan) ==> n !in t.constraints
    ensures Run(render, t, TranslateAll(plan)) == Some(t.(indexes := Exec(Indexes(), t.indexes, plan).value))
    decreases |plan|
  {
    var f := Indexes();
    if plan != [] {
      var s, rest := plan[0], plan[1..];
      var mid := Diff.Step(f, t.indexes, s).value;
      var t1 := t.(indexes := mid);
      var all := TranslateAll(plan);
      assert all[0] == Translate(s) && all[1..] == TranslateAll(rest);
      match s {
        case Drop(n) =>
          assert n in Drops(plan);
          assert Step(render, t, DropIndex(n)) == Some(t1);
        case Create(d) =>
          assert Creates(plan) == [d] + Creates(rest);
          CreateRuns(render, t, d, Creates(rest));
          assert Step(render, t, CreateIndex(d)) == Some(t1);
      }
      hide Step;
      CoverableTail(plan, t.columns.Keys);
      DropsTailIn(plan);
      IndexPlanRuns(render, t1, rest);
    }
  }

  lemma CreateRuns(render: Render, t: Table, d: IndexSpec, more: seq<IndexSpec>)
    requires Coverable([d] + more, t.columns.Keys) && d.name !in t.indexes
    ensures Step(render, t, CreateIndex(d)) == Some(t.(indexes := t.indexes[d.name := ToIndex(d)]))
  {
    assert ([d] + more)[0] == d;
    assert Elements(d.columns) <= t.columns.Keys;
    assert forall i :: 0 <= i < |d.columns| ==> d.columns[i] in Elements(d.columns);
  }

  lemma CoverableTail(plan: seq<Stmt<IndexSpec>>, columns: set<string>)
    requires plan != [] && Coverable(Creates(plan), columns)
    ensures Coverable(Creates(plan[1..]), columns)
  {
    var a, b := Creates(plan), Creates(plan[1..]);
    forall i | 0 <= i < |b| ensures Elements(b[i].columns) <= columns {
      if plan[0].Create? { assert b[i] == a[i + 1]; } else { assert b[i] == a[i]; }
    }
  }

  lemma DropsTailIn(plan: seq<Stmt<IndexSpec>>)
    requires plan != []
    ensures forall n :: n in Drops(plan[1..]) ==> n in Drops(plan)
  {
  }

  /** Only declared indexes are created. */
  lemma {:induction false} CreatesDeclared(ds: seq<IndexSpec>, cat: map<string, Index>, columns: set<string>)
    requires Coverable(ds, columns)
    ensures Coverable(ToCreate(Indexes(), ds, cat), columns)
  {
    hide Elements;
    if ds != [] {
      var r := ds[1..];
      forall i | 0 <= i < |r| ensures Elements(r[i].columns) <= columns {
        assert r[i] == ds[i + 1];
      }
      CreatesDeclared(r, cat, columns);
    }
  }

  // ----- constraints -----------------------------------------------------------------------------------

  lemma {:induction false} MeetsNamed(cur: seq<Index>, d: IndexSpec, constraints: set<string>, k: nat)
    requires DistinctCurrent(Indexes(), cur) && k < |cur| && cur[k].name == d.name && d.name in constraints
    requires !MeetsConstraint(cur, d, constraints)
    ensures Same(cur[k], d)
    decreases |cur|
  {
    var f := Indexes();
    hide Same;
    DistinctCurrentTail(f, cur);
    if k > 0 {
      assert f.nameIn(cur[0]) == cur[0].name && f.nameIn(cur[k]) == cur[k].name;
      assert cur[1..][k - 1] == cur[k];
      assert !Same(cur[0], d) by {
        if Same(cur[0], d) { SameName(cur[0], d); }
      }
      MeetsNamed(cur[1..], d, constraints, k - 1);
    }
  }

  /** If no rebuild is needed, an index behind a constraint is declared as it is. */
  lemma ConstraintIsKept(schema: Schema, ds: seq<IndexSpec>, cur: Listing, t: Table, n: string)
    requires !NeedsRecreate(schema, ds, cur) && Reports(cur, t) && n in t.indexes && n in t.constraints
    ensures exists i :: 0 <= i < |ds| && ds[i].name == n && Kept(Indexes(), ds[i], t.indexes)
  {
    var f := Indexes();
    hide MeetsConstraint, Modified, Same;
    var k :| 0 <= k < |cur.indexes| && f.nameIn(cur.indexes[k]) == n;
    assert cur.indexes[k].name == n;
    assert Declared(ds, n);
    var i :| 0 <= i < |ds| && ds[i].name == n;
    assert !MeetsConstraint(cur.indexes, ds[i], cur.constraints);
    MeetsNamed(cur.indexes, ds[i], cur.constraints, k);
    assert t.indexes[n] == cur.indexes[k];
    assert f.nameOf(ds[i]) == n;
    assert Kept(f, ds[i], t.indexes);
  }

  /** No statement drops an index a constraint stands behind. */
  lemma NoConstraintDropped(schema: Schema, ds: seq<IndexSpec>, cur: Listing, t: Table)
    requires !NeedsRecreate(schema, ds, cur) && Reports(cur, t) && WellDeclared(schema, ds)
    ensures forall n :: n in Drops(Plan(Indexes(), ds, cur.indexes)) ==> n !in t.constraints
  {
    var f := Indexes();
    hide NeedsRecreate, Plan, Drops, Kept, Lists, DistinctDesired, ListsColumns;
    DropsOnce(f, ds, cur.indexes, t.indexes);
    forall n | n in t.indexes && n in t.constraints ensures n !in Drops(Plan(f, ds, cur.indexes)) {
      ConstraintIsKept(schema, ds, cur, t, n);
      var i :| 0 <= i < |ds| && ds[i].name == n && Kept(f, ds[i], t.indexes);
      assert f.nameOf(ds[i]) == n;
    }
  }

  // ----- columns -----------------------------------------------------------------------------------------

  function Added(render: Render, columns: map<string, Column>, ds: seq<Column>, existing: seq<Column>): map<string, Column>
    decreases |ds|
  {
    if ds == [] then columns
    else Added(render, if HasColumn(existing, ds[0].name) then columns else columns[ds[0].name := render(ds[0])], ds[1..], existing)
  }

  lemma ColumnTail(ds: seq<Column>)
    requires ds != [] && DistinctColumns(ds)
    ensures DistinctColumns(ds[1..]) && forall i :: 0 <= i < |ds[1..]| ==> ds[1..][i].name != ds[0].name
  {
    var r := ds[1..];
    forall i, j | 0 <= i < j < |r| ensures r[i].name != r[j].name {
      assert r[i] == ds[i + 1] && r[j] == ds[j + 1];
    }
    forall i | 0 <= i < |r| ensures r[i].name != ds[0].name {
      assert r[i] == ds[i + 1];
    }
  }

  lemma {:induction false} AddColumnsRun(render: Render, t: Table, ds: seq<Column>, existing: seq<Column>)
    requires DistinctColumns(ds)
    requires forall i :: 0 <= i < |ds| ==> (HasColumn(existing, ds[i].name) <==> ds[i].name in t.columns)
    ensures Run(render, t, AddColumns(ds, existing)) == Some(t.(columns := Added(render, t.columns, ds, existing)))
    decreases |ds|
  {
    hide HasColumn;
    if ds != [] {
      var d, r := ds[0], ds[1..];
      ColumnTail(ds);
      var here := if HasColumn(existing, d.name) then [] else [AddColumn(d)];
      RunConcat(render, t, here, AddColumns(r, existing));
      RunOne(render, t, AddColumn(d));
      var t1 := if HasColumn(existing, d.name) then t else t.(columns := t.columns[d.name := render(d)]);
      assert Run(render, t, here) == Some(t1);
      forall i | 0 <= i < |r| ensures HasColumn(existing, r[i].name) <==> r[i].name in t1.columns {
        assert r[i] == ds[i + 1];
      }
      AddColumnsRun(render, t1, r, existing);
    }
  }

  lemma {:induction false} AddedKeys(render: Render, columns: map<string, Column>, ds: seq<Column>, existing: seq<Column>)
    requires forall i :: 0 <= i < |ds| ==> (HasColumn(existing, ds[i].name) ==> ds[i].name in columns)
    ensures Added(render, columns, ds, existing).Keys == columns.Keys + ColumnNames(ds)
    decreases |ds|
  {
    hide HasColumn;
    if ds != [] {
      var d, r := ds[0], ds[1..];
      var next := if HasColumn(existing, d.name) then columns else columns[d.name := render(d)];
      forall i | 0 <= i < |r| ensures HasColumn(existing, r[i].name) ==> r[i].name in next {
        assert r[i] == ds[i + 1];
      }
      AddedKeys(render, next, r, existing);
      NamesCons(ds);
    }
  }

  lemma NamesCons(ds: seq<Column>)
    requires ds != []
    ensures ColumnNames(ds) == {ds[0].name} + ColumnNames(ds[1..])
  {
    var r := ds[1..];
    forall n ensures n in ColumnNames(ds) <==> n == ds[0].name || n in ColumnNames(r) {
      if n in ColumnNames(ds) {
        var i :| 0 <= i < |ds| && ds[i].name == n;
        if i > 0 { assert r[i - 1].name == n; }
      }
      if n in ColumnNames(r) {
        var i :| 0 <= i < |r| && r[i].name == n;
        assert ds[i + 1].name == n;
      }
    }
  }

  function Gone(existing: seq<Column>, ds: seq<Column>): set<string> {
    set i | 0 <= i < |existing| && !HasColumn(ds, existing[i].name) :: existing[i].name
  }

  lemma GoneCons(existing: seq<Column>, ds: seq<Column>)
    requires existing != []
    ensures Gone(existing, ds) == (if HasColumn(ds, existing[0].name) then {} else {existing[0].name}) + Gone(existing[1..], ds)
  {
    hide HasColumn;
    var r := existing[1..];
    forall n | n in Gone(existing, ds) && n != existing[0].name ensures n in Gone(r, ds) {
      var i :| 0 <= i < |existing| && !HasColumn(ds, existing[i].name) && existing[i].name == n;
      assert r[i - 1] == existing[i];
    }
    forall n | n in Gone(r, ds) ensures n in Gone(existing, ds) {
      var i :| 0 <= i < |r| && !HasColumn(ds, r[i].name) && r[i].name == n;
      assert existing[i + 1] == r[i];
    }
  }

  lemma {:induction false} DropColumnsRun(render: Render, t: Table, existing: seq<Column>, ds: seq<Column>)
    requires DistinctColumns(existing) && ds != []
    requires forall i :: 0 <= i < |existing| ==> existing[i].name in t.columns
    requires forall i :: 0 <= i < |ds| ==> ds[i].name in t.columns
    requires forall n :: Uses(t, n) ==> HasColumn(ds, n)
    ensures Run(render, t, DropColumns(existing, ds)) == Some(t.(columns := t.columns - Gone(existing, ds)))
    decreases |existing|
  {
    hide Uses;
    if existing == [] {
      assert t.columns - Gone(existing, ds) == t.columns;
    } else {
      var e, r := existing[0], existing[1..];
      ColumnTail(existing);
      GoneCons(existing, ds);
      var here := if HasColumn(ds, e.name) then [] else [DropColumn(e.name)];
      RunConcat(render, t, here, DropColumns(r, ds));
      RunOne(render, t, DropColumn(e.name));
      var t1 := if HasColumn(ds, e.name) then t else t.(columns := t.columns - {e.name});
      if !HasColumn(ds, e.name) {
        assert ds[0].name != e.name && ds[0].name in t.columns.Keys;
        assert Step(render, t, DropColumn(e.name)) == Some(t1);
        UsesSame(t, t1);
      }
      assert Run(render, t, here) == Some(t1);
      forall i | 0 <= i < |r| ensures r[i].name in t1.columns {
        assert r[i] == existing[i + 1];
      }
      DropColumnsRun(render, t1, r, ds);
      assert t1.columns - Gone(r, ds) == t.columns - Gone(existing, ds);
    }
  }

  lemma UsesSame(t: Table, t1: Table)
    requires t1.key == t.key && t1.indexes == t.indexes
    ensures forall n :: Uses(t1, n) <==> Uses(t, n)
  {
  }

  // ----- what is still in use ------------------------------------------------------------------------------

  /** A kept index is over declared columns: equally many, each declared one among them. */
  lemma KeptIsOverDeclared(c: Index, d: IndexSpec)
    requires Same(c, d) && NoDuplicates(d.columns)
    ensures !Extended(c) && Elements(c.columns) == Elements(d.columns)
  {
    PlainAndExtendedDiffer(c, ToIndex(d));
    ColumnsEqualOf(c, d);
    ColumnsEqualSymmetric(c.columns, d.columns);
  }

  lemma ColumnsEqualOf(c: Index, d: IndexSpec)
    requires Same(c, d) && !Extended(c)
    ensures ColumnsEqual(c.columns, d.columns)
  {
  }

  lemma NameIsDeclared(schema: Schema, n: string)
    requires n in ColumnNames(schema.columns)
    ensures HasColumn(schema.columns, n)
  {
  }

  lemma IndexColumnsDeclared(schema: Schema, ds: seq<IndexSpec>, cat: map<string, Index>, end: map<string, Index>, i: string, n: string)
    requires WellDeclared(schema, ds) && Reached(Indexes(), cat, ds, end) && i in end && n in end[i].columns
    ensures HasColumn(schema.columns, n)
  {
    var f := Indexes();
    hide DistinctDesired, Same, HasColumn, DistinctColumns;
    assert i in Names(f, ds);
    var k :| 0 <= k < |ds| && f.nameOf(ds[k]) == i;
    assert Kept(f, ds[k], end);
    KeptIsOverDeclared(end[i], ds[k]);
    assert n in Elements(end[i].columns);
    NameIsDeclared(schema, n);
  }

  /** Once the indexes are as declared, only declared columns are in use. */
  lemma OnlyDeclaredInUse(schema: Schema, ds: seq<IndexSpec>, cur: Listing, cat: map<string, Index>, t: Table)
    requires WellDeclared(schema, ds) && !NeedsRecreate(schema, ds, cur) && t.key == cur.key
    requires Reached(Indexes(), cat, ds, t.indexes)
    ensures forall n :: Uses(t, n) ==> HasColumn(schema.columns, n)
  {
    assert ColumnsEqual(cur.key, schema.key);
    assert Elements(schema.key) <= ColumnNames(schema.columns) && NoDuplicates(schema.key);
    hide Reached, HasColumn, NeedsRecreate, WellDeclared;
    ColumnsEqualSymmetric(cur.key, schema.key);
    forall n | Uses(t, n) ensures HasColumn(schema.columns, n) {
      if n in t.key {
        assert n in Elements(cur.key);
        NameIsDeclared(schema, n);
      } else {
        var i :| i in t.indexes && n in t.indexes[i].columns;
        IndexColumnsDeclared(schema, ds, cat, t.indexes, i, n);
      }
    }
  }

  // ----- the whole plan --------------------------------------------------------------------------------------

  lemma SqliteRenders(ds: seq<IndexSpec>, cat: map<string, Index>)
    requires DistinctDesired(Indexes(), ds)
    ensures Manageable(Indexes(), ds, cat)
  {
    var f := Indexes();
    hide DistinctDesired;
    forall i | 0 <= i < |ds|
      ensures f.same(ds[i], f.render(ds[i]))
      ensures f.nameIn(f.render(ds[i])) == f.filed(f.nameOf(ds[i])) && f.filed(f.nameOf(ds[i])) == f.nameOf(ds[i])
    {
      IndexEqualsReflexive(ToIndex(ds[i]));
    }
  }

  /** The columns between adding and dropping. */
  lemma ColumnsAdded(render: Render, schema: Schema, cur: Listing, t: Table)
    requires ListsColumns(cur.columns, t.columns) && DistinctColumns(schema.columns)
    ensures var t1 := t.(columns := Added(render, t.columns, schema.columns, cur.columns));
      && Run(render, t, AddColumns(schema.columns, cur.columns)) == Some(t1)
      && t1.columns.Keys == ColumnNames(cur.columns) + ColumnNames(schema.columns)
  {
    forall n ensures HasColumn(cur.columns, n) <==> n in t.columns {
      assert HasColumn(cur.columns, n) <==> n in ColumnNames(cur.columns);
    }
    hide HasColumn, ListsColumns, Run, AddColumns;
    assert t.columns.Keys == ColumnNames(cur.columns) by { KeysListed(cur.columns, t.columns); }
    AddColumnsRun(render, t, schema.columns, cur.columns);
    AddedKeys(render, t.columns, schema.columns, cur.columns);
  }

  lemma KeysListed(cs: seq<Column>, columns: map<string, Column>)
    requires ListsColumns(cs, columns)
    ensures columns.Keys == ColumnNames(cs) && DistinctColumns(cs)
  {
  }

  lemma GoneLeavesDeclared(existing: seq<Column>, ds: seq<Column>)
    ensures ColumnNames(existing) + ColumnNames(ds) - Gone(existing, ds) == ColumnNames(ds)
  {
    forall n ensures n in ColumnNames(existing) + ColumnNames(ds) - Gone(existing, ds) <==> n in ColumnNames(ds) {
      assert n in ColumnNames(ds) <==> HasColumn(ds, n);
    }
  }

  /** The declared columns and indexes, the same key, and no constraint lost. */
  ghost predicate TableReached(schema: Schema, ds: seq<IndexSpec>, t: Table, end: Table) {
    && end.columns.Keys == ColumnNames(schema.columns)
    && Reached(Indexes(), t.indexes, ds, end.indexes)
    && end.key == t.key && end.constraints == t.constraints && end.foreignKeys == t.foreignKeys
  }

  /**
   If no rebuild is needed, every statement runs: no drop hits an index behind a constraint or
   a column that an index or the key still uses. The table ends with exactly the declared
   columns and indexes.
   */
  lemma AlterReachesDeclared(render: Render, schema: Schema, ds: seq<IndexSpec>, cur: Listing, t: Table)
    requires WellDeclared(schema, ds) && Reports(cur, t) && !NeedsRecreate(schema, ds, cur)
    ensures var end := Run(render, t, AlterStatements(schema, ds, cur)); end.Some? && TableReached(schema, ds, t, end.value)
    ensures Run(render, t, AlterStatements(schema, ds, cur)).value.columns ==
      Added(render, t.columns, schema.columns, cur.columns) - Gone(cur.columns, schema.columns)
  {
    var f := Indexes();
    var adds, drops := AddColumns(schema.columns, cur.columns), DropColumns(cur.columns, schema.columns);
    var middle := ForIndexes(ds, cur.indexes) + DropIndexes(cur.indexes, ds);
    var plan := Plan(f, ds, cur.indexes);
    hide NeedsRecreate, Run, AddColumns, DropColumns, ForIndexes, DropIndexes, Plan, Reached, Lists, Manageable, HasColumn, Uses,
      DistinctDesired, ListsColumns, Drops, Creates, Exec;
    RunConcat(render, t, adds + middle, drops);
    RunConcat(render, t, adds, middle);
    ColumnsAdded(render, schema, cur, t);
    var t1 := t.(columns := Added(render, t.columns, schema.columns, cur.columns));
    ListsDistinct(cur.indexes, t.indexes);
    IndexStatementsAreDiff(ds, cur.indexes);
    SqliteRenders(ds, t.indexes);
    PlanReachesDesired(f, ds, cur.indexes, t.indexes);
    PlanCounts(f, ds, cur.indexes, t.indexes);
    assert Coverable(ds, t1.columns.Keys);
    CreatesDeclared(ds, t.indexes, t1.columns.Keys);
    NoConstraintDropped(schema, ds, cur, t);
    IndexPlanRuns(render, t1, plan);
    var t2 := t1.(indexes := Exec(f, t.indexes, plan).value);
    OnlyDeclaredInUse(schema, ds, cur, t.indexes, t2);
    KeysListed(cur.columns, t.columns);
    ColumnsThere(cur.columns, schema.columns, t2.columns);
    DropColumnsRun(render, t2, cur.columns, schema.columns);
    GoneLeavesDeclared(cur.columns, schema.columns);
  }

  lemma ListsDistinct(cur: seq<Index>, cat: map<string, Index>)
    requires Lists(Indexes(), cur, cat)
    ensures DistinctCurrent(Indexes(), cur)
  {
  }

  lemma ColumnsThere(existing: seq<Column>, ds: seq<Column>, columns: map<string, Column>)
    requires columns.Keys == ColumnNames(existing) + ColumnNames(ds)
    ensures forall i :: 0 <= i < |existing| ==> existing[i].name in columns
    ensures forall i :: 0 <= i < |ds| ==> ds[i].name in columns
  {
    forall i | 0 <= i < |existing| ensures existing[i].name in columns {
      assert existing[i].name in ColumnNames(existing);
    }
    forall i | 0 <= i < |ds| ensures ds[i].name in columns {
      assert ds[i].name in ColumnNames(ds);
    }
  }

  lemma {:induction false} NothingToAdd(ds: seq<Column>, existing: seq<Column>)
    requires forall i :: 0 <= i < |ds| ==> HasColumn(existing, ds[i].name)
    ensures AddColumns(ds, existing) == [] && DropColumns(ds, existing) == []
  {
    hide HasColumn;
    if ds != [] {
      NothingToAdd(ds[1..], existing);
    }
  }

  lemma SameNamesPresent(a: seq<Column>, b: seq<Column>)
    requires ColumnNames(a) == ColumnNames(b)
    ensures forall i :: 0 <= i < |a| ==> HasColumn(b, a[i].name)
  {
    forall i | 0 <= i < |a| ensures HasColumn(b, a[i].name) {
      assert a[i].name in ColumnNames(a);
    }
  }

  /** From there, the add, index and drop loops have nothing to do. */
  lemma RerunIsEmpty(schema: Schema, ds: seq<IndexSpec>, t: Table, end: Table, relisted: Listing)
    requires TableReached(schema, ds, t, end) && Reports(relisted, end)
    ensures AlterStatements(schema, ds, relisted) == []
  {
    hide Reached, Lists, AddColumns, DropColumns, ForIndexes, DropIndexes, Plan, ListsColumns;
    KeysListed(relisted.columns, end.columns);
    SameNamesPresent(schema.columns, relisted.columns);
    SameNamesPresent(relisted.columns, schema.columns);
    NothingToAdd(schema.columns, relisted.columns);
    NothingToAdd(relisted.columns, schema.columns);
    ListsDistinct(relisted.indexes, end.indexes);
    IndexStatementsAreDiff(ds, relisted.indexes);
    ReplanIsEmpty(Indexes(), ds, t.indexes, end.indexes, relisted.indexes);
    TranslateNothing();
  }

  lemma TranslateNothing()
    ensures TranslateAll([]) == []
  {
  }

  // ----- the rebuild is not needed afterwards either ---------------------------------------------------------

  lemma {:induction false} AddedAt(render: Render, columns: map<string, Column>, ds: seq<Column>, existing: seq<Column>, n: string)
    requires DistinctColumns(ds) && forall i :: 0 <= i < |ds| ==> (HasColumn(existing, ds[i].name) <==> ds[i].name in columns)
    requires n in Added(render, columns, ds, existing)
    ensures n in columns ==> Added(render, columns, ds, existing)[n] == columns[n]
    ensures n !in columns ==> FirstNamed(ds, n).Some? && Added(render, columns, ds, existing)[n] == render(FirstNamed(ds, n).value)
    decreases |ds|
  {
    hide HasColumn;
    if ds != [] {
      var d, r := ds[0], ds[1..];
      ColumnTail(ds);
      var next := if HasColumn(existing, d.name) then columns else columns[d.name := render(d)];
      forall i | 0 <= i < |r| ensures HasColumn(existing, r[i].name) <==> r[i].name in next {
        assert r[i] == ds[i + 1];
      }
      AddedAt(render, next, r, existing, n);
    }
  }

  lemma {:induction false} FirstNamedIs(ds: seq<Column>, n: string)
    ensures FirstNamed(ds, n).Some? ==> FirstNamed(ds, n).value in ds && FirstNamed(ds, n).value.name == n
  {
    if ds != [] && ds[0].name != n {
      FirstNamedIs(ds[1..], n);
    }
  }

  /** Added columns are listed so that they compare equal to their declaration. */
  ghost predicate RendersColumns(render: Render, ds: seq<Column>) {
    forall d :: d in ds ==> render(d).name == d.name && ColumnsMatch(d, render(d))
  }

  lemma ColumnsStayMatched(render: Render, schema: Schema, ds: seq<IndexSpec>, cur: Listing, t: Table, n: string)
    requires RendersColumns(render, schema.columns) && DistinctColumns(schema.columns)
    requires ListsColumns(cur.columns, t.columns) && !NeedsRecreate(schema, ds, cur)
    requires n in Added(render, t.columns, schema.columns, cur.columns)
    ensures var e := Added(render, t.columns, schema.columns, cur.columns)[n]; e.name == n && !Modified(schema.columns, e)
  {
    hide ColumnsMatch, MeetsConstraint, DistinctColumns;
    forall m ensures HasColumn(cur.columns, m) <==> m in t.columns {
      assert HasColumn(cur.columns, m) <==> m in ColumnNames(cur.columns);
    }
    AddedAt(render, t.columns, schema.columns, cur.columns, n);
    FirstNamedIs(schema.columns, n);
    if n in t.columns {
      assert n in ColumnNames(cur.columns);
      var i :| 0 <= i < |cur.columns| && cur.columns[i].name == n;
      assert !Modified(schema.columns, cur.columns[i]);
    } else {
      var d := FirstNamed(schema.columns, n).value;
      assert ColumnsMatch(d, render(d));
    }
  }

  lemma {:induction false} SameIsMetFirst(cur: seq<Index>, d: IndexSpec, constraints: set<string>, k: nat)
    requires DistinctCurrent(Indexes(), cur) && k < |cur| && Same(cur[k], d)
    ensures !MeetsConstraint(cur, d, constraints)
    decreases |cur|
  {
    var f := Indexes();
    SameName(cur[k], d);
    hide Same;
    DistinctCurrentTail(f, cur);
    if k > 0 {
      assert f.nameIn(cur[0]) == cur[0].name && f.nameIn(cur[k]) == cur[k].name;
      assert cur[1..][k - 1] == cur[k];
      SameIsMetFirst(cur[1..], d, constraints, k - 1);
    }
  }

  lemma KeptMeetsNothing(ds: seq<IndexSpec>, cat: map<string, Index>, end: map<string, Index>, cur: seq<Index>,
      constraints: set<string>, i: nat)
    requires Reached(Indexes(), cat, ds, end) && Lists(Indexes(), cur, end) && i < |ds|
    ensures !MeetsConstraint(cur, ds[i], constraints)
  {
    var f := Indexes();
    hide Same;
    assert Kept(f, ds[i], end);
    var n := f.nameOf(ds[i]);
    var k :| 0 <= k < |cur| && f.nameIn(cur[k]) == n;
    assert cur[k] == end[n];
    assert f.same(ds[i], cur[k]);
    SameIsMetFirst(cur, ds[i], constraints, k);
  }

  lemma ReachedIsDeclared(ds: seq<IndexSpec>, cat: map<string, Index>, end: map<string, Index>, cur: seq<Index>, i: nat)
    requires Reached(Indexes(), cat, ds, end) && Lists(Indexes(), cur, end) && i < |cur|
    ensures Declared(ds, cur[i].name)
  {
    var f := Indexes();
    hide Kept;
    assert f.nameIn(cur[i]) in Names(f, ds);
    var k :| 0 <= k < |ds| && f.nameOf(ds[k]) == f.nameIn(cur[i]);
    assert ds[k].name == cur[i].name;
  }

  lemma NoneModified(render: Render, schema: Schema, ds: seq<IndexSpec>, cur: Listing, t: Table, end: map<string, Column>,
      relisted: seq<Column>)
    requires RendersColumns(render, schema.columns) && DistinctColumns(schema.columns)
    requires ListsColumns(cur.columns, t.columns) && !NeedsRecreate(schema, ds, cur)
    requires end == Added(render, t.columns, schema.columns, cur.columns) - Gone(cur.columns, schema.columns)
    requires ListsColumns(relisted, end)
    ensures forall i :: 0 <= i < |relisted| ==> !Modified(schema.columns, relisted[i])
  {
    hide Modified, NeedsRecreate, Added, Gone, RendersColumns;
    forall i | 0 <= i < |relisted| ensures !Modified(schema.columns, relisted[i]) {
      var n := relisted[i].name;
      assert n in end && end[n] == relisted[i];
      ColumnsStayMatched(render, schema, ds, cur, t, n);
    }
  }

  lemma NoneMetOrDropped(ds: seq<IndexSpec>, cat: map<string, Index>, end: map<string, Index>, relisted: seq<Index>,
      constraints: set<string>)
    requires Reached(Indexes(), cat, ds, end) && Lists(Indexes(), relisted, end)
    ensures forall i :: 0 <= i < |ds| ==> !MeetsConstraint(relisted, ds[i], constraints)
    ensures forall i :: 0 <= i < |relisted| ==> Declared(ds, relisted[i].name)
  {
    hide Reached, Lists, MeetsConstraint, Declared;
    forall i | 0 <= i < |ds| ensures !MeetsConstraint(relisted, ds[i], constraints) {
      KeptMeetsNothing(ds, cat, end, relisted, constraints, i);
    }
    forall i | 0 <= i < |relisted| ensures Declared(ds, relisted[i].name) {
      ReachedIsDeclared(ds, cat, end, relisted, i);
    }
  }

  /** Planning again, from the check for a rebuild on, yields nothing at all. */
  lemma ReplanIsNothing(render: Render, schema: Schema, ds: seq<IndexSpec>, cur: Listing, t: Table, relisted: Listing)
    requires WellDeclared(schema, ds) && Reports(cur, t) && !NeedsRecreate(schema, ds, cur) && RendersColumns(render, schema.columns)
    requires Run(render, t, AlterStatements(schema, ds, cur)).Some?
    requires Reports(relisted, Run(render, t, AlterStatements(schema, ds, cur)).value)
    ensures !NeedsRecreate(schema, ds, relisted) && AlterStatements(schema, ds, relisted) == []
  {
    var end := Run(render, t, AlterStatements(schema, ds, cur)).value;
    hide Run, AlterStatements, Modified, MeetsConstraint, ColumnsEqual, Declared, Reached, Lists, ListsColumns, DistinctDesired,
      Added, Gone, DistinctColumns, RendersColumns, Elements, ForeignKeysMatch;
    AlterReachesDeclared(render, schema, ds, cur, t);
    RerunIsEmpty(schema, ds, t, end, relisted);
    MatchInAnyOrder(cur.foreignKeys, relisted.foreignKeys, schema.foreignKeys);
    NoneModified(render, schema, ds, cur, t, end.columns, relisted.columns);
    NoneMetOrDropped(ds, t.indexes, end.indexes, relisted.indexes, relisted.constraints);
  }
}
