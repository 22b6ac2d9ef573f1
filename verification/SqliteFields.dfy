/** A SQLite table that needs no rebuild, field by field: what that means, and what the statements leave. */
module SqliteFields {
  import opened Options
  import opened Text
  import opened ElementLists
  import opened Canonical
  import opened CanonicalLaws
  import opened Comparators
  import opened ForeignKeys
  import opened Diff
  import opened DiffLaws
  import opened Sqlite
  import opened SqliteLaws
  import AsDeclared

  // ----- columns, keys and indexes ------------------------------------------------------------------

  /** The declared type in any case, collation, default, nullability and numbering. */
  predicate ColumnAsDeclared(c: Column, d: Column) {
    && Lower(c.dataType) == Lower(d.dataType) && c.collation == d.collation && c.dflt == d.dflt
    && (c.notNull == Some(true) <==> d.notNull == Some(true))
    && (c.autoIncrement == Some(true) <==> d.autoIncrement == Some(true))
  }

  lemma ColumnsMatchIff(d: Column, c: Column)
    ensures ColumnsMatch(d, c) <==> ColumnAsDeclared(c, d)
  {
    hide Lower;
  }

  /** As many columns, and every declared one among them. */
  predicate SameColumns(stored: seq<string>, declared: seq<string>) {
    |stored| == |declared| && forall i :: 0 <= i < |declared| ==> declared[i] in stored
  }

  /** The declared parent, columns and delete action (no action if none), and the name where both have one. */
  predicate ForeignKeyAsDeclared(c: ForeignKey, d: ForeignKey) {
    && (c.name == "" || d.name == "" || c.name == d.name)
    && c.parentTable == d.parentTable
    && AsDeclared.SameWord(Upper(Trim(c.onDelete)), Upper(Trim(d.onDelete)), "NO ACTION")
    && SameColumns(c.childColumns, d.childColumns) && SameColumns(c.parentColumns, d.parentColumns)
  }

  lemma OnDeleteIff(a: string, b: string)
    ensures EqualFold(NormalizeOnDelete(a), NormalizeOnDelete(b)) <==> AsDeclared.SameWord(Upper(Trim(a)), Upper(Trim(b)), "NO ACTION")
  {
    var x, y := Upper(Trim(a)), Upper(Trim(b));
    UpperFolds(Trim(a), Trim(b));
    UpperNothing(Trim(a));
    UpperNothing(Trim(b));
    hide Lower, Upper, Trim;
    assert Lower("") == "" by { assert |Lower("")| == 0; }
  }

  lemma UpperNothing(t: string)
    ensures Lower(Upper(t)) == "" <==> Upper(t) == ""
  {
  }

  /** Of two upper-case texts, equal up to case means equal. */
  lemma UpperFolds(s: string, t: string)
    ensures EqualFold(Upper(s), Upper(t)) <==> Upper(s) == Upper(t)
  {
    if EqualFold(Upper(s), Upper(t)) {
      assert |Upper(s)| == |Upper(t)| by { assert |Lower(Upper(s))| == |Lower(Upper(t))|; }
      forall i | 0 <= i < |Upper(s)| ensures Upper(s)[i] == Upper(t)[i] {
        UpperAt(s, i);
        UpperAt(t, i);
        LowerAt(Upper(s), i);
        LowerAt(Upper(t), i);
      }
    }
  }

  lemma ForeignKeyEqualsIff(c: ForeignKey, d: ForeignKey)
    ensures ForeignKeyEquals(c, d) <==> ForeignKeyAsDeclared(c, d)
  {
    hide EqualFold, NormalizeOnDelete, Upper, Trim;
    OnDeleteIff(c.onDelete, d.onDelete);
  }

  /** As unique as declared, a plain btree over all rows and the same columns. */
  predicate IndexAsDeclared(c: Index, d: IndexSpec) {
    && c.name == d.name && (c.isUnique <==> d.isUnique)
    && AsDeclared.SameWord(Lower(Trim(c.method_)), "", "btree") && Canonicalize(c.where_) == ""
    && c.sortedColumns == [] && c.expressions == [] && SameColumns(c.columns, d.columns)
  }

  lemma SameIff(c: Index, d: IndexSpec)
    ensures Same(c, d) <==> IndexAsDeclared(c, d)
  {
    assert Lower(Trim("")) == "" by { TrimIdentity(""); }
    assert Canonicalize("") == "" by { CanonicalFixedPoint(""); }
    AsDeclared.MethodsEqualIff(c.method_, "");
    hide Canonicalize, NormalizeIndexMethod, SortedColumnEqual, Lower, Trim, AsDeclared.SameWord;
  }

  // ----- what a rebuild is asked for -------------------------------------------------------------------

  ghost predicate ForeignKeysAsDeclared(stored: multiset<ForeignKey>, ds: seq<ForeignKey>) {
    |stored| == |ds| && forall i :: 0 <= i < |ds| ==> exists c :: c in stored && ForeignKeyAsDeclared(c, ds[i])
  }

  lemma KeysMatchIff(cur: seq<ForeignKey>, ds: seq<ForeignKey>)
    ensures ForeignKeysMatch(cur, ds) <==> ForeignKeysAsDeclared(multiset(cur), ds)
  {
    hide ForeignKeyEquals, ForeignKeyAsDeclared;
    assert |multiset(cur)| == |cur|;
    forall i | 0 <= i < |ds|
      ensures ForeignKeys.AnyEqual(cur, ds[i]) <==> exists c :: c in multiset(cur) && ForeignKeyAsDeclared(c, ds[i])
    {
      forall k | 0 <= k < |cur| ensures ForeignKeyEquals(cur[k], ds[i]) <==> ForeignKeyAsDeclared(cur[k], ds[i]) {
        ForeignKeyEqualsIff(cur[k], ds[i]);
      }
      if ForeignKeys.AnyEqual(cur, ds[i]) {
        var k :| 0 <= k < |cur| && ForeignKeyEquals(cur[k], ds[i]);
        assert cur[k] in multiset(cur);
      }
      if c :| c in multiset(cur) && ForeignKeyAsDeclared(c, ds[i]) {
        var k :| 0 <= k < |cur| && cur[k] == c;
      }
    }
  }

  /** The key and foreign keys, every declared column there is, and every index behind a constraint are as declared. */
  ghost predicate Alterable(schema: Schema, ds: seq<IndexSpec>, t: Table) {
    && SameColumns(t.key, schema.key)
    && ForeignKeysAsDeclared(t.foreignKeys, schema.foreignKeys)
    && (forall i :: 0 <= i < |schema.columns| ==> !ColumnDiffers(schema.columns[i], t))
    && (forall n :: n in t.indexes && n in t.constraints ==>
      exists i :: 0 <= i < |ds| && ds[i].name == n && IndexAsDeclared(t.indexes[n], ds[i]))
  }

  lemma {:induction false} FirstNamedAt(ds: seq<Column>, i: nat)
    requires DistinctColumns(ds) && i < |ds|
    ensures FirstNamed(ds, ds[i].name) == Some(ds[i])
  {
    if i > 0 {
      ColumnTail(ds);
      assert ds[1..][i - 1] == ds[i];
      FirstNamedAt(ds[1..], i - 1);
    }
  }

  predicate ColumnDiffers(d: Column, t: Table) {
    d.name in t.columns && !ColumnAsDeclared(t.columns[d.name], d)
  }

  lemma ModifiedIff(schema: Schema, cur: Listing, t: Table)
    requires DistinctColumns(schema.columns) && ListsColumns(cur.columns, t.columns)
    ensures (exists k :: 0 <= k < |cur.columns| && Modified(schema.columns, cur.columns[k])) <==>
      exists i :: 0 <= i < |schema.columns| && ColumnDiffers(schema.columns[i], t)
  {
    hide ColumnsMatch, ColumnAsDeclared;
    if k :| 0 <= k < |cur.columns| && Modified(schema.columns, cur.columns[k]) {
      var e := cur.columns[k];
      FirstNamedIs(schema.columns, e.name);
      var d := FirstNamed(schema.columns, e.name).value;
      var i :| 0 <= i < |schema.columns| && schema.columns[i] == d;
      ColumnsMatchIff(d, e);
      assert t.columns[schema.columns[i].name] == e && ColumnDiffers(schema.columns[i], t);
    }
    if i :| 0 <= i < |schema.columns| && ColumnDiffers(schema.columns[i], t) {
      var d := schema.columns[i];
      assert d.name in ColumnNames(cur.columns);
      var k :| 0 <= k < |cur.columns| && cur.columns[k].name == d.name;
      FirstNamedAt(schema.columns, i);
      ColumnsMatchIff(d, cur.columns[k]);
      assert Modified(schema.columns, cur.columns[k]);
    }
  }

  lemma {:induction false} MeetsMeans(cur: seq<Index>, d: IndexSpec, constraints: set<string>) returns (k: nat)
    requires MeetsConstraint(cur, d, constraints)
    ensures k < |cur| && cur[k].name == d.name && d.name in constraints && !Same(cur[k], d)
  {
    hide Same;
    if cur[0].name == d.name && cur[0].name in constraints {
      k := 0;
    } else {
      var k' := MeetsMeans(cur[1..], d, constraints);
      k := k' + 1;
    }
  }

  /** On distinct names: an index behind a constraint that no declaration describes. */
  ghost predicate ConstraintDiffers(ds: seq<IndexSpec>, t: Table) {
    exists n :: n in t.indexes && n in t.constraints &&
      !exists i :: 0 <= i < |ds| && ds[i].name == n && IndexAsDeclared(t.indexes[n], ds[i])
  }

  lemma DiffersIsMet(ds: seq<IndexSpec>, cur: Listing, t: Table)
    requires Lists(Indexes(), cur.indexes, t.indexes) && cur.constraints == t.constraints && ConstraintDiffers(ds, t)
    ensures (exists i :: 0 <= i < |ds| && MeetsConstraint(cur.indexes, ds[i], cur.constraints))
      || exists i :: 0 <= i < |cur.indexes| && !Declared(ds, cur.indexes[i].name) && cur.indexes[i].name in cur.constraints
  {
    var f := Indexes();
    hide Same, IndexAsDeclared, MeetsConstraint;
    var n :| n in t.indexes && n in t.constraints && !exists i :: 0 <= i < |ds| && ds[i].name == n && IndexAsDeclared(t.indexes[n], ds[i]);
    var k :| 0 <= k < |cur.indexes| && f.nameIn(cur.indexes[k]) == n;
    assert cur.indexes[k].name == n && t.indexes[n] == cur.indexes[k];
    if Declared(ds, n) {
      var i :| 0 <= i < |ds| && ds[i].name == n;
      SameIff(cur.indexes[k], ds[i]);
      if !MeetsConstraint(cur.indexes, ds[i], cur.constraints) {
        MeetsNamed(cur.indexes, ds[i], cur.constraints, k);
      }
    }
  }

  lemma MetDiffers(ds: seq<IndexSpec>, cur: Listing, t: Table)
    requires Lists(Indexes(), cur.indexes, t.indexes) && cur.constraints == t.constraints && DistinctDesired(Indexes(), ds)
    requires (exists i :: 0 <= i < |ds| && MeetsConstraint(cur.indexes, ds[i], cur.constraints))
      || exists i :: 0 <= i < |cur.indexes| && !Declared(ds, cur.indexes[i].name) && cur.indexes[i].name in cur.constraints
    ensures ConstraintDiffers(ds, t)
  {
    var f := Indexes();
    hide Same, IndexAsDeclared, MeetsConstraint;
    assert forall i :: 0 <= i < |ds| ==> f.nameOf(ds[i]) == ds[i].name;
    assert forall i :: 0 <= i < |cur.indexes| ==> f.nameIn(cur.indexes[i]) == cur.indexes[i].name;
    if i :| 0 <= i < |ds| && MeetsConstraint(cur.indexes, ds[i], cur.constraints) {
      var k := MeetsMeans(cur.indexes, ds[i], cur.constraints);
      SameIff(cur.indexes[k], ds[i]);
      var n := ds[i].name;
      assert t.indexes[n] == cur.indexes[k];
      forall j | 0 <= j < |ds| && ds[j].name == n ensures j == i {
      }
    } else {
      var i :| 0 <= i < |cur.indexes| && !Declared(ds, cur.indexes[i].name) && cur.indexes[i].name in cur.constraints;
      var n := cur.indexes[i].name;
      assert n in t.indexes;
    }
  }

  /**
   A rebuild is asked for exactly if the key, a foreign key, a column that is there or an index
   behind a constraint is not as declared.
   */
  lemma RebuildIff(schema: Schema, ds: seq<IndexSpec>, cur: Listing, t: Table)
    requires DistinctColumns(schema.columns) && DistinctDesired(Indexes(), ds) && Reports(cur, t)
    ensures NeedsRecreate(schema, ds, cur) <==> !Alterable(schema, ds, t)
  {
    assert ConstraintDiffers(ds, t) <==> !forall n :: n in t.indexes && n in t.constraints ==>
      exists i :: 0 <= i < |ds| && ds[i].name == n && IndexAsDeclared(t.indexes[n], ds[i]);
    hide ForeignKeysMatch, ForeignKeysAsDeclared, Modified, MeetsConstraint, Declared, ColumnAsDeclared, IndexAsDeclared, Lists,
      ListsColumns, DistinctDesired, DistinctColumns, ConstraintDiffers;
    assert ColumnsEqual(cur.key, schema.key) <==> SameColumns(t.key, schema.key);
    KeysMatchIff(cur.foreignKeys, schema.foreignKeys);
    ModifiedIff(schema, cur, t);
    if ConstraintDiffers(ds, t) {
      DiffersIsMet(ds, cur, t);
    }
    if (exists i :: 0 <= i < |ds| && MeetsConstraint(cur.indexes, ds[i], cur.constraints))
      || exists i :: 0 <= i < |cur.indexes| && !Declared(ds, cur.indexes[i].name) && cur.indexes[i].name in cur.constraints {
      MetDiffers(ds, cur, t);
    }
  }

  // ----- where the statements end ------------------------------------------------------------------------

  /** Exactly the declared columns and indexes, the key and the foreign keys, each as declared. */
  ghost predicate TableAsDeclared(schema: Schema, ds: seq<IndexSpec>, t: Table) {
    && (forall n :: n in t.columns <==> exists i :: 0 <= i < |schema.columns| && schema.columns[i].name == n)
    && (forall i :: 0 <= i < |schema.columns| ==> schema.columns[i].name in t.columns)
    && (forall i :: 0 <= i < |schema.columns| ==> ColumnAsDeclared(t.columns[schema.columns[i].name], schema.columns[i]))
    && (forall n :: n in t.indexes <==> exists i :: 0 <= i < |ds| && ds[i].name == n)
    && (forall i :: 0 <= i < |ds| ==> ds[i].name in t.indexes && IndexAsDeclared(t.indexes[ds[i].name], ds[i]))
    && SameColumns(t.key, schema.key) && ForeignKeysAsDeclared(t.foreignKeys, schema.foreignKeys)
  }

  /** Added columns are stored as declared, under their name. */
  ghost predicate StoresColumns(render: Render, ds: seq<Column>) {
    forall i :: 0 <= i < |ds| ==> render(ds[i]).name == ds[i].name && ColumnAsDeclared(render(ds[i]), ds[i])
  }

  lemma StoresIsRenders(render: Render, ds: seq<Column>)
    requires StoresColumns(render, ds)
    ensures RendersColumns(render, ds)
  {
    hide ColumnsMatch, ColumnAsDeclared;
    forall d | d in ds ensures render(d).name == d.name && ColumnsMatch(d, render(d)) {
      var i :| 0 <= i < |ds| && ds[i] == d;
      ColumnsMatchIff(d, render(d));
    }
  }

  lemma ColumnsEndAsDeclared(render: Render, schema: Schema, ds: seq<IndexSpec>, cur: Listing, t: Table, end: map<string, Column>, i: nat)
    requires StoresColumns(render, schema.columns) && DistinctColumns(schema.columns) && i < |schema.columns|
    requires ListsColumns(cur.columns, t.columns) && !NeedsRecreate(schema, ds, cur)
    requires end == Added(render, t.columns, schema.columns, cur.columns) - Gone(cur.columns, schema.columns)
    requires schema.columns[i].name in end
    ensures ColumnAsDeclared(end[schema.columns[i].name], schema.columns[i])
  {
    var d := schema.columns[i];
    hide NeedsRecreate, Added, Gone, RendersColumns, StoresColumns, ColumnsMatch, ColumnAsDeclared;
    StoresIsRenders(render, schema.columns);
    ColumnsStayMatched(render, schema, ds, cur, t, d.name);
    FirstNamedAt(schema.columns, i);
    ColumnsMatchIff(d, end[d.name]);
  }

  lemma IndexesEndAsDeclared(ds: seq<IndexSpec>, cat: map<string, Index>, end: map<string, Index>)
    requires Reached(Indexes(), cat, ds, end)
    ensures forall n :: n in end <==> exists i :: 0 <= i < |ds| && ds[i].name == n
    ensures forall i :: 0 <= i < |ds| ==> ds[i].name in end && IndexAsDeclared(end[ds[i].name], ds[i])
  {
    var f := Indexes();
    hide Same, IndexAsDeclared;
    assert forall i :: 0 <= i < |ds| ==> f.nameOf(ds[i]) == ds[i].name;
    AsDeclared.NamedIff(f, ds, end);
    forall i | 0 <= i < |ds| ensures ds[i].name in end && IndexAsDeclared(end[ds[i].name], ds[i]) {
      assert Kept(f, ds[i], end);
      SameIff(end[ds[i].name], ds[i]);
    }
  }

  lemma AlterableKeys(schema: Schema, ds: seq<IndexSpec>, t: Table)
    requires Alterable(schema, ds, t)
    ensures SameColumns(t.key, schema.key) && ForeignKeysAsDeclared(t.foreignKeys, schema.foreignKeys)
  {
  }

  /** Without a rebuild the statements run and leave everything as declared, field by field. */
  lemma AlterEndsAsDeclared(render: Render, schema: Schema, ds: seq<IndexSpec>, cur: Listing, t: Table)
    requires WellDeclared(schema, ds) && Reports(cur, t) && !NeedsRecreate(schema, ds, cur) && StoresColumns(render, schema.columns)
    ensures var end := Run(render, t, AlterStatements(schema, ds, cur)); end.Some? && TableAsDeclared(schema, ds, end.value)
  {
    hide Run, AlterStatements, NeedsRecreate, Reached, ForeignKeysAsDeclared, Lists, ListsColumns, StoresColumns, ColumnAsDeclared,
      IndexAsDeclared, Added, Gone, SameColumns, DistinctColumns, DistinctDesired, Alterable;
    AlterReachesDeclared(render, schema, ds, cur, t);
    RebuildIff(schema, ds, cur, t);
    AlterableKeys(schema, ds, t);
    var end := Run(render, t, AlterStatements(schema, ds, cur)).value;
    IndexesEndAsDeclared(ds, t.indexes, end.indexes);
    forall i | 0 <= i < |schema.columns|
      ensures schema.columns[i].name in end.columns && ColumnAsDeclared(end.columns[schema.columns[i].name], schema.columns[i])
    {
      assert schema.columns[i].name in ColumnNames(schema.columns);
      ColumnsEndAsDeclared(render, schema, ds, cur, t, end.columns, i);
    }
  }

  /** A declared index keeps its name, or gets one from the table and its columns. */
  lemma NamedAsDeclared(table: string, specs: seq<IndexSpec>, i: nat)
    requires i < |specs|
    ensures var d, s := NameAll(table, specs)[i], specs[i];
      && d.columns == s.columns && d.isUnique == s.isUnique
      && d.name == if s.name == "" then "idx_" + table + "_" + Join(s.columns, "_") else s.name
  {
    NameAllAt(table, specs, i);
  }
}
