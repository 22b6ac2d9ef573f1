/** Changing a SQLite table: whether it has to be rebuilt, and the statements if it has not. */
module Sqlite {
  import opened Options
  import opened Collections
  import opened Text
  import opened ElementLists
  import opened Comparators
  import opened ForeignKeys

  datatype Column = Column(
    name: string, dataType: string, collation: string, dflt: Option<string>, notNull: Option<bool>, autoIncrement: Option<bool>)

  datatype IndexSpec = IndexSpec(name: string, columns: seq<string>, isUnique: bool)

  datatype Schema = Schema(columns: seq<Column>, key: seq<string>, indexes: seq<IndexSpec>, foreignKeys: seq<ForeignKey>)

  /** What introspection reports. */
  datatype Listing = Listing(
    columns: seq<Column>, key: seq<string>, indexes: seq<Index>, constraints: set<string>, foreignKeys: seq<ForeignKey>)

  datatype TableStmt = AddColumn(column: Column) | DropIndex(name: string) | CreateIndex(index: IndexSpec) | DropColumn(name: string)

  // ----- comparing -----------------------------------------------------------------------------

  predicate ColumnsMatch(a: Column, b: Column) {
    && EqualFold(a.dataType, b.dataType) && a.collation == b.collation && a.dflt == b.dflt
    && (IsTrue(a.notNull) <==> IsTrue(b.notNull)) && (IsTrue(a.autoIncrement) <==> IsTrue(b.autoIncrement))
  }

  function ToIndex(d: IndexSpec): Index {
    Index(d.columns, d.name, d.isUnique, "", "", [], [])
  }

  predicate Same(c: Index, d: IndexSpec) {
    IndexEquals(c, ToIndex(d))
  }

  function GenerateIndexName(table: string, d: IndexSpec): string {
    "idx_" + table + "_" + Join(d.columns, "_")
  }

  function WithName(table: string, d: IndexSpec): (r: IndexSpec) {
    if d.name == "" then d.(name := GenerateIndexName(table, d)) else d
  }

  function NameAll(table: string, ds: seq<IndexSpec>): (r: seq<IndexSpec>)
    ensures |r| == |ds|
  {
    if ds == [] then [] else [WithName(table, ds[0])] + NameAll(table, ds[1..])
  }

  // ----- whether the table has to be rebuilt -----------------------------------------------------

  function FirstNamed(ds: seq<Column>, n: string): Option<Column> {
    if ds == [] then None else if ds[0].name == n then Some(ds[0]) else FirstNamed(ds[1..], n)
  }

  predicate Modified(ds: seq<Column>, e: Column) {
    var d := FirstNamed(ds, e.name);
    d.Some? && !ColumnsMatch(d.value, e)
  }

  /** Looking for the index meets one of its name that a constraint stands behind before an equal one. */
  predicate MeetsConstraint(cur: seq<Index>, d: IndexSpec, constraints: set<string>) {
    cur != [] && !Same(cur[0], d) && ((cur[0].name == d.name && cur[0].name in constraints) || MeetsConstraint(cur[1..], d, constraints))
  }

  predicate Declared(ds: seq<IndexSpec>, n: string) {
    exists i :: 0 <= i < |ds| && ds[i].name == n
  }

  predicate NeedsRecreate(schema: Schema, ds: seq<IndexSpec>, cur: Listing) {
    || !ColumnsEqual(cur.key, schema.key)
    || !ForeignKeysMatch(cur.foreignKeys, schema.foreignKeys)
    || (exists i :: 0 <= i < |cur.columns| && Modified(schema.columns, cur.columns[i]))
    || (exists i :: 0 <= i < |ds| && MeetsConstraint(cur.indexes, ds[i], cur.constraints))
    || (exists i :: 0 <= i < |cur.indexes| && !Declared(ds, cur.indexes[i].name) && cur.indexes[i].name in cur.constraints)
  }

  method ColumnsModified(ds: seq<Column>, existing: seq<Column>) returns (modified: bool)
    ensures modified <==> exists i :: 0 <= i < |existing| && Modified(ds, existing[i])
  {
    hide ColumnsMatch;
    for i := 0 to |existing|
      invariant forall k :: 0 <= k < i ==> !Modified(ds, existing[k])
    {
      var e := existing[i];
      assert ds[0..] == ds;
      for j := 0 to |ds|
        invariant FirstNamed(ds, e.name) == FirstNamed(ds[j..], e.name)
      {
        assert ds[j..][1..] == ds[j + 1..];
        if e.name == ds[j].name {
          if !ColumnsMatch(ds[j], e) {
            return true;
          }
          break;
        }
      }
    }
    return false;
  }

  method LooksForIndex(cur: seq<Index>, d: IndexSpec, constraints: set<string>) returns (meets: bool)
    ensures meets == MeetsConstraint(cur, d, constraints)
  {
    hide IndexEquals;
    assert cur[0..] == cur;
    for i := 0 to |cur|
      invariant MeetsConstraint(cur, d, constraints) == MeetsConstraint(cur[i..], d, constraints)
    {
      assert cur[i..][1..] == cur[i + 1..] && cur[i..][0] == cur[i];
      var same := EqualIndexes(cur[i], ToIndex(d));
      if same {
        return false;
      }
      if cur[i].name == d.name && cur[i].name in constraints {
        return true;
      }
    }
    return false;
  }

  method IsDeclared(ds: seq<IndexSpec>, n: string) returns (found: bool)
    ensures found == Declared(ds, n)
  {
    for i := 0 to |ds|
      invariant forall k :: 0 <= k < i ==> ds[k].name != n
    {
      if ds[i].name == n {
        return true;
      }
    }
    return false;
  }

  /** Fills in a missing name in place. */
  method NameIndex(table: string, ds: seq<IndexSpec>, i: nat) returns (r: seq<IndexSpec>)
    requires i < |ds|
    ensures r == ds[i := WithName(table, ds[i])]
  {
    r := ds;
    if ds[i].name == "" {
      r := r[i := ds[i].(name := GenerateIndexName(table, ds[i]))];
    } else {
      assert ds[i := ds[i]] == ds;
    }
  }

  lemma {:induction false} NameAllAt(table: string, ds: seq<IndexSpec>, i: nat)
    requires i < |ds|
    ensures NameAll(table, ds)[i] == WithName(table, ds[i])
  {
    hide WithName;
    if i > 0 {
      NameAllAt(table, ds[1..], i - 1);
    }
  }

  method CheckTableNeedsRecreate(table: string, schema: Schema, cur: Listing) returns (recreate: bool)
    ensures recreate == NeedsRecreate(schema, NameAll(table, schema.indexes), cur)
  {
    hide Modified, MeetsConstraint, Declared, WithName, NameAll, ForeignKeysMatch;
    var keysEqual := EqualColumns(cur.key, schema.key);
    if !keysEqual {
      return true;
    }
    var foreignKeysMatch := MatchForeignKeys(cur.foreignKeys, schema.foreignKeys);
    if !foreignKeysMatch {
      return true;
    }
    var modified := ColumnsModified(schema.columns, cur.columns);
    if modified {
      return true;
    }
    var ds := schema.indexes;
    ghost var all := NameAll(table, schema.indexes);
    for i := 0 to |ds|
      invariant |ds| == |schema.indexes| && ds == all[..i] + schema.indexes[i..]
      invariant forall k :: 0 <= k < i ==> !MeetsConstraint(cur.indexes, all[k], cur.constraints)
    {
      NameAllAt(table, schema.indexes, i);
      assert ds[i] == schema.indexes[i];
      ds := NameIndex(table, ds, i);
      var meets := LooksForIndex(cur.indexes, ds[i], cur.constraints);
      if meets {
        return true;
      }
    }
    assert ds == all;
    for i := 0 to |cur.indexes|
      invariant forall k :: 0 <= k < i ==> Declared(all, cur.indexes[k].name) || cur.indexes[k].name !in cur.constraints
    {
      var declared := IsDeclared(ds, cur.indexes[i].name);
      if !declared && cur.indexes[i].name in cur.constraints {
        return true;
      }
    }
    return false;
  }

  // ----- the statements ----------------------------------------------------------------------------

  predicate HasColumn(cs: seq<Column>, n: string) {
    exists i :: 0 <= i < |cs| && cs[i].name == n
  }

  function AddColumns(ds: seq<Column>, existing: seq<Column>): seq<TableStmt> {
    if ds == [] then []
    else (if HasColumn(existing, ds[0].name) then [] else [AddColumn(ds[0])]) + AddColumns(ds[1..], existing)
  }

  function DropColumns(existing: seq<Column>, ds: seq<Column>): seq<TableStmt> {
    if existing == [] then []
    else (if HasColumn(ds, existing[0].name) then [] else [DropColumn(existing[0].name)]) + DropColumns(existing[1..], ds)
  }

  /** Drops every index of the same name met on the way; nothing is created once an equal one is met. */
  function ForIndex(cur: seq<Index>, d: IndexSpec): seq<TableStmt> {
    if cur == [] then [CreateIndex(d)]
    else if Same(cur[0], d) then []
    else (if cur[0].name == d.name then [DropIndex(cur[0].name)] else []) + ForIndex(cur[1..], d)
  }

  function ForIndexes(ds: seq<IndexSpec>, cur: seq<Index>): seq<TableStmt> {
    if ds == [] then [] else ForIndex(cur, ds[0]) + ForIndexes(ds[1..], cur)
  }

  function DropIndexes(cur: seq<Index>, ds: seq<IndexSpec>): seq<TableStmt> {
    if cur == [] then []
    else (if Declared(ds, cur[0].name) then [] else [DropIndex(cur[0].name)]) + DropIndexes(cur[1..], ds)
  }

  function AlterStatements(schema: Schema, ds: seq<IndexSpec>, cur: Listing): seq<TableStmt> {
    AddColumns(schema.columns, cur.columns) + (ForIndexes(ds, cur.indexes) + DropIndexes(cur.indexes, ds))
    + DropColumns(cur.columns, schema.columns)
  }

  method ColumnPresent(cs: seq<Column>, n: string) returns (found: bool)
    ensures found == HasColumn(cs, n)
  {
    for i := 0 to |cs|
      invariant forall k :: 0 <= k < i ==> cs[k].name != n
    {
      if cs[i].name == n {
        return true;
      }
    }
    return false;
  }

  method NewColumns(ds: seq<Column>, existing: seq<Column>) returns (statements: seq<TableStmt>)
    ensures statements == AddColumns(ds, existing)
  {
    hide HasColumn;
    statements := [];
    assert ds[0..] == ds;
    for i := 0 to |ds|
      invariant statements + AddColumns(ds[i..], existing) == AddColumns(ds, existing)
    {
      assert ds[i..][1..] == ds[i + 1..] && ds[i..][0] == ds[i];
      Associative(statements, if HasColumn(existing, ds[i].name) then [] else [AddColumn(ds[i])], AddColumns(ds[i + 1..], existing));
      var found := ColumnPresent(existing, ds[i].name);
      if !found {
        statements := statements + [AddColumn(ds[i])];
      } else {
        assert statements + [] == statements;
      }
    }
    assert ds[|ds|..] == [];
  }

  method RemovedColumns(existing: seq<Column>, ds: seq<Column>) returns (statements: seq<TableStmt>)
    ensures statements == DropColumns(existing, ds)
  {
    hide HasColumn;
    statements := [];
    assert existing[0..] == existing;
    for i := 0 to |existing|
      invariant statements + DropColumns(existing[i..], ds) == DropColumns(existing, ds)
    {
      assert existing[i..][1..] == existing[i + 1..] && existing[i..][0] == existing[i];
      Associative(statements, if HasColumn(ds, existing[i].name) then [] else [DropColumn(existing[i].name)],
        DropColumns(existing[i + 1..], ds));
      var found := ColumnPresent(ds, existing[i].name);
      if !found {
        statements := statements + [DropColumn(existing[i].name)];
      } else {
        assert statements + [] == statements;
      }
    }
    assert existing[|existing|..] == [];
  }

  method AlterIndex(cur: seq<Index>, d: IndexSpec) returns (statements: seq<TableStmt>)
    ensures statements == ForIndex(cur, d)
  {
    hide IndexEquals;
    statements := [];
    assert cur[0..] == cur;
    for i := 0 to |cur|
      invariant statements + ForIndex(cur[i..], d) == ForIndex(cur, d)
    {
      assert cur[i..][1..] == cur[i + 1..] && cur[i..][0] == cur[i];
      var same := EqualIndexes(cur[i], ToIndex(d));
      if same {
        return;
      }
      Associative(statements, if cur[i].name == d.name then [DropIndex(cur[i].name)] else [], ForIndex(cur[i + 1..], d));
      if cur[i].name == d.name {
        statements := statements + [DropIndex(cur[i].name)];
      } else {
        assert statements + [] == statements;
      }
    }
    assert cur[|cur|..] == [];
    statements := statements + [CreateIndex(d)];
  }

  lemma ForIndexesStep(all: seq<IndexSpec>, i: nat, cur: seq<Index>, done: seq<TableStmt>)
    requires i < |all|
    ensures done + ForIndexes(all[i..], cur) == (done + ForIndex(cur, all[i])) + ForIndexes(all[i + 1..], cur)
  {
    hide ForIndex;
    assert all[i..][1..] == all[i + 1..] && all[i..][0] == all[i];
    Associative(done, ForIndex(cur, all[i]), ForIndexes(all[i + 1..], cur));
  }

  lemma ForIndexesEnds(all: seq<IndexSpec>, cur: seq<Index>, done: seq<TableStmt>)
    ensures all[0..] == all && [] + ForIndexes(all, cur) == ForIndexes(all, cur)
    ensures done + ForIndexes(all[|all|..], cur) == done
  {
    assert all[|all|..] == [];
  }

  lemma NamedSoFar(all: seq<IndexSpec>, specs: seq<IndexSpec>, i: nat)
    requires i < |all| == |specs|
    ensures var ds := all[..i] + specs[i..]; ds[i] == specs[i] && ds[i := all[i]] == all[..i + 1] + specs[i + 1..]
  {
  }

  /** The desired pass, naming the declared indexes in place. */
  method AlterIndexes(table: string, specs: seq<IndexSpec>, cur: seq<Index>) returns (statements: seq<TableStmt>, ds: seq<IndexSpec>)
    ensures ds == NameAll(table, specs) && statements == ForIndexes(ds, cur)
  {
    hide ForIndex, ForIndexes, WithName, NameAll;
    statements, ds := [], specs;
    ghost var all := NameAll(table, specs);
    ForIndexesEnds(all, cur, []);
    assert all[..0] + specs[0..] == specs;
    for i := 0 to |ds|
      invariant |ds| == |specs| && ds == all[..i] + specs[i..]
      invariant statements + ForIndexes(all[i..], cur) == ForIndexes(all, cur)
    {
      NameAllAt(table, specs, i);
      NamedSoFar(all, specs, i);
      ds := NameIndex(table, ds, i);
      ForIndexesStep(all, i, cur, statements);
      var more := AlterIndex(cur, ds[i]);
      statements := statements + more;
    }
    ForIndexesEnds(all, cur, statements);
    assert all[..|all|] + specs[|all|..] == all;
  }

  method BuildAlterIndexStatements(table: string, specs: seq<IndexSpec>, cur: seq<Index>) returns (statements: seq<TableStmt>)
    ensures var ds := NameAll(table, specs); statements == ForIndexes(ds, cur) + DropIndexes(cur, ds)
  {
    hide ForIndexes, Declared, NameAll;
    var ds;
    statements, ds := AlterIndexes(table, specs, cur);
    assert cur[0..] == cur;
    for i := 0 to |cur|
      invariant statements + DropIndexes(cur[i..], ds) == ForIndexes(ds, cur) + DropIndexes(cur, ds)
    {
      assert cur[i..][1..] == cur[i + 1..] && cur[i..][0] == cur[i];
      Associative(statements, if Declared(ds, cur[i].name) then [] else [DropIndex(cur[i].name)], DropIndexes(cur[i + 1..], ds));
      var declared := IsDeclared(ds, cur[i].name);
      if !declared {
        statements := statements + [DropIndex(cur[i].name)];
      } else {
        assert statements + [] == statements;
      }
    }
    assert cur[|cur|..] == [];
  }

  /** The statements of the branch without a rebuild; `None` asks for the rebuild. */
  method BuildStatements(table: string, schema: Schema, cur: Listing) returns (r: Option<seq<TableStmt>>)
    ensures var ds := NameAll(table, schema.indexes);
      r == if NeedsRecreate(schema, ds, cur) then None else Some(AlterStatements(schema, ds, cur))
  {
    hide NeedsRecreate, NameAll, AddColumns, DropColumns, ForIndexes, DropIndexes;
    var recreate := CheckTableNeedsRecreate(table, schema, cur);
    if recreate {
      return None;
    }
    var statements := NewColumns(schema.columns, cur.columns);
    var indexStatements := BuildAlterIndexStatements(table, schema.indexes, cur.indexes);
    statements := statements + indexStatements;
    var drops := RemovedColumns(cur.columns, schema.columns);
    statements := statements + drops;
    return Some(statements);
  }
}
