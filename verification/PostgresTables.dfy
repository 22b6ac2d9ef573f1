/** The columns of a PostgreSQL table: those that exist altered or dropped one by one, then the missing ones added. */
module PostgresTables {
  import opened Options
  import opened Collections
  import opened PostgresColumns

  datatype TableStmt = OnColumn(name: string, stmt: ColumnStmt) | AddColumn(column: Column)

  function OnEach(n: string, ss: seq<ColumnStmt>): seq<TableStmt> {
    if ss == [] then [] else [OnColumn(n, ss[0])] + OnEach(n, ss[1..])
  }

  predicate HasColumn(listed: seq<Column>, n: string) {
    exists i :: 0 <= i < |listed| && listed[i].name == n
  }

  function Joined(a: seq<TableStmt>, r: Result<seq<TableStmt>>): Result<seq<TableStmt>> {
    if r.Err? then r else Ok(a + r.value)
  }

  function ExistingPart(keys: seq<string>, ds: seq<Declared>, listed: seq<Column>): Result<seq<TableStmt>> {
    if listed == [] then Ok([]) else
    var ss := ColumnStatements(keys, ds, listed[0]);
    if ss.Err? then Err(ss.error) else Joined(OnEach(listed[0].name, ss.value), ExistingPart(keys, ds, listed[1..]))
  }

  function NewPart(ds: seq<Declared>, listed: seq<Column>): Result<seq<TableStmt>> {
    if ds == [] then Ok([])
    else if HasColumn(listed, ds[0].name) then NewPart(ds[1..], listed)
    else if ds[0].column.Err? then Err(ds[0].column.error)
    else Joined([AddColumn(ds[0].column.value)], NewPart(ds[1..], listed))
  }

  function TableColumns(keys: seq<string>, ds: seq<Declared>, listed: seq<Column>): Result<seq<TableStmt>> {
    var first := ExistingPart(keys, ds, listed);
    if first.Err? then first else Joined(first.value, NewPart(ds, listed))
  }

  lemma JoinedTwice(a: seq<TableStmt>, b: seq<TableStmt>, r: Result<seq<TableStmt>>)
    ensures Joined(a, Joined(b, r)) == Joined(a + b, r)
  {
    if r.Ok? {
      assert a + (b + r.value) == (a + b) + r.value;
    }
  }

  method OnEveryStatement(n: string, ss: seq<ColumnStmt>) returns (r: seq<TableStmt>)
    ensures r == OnEach(n, ss)
  {
    r := [];
    assert ss[0..] == ss;
    for i := 0 to |ss|
      invariant r + OnEach(n, ss[i..]) == OnEach(n, ss)
    {
      assert ss[i..][1..] == ss[i + 1..] && ss[i..][0] == ss[i];
      r := r + [OnColumn(n, ss[i])];
    }
    assert ss[|ss|..] == [];
  }

  method AlterExisting(keys: seq<string>, ds: seq<Declared>, listed: seq<Column>) returns (r: Result<seq<TableStmt>>, found: seq<string>)
    ensures r == ExistingPart(keys, ds, listed)
    ensures r.Ok? ==> forall n :: n in found <==> HasColumn(listed, n)
  {
    hide ColumnStatements, OnEach;
    var statements: seq<TableStmt> := [];
    found := [];
    assert listed[0..] == listed;
    JoinedNothing(ExistingPart(keys, ds, listed));
    for i := 0 to |listed|
      invariant Joined(statements, ExistingPart(keys, ds, listed[i..])) == ExistingPart(keys, ds, listed)
      invariant forall n :: n in found <==> exists k :: 0 <= k < i && listed[k].name == n
    {
      assert listed[i..][1..] == listed[i + 1..] && listed[i..][0] == listed[i];
      found := found + [listed[i].name];
      var ss := AlterColumnStatements(keys, ds, listed[i]);
      if ss.Err? {
        return Err(ss.error), found;
      }
      var more := OnEveryStatement(listed[i].name, ss.value);
      JoinedTwice(statements, more, ExistingPart(keys, ds, listed[i + 1..]));
      statements := statements + more;
    }
    assert listed[|listed|..] == [] && statements + [] == statements;
    r := Ok(statements);
  }

  lemma JoinedNothing(r: Result<seq<TableStmt>>)
    ensures Joined([], r) == r
  {
    if r.Ok? {
      assert [] + r.value == r.value;
    }
  }

  method BuildColumnStatements(keys: seq<string>, ds: seq<Declared>, listed: seq<Column>) returns (r: Result<seq<TableStmt>>)
    ensures r == TableColumns(keys, ds, listed)
  {
    hide ExistingPart;
    var first, found := AlterExisting(keys, ds, listed);
    if first.Err? {
      return first;
    }
    var statements := first.value;
    assert ds[0..] == ds;
    for i := 0 to |ds|
      invariant Joined(statements, NewPart(ds[i..], listed)) == TableColumns(keys, ds, listed)
    {
      assert ds[i..][1..] == ds[i + 1..] && ds[i..][0] == ds[i];
      var isColumnPresent := false;
      for k := 0 to |found|
        invariant isColumnPresent == (ds[i].name in found[..k])
      {
        if found[k] == ds[i].name {
          isColumnPresent := true;
        }
      }
      assert found[..|found|] == found;
      if !isColumnPresent {
        if ds[i].column.Err? {
          return Err(ds[i].column.error);
        }
        JoinedTwice(statements, [AddColumn(ds[i].column.value)], NewPart(ds[i + 1..], listed));
        statements := statements + [AddColumn(ds[i].column.value)];
      }
    }
    assert ds[|ds|..] == [] && statements + [] == statements;
    r := Ok(statements);
  }

  // ----- running the statements ----------------------------------------------------------------------

  /** The columns by name, and how many rows there are. */
  datatype Table = Table(columns: map<string, Stored>, rows: nat)

  /** What a column declared serial or with a default holds in the rows there are. */
  function NewColumn(sv: Server, d: Column, rows: nat): Stored {
    Stored(sv.typeName(d.dataType), d.isArray, if d.dflt.None? then None else Some(FormatColumnDefault(d.dflt.value)), IsTrue(d.notNull),
      seq(rows, i requires 0 <= i => if Serial(d.dataType) then Some(sv.number(i))
        else if d.dflt.None? then None else sv.value(FormatColumnDefault(d.dflt.value))))
  }

  function RunOne(sv: Server, t: Table, s: TableStmt): Option<Table> {
    match s
    case OnColumn(n, stmt) =>
      if n !in t.columns then None
      else if stmt.DropColumn? then Some(t.(columns := t.columns - {n}))
      else
        var next := Execute(sv, t.columns[n], stmt);
        if next.None? then None else Some(t.(columns := t.columns[n := next.value]))
    case AddColumn(d) =>
      var c := NewColumn(sv, d, t.rows);
      if d.name in t.columns || (c.notNull && HasNull(c.rows)) then None else Some(t.(columns := t.columns[d.name := c]))
  }

  function RunAll(sv: Server, t: Table, plan: seq<TableStmt>): Option<Table>
    decreases |plan|
  {
    if plan == [] then Some(t) else
    var next := RunOne(sv, t, plan[0]);
    if next.None? then None else RunAll(sv, next.value, plan[1..])
  }
}
