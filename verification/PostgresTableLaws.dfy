/** Planning and applying the columns of a table: exactly the declared ones are left, each as declared within three rounds. */
module PostgresTableLaws {
  import opened Options
  import opened Collections
  import opened Text
  import opened Literals
  import opened PostgresColumns
  import opened PostgresColumnLaws
  import opened PostgresTables

  // ----- a bare default --------------------------------------------------------------------------------

  /** A default that is neither a literal nor a call is written as a literal of that very text. */
  lemma BareDefaultReadsBack(d: string)
    requires '\'' !in d && '\n' !in d && '(' !in d
    ensures ReadString(FormatColumnDefault(d)) == Some((d, ""))
  {
    assert !Contains(d, "'::") by { NoQuoteNoMatch(d); }
    NoCastFrom(d, 0);
    assert d != "" ==> d[0] != '\'';
    assert FormatColumnDefault(d) == EscapePostgresString(d);
    assert EscapePostgresString(d) + "" == EscapePostgresString(d);
    hide FormatColumnDefault, EscapePostgresString, ReadString;
    LiteralReadsBack(d, "");
  }

  lemma NoQuoteNoMatch(d: string)
    requires '\'' !in d
    ensures !Contains(d, "'::")
  {
    forall i | 0 <= i <= |d| ensures !MatchAt(d, "'::", i) {
      if i + 3 <= |d| {
        assert d[i..i + 3][0] == d[i];
      }
    }
  }

  // ----- what is declared and listed ---------------------------------------------------------------------

  /** Distinct names, and types that can be parsed. */
  ghost predicate WellDeclared(ds: seq<Declared>) {
    && (forall i, j :: 0 <= i < j < |ds| ==> ds[i].name != ds[j].name)
    && (forall i :: 0 <= i < |ds| ==> ds[i].column.Ok? && ds[i].column.value.name == ds[i].name)
  }

  /** The listing names every column once and describes it. */
  ghost predicate Describes(sv: Server, listed: seq<Column>, columns: map<string, Stored>) {
    && (forall i, j :: 0 <= i < j < |listed| ==> listed[i].name != listed[j].name)
    && (forall i :: 0 <= i < |listed| ==> listed[i].name in columns && listed[i] == Listed(sv, listed[i].name, columns[listed[i].name]))
    && (forall n :: n in columns ==> HasColumn(listed, n))
  }

  lemma {:induction false} FirstDeclaredIs(ds: seq<Declared>, n: string)
    ensures FirstDeclared(ds, n).None? <==> forall i :: 0 <= i < |ds| ==> ds[i].name != n
    ensures FirstDeclared(ds, n).Some? ==> FirstDeclared(ds, n).value in ds && FirstDeclared(ds, n).value.name == n
  {
    if ds != [] {
      FirstDeclaredIs(ds[1..], n);
      assert ds == [ds[0]] + ds[1..];
      forall i | 0 <= i < |ds[1..]| ensures ds[1..][i] == ds[i + 1] {
      }
    }
  }

  /** The statements for a column are a drop exactly if no declared column has its name. */
  lemma DroppedIff(keys: seq<string>, ds: seq<Declared>, e: Column)
    requires WellDeclared(ds)
    ensures var r := ColumnStatements(keys, ds, e);
      && r.Ok?
      && (DropColumn in r.value <==> forall i :: 0 <= i < |ds| ==> ds[i].name != e.name)
      && ((forall i :: 0 <= i < |ds| ==> ds[i].name != e.name) ==> r.value == [DropColumn])
  {
    FirstDeclaredIs(ds, e.name);
    if FirstDeclared(ds, e.name).Some? {
      var d := FirstDeclared(ds, e.name).value;
      var k :| 0 <= k < |ds| && ds[k] == d;
      AlterNeverDrops(keys, d.column.value, e);
    }
    hide AlterTo;
  }

  lemma AlterNeverDrops(keys: seq<string>, d: Column, e: Column)
    ensures DropColumn !in AlterTo(keys, d, e)
  {
    hide ColumnsMatch, Changes, DefaultsEqual, FormatColumnDefault;
  }

  // ----- running one column's statements -------------------------------------------------------------------

  lemma {:induction false} OnEachRuns(sv: Server, t: Table, n: string, ss: seq<ColumnStmt>, rest: seq<TableStmt>)
    requires n in t.columns && DropColumn !in ss
    ensures RunAll(sv, t, OnEach(n, ss) + rest) ==
      var c := ExecuteAll(sv, t.columns[n], ss); if c.None? then None else RunAll(sv, t.(columns := t.columns[n := c.value]), rest)
    decreases |ss|
  {
    var plan := OnEach(n, ss) + rest;
    if ss == [] {
      assert plan == rest && t.columns[n := t.columns[n]] == t.columns;
    } else {
      assert plan[0] == OnColumn(n, ss[0]) && plan[1..] == OnEach(n, ss[1..]) + rest;
      assert ss[0] != DropColumn && DropColumn !in ss[1..];
      var next := Execute(sv, t.columns[n], ss[0]);
      hide Execute;
      if next.Some? {
        var t1 := t.(columns := t.columns[n := next.value]);
        OnEachRuns(sv, t1, n, ss[1..], rest);
        var c := ExecuteAll(sv, next.value, ss[1..]);
        if c.Some? {
          assert t1.columns[n := c.value] == t.columns[n := c.value];
        }
      }
    }
  }

  lemma DropRuns(sv: Server, t: Table, n: string, rest: seq<TableStmt>)
    requires n in t.columns
    ensures RunAll(sv, t, OnEach(n, [DropColumn]) + rest) == RunAll(sv, t.(columns := t.columns - {n}), rest)
  {
    var plan := OnEach(n, [DropColumn]) + rest;
    assert OnEach(n, [DropColumn]) == [OnColumn(n, DropColumn)] by { assert OnEach(n, []) == []; }
    assert plan[0] == OnColumn(n, DropColumn) && plan[1..] == rest;
  }

  /** The columns behind one listed column's statements, if they run. */
  function Handled(sv: Server, keys: seq<string>, ds: seq<Declared>, e: Column, columns: map<string, Stored>): Option<map<string, Stored>>
    requires WellDeclared(ds) && e.name in columns
  {
    FirstDeclaredIs(ds, e.name);
    var d := FirstDeclared(ds, e.name);
    if d.None? then Some(columns - {e.name}) else
    var c := Round(sv, keys, d.value.column.value, columns[e.name]);
    if c.None? then None else Some(columns[e.name := c.value])
  }

  lemma HandledRuns(sv: Server, keys: seq<string>, ds: seq<Declared>, e: Column, t: Table, rest: seq<TableStmt>)
    requires WellDeclared(ds) && e.name in t.columns && e == Listed(sv, e.name, t.columns[e.name])
    ensures ColumnStatements(keys, ds, e).Ok?
    ensures RunAll(sv, t, OnEach(e.name, ColumnStatements(keys, ds, e).value) + rest) ==
      var h := Handled(sv, keys, ds, e, t.columns); if h.None? then None else RunAll(sv, t.(columns := h.value), rest)
  {
    FirstDeclaredIs(ds, e.name);
    hide RunAll, OnEach, AlterTo, ExecuteAll;
    var d := FirstDeclared(ds, e.name);
    if d.None? {
      DropRuns(sv, t, e.name, rest);
    } else {
      var k :| 0 <= k < |ds| && ds[k] == d.value;
      AlterNeverDrops(keys, d.value.column.value, e);
      OnEachRuns(sv, t, e.name, AlterTo(keys, d.value.column.value, e), rest);
    }
  }

  /** The columns behind all of them. */
  function HandledAll(sv: Server, keys: seq<string>, ds: seq<Declared>, listed: seq<Column>, columns: map<string, Stored>)
      : Option<map<string, Stored>>
    requires WellDeclared(ds)
    decreases |listed|
  {
    if listed == [] then Some(columns)
    else if listed[0].name !in columns then None
    else
      var h := Handled(sv, keys, ds, listed[0], columns);
      if h.None? then None else HandledAll(sv, keys, ds, listed[1..], h.value)
  }

  /** Every listed column is there as described, under a name of its own. */
  ghost predicate Covered(sv: Server, listed: seq<Column>, columns: map<string, Stored>) {
    && (forall i, j :: 0 <= i < j < |listed| ==> listed[i].name != listed[j].name)
    && (forall i :: 0 <= i < |listed| ==> listed[i].name in columns && listed[i] == Listed(sv, listed[i].name, columns[listed[i].name]))
  }

  lemma CoveredTail(sv: Server, keys: seq<string>, ds: seq<Declared>, listed: seq<Column>, columns: map<string, Stored>)
    requires WellDeclared(ds) && listed != [] && Covered(sv, listed, columns) && Handled(sv, keys, ds, listed[0], columns).Some?
    ensures Covered(sv, listed[1..], Handled(sv, keys, ds, listed[0], columns).value)
  {
    hide Round, WellDeclared, Listed;
    var r, h := listed[1..], Handled(sv, keys, ds, listed[0], columns).value;
    forall i | 0 <= i < |r|
      ensures r[i].name != listed[0].name && r[i].name in h && r[i] == Listed(sv, r[i].name, h[r[i].name])
    {
      assert r[i] == listed[i + 1];
    }
    forall i, j | 0 <= i < j < |r| ensures r[i].name != r[j].name {
      assert r[i] == listed[i + 1] && r[j] == listed[j + 1];
    }
  }

  lemma {:induction false} ExistingRuns(sv: Server, keys: seq<string>, ds: seq<Declared>, listed: seq<Column>, t: Table,
      rest: seq<TableStmt>)
    requires WellDeclared(ds) && Covered(sv, listed, t.columns)
    ensures ExistingPart(keys, ds, listed).Ok?
    ensures RunAll(sv, t, ExistingPart(keys, ds, listed).value + rest) ==
      var h := HandledAll(sv, keys, ds, listed, t.columns); if h.None? then None else RunAll(sv, t.(columns := h.value), rest)
    decreases |listed|
  {
    hide RunAll, ColumnStatements, OnEach, WellDeclared, Handled, Listed;
    if listed == [] {
      assert [] + rest == rest;
    } else {
      ExistingPlans(sv, keys, ds, listed);
      var e, more := listed[0], ExistingPart(keys, ds, listed[1..]).value;
      HandledRuns(sv, keys, ds, e, t, more + rest);
      Associative(OnEach(e.name, ColumnStatements(keys, ds, e).value), more, rest);
      var h := Handled(sv, keys, ds, e, t.columns);
      if h.Some? {
        CoveredTail(sv, keys, ds, listed, t.columns);
        ExistingRuns(sv, keys, ds, listed[1..], t.(columns := h.value), rest);
      }
    }
  }

  lemma {:induction false} ExistingPlans(sv: Server, keys: seq<string>, ds: seq<Declared>, listed: seq<Column>)
    requires WellDeclared(ds)
    ensures ExistingPart(keys, ds, listed).Ok?
    ensures listed != [] ==> ExistingPart(keys, ds, listed[1..]).Ok? && ColumnStatements(keys, ds, listed[0]).Ok?
    ensures listed != [] ==>
      ExistingPart(keys, ds, listed) ==
        Joined(OnEach(listed[0].name, ColumnStatements(keys, ds, listed[0]).value), ExistingPart(keys, ds, listed[1..]))
    decreases |listed|
  {
    hide ColumnStatements, OnEach;
    if listed != [] {
      DroppedIff(keys, ds, listed[0]);
      ExistingPlans(sv, keys, ds, listed[1..]);
    }
  }

  // ----- what the existing columns become ----------------------------------------------------------------

  /** The declaration of a name, if it has one. */
  function DeclaredAs(ds: seq<Declared>, n: string): (r: Option<Column>)
    requires WellDeclared(ds)
    ensures r.None? <==> forall i :: 0 <= i < |ds| ==> ds[i].name != n
    ensures r.Some? ==> r.value.name == n
  {
    FirstDeclaredIs(ds, n);
    var d := FirstDeclared(ds, n);
    if d.None? then None else Some(d.value.column.value)
  }

  lemma DeclaredAt(ds: seq<Declared>, i: nat)
    requires WellDeclared(ds) && i < |ds|
    ensures DeclaredAs(ds, ds[i].name) == Some(ds[i].column.value)
  {
    FirstDeclaredIs(ds, ds[i].name);
  }

  lemma HandledIs(sv: Server, keys: seq<string>, ds: seq<Declared>, e: Column, columns: map<string, Stored>)
    requires WellDeclared(ds) && e.name in columns
    ensures var d, h := DeclaredAs(ds, e.name), Handled(sv, keys, ds, e, columns);
      && (h.Some? <==> d.Some? ==> Round(sv, keys, d.value, columns[e.name]).Some?)
      && (h.Some? ==> forall n :: n != e.name ==> (n in h.value <==> n in columns) && (n in columns ==> h.value[n] == columns[n]))
      && (h.Some? ==> (e.name in h.value <==> d.Some?))
      && (h.Some? && d.Some? ==> Some(h.value[e.name]) == Round(sv, keys, d.value, columns[e.name]))
  {
    FirstDeclaredIs(ds, e.name);
    hide Round, WellDeclared;
  }

  /** Every name in turn: listed and declared, listed only, not listed. */
  lemma {:induction false} HandledAllIs(sv: Server, keys: seq<string>, ds: seq<Declared>, listed: seq<Column>, columns: map<string, Stored>)
    requires WellDeclared(ds) && Covered(sv, listed, columns)
    ensures var h := HandledAll(sv, keys, ds, listed, columns);
      && (h.Some? <==> forall n :: HasColumn(listed, n) && DeclaredAs(ds, n).Some? ==>
        Round(sv, keys, DeclaredAs(ds, n).value, columns[n]).Some?)
      && (h.Some? ==> forall n :: !HasColumn(listed, n) ==> (n in h.value <==> n in columns) && (n in columns ==> h.value[n] == columns[n]))
      && (h.Some? ==> forall n :: HasColumn(listed, n) ==> (n in h.value <==> DeclaredAs(ds, n).Some?))
      && (h.Some? ==> forall n :: HasColumn(listed, n) && DeclaredAs(ds, n).Some? ==>
        Some(h.value[n]) == Round(sv, keys, DeclaredAs(ds, n).value, columns[n]))
    decreases |listed|
  {
    hide Round, WellDeclared, Listed, DeclaredAs, Handled;
    if listed != [] {
      var e, r := listed[0], listed[1..];
      ColumnsListed(listed);
      HandledIs(sv, keys, ds, e, columns);
      var h := Handled(sv, keys, ds, e, columns);
      if h.Some? {
        CoveredTail(sv, keys, ds, listed, columns);
        HandledAllIs(sv, keys, ds, r, h.value);
        hide HasColumn;
      } else {
        assert HasColumn(listed, e.name);
      }
    }
  }

  lemma ColumnsListed(listed: seq<Column>)
    requires listed != []
    ensures forall n :: HasColumn(listed, n) <==> listed[0].name == n || HasColumn(listed[1..], n)
    ensures (forall i, j :: 0 <= i < j < |listed| ==> listed[i].name != listed[j].name) ==> !HasColumn(listed[1..], listed[0].name)
  {
    forall i | 0 <= i < |listed[1..]| ensures listed[1..][i] == listed[i + 1] {
    }
    forall n | HasColumn(listed, n) ensures listed[0].name == n || HasColumn(listed[1..], n) {
      var i :| 0 <= i < |listed| && listed[i].name == n;
      if i > 0 { assert listed[1..][i - 1].name == n; }
    }
    forall n | HasColumn(listed[1..], n) ensures HasColumn(listed, n) {
      var i :| 0 <= i < |listed[1..]| && listed[1..][i].name == n;
      assert listed[i + 1].name == n;
    }
  }

  // ----- the missing columns -----------------------------------------------------------------------------

  /** Nothing null in a column added as `not null`. */
  predicate Addable(sv: Server, d: Column, rows: nat) {
    var c := NewColumn(sv, d, rows);
    !(c.notNull && HasNull(c.rows))
  }

  /** The declared columns that were there before stay, the others are added. */
  ghost predicate WithNew(sv: Server, ds: seq<Declared>, t: Table, end: Table)
    requires WellDeclared(ds)
  {
    && end.rows == t.rows
    && (forall n :: n in end.columns <==> n in t.columns || DeclaredAs(ds, n).Some?)
    && (forall n :: n in t.columns ==> end.columns[n] == t.columns[n])
    && (forall n :: n !in t.columns && DeclaredAs(ds, n).Some? ==> end.columns[n] == NewColumn(sv, DeclaredAs(ds, n).value, t.rows))
  }

  lemma DeclaredTail(ds: seq<Declared>)
    requires ds != [] && WellDeclared(ds)
    ensures WellDeclared(ds[1..])
    ensures forall n :: DeclaredAs(ds, n) == if n == ds[0].name then Some(ds[0].column.value) else DeclaredAs(ds[1..], n)
    ensures DeclaredAs(ds[1..], ds[0].name).None?
  {
    var r := ds[1..];
    forall i | 0 <= i < |r| ensures r[i] == ds[i + 1] {
    }
  }

  ghost predicate AllAddable(sv: Server, ds: seq<Declared>, t: Table)
    requires WellDeclared(ds)
  {
    forall n :: n !in t.columns && DeclaredAs(ds, n).Some? ==> Addable(sv, DeclaredAs(ds, n).value, t.rows)
  }

  function WithColumn(sv: Server, t: Table, d: Column): Table {
    t.(columns := t.columns[d.name := NewColumn(sv, d, t.rows)])
  }

  lemma PresentStep(sv: Server, ds: seq<Declared>, t: Table)
    requires ds != [] && WellDeclared(ds) && ds[0].name in t.columns
    ensures WellDeclared(ds[1..]) && (AllAddable(sv, ds[1..], t) <==> AllAddable(sv, ds, t))
    ensures forall end :: WithNew(sv, ds[1..], t, end) ==> WithNew(sv, ds, t, end)
  {
    DeclaredTail(ds);
    hide DeclaredAs, NewColumn, Addable, WellDeclared;
  }

  lemma MissingStep(sv: Server, ds: seq<Declared>, t: Table)
    requires ds != [] && WellDeclared(ds) && ds[0].name !in t.columns
    ensures WellDeclared(ds[1..])
    ensures var t1 := WithColumn(sv, t, ds[0].column.value);
      && (Addable(sv, ds[0].column.value, t.rows) && AllAddable(sv, ds[1..], t1) <==> AllAddable(sv, ds, t))
      && forall end :: WithNew(sv, ds[1..], t1, end) ==> WithNew(sv, ds, t, end)
  {
    DeclaredTail(ds);
    var d := ds[0].column.value;
    assert d.name == ds[0].name;
    var t1 := WithColumn(sv, t, d);
    hide DeclaredAs, NewColumn, Addable, WellDeclared;
    assert DeclaredAs(ds, d.name) == Some(d);
    if Addable(sv, d, t.rows) && AllAddable(sv, ds[1..], t1) {
      forall n | n !in t.columns && DeclaredAs(ds, n).Some? ensures Addable(sv, DeclaredAs(ds, n).value, t.rows) {
        if n != d.name { assert n !in t1.columns; }
      }
    }
    if AllAddable(sv, ds, t) {
      forall n | n !in t1.columns && DeclaredAs(ds[1..], n).Some? ensures Addable(sv, DeclaredAs(ds[1..], n).value, t1.rows) {
        assert n !in t.columns;
      }
    }
  }

  lemma AddRuns(sv: Server, t: Table, d: Column, more: seq<TableStmt>)
    requires d.name !in t.columns
    ensures RunAll(sv, t, [AddColumn(d)] + more) == if Addable(sv, d, t.rows) then RunAll(sv, WithColumn(sv, t, d), more) else None
  {
    hide NewColumn;
    assert ([AddColumn(d)] + more)[1..] == more;
  }

  lemma {:induction false} NewRuns(sv: Server, ds: seq<Declared>, listed: seq<Column>, t: Table)
    requires WellDeclared(ds) && forall i :: 0 <= i < |ds| ==> (HasColumn(listed, ds[i].name) <==> ds[i].name in t.columns)
    ensures NewPart(ds, listed).Ok?
    ensures var end := RunAll(sv, t, NewPart(ds, listed).value);
      && (end.Some? <==> AllAddable(sv, ds, t))
      && (end.Some? ==> WithNew(sv, ds, t, end.value))
    decreases |ds|
  {
    hide HasColumn, RunOne, NewColumn, Addable;
    if ds == [] {
    } else {
      var d, r := ds[0], ds[1..];
      assert d.column.Ok? && d.column.value.name == d.name;
      assert forall i :: 0 <= i < |r| ==> r[i] == ds[i + 1] && r[i].name != d.name;
      hide AllAddable, WithNew, RunAll, WellDeclared;
      if HasColumn(listed, d.name) {
        PresentStep(sv, ds, t);
        NewRuns(sv, r, listed, t);
      } else {
        var col := d.column.value;
        MissingStep(sv, ds, t);
        NewRuns(sv, r, listed, WithColumn(sv, t, col));
        AddRuns(sv, t, col, NewPart(r, listed).value);
      }
    }
  }

  // ----- one round of the whole table ----------------------------------------------------------------------

  /** Every declared column can be altered or added. */
  ghost predicate RoundPossible(sv: Server, keys: seq<string>, ds: seq<Declared>, t: Table) {
    forall i :: 0 <= i < |ds| && ds[i].column.Ok? ==>
      var n, d := ds[i].name, ds[i].column.value;
      if n in t.columns then Round(sv, keys, d, t.columns[n]).Some? else Addable(sv, d, t.rows)
  }

  /** Exactly the declared columns: those that were there one round on, the others new. */
  ghost predicate RoundOf(sv: Server, keys: seq<string>, ds: seq<Declared>, t: Table, end: Table) {
    && end.rows == t.rows
    && (forall n :: n in end.columns <==> exists i :: 0 <= i < |ds| && ds[i].name == n)
    && (forall i :: 0 <= i < |ds| && ds[i].column.Ok? && ds[i].name in end.columns ==>
      var n, d := ds[i].name, ds[i].column.value;
      if n in t.columns then Round(sv, keys, d, t.columns[n]) == Some(end.columns[n]) else end.columns[n] == NewColumn(sv, d, t.rows))
  }

  /**
   The statements for a table run exactly if every declared column can be altered or added. They
   then leave exactly the declared columns, dropping every other, and act on each as if it stood alone.
   */
  lemma TableRound(sv: Server, keys: seq<string>, ds: seq<Declared>, listed: seq<Column>, t: Table)
    requires WellDeclared(ds) && Describes(sv, listed, t.columns)
    ensures TableColumns(keys, ds, listed).Ok?
    ensures var end := RunAll(sv, t, TableColumns(keys, ds, listed).value);
      && (end.Some? <==> RoundPossible(sv, keys, ds, t))
      && (end.Some? ==> RoundOf(sv, keys, ds, t, end.value))
  {
    var h := HandledAll(sv, keys, ds, listed, t.columns);
    var mid := t.(columns := if h.Some? then h.value else map[]);
    assert Covered(sv, listed, t.columns);
    hide *;
    ExistingPlans(sv, keys, ds, listed);
    ListedIsHandled(sv, keys, ds, listed, t);
    PossibleIff(sv, keys, ds, t, h);
    NewPlans(ds, listed);
    PartsOf(keys, ds, listed);
    ExistingRuns(sv, keys, ds, listed, t, NewPart(ds, listed).value);
    if h.Some? {
      PresentIffHandled(sv, keys, ds, listed, t, h);
      NewRuns(sv, ds, listed, mid);
      var end := RunAll(sv, mid, NewPart(ds, listed).value);
      if end.Some? {
        RoundIs(sv, keys, ds, t, h, end.value);
      }
    }
  }

  lemma PartsOf(keys: seq<string>, ds: seq<Declared>, listed: seq<Column>)
    requires ExistingPart(keys, ds, listed).Ok? && NewPart(ds, listed).Ok?
    ensures TableColumns(keys, ds, listed) == Ok(ExistingPart(keys, ds, listed).value + NewPart(ds, listed).value)
  {
    hide ExistingPart, NewPart;
  }

  lemma ListedIsHandled(sv: Server, keys: seq<string>, ds: seq<Declared>, listed: seq<Column>, t: Table)
    requires WellDeclared(ds) && Describes(sv, listed, t.columns)
    ensures HandledTo(sv, keys, ds, t, HandledAll(sv, keys, ds, listed, t.columns))
  {
    assert Covered(sv, listed, t.columns);
    assert forall n :: HasColumn(listed, n) <==> n in t.columns;
    hide Round, Describes, Covered, HasColumn, HandledAll, DeclaredAs, WellDeclared;
    HandledAllIs(sv, keys, ds, listed, t.columns);
  }

  lemma PresentIffHandled(sv: Server, keys: seq<string>, ds: seq<Declared>, listed: seq<Column>, t: Table, h: Option<map<string, Stored>>)
    requires WellDeclared(ds) && Describes(sv, listed, t.columns) && HandledTo(sv, keys, ds, t, h) && h.Some?
    ensures forall i :: 0 <= i < |ds| ==> (HasColumn(listed, ds[i].name) <==> ds[i].name in h.value)
  {
    assert forall n :: HasColumn(listed, n) <==> n in t.columns;
    forall i | 0 <= i < |ds| ensures DeclaredAs(ds, ds[i].name).Some? {
      DeclaredAt(ds, i);
    }
    hide Round, Describes, HasColumn, DeclaredAs, WellDeclared;
  }

  lemma {:induction false} NewPlans(ds: seq<Declared>, listed: seq<Column>)
    requires WellDeclared(ds)
    ensures NewPart(ds, listed).Ok?
  {
    if ds != [] {
      DeclaredTail(ds);
      NewPlans(ds[1..], listed);
    }
  }

  /** What handling the listed columns leaves, or why it stops. */
  ghost predicate HandledTo(sv: Server, keys: seq<string>, ds: seq<Declared>, t: Table, h: Option<map<string, Stored>>)
    requires WellDeclared(ds)
  {
    && (h.Some? <==> forall n :: n in t.columns && DeclaredAs(ds, n).Some? ==> Round(sv, keys, DeclaredAs(ds, n).value, t.columns[n]).Some?)
    && (h.Some? ==> forall n :: n in h.value <==> n in t.columns && DeclaredAs(ds, n).Some?)
    && (h.Some? ==> forall n :: n in h.value ==> Some(h.value[n]) == Round(sv, keys, DeclaredAs(ds, n).value, t.columns[n]))
  }

  lemma PossibleIff(sv: Server, keys: seq<string>, ds: seq<Declared>, t: Table, h: Option<map<string, Stored>>)
    requires WellDeclared(ds) && HandledTo(sv, keys, ds, t, h)
    ensures RoundPossible(sv, keys, ds, t) <==> h.Some? && AllAddable(sv, ds, t.(columns := h.value))
  {
    forall i | 0 <= i < |ds| ensures DeclaredAs(ds, ds[i].name) == Some(ds[i].column.value) {
      DeclaredAt(ds, i);
    }
    assert forall i :: 0 <= i < |ds| ==> ds[i].column.Ok?;
    hide Round, NewColumn, Addable, DeclaredAs, WellDeclared;
    if RoundPossible(sv, keys, ds, t) {
      forall n | n in t.columns && DeclaredAs(ds, n).Some? ensures Round(sv, keys, DeclaredAs(ds, n).value, t.columns[n]).Some? {
        var i :| 0 <= i < |ds| && ds[i].name == n;
      }
      assert h.Some?;
      forall n | n !in h.value && DeclaredAs(ds, n).Some? ensures Addable(sv, DeclaredAs(ds, n).value, t.rows) {
        var i :| 0 <= i < |ds| && ds[i].name == n;
      }
    }
    if h.Some? && AllAddable(sv, ds, t.(columns := h.value)) {
      forall i | 0 <= i < |ds|
        ensures var n, d := ds[i].name, ds[i].column.value;
          if n in t.columns then Round(sv, keys, d, t.columns[n]).Some? else Addable(sv, d, t.rows)
      {
        assert DeclaredAs(ds, ds[i].name).Some?;
      }
    }
  }

  lemma RoundIs(sv: Server, keys: seq<string>, ds: seq<Declared>, t: Table, h: Option<map<string, Stored>>, end: Table)
    requires WellDeclared(ds) && HandledTo(sv, keys, ds, t, h) && h.Some? && WithNew(sv, ds, t.(columns := h.value), end)
    ensures RoundOf(sv, keys, ds, t, end)
  {
    forall i | 0 <= i < |ds| ensures DeclaredAs(ds, ds[i].name) == Some(ds[i].column.value) {
      DeclaredAt(ds, i);
    }
    hide Round, NewColumn, DeclaredAs, WellDeclared;
    forall n ensures n in end.columns <==> exists i :: 0 <= i < |ds| && ds[i].name == n {
      assert n in end.columns <==> DeclaredAs(ds, n).Some?;
    }
  }

  // ----- rounds of the whole table ---------------------------------------------------------------------------

  /** After `k` more rounds every declared column is settled. */
  ghost predicate GoodFor(sv: Server, keys: seq<string>, ds: seq<Declared>, t: Table, k: nat) {
    forall i :: 0 <= i < |ds| && ds[i].column.Ok? ==>
      var n, d := ds[i].name, ds[i].column.value;
      if n in t.columns then
        var r := Rounds(sv, keys, d, t.columns[n], k);
        r.Some? && Settled(sv, keys, d, r.value)
      else k > 0 && Addable(sv, d, t.rows) && Settled(sv, keys, d, NewColumn(sv, d, t.rows))
  }

  lemma GoodRound(sv: Server, keys: seq<string>, ds: seq<Declared>, t: Table, k: nat)
    requires WellDeclared(ds) && GoodFor(sv, keys, ds, t, k) && k > 0
    ensures RoundPossible(sv, keys, ds, t)
    ensures forall end :: RoundOf(sv, keys, ds, t, end) ==> GoodFor(sv, keys, ds, end, k - 1)
  {
    hide Round, Settled, NewColumn, Addable, Rounds;
    forall i | 0 <= i < |ds| && ds[i].name in t.columns
      ensures var d, c := ds[i].column.value, t.columns[ds[i].name]; var r := Round(sv, keys, d, c);
        r.Some? && Rounds(sv, keys, d, c, k) == Rounds(sv, keys, d, r.value, k - 1)
    {
      RoundsStart(sv, keys, ds[i].column.value, t.columns[ds[i].name], k);
    }
    forall i | 0 <= i < |ds| && ds[i].name !in t.columns
      ensures var d := ds[i].column.value; var c := NewColumn(sv, d, t.rows); Rounds(sv, keys, d, c, k - 1) == Some(c)
    {
      SettledStays(sv, keys, ds[i].column.value, NewColumn(sv, ds[i].column.value, t.rows), k - 1);
    }
    forall end | RoundOf(sv, keys, ds, t, end) ensures GoodFor(sv, keys, ds, end, k - 1) {
      forall i | 0 <= i < |ds| ensures ds[i].name in end.columns {
      }
    }
  }

  /** The columns can be filled and are not hopeless; missing ones can be added and their defaults are listed as declared. */
  ghost predicate AllGood(sv: Server, keys: seq<string>, ds: seq<Declared>, t: Table) {
    forall i :: 0 <= i < |ds| && ds[i].column.Ok? ==>
      var n, d := ds[i].name, ds[i].column.value;
      Faithful(sv, d) &&
      if n in t.columns then
        Sound(sv, t.columns[n]) && Fillable(sv, d, t.columns[n]) && !Hopeless(sv, keys, d, Tightened(sv, d, t.columns[n]))
      else Addable(sv, d, t.rows) && (AutoNumbered(d.dataType) || WrittenMet(sv, d))
  }

  lemma NewIsSettled(sv: Server, keys: seq<string>, d: Column, rows: nat)
    requires Faithful(sv, d) && (AutoNumbered(d.dataType) || WrittenMet(sv, d))
    ensures Settled(sv, keys, d, NewColumn(sv, d, rows))
  {
    var c := NewColumn(sv, d, rows);
    SettledIff(sv, keys, d, c);
    assert c.dataType == sv.typeName(d.dataType) && c.isArray == d.isArray && c.notNull == IsTrue(d.notNull);
    assert c.dflt == if d.dflt.None? then None else Some(Written(d));
    hide Settled, SameType, NewColumn, FormatColumnDefault;
  }

  lemma GoodIsSettledInThree(sv: Server, keys: seq<string>, ds: seq<Declared>, t: Table)
    requires WellDeclared(ds) && AllGood(sv, keys, ds, t)
    ensures GoodFor(sv, keys, ds, t, 3)
  {
    hide Faithful, Sound, Fillable, Hopeless, Tightened, AutoNumbered, WrittenMet, Addable, Settled, NewColumn, Rounds;
    forall i | 0 <= i < |ds|
      ensures var n, d := ds[i].name, ds[i].column.value;
        if n in t.columns then
          var r := Rounds(sv, keys, d, t.columns[n], 3);
          r.Some? && Settled(sv, keys, d, r.value)
        else Addable(sv, d, t.rows) && Settled(sv, keys, d, NewColumn(sv, d, t.rows))
    {
      var n, d := ds[i].name, ds[i].column.value;
      if n in t.columns {
        GoodSettles(sv, keys, d, t.columns[n]);
      } else {
        NewIsSettled(sv, keys, d, t.rows);
      }
    }
  }

  /** Rounds of the whole table, each planned from the listing it is given. */
  function TableRounds(sv: Server, keys: seq<string>, ds: seq<Declared>, t: Table, listings: seq<seq<Column>>): Option<Table>
    decreases |listings|
  {
    if listings == [] then Some(t) else
    var plan := TableColumns(keys, ds, listings[0]);
    if plan.Err? then None else
    var next := RunAll(sv, t, plan.value);
    if next.None? then None else TableRounds(sv, keys, ds, next.value, listings[1..])
  }

  /** Every listing describes the table it is taken from. */
  ghost predicate ListedEachTime(sv: Server, keys: seq<string>, ds: seq<Declared>, t: Table, listings: seq<seq<Column>>)
    decreases |listings|
  {
    listings == [] ||
    (Describes(sv, listings[0], t.columns) &&
    var plan := TableColumns(keys, ds, listings[0]);
    plan.Ok? ==> var next := RunAll(sv, t, plan.value); next.Some? ==> ListedEachTime(sv, keys, ds, next.value, listings[1..]))
  }

  lemma {:induction false} GoodRounds(sv: Server, keys: seq<string>, ds: seq<Declared>, t: Table, listings: seq<seq<Column>>)
    requires WellDeclared(ds) && GoodFor(sv, keys, ds, t, |listings|) && ListedEachTime(sv, keys, ds, t, listings)
    ensures var end := TableRounds(sv, keys, ds, t, listings);
      && end.Some? && GoodFor(sv, keys, ds, end.value, 0)
      && (listings != [] ==> forall n :: n in end.value.columns <==> exists i :: 0 <= i < |ds| && ds[i].name == n)
    decreases |listings|
  {
    hide WellDeclared, GoodFor, Describes, TableColumns, RunAll, RoundPossible;
    if listings != [] {
      TableRound(sv, keys, ds, listings[0], t);
      GoodRound(sv, keys, ds, t, |listings|);
      var next := RunAll(sv, t, TableColumns(keys, ds, listings[0]).value).value;
      GoodRounds(sv, keys, ds, next, listings[1..]);
    }
  }

  lemma {:induction false} SettledPlansNothing(sv: Server, keys: seq<string>, ds: seq<Declared>, listed: seq<Column>,
      columns: map<string, Stored>)
    requires WellDeclared(ds) && Covered(sv, listed, columns)
    requires forall n :: HasColumn(listed, n) ==> DeclaredAs(ds, n).Some? && Settled(sv, keys, DeclaredAs(ds, n).value, columns[n])
    ensures ExistingPart(keys, ds, listed) == Ok([])
    decreases |listed|
  {
    if listed != [] {
      var e := listed[0];
      ColumnsListed(listed);
      assert HasColumn(listed, e.name);
      FirstDeclaredIs(ds, e.name);
      hide AlterTo, Listed, HasColumn;
      assert Covered(sv, listed[1..], columns) by { assert forall i :: 0 <= i < |listed[1..]| ==> listed[1..][i] == listed[i + 1]; }
      SettledPlansNothing(sv, keys, ds, listed[1..], columns);
      assert ColumnStatements(keys, ds, e) == Ok([]);
      assert OnEach(e.name, []) == [];
      JoinedNothing(Ok([]));
    }
  }

  lemma {:induction false} NothingNew(ds: seq<Declared>, listed: seq<Column>)
    requires forall i :: 0 <= i < |ds| ==> HasColumn(listed, ds[i].name)
    ensures NewPart(ds, listed) == Ok([])
  {
    hide HasColumn;
    if ds != [] {
      NothingNew(ds[1..], listed);
    }
  }

  lemma GoodPlansNothing(sv: Server, keys: seq<string>, ds: seq<Declared>, t: Table, listed: seq<Column>)
    requires WellDeclared(ds) && GoodFor(sv, keys, ds, t, 0) && Describes(sv, listed, t.columns)
    requires forall n :: n in t.columns <==> exists i :: 0 <= i < |ds| && ds[i].name == n
    ensures TableColumns(keys, ds, listed) == Ok([])
  {
    hide Settled, ExistingPart, NewPart, NewColumn, Addable, DeclaredAs;
    assert Covered(sv, listed, t.columns);
    forall n | HasColumn(listed, n) ensures DeclaredAs(ds, n).Some? && Settled(sv, keys, DeclaredAs(ds, n).value, t.columns[n]) {
      assert n in t.columns;
      var i :| 0 <= i < |ds| && ds[i].name == n;
      DeclaredAt(ds, i);
      SettledNow(sv, keys, ds, t, i);
    }
    forall i | 0 <= i < |ds| ensures HasColumn(listed, ds[i].name) {
      assert ds[i].name in t.columns;
    }
    hide Describes, Covered, HasColumn, GoodFor, WellDeclared;
    SettledPlansNothing(sv, keys, ds, listed, t.columns);
    NothingNew(ds, listed);
    JoinedNothing(Ok([]));
  }

  lemma SettledNow(sv: Server, keys: seq<string>, ds: seq<Declared>, t: Table, i: nat)
    requires WellDeclared(ds) && GoodFor(sv, keys, ds, t, 0) && i < |ds| && ds[i].name in t.columns
    ensures Settled(sv, keys, ds[i].column.value, t.columns[ds[i].name])
  {
    hide Settled;
  }

  /** Every declared column is there and as declared, or exempt; no other column is. */
  ghost predicate ColumnsAsDeclared(sv: Server, keys: seq<string>, ds: seq<Declared>, t: Table) {
    && (forall n :: n in t.columns <==> exists i :: 0 <= i < |ds| && ds[i].name == n)
    && (forall i :: 0 <= i < |ds| && ds[i].column.Ok? && ds[i].name in t.columns ==>
      Met(sv, ds[i].column.value, t.columns[ds[i].name]) || Exempt(sv, keys, ds[i].column.value, t.columns[ds[i].name]))
  }

  /**
   Three rounds run, from whatever listing each is planned, and leave exactly the declared columns,
   each as declared; every listing of where they end plans nothing.
   */
  lemma ThreeRoundsSettle(sv: Server, keys: seq<string>, ds: seq<Declared>, t: Table, listings: seq<seq<Column>>)
    requires WellDeclared(ds) && AllGood(sv, keys, ds, t) && |listings| == 3 && ListedEachTime(sv, keys, ds, t, listings)
    ensures var end := TableRounds(sv, keys, ds, t, listings);
      && end.Some? && ColumnsAsDeclared(sv, keys, ds, end.value)
      && forall listed :: Describes(sv, listed, end.value.columns) ==> TableColumns(keys, ds, listed) == Ok([])
  {
    hide AllGood, GoodFor, ListedEachTime, TableRounds, Describes, TableColumns, Met, Exempt, Settled, WellDeclared;
    GoodIsSettledInThree(sv, keys, ds, t);
    GoodRounds(sv, keys, ds, t, listings);
    var end := TableRounds(sv, keys, ds, t, listings).value;
    forall i | 0 <= i < |ds| && ds[i].column.Ok? && ds[i].name in end.columns
      ensures Met(sv, ds[i].column.value, end.columns[ds[i].name]) || Exempt(sv, keys, ds[i].column.value, end.columns[ds[i].name])
    {
      SettledNow(sv, keys, ds, end, i);
      SettledIff(sv, keys, ds[i].column.value, end.columns[ds[i].name]);
    }
    forall listed | Describes(sv, listed, end.columns) ensures TableColumns(keys, ds, listed) == Ok([]) {
      GoodPlansNothing(sv, keys, ds, end, listed);
    }
  }

  // ----- the order of the statements -------------------------------------------------------------------------

  lemma {:induction false} OnEachIsOnColumn(n: string, ss: seq<ColumnStmt>)
    ensures forall i :: 0 <= i < |OnEach(n, ss)| ==> OnEach(n, ss)[i].OnColumn?
  {
    if ss != [] {
      OnEachIsOnColumn(n, ss[1..]);
    }
  }

  lemma {:induction false} ExistingIsOnColumn(keys: seq<string>, ds: seq<Declared>, listed: seq<Column>)
    ensures var r := ExistingPart(keys, ds, listed); r.Ok? ==> forall i :: 0 <= i < |r.value| ==> r.value[i].OnColumn?
    decreases |listed|
  {
    hide ColumnStatements;
    if listed != [] {
      ExistingIsOnColumn(keys, ds, listed[1..]);
      var ss, more := ColumnStatements(keys, ds, listed[0]), ExistingPart(keys, ds, listed[1..]);
      if ss.Ok? && more.Ok? {
        OnEachIsOnColumn(listed[0].name, ss.value);
        assert ExistingPart(keys, ds, listed).value == OnEach(listed[0].name, ss.value) + more.value;
      }
    }
  }

  lemma {:induction false} NewIsAdded(ds: seq<Declared>, listed: seq<Column>)
    ensures var r := NewPart(ds, listed); r.Ok? ==> forall i :: 0 <= i < |r.value| ==> r.value[i].AddColumn?
  {
    hide HasColumn;
    if ds != [] {
      NewIsAdded(ds[1..], listed);
    }
  }

  /** What exists is altered or dropped before anything is added. */
  lemma AddsComeLast(keys: seq<string>, ds: seq<Declared>, listed: seq<Column>)
    ensures var r := TableColumns(keys, ds, listed);
      r.Ok? ==> forall i, j :: 0 <= i < j < |r.value| && r.value[i].AddColumn? ==> r.value[j].AddColumn?
  {
    ExistingIsOnColumn(keys, ds, listed);
    NewIsAdded(ds, listed);
    hide ExistingPart, NewPart;
  }
}
