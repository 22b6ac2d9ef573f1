/** Altering one PostgreSQL column towards its declaration, over whatever rows the table holds. */
module PostgresColumns {
  import opened Options
  import opened Collections
  import opened Text
  import opened Canonical

  // ----- default expressions -------------------------------------------------------------------

  /** A quoted literal from `i` to `j` with a cast behind it, on one line. */
  predicate CastLiteral(s: string, i: nat, j: nat) {
    && i < j < |s| - 3 && s[i] == '\'' && s[j] == '\'' && s[j + 1] == ':' && s[j + 2] == ':' && s[j + 3] != '\n'
    && forall k :: i < k < j ==> s[k] != '\n'
  }

  /** The last end below `n` of a cast literal that starts at `i`. */
  function LastEnd(s: string, i: nat, n: nat): (r: int)
    ensures r == -1 || (0 <= r < n && CastLiteral(s, i, r))
    ensures forall j :: r < j < n ==> !CastLiteral(s, i, j)
  {
    if n == 0 then -1 else if CastLiteral(s, i, n - 1) then n - 1 else LastEnd(s, i, n - 1)
  }

  function StripOidFrom(s: string, i: nat): string
    decreases |s| - i
  {
    if i >= |s| then s
    else if LastEnd(s, i, |s|) >= 0 then s[i..LastEnd(s, i, |s|) + 1]
    else StripOidFrom(s, i + 1)
  }

  /** Keeps the first cast literal only, without the cast; any other text as it is. */
  function StripOidClass(s: string): string {
    StripOidFrom(s, 0)
  }

  function FormatColumnDefault(raw: string): string {
    var value := StripOidClass(raw);
    if "'" <= value || '(' in value then value else "'" + value + "'"
  }

  lemma {:induction false} NoCastFrom(s: string, i: nat)
    requires !Contains(s, "'::")
    ensures StripOidFrom(s, i) == s
    decreases |s| - i
  {
    if i < |s| {
      var j := LastEnd(s, i, |s|);
      if j >= 0 {
        assert s[j..j + 3] == "'::";
        assert MatchAt(s, "'::", j);
        assert false;
      }
      NoCastFrom(s, i + 1);
    }
  }

  /** The default is written as it is stored: a quoted literal or a call, without a cast literal. */
  predicate LiteralOrCall(d: string) {
    ("'" <= d || '(' in d) && !Contains(d, "'::")
  }

  lemma WrittenAsDeclared(d: string)
    requires LiteralOrCall(d)
    ensures FormatColumnDefault(d) == d
  {
    NoCastFrom(d, 0);
  }

  /** The catalog's cast behind a literal is dropped again when the column is listed. */
  lemma ListedLiteral(x: string, t: string)
    requires t != "" && '\n' !in x && '\'' !in t && t[0] != '\n'
    ensures StripOidClass("'" + x + "'" + "::" + t) == "'" + x + "'"
  {
    var s := "'" + x + "'" + "::" + t;
    var j := |x| + 1;
    assert CastLiteral(s, 0, j) by {
      assert s[j] == '\'' && s[j + 1] == ':' && s[j + 2] == ':' && s[j + 3] == t[0];
      forall k | 0 < k < j ensures s[k] != '\n' {
        assert s[k] == x[k - 1];
      }
    }
    forall k | j < k < |s| ensures !CastLiteral(s, 0, k) {
      if k >= j + 3 {
        assert s[k] == t[k - j - 3];
      }
    }
    var r := LastEnd(s, 0, |s|);
    assert r == j;
    assert s[0..j + 1] == "'" + x + "'";
  }

  // ----- columns ---------------------------------------------------------------------------------

  /** A column as declared or as listed; an absent constraint is `None`. */
  datatype Column = Column(name: string, dataType: string, isArray: bool, dflt: Option<string>, notNull: Option<bool>)

  predicate DefaultsEqual(a: Option<string>, b: Option<string>) {
    if a.None? || b.None? then a == b else Canonicalize(a.value) == Canonicalize(b.value)
  }

  /** The names PostgreSQL reports for types declared in short. */
  function TypeName(t: string): string {
    if t == "timestamp" then "timestamp without time zone"
    else if t == "time" then "time without time zone"
    else t
  }

  predicate ColumnsMatch(a: Column, b: Column) {
    && TypeName(a.dataType) == TypeName(b.dataType) && a.isArray == b.isArray
    && DefaultsEqual(a.dflt, b.dflt) && (IsTrue(a.notNull) <==> IsTrue(b.notNull))
  }

  datatype Change = ToType(t: string) | ToArrayOf(t: string) | NewDefault(text: string) | NoDefault | Nullable

  datatype ColumnStmt = SetDefault(text: string) | Backfill(text: string) | SetNotNull | Alter(changes: seq<Change>) | DropColumn

  predicate Serial(t: string) {
    t == "serial" || t == "bigserial"
  }

  function Tightening(d: Column, e: Column): seq<ColumnStmt> {
    (if d.dflt.Some? && !DefaultsEqual(e.dflt, d.dflt) then [SetDefault(FormatColumnDefault(d.dflt.value))] else [])
    + (if d.dflt.Some? then [Backfill(FormatColumnDefault(d.dflt.value))] else []) + [SetNotNull]
  }

  function TypeChanges(d: Column, e: Column): seq<Change> {
    if e.dataType != d.dataType then [ToType(d.dataType)] else if d.isArray != e.isArray then [ToArrayOf(d.dataType)] else []
  }

  function DefaultChanges(d: Column, e: Column): seq<Change> {
    if d.dflt.Some? then (if DefaultsEqual(e.dflt, d.dflt) then [] else [NewDefault(FormatColumnDefault(d.dflt.value))])
    else if e.dflt.Some? then [NoDefault]
    else []
  }

  function NullChanges(keys: seq<string>, d: Column, e: Column): seq<Change> {
    if d.name !in keys && IsTrue(e.notNull) && !IsTrue(d.notNull) then [Nullable] else []
  }

  function Changes(keys: seq<string>, d: Column, e: Column): seq<Change> {
    if Serial(d.dataType) then [] else TypeChanges(d, e) + DefaultChanges(d, e) + NullChanges(keys, d, e)
  }

  /** The statements that bring the existing column to the declared one. */
  function AlterTo(keys: seq<string>, d: Column, e: Column): seq<ColumnStmt> {
    if ColumnsMatch(e, d) then []
    else if IsTrue(d.notNull) && !IsTrue(e.notNull) then Tightening(d, e)
    else if Changes(keys, d, e) == [] then []
    else [Alter(Changes(keys, d, e))]
  }

  /** A declared column: its name, and its converted form or why its type cannot be parsed. */
  datatype Declared = Declared(name: string, column: Result<Column>)

  function FirstDeclared(ds: seq<Declared>, name: string): Option<Declared> {
    if ds == [] then None else if ds[0].name == name then Some(ds[0]) else FirstDeclared(ds[1..], name)
  }

  function ColumnStatements(keys: seq<string>, ds: seq<Declared>, e: Column): Result<seq<ColumnStmt>> {
    match FirstDeclared(ds, e.name)
    case None => Ok([DropColumn])
    case Some(d) => if d.column.Err? then Err(d.column.error) else Ok(AlterTo(keys, d.column.value, e))
  }

  method ColumnChanges(keys: seq<string>, d: Column, e: Column) returns (changes: seq<Change>)
    ensures changes == Changes(keys, d, e)
  {
    hide DefaultsEqual, FormatColumnDefault;
    changes := [];
    if d.dataType != "serial" && d.dataType != "bigserial" {
      if e.dataType != d.dataType {
        changes := changes + [ToType(d.dataType)];
      } else if d.isArray != e.isArray {
        changes := changes + [ToArrayOf(d.dataType)];
      }
      if d.dflt.Some? {
        if !DefaultsEqual(e.dflt, d.dflt) {
          changes := changes + [NewDefault(FormatColumnDefault(d.dflt.value))];
        }
      } else if e.dflt.Some? {
        changes := changes + [NoDefault];
      }
      assert changes == TypeChanges(d, e) + DefaultChanges(d, e);
      var isPrimaryKey := false;
      for i := 0 to |keys|
        invariant isPrimaryKey == (d.name in keys[..i])
      {
        if d.name == keys[i] {
          isPrimaryKey := true;
        }
      }
      assert keys[..|keys|] == keys;
      if !isPrimaryKey && IsTrue(e.notNull) && !IsTrue(d.notNull) {
        changes := changes + [Nullable];
      }
    }
  }

  method AlterColumnStatements(keys: seq<string>, ds: seq<Declared>, e: Column) returns (r: Result<seq<ColumnStmt>>)
    ensures r == ColumnStatements(keys, ds, e)
  {
    hide DefaultsEqual, FormatColumnDefault, Changes;
    assert ds[0..] == ds;
    for i := 0 to |ds|
      invariant FirstDeclared(ds, e.name) == FirstDeclared(ds[i..], e.name)
    {
      assert ds[i..][1..] == ds[i + 1..];
      if ds[i].name == e.name {
        if ds[i].column.Err? {
          return Err(ds[i].column.error);
        }
        var d := ds[i].column.value;
        if ColumnsMatch(e, d) {
          return Ok([]);
        }
        if IsTrue(d.notNull) && !IsTrue(e.notNull) {
          var statements: seq<ColumnStmt> := [];
          if d.dflt.Some? && !DefaultsEqual(e.dflt, d.dflt) {
            statements := statements + [SetDefault(FormatColumnDefault(d.dflt.value))];
          }
          if d.dflt.Some? {
            statements := statements + [Backfill(FormatColumnDefault(d.dflt.value))];
          }
          statements := statements + [SetNotNull];
          assert statements == Tightening(d, e);
          return Ok(statements);
        }
        var changes := ColumnChanges(keys, d, e);
        if |changes| == 0 {
          return Ok([]);
        }
        return Ok([Alter(changes)]);
      }
    }
    assert ds[|ds|..] == [];
    return Ok([DropColumn]);
  }

  // ----- running the statements -------------------------------------------------------------------

  /** The column in the database with its value in every row. */
  datatype Stored = Stored(dataType: string, isArray: bool, dflt: Option<string>, notNull: bool, rows: seq<Option<string>>)

  /** How the server names a type, prints a default, evaluates it, and numbers the rows of a serial column. */
  datatype Server = Server(typeName: string -> string, listed: string -> string, value: string -> Option<string>, number: nat -> string)

  /** A plain type makes the column a scalar, whatever it was. */
  function MakeChange(sv: Server, c: Stored, change: Change): Stored {
    match change
    case ToType(t) => c.(dataType := sv.typeName(t), isArray := false)
    case ToArrayOf(t) => c.(dataType := sv.typeName(t), isArray := true)
    case NewDefault(x) => c.(dflt := Some(x))
    case NoDefault => c.(dflt := None)
    case Nullable => c.(notNull := false)
  }

  function MakeChanges(sv: Server, c: Stored, changes: seq<Change>): Stored
    decreases |changes|
  {
    if changes == [] then c else MakeChanges(sv, MakeChange(sv, c, changes[0]), changes[1..])
  }

  /** `set not null` needs every row filled; a dropped column is gone. */
  function Execute(sv: Server, c: Stored, s: ColumnStmt): Option<Stored> {
    match s
    case SetDefault(x) => Some(c.(dflt := Some(x)))
    case Backfill(x) => Some(c.(rows := Filled(c.rows, sv.value(x))))
    case SetNotNull => if HasNull(c.rows) then None else Some(c.(notNull := true))
    case Alter(changes) => Some(MakeChanges(sv, c, changes))
    case DropColumn => None
  }

  function ExecuteAll(sv: Server, c: Stored, plan: seq<ColumnStmt>): Option<Stored>
    decreases |plan|
  {
    if plan == [] then Some(c) else
    var next := Execute(sv, c, plan[0]);
    if next.None? then None else ExecuteAll(sv, next.value, plan[1..])
  }

  /** The column as introspection lists it; an array under its element type. */
  function Listed(sv: Server, name: string, c: Stored): Column {
    Column(name, c.dataType, c.isArray, if c.dflt.None? then None else Some(sv.listed(c.dflt.value)), Some(c.notNull))
  }
}
