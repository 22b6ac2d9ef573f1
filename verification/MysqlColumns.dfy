/** Modifying one MySQL column: a redefinition as a whole, with nulls filled before they are refused. */
module MysqlColumns {
  import opened Options
  import opened Collections

  datatype Column = Column(
    name: string, dataType: string, dflt: Option<string>, notNull: Option<bool>, autoIncrement: Option<bool>,
    charset: string, collation: string)

  datatype Clause = OfType(t: string) | Charset(text: string) | NotNull | Null | AutoIncrement | Default(value: string)

  datatype ColumnStmt = Modify(clauses: seq<Clause>) | Backfill(value: string)

  function CharsetText(d: Column): string {
    var cs := if d.charset != "" then "character set " + d.charset else "";
    if d.collation != "" then (if |cs| > 0 then cs + " " else cs) + "collate " + d.collation else cs
  }

  function CharsetClauses(d: Column, e: Column): seq<Clause> {
    if (d.charset != e.charset || d.collation != e.collation) && CharsetText(d) != "" then [Charset(CharsetText(d))] else []
  }

  function NullClauses(notNull: Option<bool>): seq<Clause> {
    match notNull
    case None => []
    case Some(b) => if b then [NotNull] else [Null]
  }

  function Definition(d: Column, e: Column, notNull: Option<bool>): seq<Clause> {
    [OfType(d.dataType)] + CharsetClauses(d, e) + NullClauses(notNull)
    + (if IsTrue(d.autoIncrement) then [AutoIncrement] else []) + (if d.dflt.Some? then [Default(d.dflt.value)] else [])
  }

  predicate AddingNotNull(d: Column, e: Column) {
    IsTrue(d.notNull) && !IsTrue(e.notNull)
  }

  /** Sets the default first, then fills the nulls with it. */
  function Filling(d: Column, e: Column): seq<ColumnStmt> {
    if d.dflt.None? then []
    else (if e.dflt != d.dflt then [Modify(Definition(d, e, e.notNull))] else []) + [Backfill(d.dflt.value)]
  }

  function Statements(d: Column, e: Column): seq<ColumnStmt> {
    (if AddingNotNull(d, e) then Filling(d, e) else []) + [Modify(Definition(d, e, d.notNull))]
  }

  method ModifyColumn(d: Column, e: Column, useExisting: bool) returns (s: ColumnStmt)
    ensures s == Modify(Definition(d, e, if useExisting then e.notNull else d.notNull))
  {
    hide CharsetText;
    var clauses := [OfType(d.dataType)];
    if d.charset != e.charset || d.collation != e.collation {
      if |CharsetText(d)| > 0 {
        clauses := clauses + [Charset(CharsetText(d))];
      }
    }
    assert clauses == [OfType(d.dataType)] + CharsetClauses(d, e);
    var notNull := if useExisting then e.notNull else d.notNull;
    if notNull.Some? {
      if notNull.value {
        clauses := clauses + [NotNull];
      } else {
        clauses := clauses + [Null];
      }
    }
    assert clauses == [OfType(d.dataType)] + CharsetClauses(d, e) + NullClauses(notNull);
    if d.autoIncrement.Some? && d.autoIncrement.value {
      clauses := clauses + [AutoIncrement];
    }
    if d.dflt.Some? {
      clauses := clauses + [Default(d.dflt.value)];
    }
    s := Modify(clauses);
  }

  method ModifyStatements(d: Column, e: Column) returns (statements: seq<ColumnStmt>)
    ensures statements == Statements(d, e)
  {
    hide Definition;
    var isAddingNotNull := false;
    if d.notNull.Some? && d.notNull.value {
      if e.notNull.None? {
        isAddingNotNull := true;
      } else if !e.notNull.value {
        isAddingNotNull := true;
      }
    }
    statements := [];
    if isAddingNotNull {
      if d.dflt.Some? {
        if e.dflt.None? || e.dflt.value != d.dflt.value {
          var first := ModifyColumn(d, e, true);
          statements := statements + [first];
        }
      }
      if d.dflt.Some? {
        statements := statements + [Backfill(d.dflt.value)];
      }
    }
    var last := ModifyColumn(d, e, false);
    statements := statements + [last];
  }

  // ----- running the statements ------------------------------------------------------------------

  /** The column in the database; no encoding of its own means the table's. */
  datatype Stored = Stored(
    dataType: string, encoding: string, dflt: Option<string>, notNull: bool, autoIncrement: bool, rows: seq<Option<string>>)

  function Redefine(c: Stored, clause: Clause): Stored {
    match clause
    case OfType(t) => c.(dataType := t)
    case Charset(x) => c.(encoding := x)
    case NotNull => c.(notNull := true)
    case Null => c.(notNull := false)
    case AutoIncrement => c.(autoIncrement := true)
    case Default(v) => c.(dflt := Some(v))
  }

  function RedefineAll(c: Stored, clauses: seq<Clause>): Stored
    decreases |clauses|
  {
    if clauses == [] then c else RedefineAll(Redefine(c, clauses[0]), clauses[1..])
  }

  /** A redefinition starts from nothing: what it does not say is lost. */
  function Execute(c: Stored, s: ColumnStmt): Option<Stored> {
    match s
    case Modify(clauses) =>
      var next := RedefineAll(Stored("", "", None, false, false, c.rows), clauses);
      if next.notNull && HasNull(c.rows) then None else Some(next)
    case Backfill(v) => Some(c.(rows := Filled(c.rows, Some(v))))
  }

  function ExecuteAll(c: Stored, plan: seq<ColumnStmt>): Option<Stored>
    decreases |plan|
  {
    if plan == [] then Some(c) else
    var next := Execute(c, plan[0]);
    if next.None? then None else ExecuteAll(next.value, plan[1..])
  }

  /** The listed column describes the stored one. */
  predicate Describes(e: Column, c: Stored) {
    IsTrue(e.notNull) == c.notNull && e.dflt == c.dflt && (c.notNull ==> !HasNull(c.rows))
  }

  lemma {:induction false} RedefineConcat(c: Stored, p: seq<Clause>, q: seq<Clause>)
    ensures RedefineAll(c, p + q) == RedefineAll(RedefineAll(c, p), q)
    decreases |p|
  {
    hide Redefine;
    if p == [] {
      assert p + q == q;
    } else {
      assert (p + q)[0] == p[0] && (p + q)[1..] == p[1..] + q;
      RedefineConcat(Redefine(c, p[0]), p[1..], q);
    }
  }

  lemma RedefineOne(c: Stored, clause: Clause)
    ensures RedefineAll(c, [clause]) == Redefine(c, clause)
  {
    hide Redefine;
    assert [clause][1..] == [];
  }

  lemma RedefineNulls(c: Stored, notNull: Option<bool>)
    requires !c.notNull
    ensures RedefineAll(c, NullClauses(notNull)) == c.(notNull := IsTrue(notNull))
  {
    RedefineOne(c, NotNull);
    RedefineOne(c, Null);
  }

  /** Character set and collation as a clause names them. */
  function EncodingText(d: Column): string {
    if d.charset == "" && d.collation == "" then ""
    else if d.collation == "" then "character set " + d.charset
    else if d.charset == "" then "collate " + d.collation
    else "character set " + d.charset + " collate " + d.collation
  }

  /** They are written only where they differ from what is listed. */
  function WrittenEncoding(d: Column, e: Column): string {
    if d.charset == e.charset && d.collation == e.collation then "" else EncodingText(d)
  }

  lemma CharsetIs(d: Column)
    ensures CharsetText(d) == EncodingText(d)
  {
    if d.charset != "" && d.collation != "" {
      assert "character set " + d.charset + " " + "collate " + d.collation == "character set " + d.charset + " collate " + d.collation;
    } else if d.collation != "" {
      assert "" + "collate " + d.collation == "collate " + d.collation;
    }
  }

  /** A redefinition says all there is to say about the column. */
  lemma DefinitionRuns(d: Column, e: Column, notNull: Option<bool>, rows: seq<Option<string>>)
    ensures RedefineAll(Stored("", "", None, false, false, rows), Definition(d, e, notNull)) ==
      Stored(d.dataType, WrittenEncoding(d, e), d.dflt, IsTrue(notNull), IsTrue(d.autoIncrement), rows)
  {
    CharsetIs(d);
    hide CharsetText, EncodingText, RedefineAll, NullClauses;
    var c0 := Stored("", "", None, false, false, rows);
    var a, b := [OfType(d.dataType)], CharsetClauses(d, e);
    var n := NullClauses(notNull);
    var i := if IsTrue(d.autoIncrement) then [AutoIncrement] else [];
    var v := if d.dflt.Some? then [Default(d.dflt.value)] else [];
    RedefineConcat(c0, a + b + n + i, v);
    RedefineConcat(c0, a + b + n, i);
    RedefineConcat(c0, a + b, n);
    RedefineConcat(c0, a, b);
    RedefineOne(c0, OfType(d.dataType));
    var c0' := c0.(dataType := d.dataType);
    RedefineOne(c0', Charset(CharsetText(d)));
    RedefineNothing(c0');
    var c1 := c0'.(encoding := WrittenEncoding(d, e));
    RedefineNulls(c1, notNull);
    var c2 := c1.(notNull := IsTrue(notNull));
    RedefineOne(c2, AutoIncrement);
    RedefineNothing(c2);
    var c3 := c2.(autoIncrement := IsTrue(d.autoIncrement));
    RedefineNothing(c3);
    if d.dflt.Some? {
      RedefineOne(c3, Default(d.dflt.value));
    }
  }

  lemma RedefineNothing(c: Stored)
    ensures RedefineAll(c, []) == c
  {
  }

  lemma ModifyRuns(d: Column, e: Column, notNull: Option<bool>, c: Stored)
    ensures Execute(c, Modify(Definition(d, e, notNull))) ==
      if IsTrue(notNull) && HasNull(c.rows) then None
      else Some(Stored(d.dataType, WrittenEncoding(d, e), d.dflt, IsTrue(notNull), IsTrue(d.autoIncrement), c.rows))
  {
    hide HasNull, Definition, RedefineAll;
    DefinitionRuns(d, e, notNull, c.rows);
  }

  lemma ExecuteHead(c: Stored, s: ColumnStmt, rest: seq<ColumnStmt>)
    ensures ExecuteAll(c, [s] + rest) == if Execute(c, s).None? then None else ExecuteAll(Execute(c, s).value, rest)
  {
    hide Execute;
    assert ([s] + rest)[1..] == rest;
  }

  lemma ExecuteLast(c: Stored, s: ColumnStmt)
    ensures ExecuteAll(c, [s]) == Execute(c, s)
  {
    hide Execute;
    assert [s] + [] == [s];
    ExecuteHead(c, s, []);
  }

  /** The rows when the last statement, the only one that may refuse nulls, runs. */
  function FinalRows(d: Column, e: Column, rows: seq<Option<string>>): seq<Option<string>> {
    if AddingNotNull(d, e) && d.dflt.Some? then Filled(rows, d.dflt) else rows
  }

  lemma AddingRuns(d: Column, e: Column, c: Stored)
    requires AddingNotNull(d, e) && d.dflt.Some? && Describes(e, c)
    ensures ExecuteAll(c, Statements(d, e)) ==
      Some(Stored(d.dataType, WrittenEncoding(d, e), d.dflt, true, IsTrue(d.autoIncrement), Filled(c.rows, d.dflt)))
  {
    hide HasNull, Definition, Filled, Execute, ExecuteAll;
    var fill, last := Backfill(d.dflt.value), Modify(Definition(d, e, d.notNull));
    var first := Modify(Definition(d, e, e.notNull));
    ModifyRuns(d, e, e.notNull, c);
    var c1 := if e.dflt != d.dflt then Execute(c, first).value else c;
    assert c1.rows == c.rows;
    if e.dflt != d.dflt {
      assert Statements(d, e) == [first] + ([fill] + [last]);
      ExecuteHead(c, first, [fill] + [last]);
    } else {
      assert Statements(d, e) == [fill] + [last];
    }
    ExecuteHead(c1, fill, [last]);
    BackfillRuns(c1, d.dflt.value);
    var c2 := c1.(rows := Filled(c.rows, d.dflt));
    FilledNulls(c.rows, d.dflt);
    ExecuteLast(c2, last);
    ModifyRuns(d, e, d.notNull, c2);
  }

  lemma BackfillRuns(c: Stored, v: string)
    ensures Execute(c, Backfill(v)) == Some(c.(rows := Filled(c.rows, Some(v))))
  {
  }

  /**
   The statements run exactly if no null meets `not null`: never with a default, whatever the
   rows hold. They end with the declared type, default and nullability, and the encoding as written.
   */
  lemma StatementsRunIff(d: Column, e: Column, c: Stored)
    requires Describes(e, c)
    ensures var end := ExecuteAll(c, Statements(d, e));
      && (end.Some? <==> (AddingNotNull(d, e) && HasNull(c.rows) ==> d.dflt.Some?))
      && (end.Some? ==>
        end.value == Stored(d.dataType, WrittenEncoding(d, e), d.dflt, IsTrue(d.notNull), IsTrue(d.autoIncrement), FinalRows(d, e, c.rows)))
  {
    hide HasNull, Definition, Filled, Execute, ExecuteAll;
    var last := Modify(Definition(d, e, d.notNull));
    if AddingNotNull(d, e) && d.dflt.Some? {
      AddingRuns(d, e, c);
    } else {
      assert Statements(d, e) == [last];
      ExecuteLast(c, last);
      ModifyRuns(d, e, d.notNull, c);
    }
  }

  /** The declared encoding is kept exactly if it is written: a redefinition for another reason resets it to the table's. */
  lemma EncodingKeptIff(d: Column, e: Column, c: Stored)
    requires Describes(e, c) && ExecuteAll(c, Statements(d, e)).Some?
    ensures ExecuteAll(c, Statements(d, e)).value.encoding == EncodingText(d) <==>
      d.charset != e.charset || d.collation != e.collation || (d.charset == "" && d.collation == "")
  {
    StatementsRunIff(d, e, c);
    hide ExecuteAll, Statements, Describes;
  }

  /** With a default, every statement that refuses nulls finds none, at every point of the plan. */
  lemma NoNullWhenRefused(d: Column, e: Column, c: Stored, k: nat)
    requires Describes(e, c) && d.dflt.Some? && k < |Statements(d, e)|
    ensures var mid := ExecuteAll(c, Statements(d, e)[..k]);
      mid.Some? && (Statements(d, e)[k].Modify? && NotNull in Statements(d, e)[k].clauses ==> !HasNull(mid.value.rows))
  {
    var p := Statements(d, e);
    StatementsRunIff(d, e, c);
    ExecuteConcat(c, p[..k], p[k..]);
    assert p[..k] + p[k..] == p && p[k..] == [p[k]] + p[k + 1..];
    var mid := ExecuteAll(c, p[..k]);
    hide Statements, HasNull, Describes, Filled;
    ExecuteHead(mid.value, p[k], p[k + 1..]);
    if p[k].Modify? && NotNull in p[k].clauses {
      StatementForm(d, e, k);
      RefusesNulls(d, e, k, mid.value);
    }
  }

  lemma ExecuteConcat(c: Stored, p: seq<ColumnStmt>, q: seq<ColumnStmt>)
    ensures ExecuteAll(c, p + q) == if ExecuteAll(c, p).None? then None else ExecuteAll(ExecuteAll(c, p).value, q)
    decreases |p|
  {
    hide Execute;
    if p == [] {
      assert p + q == q;
    } else {
      assert (p + q)[0] == p[0] && (p + q)[1..] == p[1..] + q;
      var next := Execute(c, p[0]);
      if next.Some? {
        ExecuteConcat(next.value, p[1..], q);
      }
    }
  }

  lemma StatementForm(d: Column, e: Column, k: nat)
    requires k < |Statements(d, e)| && Statements(d, e)[k].Modify?
    ensures Statements(d, e)[k] == Modify(Definition(d, e, d.notNull)) || Statements(d, e)[k] == Modify(Definition(d, e, e.notNull))
  {
    hide Definition;
  }

  lemma NotNullClause(d: Column, e: Column, notNull: Option<bool>)
    ensures NotNull in Definition(d, e, notNull) <==> IsTrue(notNull)
  {
    hide CharsetText;
    var n := NullClauses(notNull);
    assert NotNull in n <==> IsTrue(notNull);
  }

  lemma RefusesNulls(d: Column, e: Column, k: nat, c: Stored)
    requires k < |Statements(d, e)| && Statements(d, e)[k].Modify? && NotNull in Statements(d, e)[k].clauses
    requires Execute(c, Statements(d, e)[k]).Some?
    ensures !HasNull(c.rows)
  {
    hide Statements, HasNull, Definition, Execute;
    StatementForm(d, e, k);
    NotNullClause(d, e, d.notNull);
    NotNullClause(d, e, e.notNull);
    ModifyRuns(d, e, d.notNull, c);
    ModifyRuns(d, e, e.notNull, c);
  }

  // ----- the order of the clauses --------------------------------------------------------------------

  /** Type, character set, nullability, numbering, default. */
  function Rank(c: Clause): nat {
    match c
    case OfType(_) => 0
    case Charset(_) => 1
    case NotNull => 2
    case Null => 2
    case AutoIncrement => 3
    case Default(_) => 4
  }

  /** Every redefinition has its clauses in that order, each at most once. */
  lemma DefinitionIsOrdered(d: Column, e: Column, notNull: Option<bool>)
    ensures var cs := Definition(d, e, notNull); forall i, j :: 0 <= i < j < |cs| ==> Rank(cs[i]) < Rank(cs[j])
  {
    hide CharsetText;
    var a, b := [OfType(d.dataType)], CharsetClauses(d, e);
    var n := NullClauses(notNull);
    var i := if IsTrue(d.autoIncrement) then [AutoIncrement] else [];
    var v := if d.dflt.Some? then [Default(d.dflt.value)] else [];
    assert |b| <= 1 && |n| <= 1 && |i| <= 1 && |v| <= 1;
    assert Definition(d, e, notNull) == a + b + n + i + v;
  }
}
