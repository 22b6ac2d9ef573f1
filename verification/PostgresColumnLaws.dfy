/** Planning and applying a column's changes: when it settles, within how many rounds, and when it never does. */
module PostgresColumnLaws {
  import opened Options
  import opened Collections
  import opened Canonical
  import opened PostgresColumns

  // ----- what a column is compared by --------------------------------------------------------------

  /** The same type, or `timestamp` or `time` with and without the words the server adds. */
  predicate SameType(a: string, b: string) {
    || a == b
    || (a == "timestamp" && b == "timestamp without time zone") || (b == "timestamp" && a == "timestamp without time zone")
    || (a == "time" && b == "time without time zone") || (b == "time" && a == "time without time zone")
  }

  /** No default on either side, or the listed one has the declared one's canonical form. */
  predicate DefaultMet(sv: Server, d: Column, c: Stored) {
    if c.dflt.None? || d.dflt.None? then c.dflt.None? && d.dflt.None?
    else Canonicalize(sv.listed(c.dflt.value)) == Canonicalize(d.dflt.value)
  }

  predicate AutoNumbered(t: string) {
    t == "serial" || t == "bigserial"
  }

  /** Type, default and nullability are the declared ones. */
  predicate Met(sv: Server, d: Column, c: Stored) {
    && SameType(c.dataType, d.dataType) && c.isArray == d.isArray && DefaultMet(sv, d, c)
    && (IsTrue(d.notNull) <==> c.notNull)
  }

  /** Refuses nulls if declared so, and is serial, or differs only in that a key column refuses them undeclared. */
  predicate Exempt(sv: Server, keys: seq<string>, d: Column, c: Stored) {
    && (IsTrue(d.notNull) ==> c.notNull)
    && (AutoNumbered(d.dataType) ||
      (c.dataType == d.dataType && c.isArray == d.isArray && DefaultMet(sv, d, c) && (c.notNull && !IsTrue(d.notNull) ==> d.name in keys)))
  }

  /** What the server lists for the declared type compares equal to it, and is its own name. */
  predicate Faithful(sv: Server, d: Column) {
    AutoNumbered(d.dataType) ||
    (SameType(sv.typeName(d.dataType), d.dataType) && sv.typeName(sv.typeName(d.dataType)) == sv.typeName(d.dataType))
  }

  /** A column that refuses nulls holds none, and its type is one the server reports. */
  predicate Sound(sv: Server, c: Stored) {
    (c.notNull ==> !HasNull(c.rows)) && sv.typeName(c.dataType) == c.dataType
  }

  /** The declared default as it is written. */
  function Written(d: Column): string
    requires d.dflt.Some?
  {
    FormatColumnDefault(d.dflt.value)
  }

  /** Nulls can be filled with the default, if they have to go. */
  predicate Fillable(sv: Server, d: Column, c: Stored) {
    IsTrue(d.notNull) ==> !HasNull(c.rows) || (d.dflt.Some? && sv.value(Written(d)).Some?)
  }

  /** The default, once written, is listed so that it compares equal. */
  predicate WrittenMet(sv: Server, d: Column) {
    d.dflt.Some? ==> Canonicalize(sv.listed(Written(d))) == Canonicalize(d.dflt.value)
  }

  predicate Adding(d: Column, c: Stored) {
    IsTrue(d.notNull) && !c.notNull
  }

  lemma SameTypeIff(a: string, b: string)
    ensures TypeName(a) == TypeName(b) <==> SameType(a, b)
  {
    var ts, t := "timestamp without time zone", "time without time zone";
    assert ts[4] != t[4] && |"timestamp"| < |"time without time zone"| < |ts| && |"time"| < |"timestamp"|;
  }

  // ----- rounds --------------------------------------------------------------------------------------

  /** The plan for a single column, declared under its own name. */
  function Planned(sv: Server, keys: seq<string>, d: Column, c: Stored): seq<ColumnStmt> {
    AlterTo(keys, d, Listed(sv, d.name, c))
  }

  /** One round: plan against the listed column, run the plan. */
  function Round(sv: Server, keys: seq<string>, d: Column, c: Stored): Option<Stored> {
    ExecuteAll(sv, c, Planned(sv, keys, d, c))
  }

  function Rounds(sv: Server, keys: seq<string>, d: Column, c: Stored, n: nat): Option<Stored>
    decreases n
  {
    if n == 0 then Some(c) else
    var next := Round(sv, keys, d, c);
    if next.None? then None else Rounds(sv, keys, d, next.value, n - 1)
  }

  predicate Settled(sv: Server, keys: seq<string>, d: Column, c: Stored) {
    Planned(sv, keys, d, c) == []
  }

  lemma DefaultsEqualIff(sv: Server, d: Column, c: Stored)
    ensures DefaultsEqual(Listed(sv, d.name, c).dflt, d.dflt) <==> DefaultMet(sv, d, c)
  {
    hide Canonicalize;
  }

  lemma MatchIff(sv: Server, d: Column, c: Stored)
    ensures ColumnsMatch(Listed(sv, d.name, c), d) <==> Met(sv, d, c)
  {
    hide DefaultsEqual, DefaultMet, TypeName, SameType;
    SameTypeIff(c.dataType, d.dataType);
    DefaultsEqualIff(sv, d, c);
  }

  lemma NoChangeIff(sv: Server, keys: seq<string>, d: Column, c: Stored)
    requires !Adding(d, c)
    ensures Changes(keys, d, Listed(sv, d.name, c)) == [] <==> Exempt(sv, keys, d, c)
  {
    var e := Listed(sv, d.name, c);
    hide DefaultsEqual, FormatColumnDefault;
    DefaultsEqualIff(sv, d, c);
    DefaultSilentIff(d, e);
    var a, b, n := TypeChanges(d, e), DefaultChanges(d, e), NullChanges(keys, d, e);
    assert a + b + n == [] <==> a == [] && b == [] && n == [] by { assert |a + b + n| == |a| + |b| + |n|; }
  }

  lemma DefaultSilentIff(d: Column, e: Column)
    ensures DefaultChanges(d, e) == [] <==> DefaultsEqual(e.dflt, d.dflt)
  {
    hide Canonicalize, FormatColumnDefault;
  }

  /** An empty plan means exactly that the column is as declared, or exempt. */
  lemma SettledIff(sv: Server, keys: seq<string>, d: Column, c: Stored)
    ensures Settled(sv, keys, d, c) <==> Met(sv, d, c) || Exempt(sv, keys, d, c)
  {
    hide Changes, ColumnsMatch, Met;
    MatchIff(sv, d, c);
    if !Adding(d, c) {
      NoChangeIff(sv, keys, d, c);
    } else {
      assert !Met(sv, d, c) by { MetMeans(sv, d, c); }
    }
  }

  lemma MetMeans(sv: Server, d: Column, c: Stored)
    ensures Met(sv, d, c) ==> (IsTrue(d.notNull) <==> c.notNull)
  {
  }

  // ----- tightening ----------------------------------------------------------------------------

  lemma {:induction false} ExecuteConcat(sv: Server, c: Stored, p: seq<ColumnStmt>, q: seq<ColumnStmt>)
    ensures ExecuteAll(sv, c, p + q) ==
      if ExecuteAll(sv, c, p).None? then None else ExecuteAll(sv, ExecuteAll(sv, c, p).value, q)
    decreases |p|
  {
    hide Execute;
    if p == [] {
      assert p + q == q;
    } else {
      assert (p + q)[0] == p[0] && (p + q)[1..] == p[1..] + q;
      var next := Execute(sv, c, p[0]);
      if next.Some? {
        ExecuteConcat(sv, next.value, p[1..], q);
      }
    }
  }

  lemma ExecuteOne(sv: Server, c: Stored, s: ColumnStmt)
    ensures ExecuteAll(sv, c, [s]) == Execute(sv, c, s)
  {
    hide Execute;
    assert [s][1..] == [];
    var next := Execute(sv, c, s);
    if next.Some? {
      assert ExecuteAll(sv, next.value, []) == next;
    }
  }

  /** The column just before `set not null`: the default set, the nulls filled with it. */
  function Prepared(sv: Server, d: Column, c: Stored): Stored {
    if d.dflt.None? then c else
    c.(dflt := if DefaultMet(sv, d, c) then c.dflt else Some(Written(d)), rows := Filled(c.rows, sv.value(Written(d))))
  }

  lemma TighteningRuns(sv: Server, d: Column, c: Stored)
    ensures ExecuteAll(sv, c, Tightening(d, Listed(sv, d.name, c))) == Execute(sv, Prepared(sv, d, c), SetNotNull)
  {
    var e := Listed(sv, d.name, c);
    DefaultsEqualIff(sv, d, c);
    hide DefaultsEqual, DefaultMet, FormatColumnDefault, Filled, HasNull;
    if d.dflt.None? {
      assert Tightening(d, e) == [SetNotNull];
      ExecuteOne(sv, c, SetNotNull);
    } else {
      var x := FormatColumnDefault(d.dflt.value);
      var a := if DefaultsEqual(e.dflt, d.dflt) then [] else [SetDefault(x)];
      assert Tightening(d, e) == a + ([Backfill(x)] + [SetNotNull]);
      ExecuteConcat(sv, c, a, [Backfill(x)] + [SetNotNull]);
      ExecuteOne(sv, c, SetDefault(x));
      var c1 := ExecuteAll(sv, c, a).value;
      ExecuteConcat(sv, c1, [Backfill(x)], [SetNotNull]);
      ExecuteOne(sv, c1, Backfill(x));
      ExecuteOne(sv, Execute(sv, c1, Backfill(x)).value, SetNotNull);
    }
  }

  /** With a default that has a value, `set not null` never meets a null, whatever the rows hold. */
  lemma NoNullWhenTightening(sv: Server, d: Column, c: Stored)
    requires d.dflt.Some? && sv.value(Written(d)).Some?
    ensures !HasNull(Prepared(sv, d, c).rows)
    ensures ExecuteAll(sv, c, Tightening(d, Listed(sv, d.name, c))).Some?
  {
    hide DefaultMet, FormatColumnDefault, Filled, HasNull;
    TighteningRuns(sv, d, c);
    FilledNulls(c.rows, sv.value(Written(d)));
  }

  /** The column once it refuses nulls, if it has to. */
  function Tightened(sv: Server, d: Column, c: Stored): Stored {
    if Adding(d, c) then Prepared(sv, d, c).(notNull := true) else c
  }

  /** A tightening runs exactly if the nulls can be filled, and leaves none. */
  lemma TighteningRound(sv: Server, keys: seq<string>, d: Column, c: Stored)
    requires Adding(d, c)
    ensures Round(sv, keys, d, c).Some? <==> Fillable(sv, d, c)
    ensures Fillable(sv, d, c) ==>
      Round(sv, keys, d, c) == Some(Tightened(sv, d, c)) && !HasNull(Tightened(sv, d, c).rows)
  {
    var e := Listed(sv, d.name, c);
    if d.dflt.Some? {
      FilledNulls(c.rows, sv.value(Written(d)));
    }
    MatchIff(sv, d, c);
    MetMeans(sv, d, c);
    hide ColumnsMatch, Met, DefaultMet, FormatColumnDefault, HasNull, Filled, ExecuteAll, Tightening;
    assert AlterTo(keys, d, e) == Tightening(d, e);
    TighteningRuns(sv, d, c);
  }

  // ----- the other changes -------------------------------------------------------------------------

  lemma {:induction false} MakeConcat(sv: Server, c: Stored, p: seq<Change>, q: seq<Change>)
    ensures MakeChanges(sv, c, p + q) == MakeChanges(sv, MakeChanges(sv, c, p), q)
    decreases |p|
  {
    hide MakeChange;
    if p == [] {
      assert p + q == q;
    } else {
      assert (p + q)[0] == p[0] && (p + q)[1..] == p[1..] + q;
      MakeConcat(sv, MakeChange(sv, c, p[0]), p[1..], q);
    }
  }

  lemma MakeOne(sv: Server, c: Stored, change: Change)
    ensures MakeChanges(sv, c, [change]) == MakeChange(sv, c, change) && MakeChanges(sv, c, []) == c
  {
    hide MakeChange;
    assert [change][1..] == [];
  }

  /** The column after its type, default and nullability are changed. */
  function Altered(sv: Server, keys: seq<string>, d: Column, c: Stored): Stored {
    Stored(if c.dataType != d.dataType || c.isArray != d.isArray then sv.typeName(d.dataType) else c.dataType,
      c.dataType == d.dataType && (c.isArray || d.isArray),
      if d.dflt.None? then None else if DefaultMet(sv, d, c) then c.dflt else Some(Written(d)),
      c.notNull && (IsTrue(d.notNull) || d.name in keys), c.rows)
  }

  lemma TypeChangesRun(sv: Server, d: Column, c: Stored)
    ensures MakeChanges(sv, c, TypeChanges(d, Listed(sv, d.name, c))) ==
      c.(dataType := if c.dataType != d.dataType || c.isArray != d.isArray then sv.typeName(d.dataType) else c.dataType,
         isArray := c.dataType == d.dataType && (c.isArray || d.isArray))
  {
    MakeOne(sv, c, ToType(d.dataType));
    MakeOne(sv, c, ToArrayOf(d.dataType));
  }

  lemma DefaultChangesRun(sv: Server, d: Column, e: Column, c: Stored)
    requires e.dflt == Listed(sv, d.name, c).dflt
    ensures MakeChanges(sv, c, DefaultChanges(d, e)) ==
      c.(dflt := if d.dflt.None? then None else if DefaultMet(sv, d, c) then c.dflt else Some(Written(d)))
  {
    DefaultsEqualIff(sv, d, c);
    hide DefaultsEqual, DefaultMet, FormatColumnDefault;
    MakeOne(sv, c, NoDefault);
    if d.dflt.Some? {
      MakeOne(sv, c, NewDefault(FormatColumnDefault(d.dflt.value)));
    }
  }

  lemma NullChangesRun(sv: Server, keys: seq<string>, d: Column, e: Column, c: Stored)
    requires e.notNull == Some(c.notNull)
    ensures MakeChanges(sv, c, NullChanges(keys, d, e)) == c.(notNull := c.notNull && (IsTrue(d.notNull) || d.name in keys))
  {
    MakeOne(sv, c, Nullable);
  }

  lemma ChangesRun(sv: Server, keys: seq<string>, d: Column, c: Stored)
    requires !AutoNumbered(d.dataType)
    ensures MakeChanges(sv, c, Changes(keys, d, Listed(sv, d.name, c))) == Altered(sv, keys, d, c)
  {
    var e := Listed(sv, d.name, c);
    hide DefaultsEqual, FormatColumnDefault, MakeChanges, TypeChanges, DefaultChanges, NullChanges;
    var a, b, n := TypeChanges(d, e), DefaultChanges(d, e), NullChanges(keys, d, e);
    MakeConcat(sv, c, a + b, n);
    MakeConcat(sv, c, a, b);
    TypeChangesRun(sv, d, c);
    var c1 := MakeChanges(sv, c, a);
    assert DefaultMet(sv, d, c1) == DefaultMet(sv, d, c);
    DefaultChangesRun(sv, d, e, c1);
    var c2 := MakeChanges(sv, c1, b);
    NullChangesRun(sv, keys, d, e, c2);
  }

  /** A round that is not a tightening changes nothing if settled, and everything at once if not. */
  lemma AlteringRound(sv: Server, keys: seq<string>, d: Column, c: Stored)
    requires !Adding(d, c)
    ensures Round(sv, keys, d, c) == Some(if Settled(sv, keys, d, c) then c else Altered(sv, keys, d, c))
    ensures !Settled(sv, keys, d, c) ==> !AutoNumbered(d.dataType)
  {
    var e := Listed(sv, d.name, c);
    NoChangeIff(sv, keys, d, c);
    hide ColumnsMatch, MakeChanges, Changes, DefaultMet;
    if !Settled(sv, keys, d, c) {
      assert Planned(sv, keys, d, c) == [Alter(Changes(keys, d, e))];
      ExecuteOne(sv, c, Alter(Changes(keys, d, e)));
      ChangesRun(sv, keys, d, c);
    }
  }

  // ----- columns that never settle -------------------------------------------------------------------

  /**
   No number of rounds helps a column, refusing nulls if it has to, that is not settled and whose
   default is listed differently from how it is declared; or which is an array declared as its
   element type; or whose type the server knows by another name and which is declared as an array
   or is a key column that refuses nulls undeclared.
   */
  predicate Hopeless(sv: Server, keys: seq<string>, d: Column, c: Stored) {
    && !AutoNumbered(d.dataType) && !Met(sv, d, c) && !Exempt(sv, keys, d, c)
    && ((!DefaultMet(sv, d, c) && !WrittenMet(sv, d))
      || (sv.typeName(d.dataType) == d.dataType && !d.isArray && c.isArray && c.dataType == d.dataType)
      || (sv.typeName(d.dataType) != d.dataType && (d.isArray || (d.name in keys && c.notNull && !IsTrue(d.notNull)))))
  }

  /** Afterwards the default is met, unless it is listed differently from how it is declared. */
  lemma AlteredDefault(sv: Server, keys: seq<string>, d: Column, c: Stored)
    ensures DefaultMet(sv, d, Altered(sv, keys, d, c)) <==> DefaultMet(sv, d, c) || WrittenMet(sv, d)
  {
    hide Canonicalize, FormatColumnDefault;
  }

  lemma HopelessAltered(sv: Server, keys: seq<string>, d: Column, c: Stored)
    requires Faithful(sv, d) && Sound(sv, c) && !Adding(d, c) && Hopeless(sv, keys, d, c)
    ensures var next := Altered(sv, keys, d, c); Sound(sv, next) && !Adding(d, next) && Hopeless(sv, keys, d, next)
  {
    AlteredDefault(sv, keys, d, c);
    hide DefaultMet, WrittenMet, HasNull, SameType;
  }

  lemma HopelessStays(sv: Server, keys: seq<string>, d: Column, c: Stored)
    requires Faithful(sv, d) && Sound(sv, c) && !Adding(d, c) && Hopeless(sv, keys, d, c)
    ensures var next := Round(sv, keys, d, c);
      next.Some? && Sound(sv, next.value) && !Adding(d, next.value) && Hopeless(sv, keys, d, next.value)
  {
    SettledIff(sv, keys, d, c);
    assert !Settled(sv, keys, d, c);
    hide Round, Settled, Altered, Hopeless, Sound, Faithful;
    AlteringRound(sv, keys, d, c);
    HopelessAltered(sv, keys, d, c);
  }

  lemma HopelessIsNotSettled(sv: Server, keys: seq<string>, d: Column, c: Stored)
    requires Hopeless(sv, keys, d, c)
    ensures !Settled(sv, keys, d, c)
  {
    hide Settled, Met, Exempt;
    SettledIff(sv, keys, d, c);
  }

  lemma {:induction false} NeverSettles(sv: Server, keys: seq<string>, d: Column, c: Stored, n: nat)
    requires Faithful(sv, d) && Sound(sv, c) && !Adding(d, c) && Hopeless(sv, keys, d, c)
    ensures var r := Rounds(sv, keys, d, c, n); r.Some? && !Settled(sv, keys, d, r.value)
    decreases n
  {
    hide Faithful, Sound, Hopeless, Round, Settled;
    if n == 0 {
      HopelessIsNotSettled(sv, keys, d, c);
    } else {
      HopelessStays(sv, keys, d, c);
      NeverSettles(sv, keys, d, Round(sv, keys, d, c).value, n - 1);
    }
  }

  // ----- the others settle -----------------------------------------------------------------------------

  /** One round reaches everything except that an array needs a second one behind a change of its element type. */
  lemma AlteredOnce(sv: Server, keys: seq<string>, d: Column, c: Stored)
    requires Faithful(sv, d) && Sound(sv, c) && !Adding(d, c) && !Hopeless(sv, keys, d, c)
    requires !AutoNumbered(d.dataType) && !Met(sv, d, c) && !Exempt(sv, keys, d, c)
    ensures var next := Altered(sv, keys, d, c);
      && Sound(sv, next) && !Adding(d, next) && DefaultMet(sv, d, next) && !Hopeless(sv, keys, d, next)
      && (c.dataType == d.dataType || !d.isArray ==> Met(sv, d, next) || Exempt(sv, keys, d, next))
      && (c.dataType != d.dataType && d.isArray ==> next.dataType == d.dataType)
  {
    AlteredDefault(sv, keys, d, c);
    hide DefaultMet, WrittenMet, HasNull, SameType;
  }

  lemma SettlesInTwo(sv: Server, keys: seq<string>, d: Column, c: Stored)
    requires Faithful(sv, d) && Sound(sv, c) && !Adding(d, c) && !Hopeless(sv, keys, d, c)
    ensures var r := Rounds(sv, keys, d, c, 2); r.Some? && Settled(sv, keys, d, r.value)
  {
    RoundsUnfold(sv, keys, d, c);
    AlteringRound(sv, keys, d, c);
    SettledIff(sv, keys, d, c);
    if !Settled(sv, keys, d, c) {
      var c1 := Altered(sv, keys, d, c);
      assert Round(sv, keys, d, c) == Some(c1);
      hide Round, Rounds, Settled, Altered, Hopeless, Sound, Faithful, Met, Exempt, DefaultMet;
      AlteredOnce(sv, keys, d, c);
      AlteringRound(sv, keys, d, c1);
      SettledIff(sv, keys, d, c1);
      if !Settled(sv, keys, d, c1) {
        AlteredOnce(sv, keys, d, c1);
        SettledIff(sv, keys, d, Altered(sv, keys, d, c1));
      }
    }
  }

  lemma RoundsUnfold(sv: Server, keys: seq<string>, d: Column, c: Stored)
    ensures Rounds(sv, keys, d, c, 2) == var r := Round(sv, keys, d, c); if r.None? then None else Round(sv, keys, d, r.value)
  {
    hide Round;
    var r := Round(sv, keys, d, c);
    if r.Some? {
      assert Rounds(sv, keys, d, r.value, 1) == Round(sv, keys, d, r.value);
    }
  }

  lemma SettledRound(sv: Server, keys: seq<string>, d: Column, c: Stored)
    requires Settled(sv, keys, d, c)
    ensures Round(sv, keys, d, c) == Some(c)
  {
  }

  lemma {:induction false} SettledStays(sv: Server, keys: seq<string>, d: Column, c: Stored, n: nat)
    requires Settled(sv, keys, d, c)
    ensures Rounds(sv, keys, d, c, n) == Some(c)
    decreases n
  {
    hide Settled, Round;
    if n > 0 {
      SettledRound(sv, keys, d, c);
      SettledStays(sv, keys, d, c, n - 1);
    }
  }

  lemma {:induction false} RoundsAfter(sv: Server, keys: seq<string>, d: Column, c: Stored, m: nat, n: nat)
    ensures Rounds(sv, keys, d, c, m + n) ==
      var r := Rounds(sv, keys, d, c, m); if r.None? then None else Rounds(sv, keys, d, r.value, n)
    decreases m
  {
    hide Round;
    if m > 0 && Round(sv, keys, d, c).Some? {
      RoundsAfter(sv, keys, d, Round(sv, keys, d, c).value, m - 1, n);
    }
  }

  /** The column the other rounds start from. */
  lemma FirstRound(sv: Server, keys: seq<string>, d: Column, c: Stored)
    requires Sound(sv, c)
    ensures Fillable(sv, d, c) ==> Sound(sv, Tightened(sv, d, c)) && !Adding(d, Tightened(sv, d, c))
    ensures Round(sv, keys, d, c).Some? <==> Fillable(sv, d, c)
    ensures Adding(d, c) && Fillable(sv, d, c) ==> Round(sv, keys, d, c) == Some(Tightened(sv, d, c))
  {
    hide Round, HasNull, DefaultMet, Filled, FormatColumnDefault;
    if Adding(d, c) {
      TighteningRound(sv, keys, d, c);
    } else {
      AlteringRound(sv, keys, d, c);
    }
  }

  /** A column that has to refuse nulls is not settled before it does. */
  lemma AddingIsNotSettled(sv: Server, keys: seq<string>, d: Column, c: Stored)
    requires Adding(d, c)
    ensures !Settled(sv, keys, d, c)
  {
    hide Settled, DefaultMet, SameType;
    SettledIff(sv, keys, d, c);
  }

  lemma GoodSettles(sv: Server, keys: seq<string>, d: Column, c: Stored)
    requires Faithful(sv, d) && Sound(sv, c) && Fillable(sv, d, c) && !Hopeless(sv, keys, d, Tightened(sv, d, c))
    ensures var r := Rounds(sv, keys, d, c, 3); r.Some? && Settled(sv, keys, d, r.value)
  {
    var t := Tightened(sv, d, c);
    assert !Adding(d, c) ==> t == c;
    hide *;
    FirstRound(sv, keys, d, c);
    SettlesInTwo(sv, keys, d, t);
    if Adding(d, c) {
      RoundsBehind(sv, keys, d, c);
    } else {
      RoundsAfter(sv, keys, d, c, 2, 1);
      SettledStays(sv, keys, d, Rounds(sv, keys, d, c, 2).value, 1);
    }
  }

  lemma UnfillableNeverSettles(sv: Server, keys: seq<string>, d: Column, c: Stored, n: nat)
    requires Sound(sv, c) && Adding(d, c) && !Fillable(sv, d, c)
    ensures var r := Rounds(sv, keys, d, c, n); r.None? || !Settled(sv, keys, d, r.value)
  {
    hide *;
    FirstRound(sv, keys, d, c);
    RoundsStart(sv, keys, d, c, n);
    AddingIsNotSettled(sv, keys, d, c);
  }

  lemma HopelessBehindTightening(sv: Server, keys: seq<string>, d: Column, c: Stored, n: nat)
    requires Faithful(sv, d) && Sound(sv, c) && Adding(d, c) && Fillable(sv, d, c) && Hopeless(sv, keys, d, Tightened(sv, d, c))
    ensures var r := Rounds(sv, keys, d, c, n); r.None? || !Settled(sv, keys, d, r.value)
  {
    hide *;
    RoundsStart(sv, keys, d, c, n);
    if n == 0 {
      AddingIsNotSettled(sv, keys, d, c);
    } else {
      FirstRound(sv, keys, d, c);
      NeverSettles(sv, keys, d, Tightened(sv, d, c), n - 1);
    }
  }

  lemma OthersNeverDo(sv: Server, keys: seq<string>, d: Column, c: Stored, n: nat)
    requires Faithful(sv, d) && Sound(sv, c) && !(Fillable(sv, d, c) && !Hopeless(sv, keys, d, Tightened(sv, d, c)))
    ensures var r := Rounds(sv, keys, d, c, n); r.None? || !Settled(sv, keys, d, r.value)
  {
    assert !Adding(d, c) ==> Tightened(sv, d, c) == c;
    hide *;
    if !Adding(d, c) {
      NotAddingIsFillable(sv, d, c);
      NeverSettles(sv, keys, d, c, n);
    } else if Fillable(sv, d, c) {
      HopelessBehindTightening(sv, keys, d, c, n);
    } else {
      UnfillableNeverSettles(sv, keys, d, c, n);
    }
  }

  lemma NotAddingIsFillable(sv: Server, d: Column, c: Stored)
    requires Sound(sv, c) && !Adding(d, c)
    ensures Fillable(sv, d, c)
  {
  }

  /**
   A column settles at all exactly if its nulls can be filled where they have to go and it is not
   hopeless once they are gone; then it is settled after three rounds.
   */
  lemma SettlesIff(sv: Server, keys: seq<string>, d: Column, c: Stored)
    requires Faithful(sv, d) && Sound(sv, c)
    ensures var good := Fillable(sv, d, c) && !Hopeless(sv, keys, d, Tightened(sv, d, c));
      && (good ==> var r := Rounds(sv, keys, d, c, 3); r.Some? && Settled(sv, keys, d, r.value))
      && (!good ==> forall n: nat :: var r := Rounds(sv, keys, d, c, n); r.None? || !Settled(sv, keys, d, r.value))
  {
    hide *;
    if Fillable(sv, d, c) && !Hopeless(sv, keys, d, Tightened(sv, d, c)) {
      GoodSettles(sv, keys, d, c);
    } else {
      forall n: nat ensures var r := Rounds(sv, keys, d, c, n); r.None? || !Settled(sv, keys, d, r.value) {
        OthersNeverDo(sv, keys, d, c, n);
      }
    }
  }

  /** Three rounds are the first and two more. */
  lemma RoundsBehind(sv: Server, keys: seq<string>, d: Column, c: Stored)
    ensures Rounds(sv, keys, d, c, 3) == var r := Round(sv, keys, d, c); if r.None? then None else Rounds(sv, keys, d, r.value, 2)
  {
    hide Round;
  }

  lemma RoundsStart(sv: Server, keys: seq<string>, d: Column, c: Stored, n: nat)
    ensures n == 0 ==> Rounds(sv, keys, d, c, n) == Some(c)
    ensures n > 0 ==>
      Rounds(sv, keys, d, c, n) == var r := Round(sv, keys, d, c); if r.None? then None else Rounds(sv, keys, d, r.value, n - 1)
  {
    hide Round;
  }

  /** Settled means as declared, or exempt. */
  lemma SettledIsMet(sv: Server, keys: seq<string>, d: Column, c: Stored)
    requires Settled(sv, keys, d, c) && !AutoNumbered(d.dataType) && d.name !in keys
    ensures Met(sv, d, c)
  {
    hide Settled, DefaultMet;
    SettledIff(sv, keys, d, c);
  }

  // ----- the order of the changes ------------------------------------------------------------------------

  /** Type, default, nullability. */
  function Rank(c: Change): nat {
    match c
    case ToType(_) => 0
    case ToArrayOf(_) => 0
    case NewDefault(_) => 1
    case NoDefault => 1
    case Nullable => 2
  }

  lemma ChangesAreOrdered(keys: seq<string>, d: Column, e: Column)
    ensures var cs := Changes(keys, d, e); forall i, j :: 0 <= i < j < |cs| ==> Rank(cs[i]) < Rank(cs[j])
  {
    hide DefaultsEqual, FormatColumnDefault;
    var a, b, n := TypeChanges(d, e), DefaultChanges(d, e), NullChanges(keys, d, e);
    assert |a| <= 1 && |b| <= 1 && |n| <= 1;
  }
}
