/** Running the plan of a whole table: section by section, each on its own part of the catalog. */
module TableLaws {
  import opened Options
  import opened Collections
  import opened Text
  import opened Comparators
  import opened IndexElements
  import opened Names
  import opened Diff
  import opened DiffLaws
  import opened IndexPlan
  import opened TablePlan

  // ----- the catalog ---------------------------------------------------------------------------

  /** One name map per family; `keys` names the primary and foreign keys. */
  datatype TableCatalog = TableCatalog(
    checks: map<string, CheckConstraint>, indexes: IndexCatalog, exclusions: map<string, ExclusionConstraint>,
    triggers: map<string, Trigger>, flags: Flags, policies: map<string, Policy>, keys: set<string>)

  /** `drop constraint` aimed at a plain index drops whatever constraint has that name. */
  function StrayStep(cat: TableCatalog, n: string): Option<TableCatalog> {
    if n in cat.checks then Some(cat.(checks := cat.checks - {n}))
    else if n in cat.exclusions then Some(cat.(exclusions := cat.exclusions - {n}))
    else if n in cat.keys then Some(cat.(keys := cat.keys - {n}))
    else None
  }

  function FlagStep(flags: Flags, s: FlagStmt): Flags {
    match s
    case SetEnabled(on) => flags.(enabled := on)
    case SetForced(on) => flags.(forced := on)
  }

  function FlagExec(flags: Flags, plan: seq<FlagStmt>): Flags
    decreases |plan|
  {
    if plan == [] then flags else FlagExec(FlagStep(flags, plan[0]), plan[1..])
  }

  /** Every statement works on the part of the catalog its family lives in, unless it strays. */
  function TableStep(e: Server, cat: TableCatalog, s: TableStmt): Option<TableCatalog>
    requires HexDigest(e.hash)
  {
    match s
    case OnCheck(x) =>
      var r := Diff.Step(Checks(e), cat.checks, x);
      if r.None? then None else Some(cat.(checks := r.value))
    case OnIndex(x) =>
      if Strays(cat.indexes, x) then StrayStep(cat, x.name) else
      var r := IndexStep(e.index, cat.indexes, x);
      if r.None? then None else Some(cat.(indexes := r.value))
    case OnExclusion(x) =>
      var r := Diff.Step(Exclusions(e), cat.exclusions, x);
      if r.None? then None else Some(cat.(exclusions := r.value))
    case OnTrigger(x) =>
      var r := Diff.Step(Triggers(e), cat.triggers, x);
      if r.None? then None else Some(cat.(triggers := r.value))
    case OnFlag(x) => Some(cat.(flags := FlagStep(cat.flags, x)))
    case OnPolicy(x) =>
      var r := Diff.Step(Policies(e), cat.policies, x);
      if r.None? then None else Some(cat.(policies := r.value))
  }

  function TableExec(e: Server, cat: TableCatalog, plan: seq<TableStmt>): Option<TableCatalog>
    requires HexDigest(e.hash)
    decreases |plan|
  {
    if plan == [] then Some(cat) else
    var next := TableStep(e, cat, plan[0]);
    if next.None? then None else TableExec(e, next.value, plan[1..])
  }

  // ----- the statements of one family ------------------------------------------------------------

  function Pick<S>(plan: seq<TableStmt>, pick: TableStmt -> Option<S>): seq<S> {
    if plan == [] then []
    else (if pick(plan[0]).Some? then [pick(plan[0]).value] else []) + Pick(plan[1..], pick)
  }

  function PickCheck(s: TableStmt): Option<Stmt<CheckSpec>> { if s.OnCheck? then Some(s.check) else None }
  function PickIndex(s: TableStmt): Option<IndexStmt> { if s.OnIndex? then Some(s.index) else None }
  function PickExclusion(s: TableStmt): Option<Stmt<ExclusionConstraint>> { if s.OnExclusion? then Some(s.exclusion) else None }
  function PickTrigger(s: TableStmt): Option<Stmt<TriggerSpec>> { if s.OnTrigger? then Some(s.trigger) else None }
  function PickFlag(s: TableStmt): Option<FlagStmt> { if s.OnFlag? then Some(s.flag) else None }
  function PickPolicy(s: TableStmt): Option<Stmt<PolicySpec>> { if s.OnPolicy? then Some(s.policy) else None }

  lemma {:induction false} PickConcat<S>(p: seq<TableStmt>, q: seq<TableStmt>, pick: TableStmt -> Option<S>)
    ensures Pick(p + q, pick) == Pick(p, pick) + Pick(q, pick)
    decreases |p|
  {
    if p == [] {
      assert p + q == q;
    } else {
      assert (p + q)[0] == p[0] && (p + q)[1..] == p[1..] + q;
      PickConcat(p[1..], q, pick);
      Associative(if pick(p[0]).Some? then [pick(p[0]).value] else [], Pick(p[1..], pick), Pick(q, pick));
    }
  }

  lemma {:induction false} PickOwn<S>(plan: seq<S>, wrap: S -> TableStmt, pick: TableStmt -> Option<S>)
    requires forall i :: 0 <= i < |plan| ==> pick(wrap(plan[i])) == Some(plan[i])
    ensures Pick(Lift(plan, wrap), pick) == plan
    decreases |plan|
  {
    if plan != [] {
      forall i | 0 <= i < |plan[1..]| ensures pick(wrap(plan[1..][i])) == Some(plan[1..][i]) {
        assert plan[1..][i] == plan[i + 1];
      }
      PickOwn(plan[1..], wrap, pick);
      var l := Lift(plan, wrap);
      assert l[0] == wrap(plan[0]) && l[1..] == Lift(plan[1..], wrap);
      assert [plan[0]] + plan[1..] == plan;
    }
  }

  lemma {:induction false} PickOther<S, T>(plan: seq<S>, wrap: S -> TableStmt, pick: TableStmt -> Option<T>)
    requires forall i :: 0 <= i < |plan| ==> pick(wrap(plan[i])) == None
    ensures Pick(Lift(plan, wrap), pick) == []
    decreases |plan|
  {
    if plan != [] {
      forall i | 0 <= i < |plan[1..]| ensures pick(wrap(plan[1..][i])) == None {
        assert plan[1..][i] == plan[i + 1];
      }
      PickOther(plan[1..], wrap, pick);
      var l := Lift(plan, wrap);
      assert l[0] == wrap(plan[0]) && l[1..] == Lift(plan[1..], wrap);
    }
  }

  /** The flattened plan, read for one family: its sections' shares in order. */
  lemma PickFlatten<S>(x: Sections, pick: TableStmt -> Option<S>)
    ensures Pick(x.Flatten(), pick) ==
      Pick(Lift(x.checks, WrapCheck), pick) + Pick(Lift(x.indexes, WrapIndex), pick)
      + Pick(Lift(x.exclusions, WrapExclusion), pick) + Pick(Lift(x.triggers, WrapTrigger), pick)
      + Pick(Lift(x.flags, WrapFlag), pick) + Pick(Lift(x.policies, WrapPolicy), pick)
  {
    hide Pick, Lift;
    var a, b, c := Lift(x.checks, WrapCheck), Lift(x.indexes, WrapIndex), Lift(x.exclusions, WrapExclusion);
    var d, f, g := Lift(x.triggers, WrapTrigger), Lift(x.flags, WrapFlag), Lift(x.policies, WrapPolicy);
    PickConcat(a + b + c + d + f, g, pick);
    PickConcat(a + b + c + d, f, pick);
    PickConcat(a + b + c, d, pick);
    PickConcat(a + b, c, pick);
    PickConcat(a, b, pick);
  }

  lemma PickChecks(x: Sections)
    ensures Pick(x.Flatten(), PickCheck) == x.checks
  {
    hide Pick, Lift;
    PickFlatten(x, PickCheck);
    PickOwn(x.checks, WrapCheck, PickCheck);
    PickOther(x.indexes, WrapIndex, PickCheck);
    PickOther(x.exclusions, WrapExclusion, PickCheck);
    PickOther(x.triggers, WrapTrigger, PickCheck);
    PickOther(x.flags, WrapFlag, PickCheck);
    PickOther(x.policies, WrapPolicy, PickCheck);
  }

  lemma PickIndexes(x: Sections)
    ensures Pick(x.Flatten(), PickIndex) == x.indexes
  {
    hide Pick, Lift;
    PickFlatten(x, PickIndex);
    PickOther(x.checks, WrapCheck, PickIndex);
    PickOwn(x.indexes, WrapIndex, PickIndex);
    PickOther(x.exclusions, WrapExclusion, PickIndex);
    PickOther(x.triggers, WrapTrigger, PickIndex);
    PickOther(x.flags, WrapFlag, PickIndex);
    PickOther(x.policies, WrapPolicy, PickIndex);
  }

  lemma PickExclusions(x: Sections)
    ensures Pick(x.Flatten(), PickExclusion) == x.exclusions
  {
    hide Pick, Lift;
    PickFlatten(x, PickExclusion);
    PickOther(x.checks, WrapCheck, PickExclusion);
    PickOther(x.indexes, WrapIndex, PickExclusion);
    PickOwn(x.exclusions, WrapExclusion, PickExclusion);
    PickOther(x.triggers, WrapTrigger, PickExclusion);
    PickOther(x.flags, WrapFlag, PickExclusion);
    PickOther(x.policies, WrapPolicy, PickExclusion);
  }

  lemma PickTriggers(x: Sections)
    ensures Pick(x.Flatten(), PickTrigger) == x.triggers
  {
    hide Pick, Lift;
    PickFlatten(x, PickTrigger);
    PickOther(x.checks, WrapCheck, PickTrigger);
    PickOther(x.indexes, WrapIndex, PickTrigger);
    PickOther(x.exclusions, WrapExclusion, PickTrigger);
    PickOwn(x.triggers, WrapTrigger, PickTrigger);
    PickOther(x.flags, WrapFlag, PickTrigger);
    PickOther(x.policies, WrapPolicy, PickTrigger);
  }

  lemma PickFlags(x: Sections)
    ensures Pick(x.Flatten(), PickFlag) == x.flags
  {
    hide Pick, Lift;
    PickFlatten(x, PickFlag);
    PickOther(x.checks, WrapCheck, PickFlag);
    PickOther(x.indexes, WrapIndex, PickFlag);
    PickOther(x.exclusions, WrapExclusion, PickFlag);
    PickOther(x.triggers, WrapTrigger, PickFlag);
    PickOwn(x.flags, WrapFlag, PickFlag);
    PickOther(x.policies, WrapPolicy, PickFlag);
  }

  lemma PickPolicies(x: Sections)
    ensures Pick(x.Flatten(), PickPolicy) == x.policies
  {
    hide Pick, Lift;
    PickFlatten(x, PickPolicy);
    PickOther(x.checks, WrapCheck, PickPolicy);
    PickOther(x.indexes, WrapIndex, PickPolicy);
    PickOther(x.exclusions, WrapExclusion, PickPolicy);
    PickOther(x.triggers, WrapTrigger, PickPolicy);
    PickOther(x.flags, WrapFlag, PickPolicy);
    PickOwn(x.policies, WrapPolicy, PickPolicy);
  }

  // ----- families do not interfere ---------------------------------------------------------------

  /** The catalog that results if every family's share runs on its own part, if they all do. */
  function Apart(e: Server, cat: TableCatalog, plan: seq<TableStmt>): Option<TableCatalog>
    requires HexDigest(e.hash)
  {
    var checks := Exec(Checks(e), cat.checks, Pick(plan, PickCheck));
    var indexes := IndexExec(e.index, cat.indexes, Pick(plan, PickIndex));
    var exclusions := Exec(Exclusions(e), cat.exclusions, Pick(plan, PickExclusion));
    var triggers := Exec(Triggers(e), cat.triggers, Pick(plan, PickTrigger));
    var flags := FlagExec(cat.flags, Pick(plan, PickFlag));
    var policies := Exec(Policies(e), cat.policies, Pick(plan, PickPolicy));
    if checks.Some? && indexes.Some? && exclusions.Some? && triggers.Some? && policies.Some?
    then Some(TableCatalog(checks.value, indexes.value, exclusions.value, triggers.value, flags, policies.value, cat.keys))
    else None
  }

  lemma ExecHead<D, C>(f: Family<D, C>, cat: map<string, C>, s: Stmt<D>, rest: seq<Stmt<D>>)
    ensures Exec(f, cat, [s] + rest) ==
      if Diff.Step(f, cat, s).None? then None else Exec(f, Diff.Step(f, cat, s).value, rest)
  {
    assert ([s] + rest)[1..] == rest;
  }

  lemma IndexExecHead(render: IndexSpec -> Index, cat: IndexCatalog, s: IndexStmt, rest: seq<IndexStmt>)
    ensures IndexExec(render, cat, [s] + rest) ==
      if IndexStep(render, cat, s).None? then None else IndexExec(render, IndexStep(render, cat, s).value, rest)
  {
    assert ([s] + rest)[1..] == rest;
  }

  lemma FlagExecHead(flags: Flags, s: FlagStmt, rest: seq<FlagStmt>)
    ensures FlagExec(flags, [s] + rest) == FlagExec(FlagStep(flags, s), rest)
  {
    assert ([s] + rest)[1..] == rest;
  }

  lemma PickHead<S>(plan: seq<TableStmt>, pick: TableStmt -> Option<S>)
    requires plan != []
    ensures Pick(plan, pick) ==
      if pick(plan[0]).Some? then [pick(plan[0]).value] + Pick(plan[1..], pick) else Pick(plan[1..], pick)
  {
  }

  lemma OneStepApart(e: Server, cat: TableCatalog, plan: seq<TableStmt>)
    requires HexDigest(e.hash) && plan != [] && (plan[0].OnIndex? ==> !Strays(cat.indexes, plan[0].index))
    ensures var next := TableStep(e, cat, plan[0]);
      Apart(e, cat, plan) == if next.None? then None else Apart(e, next.value, plan[1..])
  {
    hide Pick, Exec, IndexExec, FlagExec, Diff.Step, IndexStep, FlagStep, Checks, Exclusions, Triggers, Policies, HexDigest,
      Strays, StrayStep;
    PickHead(plan, PickCheck);
    PickHead(plan, PickIndex);
    PickHead(plan, PickExclusion);
    PickHead(plan, PickTrigger);
    PickHead(plan, PickFlag);
    PickHead(plan, PickPolicy);
    match plan[0]
    case OnCheck(s) => ExecHead(Checks(e), cat.checks, s, Pick(plan[1..], PickCheck));
    case OnIndex(s) => IndexExecHead(e.index, cat.indexes, s, Pick(plan[1..], PickIndex));
    case OnExclusion(s) => ExecHead(Exclusions(e), cat.exclusions, s, Pick(plan[1..], PickExclusion));
    case OnTrigger(s) => ExecHead(Triggers(e), cat.triggers, s, Pick(plan[1..], PickTrigger));
    case OnFlag(s) => FlagExecHead(cat.flags, s, Pick(plan[1..], PickFlag));
    case OnPolicy(s) => ExecHead(Policies(e), cat.policies, s, Pick(plan[1..], PickPolicy));
  }

  lemma NothingApart(e: Server, cat: TableCatalog)
    requires HexDigest(e.hash)
    ensures Apart(e, cat, []) == Some(cat)
  {
  }

  lemma NeverStraysHead(render: IndexSpec -> Index, cat: IndexCatalog, s: IndexStmt, rest: seq<IndexStmt>)
    requires NeverStrays(render, cat, [s] + rest)
    ensures !Strays(cat, s)
    ensures IndexStep(render, cat, s).Some? ==> NeverStrays(render, IndexStep(render, cat, s).value, rest)
  {
    hide Strays, IndexStep;
    assert ([s] + rest)[1..] == rest && ([s] + rest)[0] == s;
  }

  /** The share of the indexes in the statements to come never strays either. */
  lemma NeverStraysNext(e: Server, cat: TableCatalog, plan: seq<TableStmt>)
    requires HexDigest(e.hash) && plan != [] && NeverStrays(e.index, cat.indexes, Pick(plan, PickIndex))
    ensures plan[0].OnIndex? ==> !Strays(cat.indexes, plan[0].index)
    ensures var next := TableStep(e, cat, plan[0]);
      next.Some? ==> NeverStrays(e.index, next.value.indexes, Pick(plan[1..], PickIndex))
  {
    hide Pick, NeverStrays, Diff.Step, IndexStep, FlagStep, Checks, Exclusions, Triggers, Policies, HexDigest, Strays, StrayStep;
    PickHead(plan, PickIndex);
    if plan[0].OnIndex? {
      NeverStraysHead(e.index, cat.indexes, plan[0].index, Pick(plan[1..], PickIndex));
    }
  }

  /** If no index removal strays, any interleaving does to each family what the family's own statements do. */
  lemma {:induction false} RunsApart(e: Server, cat: TableCatalog, plan: seq<TableStmt>)
    requires HexDigest(e.hash) && NeverStrays(e.index, cat.indexes, Pick(plan, PickIndex))
    ensures TableExec(e, cat, plan) == Apart(e, cat, plan)
    decreases |plan|
  {
    hide Apart, TableStep, HexDigest, NeverStrays, Pick, Strays;
    if plan == [] {
      NothingApart(e, cat);
    } else {
      NeverStraysNext(e, cat, plan);
      OneStepApart(e, cat, plan);
      var next := TableStep(e, cat, plan[0]);
      if next.Some? {
        RunsApart(e, next.value, plan[1..]);
      }
    }
  }

  lemma {:induction false} NeverStraysPrefix(render: IndexSpec -> Index, cat: IndexCatalog, plan: seq<IndexStmt>, k: nat)
    requires NeverStrays(render, cat, plan) && k <= |plan|
    ensures NeverStrays(render, cat, plan[..k])
    decreases k
  {
    hide Strays, IndexStep;
    if k > 0 {
      assert plan[..k][0] == plan[0] && plan[..k][1..] == plan[1..][..k - 1];
      var next := IndexStep(render, cat, plan[0]);
      if next.Some? {
        NeverStraysPrefix(render, next.value, plan[1..], k - 1);
      }
    }
  }

  // ----- the flags -------------------------------------------------------------------------------

  /** A toggle word asks for nothing, or for the flag to be on or off. */
  predicate ToggleMet(desired: string, flag: bool, onWord: string, offWord: string) {
    var word := Lower(Trim(desired));
    word == "" || (word == onWord && flag) || (word == offWord && !flag)
  }

  lemma ToggleWorks(desired: string, current: bool, onWord: string, offWord: string)
    requires onWord != offWord && onWord != "" && offWord != ""
    ensures var t := Toggle(desired, current, onWord, offWord);
      && (t.Ok? <==> var w := Lower(Trim(desired)); w == "" || w == onWord || w == offWord)
      && (t.Ok? && t.value.Some? ==> t.value.value != current && ToggleMet(desired, t.value.value, onWord, offWord))
      && (t.Ok? && t.value.None? <==> ToggleMet(desired, current, onWord, offWord))
  {
    hide Lower, Trim;
  }

  lemma FlagWords()
    ensures "enable" != "disable" && "force" != "noforce" && "enable" != "" && "disable" != "" && "force" != "" && "noforce" != ""
  {
    assert "enable"[0] != "disable"[0] && "force"[0] != "noforce"[0];
  }

  predicate FlagsMet(t: Toggles, flags: Flags) {
    ToggleMet(t.enable, flags.enabled, "enable", "disable") && ToggleMet(t.force, flags.forced, "force", "noforce")
  }

  lemma FlagsReached(t: Toggles, flags: Flags)
    ensures var r := RowSecurityFlags(t, flags);
      && (r.Ok? ==> FlagsMet(t, FlagExec(flags, r.value)))
      && (FlagsMet(t, flags) ==> r == Ok([]))
  {
    FlagWords();
    ToggleWorks(t.enable, flags.enabled, "enable", "disable");
    ToggleWorks(t.force, flags.forced, "force", "noforce");
    hide Toggle, ToggleMet, FlagExec;
    var en, fo := EnableToggle(t, flags), ForceToggle(t, flags);
    if en.Ok? && fo.Ok? {
      FlagsRun(flags, en.value, fo.value);
    }
  }

  lemma FlagsRun(flags: Flags, enable: Option<bool>, force: Option<bool>)
    ensures FlagExec(flags, FlagStatements(enable, force)) ==
      Flags(if enable.Some? then enable.value else flags.enabled, if force.Some? then force.value else flags.forced)
  {
    var rest := if force.Some? then [SetForced(force.value)] else [];
    if force.Some? {
      assert rest[1..] == [];
    }
    if enable.Some? {
      FlagExecHead(flags, SetEnabled(enable.value), rest);
    } else {
      assert FlagStatements(enable, force) == rest;
    }
  }

  // ----- the whole table -------------------------------------------------------------------------

  /** The listing reports the catalog: every family in any order, and every constraint's name. */
  ghost predicate Reports(e: Server, cur: Listing, cat: TableCatalog)
    requires HexDigest(e.hash)
  {
    && Lists(Checks(e), cur.checks, cat.checks)
    && Lists(Indexes(e.index), cur.indexes, cat.indexes.indexes)
    && ListsConstraints(cur.constraints, cat.indexes)
    && Lists(Exclusions(e), cur.exclusions, cat.exclusions)
    && Lists(Triggers(e), cur.triggers, cat.triggers)
    && cur.flags == cat.flags
    && Lists(Policies(e), cur.policies, cat.policies)
  }

  ghost predicate DeclaresFamily<D, C>(f: Family<D, C>, ds: seq<D>) {
    DistinctDesired(f, ds) && Renders(f, ds)
  }

  /** Distinct names, and a server that lists what it was told to create; policies matter only if managed. */
  ghost predicate Declares(e: Server, spec: TableSpec)
    requires HexDigest(e.hash)
  {
    && DeclaresFamily(Checks(e), spec.checks)
    && DeclaresFamily(Indexes(e.index), NamedIndexes(e, spec))
    && DeclaresFamily(Exclusions(e), spec.exclusions)
    && DeclaresFamily(Triggers(e), DesiredTriggers(spec))
    && (spec.rowSecurity.Some? ==> DeclaresFamily(Policies(e), spec.policies))
  }

  /**
   Every declared object is stored as declared or has a name the server files verbatim, and a
   plain index that shares its name with a constraint is declared as it is stored.
   */
  ghost predicate TableFits(e: Server, spec: TableSpec, cur: Listing, cat: TableCatalog)
    requires HexDigest(e.hash)
  {
    && AllFit(Checks(e), spec.checks, cat.checks)
    && AllFit(Indexes(e.index), NamedIndexes(e, spec), cat.indexes.indexes)
    && ConfusedKept(e.index, NamedIndexes(e, spec), cur.constraints, cat.indexes)
    && AllFit(Exclusions(e), spec.exclusions, cat.exclusions)
    && AllFit(Triggers(e), DesiredTriggers(spec), cat.triggers)
    && (spec.rowSecurity.Some? ==> AllFit(Policies(e), spec.policies, cat.policies))
  }

  lemma FamilyIsManageable<D, C>(f: Family<D, C>, ds: seq<D>, cat: map<string, C>)
    ensures Manageable(f, ds, cat) <==> DeclaresFamily(f, ds) && AllFit(f, ds, cat)
  {
    hide DistinctDesired, Renders, AllFit;
  }

  /** Every family holds exactly the declared objects; unmanaged row security is as it was. */
  ghost predicate TableReached(e: Server, spec: TableSpec, cat: TableCatalog, end: TableCatalog)
    requires HexDigest(e.hash)
  {
    && Reached(Checks(e), cat.checks, spec.checks, end.checks)
    && Reached(Indexes(e.index), cat.indexes.indexes, NamedIndexes(e, spec), end.indexes.indexes)
    && end.indexes.backed <= cat.indexes.backed
    && Reached(Exclusions(e), cat.exclusions, spec.exclusions, end.exclusions)
    && Reached(Triggers(e), cat.triggers, DesiredTriggers(spec), end.triggers)
    && end.keys == cat.keys
    && match spec.rowSecurity {
      case None => end.flags == cat.flags && end.policies == cat.policies
      case Some(t) => FlagsMet(t, end.flags) && Reached(Policies(e), cat.policies, spec.policies, end.policies)
    }
  }

  lemma CheckedPlan<D, C>(f: Family<D, C>, error: D -> Option<string>, ds: seq<D>, cur: seq<C>)
    ensures var r := Checked(f, error, ds, cur);
      && (r.Ok? <==> FirstError(ds, error).None?)
      && (r.Ok? ==> r.value == Plan(f, ds, cur))
  {
    hide Plan;
  }

  /** The sections of an accepted plan. */
  lemma SectionsAre(e: Server, spec: TableSpec, cur: Listing)
    requires HexDigest(e.hash) && SectionsOf(e, spec, cur).Ok?
    ensures var x := SectionsOf(e, spec, cur).value;
      && x.checks == Plan(Checks(e), spec.checks, cur.checks)
      && x.indexes == IndexStatements(true, NamedIndexes(e, spec), cur.indexes, cur.constraints)
      && x.exclusions == Plan(Exclusions(e), spec.exclusions, cur.exclusions)
      && x.triggers == Plan(Triggers(e), DesiredTriggers(spec), cur.triggers)
      && match spec.rowSecurity {
        case None => x.flags == [] && x.policies == []
        case Some(t) =>
          RowSecurityFlags(t, cur.flags) == Ok(x.flags) && x.policies == Plan(Policies(e), spec.policies, cur.policies)
      }
  {
    hide Plan, IndexStatements, NamedIndexes, Checked, RowSecurityFlags, HexDigest, FirstError, Checks, Exclusions, Triggers,
      Policies, DesiredTriggers;
    CheckedPlan(Triggers(e), TriggerError, DesiredTriggers(spec), cur.triggers);
    CheckedPlan(Policies(e), PolicyError, spec.policies, cur.policies);
  }

  lemma SectionsRun(e: Server, spec: TableSpec, cur: Listing, cat: TableCatalog, x: Sections) returns (end: TableCatalog)
    requires HexDigest(e.hash) && Reports(e, cur, cat) && Declares(e, spec) && TableFits(e, spec, cur, cat)
    requires SectionsOf(e, spec, cur) == Ok(x)
    ensures Exec(Checks(e), cat.checks, x.checks) == Some(end.checks)
    ensures IndexExec(e.index, cat.indexes, x.indexes) == Some(end.indexes) && NeverStrays(e.index, cat.indexes, x.indexes)
    ensures Exec(Exclusions(e), cat.exclusions, x.exclusions) == Some(end.exclusions)
    ensures Exec(Triggers(e), cat.triggers, x.triggers) == Some(end.triggers)
    ensures FlagExec(cat.flags, x.flags) == end.flags && end.keys == cat.keys
    ensures Exec(Policies(e), cat.policies, x.policies) == Some(end.policies)
    ensures TableReached(e, spec, cat, end)
  {
    hide Plan, IndexStatements, NamedIndexes, RowSecurityFlags, Exec, IndexExec, Reached, Manageable, FlagsMet, ConfusedKept,
      HexDigest, Lists, SectionsOf, Checks, Indexes, Exclusions, Triggers, Policies, DesiredTriggers, Drops, DeclaresFamily,
      AllFit, ListsConstraints, NeverStrays;
    SectionsAre(e, spec, cur);
    FamilyIsManageable(Checks(e), spec.checks, cat.checks);
    FamilyIsManageable(Indexes(e.index), NamedIndexes(e, spec), cat.indexes.indexes);
    FamilyIsManageable(Exclusions(e), spec.exclusions, cat.exclusions);
    FamilyIsManageable(Triggers(e), DesiredTriggers(spec), cat.triggers);
    PlanReachesDesired(Checks(e), spec.checks, cur.checks, cat.checks);
    IndexPlanReachesIff(e.index, NamedIndexes(e, spec), cur.indexes, cur.constraints, cat.indexes);
    PlanReachesDesired(Exclusions(e), spec.exclusions, cur.exclusions, cat.exclusions);
    PlanReachesDesired(Triggers(e), DesiredTriggers(spec), cur.triggers, cat.triggers);
    var policies := cat.policies;
    var flags := cat.flags;
    if spec.rowSecurity.Some? {
      FlagsReached(spec.rowSecurity.value, cat.flags);
      FamilyIsManageable(Policies(e), spec.policies, cat.policies);
      PlanReachesDesired(Policies(e), spec.policies, cur.policies, cat.policies);
      policies := Exec(Policies(e), cat.policies, x.policies).value;
      flags := FlagExec(cat.flags, x.flags);
    } else {
      NothingRuns(Policies(e), cat.policies);
    }
    end := TableCatalog(Exec(Checks(e), cat.checks, x.checks).value, IndexExec(e.index, cat.indexes, x.indexes).value,
      Exec(Exclusions(e), cat.exclusions, x.exclusions).value,
      Exec(Triggers(e), cat.triggers, x.triggers).value, flags, policies, cat.keys);
  }

  lemma NothingRuns<D, C>(f: Family<D, C>, cat: map<string, C>)
    ensures Exec(f, cat, []) == Some(cat)
  {
  }

  /**
   The sections in plan order never drop an absent object or create a present one, and end
   with exactly the declared objects of every family.
   */
  lemma TablePlanReachesDesired(e: Server, spec: TableSpec, cur: Listing, cat: TableCatalog)
    requires HexDigest(e.hash) && Reports(e, cur, cat) && Declares(e, spec) && TableFits(e, spec, cur, cat)
    requires TableStatements(e, spec, cur).Ok?
    ensures var end := TableExec(e, cat, TableStatements(e, spec, cur).value);
      end.Some? && TableReached(e, spec, cat, end.value)
  {
    var x := SectionsOf(e, spec, cur).value;
    hide SectionsOf, Reports, Declares, TableFits, TableReached, Exec, IndexExec, FlagExec, TableExec, Pick, HexDigest, Sections.Flatten,
      NeverStrays;
    var end := SectionsRun(e, spec, cur, cat, x);
    PickIndexes(x);
    RunsApart(e, cat, x.Flatten());
    PickChecks(x);
    PickExclusions(x);
    PickTriggers(x);
    PickFlags(x);
    PickPolicies(x);
  }

  /** From where a plan has ended, every listing plans nothing. */
  lemma TableReplanIsEmpty(e: Server, spec: TableSpec, cat: TableCatalog, end: TableCatalog, relisted: Listing)
    requires HexDigest(e.hash) && TableReached(e, spec, cat, end) && Reports(e, relisted, end)
    ensures TableStatements(e, spec, relisted).Ok? ==> TableStatements(e, spec, relisted) == Ok([])
  {
    if SectionsOf(e, spec, relisted).Ok? {
      var x := SectionsOf(e, spec, relisted).value;
      hide SectionsOf, Plan, IndexStatements, NamedIndexes, RowSecurityFlags, Reached, HexDigest, Lists, ListsConstraints,
        Checks, Indexes, Exclusions, Triggers, Policies, DesiredTriggers, FlagsMet;
      SectionsAre(e, spec, relisted);
      ReplanIsEmpty(Checks(e), spec.checks, cat.checks, end.checks, relisted.checks);
      IndexReplanIsEmpty(e.index, NamedIndexes(e, spec), cat.indexes.indexes, end.indexes.indexes, relisted.indexes, relisted.constraints);
      ReplanIsEmpty(Exclusions(e), spec.exclusions, cat.exclusions, end.exclusions, relisted.exclusions);
      ReplanIsEmpty(Triggers(e), DesiredTriggers(spec), cat.triggers, end.triggers, relisted.triggers);
      if spec.rowSecurity.Some? {
        FlagsReached(spec.rowSecurity.value, end.flags);
        ReplanIsEmpty(Policies(e), spec.policies, cat.policies, end.policies, relisted.policies);
      }
      EmptySections(x);
    }
  }

  lemma EmptySections(x: Sections)
    requires x == Sections([], [], [], [], [], [])
    ensures x.Flatten() == []
  {
  }

  // ----- when a schema is refused --------------------------------------------------------------------

  predicate Acceptable(spec: TableSpec, cur: Listing) {
    && FirstError(DesiredTriggers(spec), TriggerError).None?
    && (spec.rowSecurity.Some? ==>
      && FirstError(spec.policies, PolicyError).None?
      && EnableToggle(spec.rowSecurity.value, cur.flags).Ok?
      && ForceToggle(spec.rowSecurity.value, cur.flags).Ok?)
  }

  lemma {:induction false} FirstErrorNone<D>(ds: seq<D>, error: D -> Option<string>)
    ensures FirstError(ds, error).None? <==> forall i :: 0 <= i < |ds| ==> error(ds[i]).None?
  {
    if ds != [] {
      FirstErrorNone(ds[1..], error);
      if FirstError(ds[1..], error).None? && error(ds[0]).None? {
        forall i | 0 <= i < |ds| ensures error(ds[i]).None? {
          if i > 0 { assert ds[i] == ds[1..][i - 1]; }
        }
      }
      if forall i :: 0 <= i < |ds| ==> error(ds[i]).None? {
        forall i | 0 <= i < |ds[1..]| ensures error(ds[1..][i]).None? {
          assert ds[1..][i] == ds[i + 1];
        }
      }
    }
  }

  predicate ToggleWord(desired: string, onWord: string, offWord: string) {
    var w := Lower(Trim(desired));
    w == "" || w == onWord || w == offWord
  }

  predicate TriggersNamed(ts: seq<TriggerSpec>) {
    forall i :: 0 <= i < |ts| ==> ts[i].name != "" && ts[i].text.Ok?
  }

  predicate PoliciesNamed(ps: seq<PolicySpec>) {
    forall i :: 0 <= i < |ps| ==> ps[i].name != ""
  }

  lemma NoTriggerError(ts: seq<TriggerSpec>)
    ensures FirstError(ts, TriggerError).None? <==> TriggersNamed(ts)
  {
    hide FirstError;
    FirstErrorNone(ts, TriggerError);
    assert forall i :: 0 <= i < |ts| ==> (TriggerError(ts[i]).None? <==> ts[i].name != "" && ts[i].text.Ok?);
  }

  lemma NoPolicyError(ps: seq<PolicySpec>)
    ensures FirstError(ps, PolicyError).None? <==> PoliciesNamed(ps)
  {
    hide FirstError;
    FirstErrorNone(ps, PolicyError);
    assert forall i :: 0 <= i < |ps| ==> (PolicyError(ps[i]).None? <==> ps[i].name != "");
  }

  lemma TogglesAccepted(t: Toggles, flags: Flags)
    ensures EnableToggle(t, flags).Ok? <==> ToggleWord(t.enable, "enable", "disable")
    ensures ForceToggle(t, flags).Ok? <==> ToggleWord(t.force, "force", "noforce")
  {
    hide Lower, Trim;
    FlagWords();
    ToggleWorks(t.enable, flags.enabled, "enable", "disable");
    ToggleWorks(t.force, flags.forced, "force", "noforce");
  }

  /** A plan is refused exactly for an unnamed or unrenderable trigger, an unnamed policy or a misspelt toggle. */
  lemma PlanAcceptedIff(e: Server, spec: TableSpec, cur: Listing)
    requires HexDigest(e.hash)
    ensures TableStatements(e, spec, cur).Ok? <==>
      && TriggersNamed(DesiredTriggers(spec))
      && (spec.rowSecurity.Some? ==>
        && PoliciesNamed(spec.policies)
        && ToggleWord(spec.rowSecurity.value.enable, "enable", "disable")
        && ToggleWord(spec.rowSecurity.value.force, "force", "noforce"))
  {
    hide TableStatements, FirstError, TriggersNamed, PoliciesNamed, ToggleWord, EnableToggle, ForceToggle, HexDigest, DesiredTriggers;
    AcceptedIff(e, spec, cur);
    NoTriggerError(DesiredTriggers(spec));
    NoPolicyError(spec.policies);
    if spec.rowSecurity.Some? {
      TogglesAccepted(spec.rowSecurity.value, cur.flags);
    }
  }

  lemma AcceptedIff(e: Server, spec: TableSpec, cur: Listing)
    requires HexDigest(e.hash)
    ensures TableStatements(e, spec, cur).Ok? <==> Acceptable(spec, cur)
  {
    hide Plan, IndexStatements, NamedIndexes, Checked, HexDigest, FirstError, Toggle, Checks, Exclusions, Triggers, Policies,
      Sections.Flatten;
    CheckedPlan(Triggers(e), TriggerError, DesiredTriggers(spec), cur.triggers);
    CheckedPlan(Policies(e), PolicyError, spec.policies, cur.policies);
  }

  // ----- every prefix of the whole plan ------------------------------------------------------------------

  lemma {:induction false} TableExecSplit(e: Server, cat: TableCatalog, p: seq<TableStmt>, q: seq<TableStmt>)
    requires HexDigest(e.hash) && TableExec(e, cat, p + q).Some?
    ensures TableExec(e, cat, p).Some? && TableExec(e, TableExec(e, cat, p).value, q) == TableExec(e, cat, p + q)
    decreases |p|
  {
    hide TableStep, HexDigest;
    if p == [] {
      assert p + q == q;
    } else {
      assert (p + q)[0] == p[0] && (p + q)[1..] == p[1..] + q;
      TableExecSplit(e, TableStep(e, cat, p[0]).value, p[1..], q);
    }
  }

  /** A family's share of a prefix of the plan is a prefix of its share of the plan. */
  lemma PickPrefix<S>(plan: seq<TableStmt>, k: nat, pick: TableStmt -> Option<S>)
    requires k <= |plan|
    ensures Pick(plan[..k], pick) <= Pick(plan, pick)
  {
    PickConcat(plan[..k], plan[k..], pick);
    assert plan[..k] + plan[k..] == plan;
  }

  ghost predicate Unchanged<C>(cat: map<string, C>, mid: map<string, C>, n: string) {
    n in cat && n in mid && mid[n] == cat[n]
  }

  ghost predicate KeepsEqual<D, C>(f: Family<D, C>, ds: seq<D>, cat: map<string, C>, mid: map<string, C>) {
    forall i :: 0 <= i < |ds| && Kept(f, ds[i], cat) ==> Unchanged(cat, mid, f.nameOf(ds[i]))
  }

  ghost predicate TableKeepsEqual(e: Server, spec: TableSpec, cat: TableCatalog, mid: TableCatalog)
    requires HexDigest(e.hash)
  {
    && KeepsEqual(Checks(e), spec.checks, cat.checks, mid.checks)
    && KeepsEqual(Indexes(e.index), NamedIndexes(e, spec), cat.indexes.indexes, mid.indexes.indexes)
    && KeepsEqual(Exclusions(e), spec.exclusions, cat.exclusions, mid.exclusions)
    && KeepsEqual(Triggers(e), DesiredTriggers(spec), cat.triggers, mid.triggers)
    && KeepsEqual(Policies(e), spec.policies, cat.policies, mid.policies)
  }

  lemma {:induction false} TaggedPrefix(plan: seq<Stmt<IndexSpec>>, constraints: seq<string>, k: nat)
    requires k <= |Tagged(plan, constraints)|
    ensures k <= |plan| && Tagged(plan[..k], constraints) == Tagged(plan, constraints)[..k]
    decreases |plan|
  {
    hide Tag;
    if k > 0 {
      TaggedPrefix(plan[1..], constraints, k - 1);
      assert plan[..k][1..] == plan[1..][..k - 1] && plan[..k][0] == plan[0];
    }
  }

  lemma DropsPrefix(plan: seq<Stmt<IndexSpec>>, k: nat)
    requires k <= |plan| && NoDuplicates(Drops(plan))
    ensures NoDuplicates(Drops(plan[..k]))
  {
    DropsConcat(plan[..k], plan[k..]);
    assert plan[..k] + plan[k..] == plan;
    var a, b := Drops(plan[..k]), Drops(plan);
    forall i, j | 0 <= i < j < |a| ensures a[i] != a[j] {
      assert b[i] == a[i] && b[j] == a[j];
    }
  }

  lemma DropsPrefixFit(plan: seq<Stmt<IndexSpec>>, k: nat, constraints: seq<string>, backed: set<string>)
    requires k <= |plan| && TagsFit(Drops(plan), constraints, backed)
    ensures TagsFit(Drops(plan[..k]), constraints, backed)
  {
    DropsConcat(plan[..k], plan[k..]);
    assert plan[..k] + plan[k..] == plan;
    var a, b := Drops(plan[..k]), Drops(plan);
    forall i | 0 <= i < |a| ensures a[i] in constraints <==> a[i] in backed {
      assert b[i] == a[i];
    }
  }

  /** The same for indexes, whose removals are tagged. */
  lemma PrefixOfIndexes(render: IndexSpec -> Index, ds: seq<IndexSpec>, cur: seq<Index>, constraints: seq<string>, cat: IndexCatalog,
      mid: IndexCatalog, share: seq<IndexStmt>)
    requires Manageable(Indexes(render), ds, cat.indexes) && Lists(Indexes(render), cur, cat.indexes)
    requires ListsConstraints(constraints, cat) && ConfusedKept(render, ds, constraints, cat)
    requires share <= IndexStatements(true, ds, cur, constraints) && IndexExec(render, cat, share) == Some(mid)
    ensures KeepsEqual(Indexes(render), ds, cat.indexes, mid.indexes)
  {
    var f := Indexes(render);
    assert DistinctDesired(f, ds);
    hide Plan, IndexStatements, Exec, IndexExec, KeepsEqual, Tagged, Drops, NoDuplicates, Indexes, TagsFit, ConfusedKept, ListsConstraints,
      NeverStrays, Manageable;
    var plan, k := Plan(f, ds, cur), |share|;
    IndexStatementsAreDiff(render, ds, cur, constraints);
    TaggedPrefix(plan, constraints, k);
    assert share == Tagged(plan[..k], constraints);
    PlanReachesDesired(f, ds, cur, cat.indexes);
    PrefixRuns(f, cat.indexes, plan, k);
    DropsOnce(f, ds, cur, cat.indexes);
    DropsPrefix(plan, k);
    TagsFitIff(render, ds, cur, constraints, cat);
    DropsPrefixFit(plan, k, constraints, cat.backed);
    TaggedRuns(render, plan[..k], constraints, cat);
    assert plan[..k] <= plan;
    PrefixKeeps(f, ds, cur, cat.indexes, mid.indexes, plan[..k]);
  }

  /** After every prefix of its plan a family keeps what already compared equal. */
  lemma PrefixKeeps<D, C>(f: Family<D, C>, ds: seq<D>, cur: seq<C>, cat: map<string, C>, mid: map<string, C>, share: seq<Stmt<D>>)
    requires Manageable(f, ds, cat) && Lists(f, cur, cat) && share <= Plan(f, ds, cur) && Exec(f, cat, share) == Some(mid)
    ensures KeepsEqual(f, ds, cat, mid)
  {
    hide Plan, Manageable, Lists, Exec;
    forall i | 0 <= i < |ds| && Kept(f, ds[i], cat) ensures Unchanged(cat, mid, f.nameOf(ds[i])) {
      KeptThroughout(f, ds, cur, cat, i, |share|);
      assert Plan(f, ds, cur)[..|share|] == share;
    }
  }

  /** Every family's share of a prefix of the plan is a prefix of its section. */
  ghost predicate PartOf(part: seq<TableStmt>, x: Sections) {
    && Pick(part, PickCheck) <= x.checks && Pick(part, PickIndex) <= x.indexes && Pick(part, PickExclusion) <= x.exclusions
    && Pick(part, PickTrigger) <= x.triggers && Pick(part, PickPolicy) <= x.policies
  }

  lemma SharesArePrefixes(x: Sections, k: nat)
    requires k <= |x.Flatten()|
    ensures PartOf(x.Flatten()[..k], x)
  {
    var plan := x.Flatten();
    hide Pick, Sections.Flatten, PickCheck, PickIndex, PickExclusion, PickTrigger, PickPolicy;
    PickChecks(x);
    PickPrefix(plan, k, PickCheck);
    PickIndexes(x);
    PickPrefix(plan, k, PickIndex);
    PickExclusions(x);
    PickPrefix(plan, k, PickExclusion);
    PickTriggers(x);
    PickPrefix(plan, k, PickTrigger);
    PickPolicies(x);
    PickPrefix(plan, k, PickPolicy);
  }

  lemma PartRuns(e: Server, cat: TableCatalog, x: Sections, k: nat)
    requires HexDigest(e.hash) && k <= |x.Flatten()| && TableExec(e, cat, x.Flatten()).Some?
    requires NeverStrays(e.index, cat.indexes, x.indexes)
    ensures var part := x.Flatten()[..k]; TableExec(e, cat, part).Some? && Apart(e, cat, part) == TableExec(e, cat, part)
  {
    var plan := x.Flatten();
    hide TableExec, Apart, HexDigest, Sections.Flatten, NeverStrays, Pick;
    assert plan[..k] + plan[k..] == plan;
    TableExecSplit(e, cat, plan[..k], plan[k..]);
    PickIndexes(x);
    PickPrefix(plan, k, PickIndex);
    var share := Pick(plan[..k], PickIndex);
    NeverStraysPrefix(e.index, cat.indexes, x.indexes, |share|);
    assert x.indexes[..|share|] == share;
    RunsApart(e, cat, plan[..k]);
  }

  /**
   Stopped anywhere, the plan has left every object that already compared equal in place and
   unchanged, in every family.
   */
  lemma EqualObjectsStay(e: Server, spec: TableSpec, cur: Listing, cat: TableCatalog, k: nat)
    requires HexDigest(e.hash) && Reports(e, cur, cat) && Declares(e, spec) && TableFits(e, spec, cur, cat)
    requires TableStatements(e, spec, cur).Ok? && k <= |TableStatements(e, spec, cur).value|
    ensures var mid := TableExec(e, cat, TableStatements(e, spec, cur).value[..k]);
      mid.Some? && TableKeepsEqual(e, spec, cat, mid.value)
  {
    var plan := TableStatements(e, spec, cur).value;
    var x := SectionsOf(e, spec, cur).value;
    assert plan == x.Flatten();
    hide *;
    TablePlanReachesDesired(e, spec, cur, cat);
    var end := SectionsRun(e, spec, cur, cat, x);
    PartRuns(e, cat, x, k);
    SharesArePrefixes(x, k);
    SharesKeep(e, spec, cur, cat, TableExec(e, cat, plan[..k]).value, plan[..k], x);
  }

  lemma SharesKeep(e: Server, spec: TableSpec, cur: Listing, cat: TableCatalog, mid: TableCatalog, part: seq<TableStmt>, x: Sections)
    requires HexDigest(e.hash) && Reports(e, cur, cat) && Declares(e, spec) && TableFits(e, spec, cur, cat)
    requires SectionsOf(e, spec, cur) == Ok(x)
    requires Apart(e, cat, part) == Some(mid) && PartOf(part, x)
    ensures TableKeepsEqual(e, spec, cat, mid)
  {
    hide Plan, IndexStatements, NamedIndexes, RowSecurityFlags, Exec, IndexExec, FlagExec, Manageable, HexDigest, Lists,
      KeepsEqual, SectionsOf, Checks, Indexes, Exclusions, Triggers, Policies, DesiredTriggers, Pick, DeclaresFamily, AllFit,
      ConfusedKept, ListsConstraints;
    SectionsAre(e, spec, cur);
    FamilyIsManageable(Checks(e), spec.checks, cat.checks);
    FamilyIsManageable(Indexes(e.index), NamedIndexes(e, spec), cat.indexes.indexes);
    FamilyIsManageable(Exclusions(e), spec.exclusions, cat.exclusions);
    FamilyIsManageable(Triggers(e), DesiredTriggers(spec), cat.triggers);
    PrefixKeeps(Checks(e), spec.checks, cur.checks, cat.checks, mid.checks, Pick(part, PickCheck));
    PrefixOfIndexes(e.index, NamedIndexes(e, spec), cur.indexes, cur.constraints, cat.indexes, mid.indexes, Pick(part, PickIndex));
    PrefixKeeps(Exclusions(e), spec.exclusions, cur.exclusions, cat.exclusions, mid.exclusions, Pick(part, PickExclusion));
    PrefixKeeps(Triggers(e), DesiredTriggers(spec), cur.triggers, cat.triggers, mid.triggers, Pick(part, PickTrigger));
    if spec.rowSecurity.Some? {
      FamilyIsManageable(Policies(e), spec.policies, cat.policies);
      PrefixKeeps(Policies(e), spec.policies, cur.policies, cat.policies, mid.policies, Pick(part, PickPolicy));
    } else {
      NothingRuns(Policies(e), cat.policies);
      SameKeeps(Policies(e), spec.policies, cat.policies);
    }
  }

  lemma SameKeeps<D, C>(f: Family<D, C>, ds: seq<D>, cat: map<string, C>)
    ensures KeepsEqual(f, ds, cat, cat)
  {
  }

  // ----- when a table settles ------------------------------------------------------------------------------

  /** The plan is accepted and runs, and every listing of where it ends plans nothing. */
  ghost predicate TableSettles(e: Server, spec: TableSpec, cur: Listing, cat: TableCatalog)
    requires HexDigest(e.hash)
  {
    var plan := TableStatements(e, spec, cur);
    plan.Ok? &&
    var end := TableExec(e, cat, plan.value);
    end.Some? && forall relisted :: Reports(e, relisted, end.value) ==> TableStatements(e, spec, relisted) == Ok([])
  }

  lemma FilingSettlesTruncated(e: Server)
    requires HexDigest(e.hash)
    ensures FilingSettles(Checks(e)) && FilingSettles(Exclusions(e)) && FilingSettles(Triggers(e)) && FilingSettles(Policies(e))
  {
    hide Truncated;
    var a, b, c, d := Checks(e), Exclusions(e), Triggers(e), Policies(e);
    forall n: string
      ensures a.filed(a.filed(n)) == a.filed(n) && b.filed(b.filed(n)) == b.filed(n)
      ensures c.filed(c.filed(n)) == c.filed(n) && d.filed(d.filed(n)) == d.filed(n)
    {
      FilingTwice(n);
    }
  }

  /** An empty plan has only empty sections. */
  lemma SectionsEmpty(x: Sections)
    requires x.Flatten() == []
    ensures x.checks == [] && x.indexes == [] && x.exclusions == [] && x.triggers == [] && x.policies == []
  {
    PickChecks(x);
    PickIndexes(x);
    PickExclusions(x);
    PickTriggers(x);
    PickPolicies(x);
  }

  // ----- listing the end of any run ---------------------------------------------------------------------------

  /** Every stored object carries the name it is filed under. */
  ghost predicate TableNamed(e: Server, cat: TableCatalog)
    requires HexDigest(e.hash)
  {
    && WellNamed(Checks(e), cat.checks) && IndexesNamed(cat.indexes) && WellNamed(Exclusions(e), cat.exclusions)
    && WellNamed(Triggers(e), cat.triggers) && WellNamed(Policies(e), cat.policies)
  }

  predicate RendersName<D, C>(f: Family<D, C>, s: Stmt<D>) {
    s.Create? ==> f.nameIn(f.render(s.desired)) == f.filed(f.nameOf(s.desired))
  }

  /** A created object is listed under the name it was filed under. */
  predicate TableRendersName(e: Server, s: TableStmt)
    requires HexDigest(e.hash)
  {
    match s
    case OnCheck(x) => RendersName(Checks(e), x)
    case OnIndex(x) => x.AddIndex? ==> e.index(x.desired).name == Folded(x.desired.name)
    case OnExclusion(x) => RendersName(Exclusions(e), x)
    case OnTrigger(x) => RendersName(Triggers(e), x)
    case OnFlag(_) => true
    case OnPolicy(x) => RendersName(Policies(e), x)
  }

  lemma StepNamed<D, C>(f: Family<D, C>, cat: map<string, C>, s: Stmt<D>)
    requires WellNamed(f, cat) && RendersName(f, s) && Diff.Step(f, cat, s).Some?
    ensures WellNamed(f, Diff.Step(f, cat, s).value)
  {
  }

  lemma LessNamed<D, C>(f: Family<D, C>, cat: map<string, C>, n: string)
    requires WellNamed(f, cat)
    ensures WellNamed(f, cat - {n})
  {
  }

  lemma TableStepNamed(e: Server, cat: TableCatalog, s: TableStmt)
    requires HexDigest(e.hash) && TableNamed(e, cat) && TableRendersName(e, s) && TableStep(e, cat, s).Some?
    ensures TableNamed(e, TableStep(e, cat, s).value) && TableStep(e, cat, s).value.indexes.backed <= cat.indexes.backed
  {
    hide WellNamed, IndexesNamed, Diff.Step, IndexStep, FlagStep, Checks, Exclusions, Triggers, Policies, HexDigest, RendersName;
    match s {
      case OnCheck(x) => StepNamed(Checks(e), cat.checks, x);
      case OnIndex(x) =>
        if Strays(cat.indexes, x) {
          LessNamed(Checks(e), cat.checks, x.name);
          LessNamed(Exclusions(e), cat.exclusions, x.name);
        } else {
          StepKeepsNames(e.index, cat.indexes, x);
        }
      case OnExclusion(x) => StepNamed(Exclusions(e), cat.exclusions, x);
      case OnTrigger(x) => StepNamed(Triggers(e), cat.triggers, x);
      case OnFlag(x) =>
      case OnPolicy(x) => StepNamed(Policies(e), cat.policies, x);
    }
  }

  lemma {:induction false} TableExecNamed(e: Server, cat: TableCatalog, plan: seq<TableStmt>)
    requires HexDigest(e.hash) && TableNamed(e, cat) && forall i :: 0 <= i < |plan| ==> TableRendersName(e, plan[i])
    requires TableExec(e, cat, plan).Some?
    ensures TableNamed(e, TableExec(e, cat, plan).value) && TableExec(e, cat, plan).value.indexes.backed <= cat.indexes.backed
    decreases |plan|
  {
    hide TableNamed, TableRendersName, TableStep, HexDigest;
    if plan != [] {
      TableStepNamed(e, cat, plan[0]);
      TableExecNamed(e, TableStep(e, cat, plan[0]).value, plan[1..]);
    }
  }

  lemma {:induction false} LiftedAll<S>(plan: seq<S>, wrap: S -> TableStmt, good: TableStmt -> bool)
    requires forall i :: 0 <= i < |plan| ==> good(wrap(plan[i]))
    ensures forall i :: 0 <= i < |Lift(plan, wrap)| ==> good(Lift(plan, wrap)[i])
    decreases |plan|
  {
    if plan != [] {
      forall i | 0 <= i < |plan[1..]| ensures good(wrap(plan[1..][i])) {
        assert plan[1..][i] == plan[i + 1];
      }
      LiftedAll(plan[1..], wrap, good);
    }
  }

  ghost predicate All(plan: seq<TableStmt>, good: TableStmt -> bool) {
    forall i :: 0 <= i < |plan| ==> good(plan[i])
  }

  lemma AllConcat(p: seq<TableStmt>, q: seq<TableStmt>, good: TableStmt -> bool)
    requires All(p, good) && All(q, good)
    ensures All(p + q, good)
  {
  }

  /** What holds of every section holds of the plan. */
  lemma AllSections(x: Sections, good: TableStmt -> bool)
    requires forall i :: 0 <= i < |x.checks| ==> good(WrapCheck(x.checks[i]))
    requires forall i :: 0 <= i < |x.indexes| ==> good(WrapIndex(x.indexes[i]))
    requires forall i :: 0 <= i < |x.exclusions| ==> good(WrapExclusion(x.exclusions[i]))
    requires forall i :: 0 <= i < |x.triggers| ==> good(WrapTrigger(x.triggers[i]))
    requires forall i :: 0 <= i < |x.flags| ==> good(WrapFlag(x.flags[i]))
    requires forall i :: 0 <= i < |x.policies| ==> good(WrapPolicy(x.policies[i]))
    ensures All(x.Flatten(), good)
  {
    var a, b, c := Lift(x.checks, WrapCheck), Lift(x.indexes, WrapIndex), Lift(x.exclusions, WrapExclusion);
    var d, f, g := Lift(x.triggers, WrapTrigger), Lift(x.flags, WrapFlag), Lift(x.policies, WrapPolicy);
    LiftedAll(x.checks, WrapCheck, good);
    LiftedAll(x.indexes, WrapIndex, good);
    LiftedAll(x.exclusions, WrapExclusion, good);
    LiftedAll(x.triggers, WrapTrigger, good);
    LiftedAll(x.flags, WrapFlag, good);
    LiftedAll(x.policies, WrapPolicy, good);
    assert All(a, good) && All(b, good) && All(c, good) && All(d, good) && All(f, good) && All(g, good);
    hide All, Lift;
    AllConcat(a, b, good);
    AllConcat(a + b, c, good);
    AllConcat(a + b + c, d, good);
    AllConcat(a + b + c + d, f, good);
    AllConcat(a + b + c + d + f, g, good);
  }

  lemma PlanRendersNames<D, C>(f: Family<D, C>, ds: seq<D>, cur: seq<C>)
    requires Renders(f, ds)
    ensures forall i :: 0 <= i < |Plan(f, ds, cur)| ==> RendersName(f, Plan(f, ds, cur)[i])
  {
    hide Plan, Renders;
    PlanCreatesDesired(f, ds, cur);
  }

  /** What each section's statements create is listed under its filed name. */
  ghost predicate SectionsRenderNames(e: Server, x: Sections)
    requires HexDigest(e.hash)
  {
    && (forall i :: 0 <= i < |x.checks| ==> RendersName(Checks(e), x.checks[i]))
    && NamesRendered(e.index, x.indexes)
    && (forall i :: 0 <= i < |x.exclusions| ==> RendersName(Exclusions(e), x.exclusions[i]))
    && (forall i :: 0 <= i < |x.triggers| ==> RendersName(Triggers(e), x.triggers[i]))
    && (forall i :: 0 <= i < |x.policies| ==> RendersName(Policies(e), x.policies[i]))
  }

  lemma SectionsRenderTheirNames(e: Server, spec: TableSpec, cur: Listing, x: Sections)
    requires HexDigest(e.hash) && Declares(e, spec) && SectionsOf(e, spec, cur) == Ok(x)
    requires DistinctCurrent(Indexes(e.index), cur.indexes)
    ensures SectionsRenderNames(e, x)
  {
    hide Plan, IndexStatements, NamedIndexes, RowSecurityFlags, HexDigest, SectionsOf, Checks, Indexes, Exclusions, Triggers, Policies,
      DesiredTriggers, Renders, DistinctDesired, DistinctCurrent, RendersName, NamesRendered;
    SectionsAre(e, spec, cur);
    PlanRendersNames(Checks(e), spec.checks, cur.checks);
    PlanRendersNames(Exclusions(e), spec.exclusions, cur.exclusions);
    PlanRendersNames(Triggers(e), DesiredTriggers(spec), cur.triggers);
    StatementsRender(e.index, NamedIndexes(e, spec), cur.indexes, cur.constraints);
    if spec.rowSecurity.Some? {
      PlanRendersNames(Policies(e), spec.policies, cur.policies);
    }
  }

  lemma FlattenRendersNames(e: Server, x: Sections)
    requires HexDigest(e.hash) && SectionsRenderNames(e, x)
    ensures forall i :: 0 <= i < |x.Flatten()| ==> TableRendersName(e, x.Flatten()[i])
  {
    var good := (s: TableStmt) => TableRendersName(e, s);
    hide HexDigest, Checks, Exclusions, Triggers, Policies, RendersName, Folded, Sections.Flatten;
    AllSections(x, good);
    var plan := x.Flatten();
    forall i | 0 <= i < |plan| ensures TableRendersName(e, plan[i]) {
      assert good(plan[i]);
    }
  }

  /** Every statement of an accepted plan creates objects that are listed under their filed names. */
  lemma StatementsRenderNames(e: Server, spec: TableSpec, cur: Listing, x: Sections)
    requires HexDigest(e.hash) && Declares(e, spec) && SectionsOf(e, spec, cur) == Ok(x)
    requires DistinctCurrent(Indexes(e.index), cur.indexes)
    ensures forall i :: 0 <= i < |x.Flatten()| ==> TableRendersName(e, x.Flatten()[i])
  {
    hide *;
    SectionsRenderTheirNames(e, spec, cur, x);
    FlattenRendersNames(e, x);
  }

  lemma ListedIsWellNamed<D, C>(f: Family<D, C>, cur: seq<C>, cat: map<string, C>)
    requires Lists(f, cur, cat)
    ensures WellNamed(f, cat)
  {
  }

  lemma ReportedIsNamed(e: Server, cur: Listing, cat: TableCatalog)
    requires HexDigest(e.hash) && Reports(e, cur, cat)
    ensures TableNamed(e, cat) && DistinctCurrent(Indexes(e.index), cur.indexes)
  {
    hide Lists, WellNamed, IndexesNamed, Checks, Indexes, Exclusions, Triggers, Policies, HexDigest, ListsConstraints, DistinctCurrent;
    ListedIsWellNamed(Checks(e), cur.checks, cat.checks);
    ListedIsWellNamed(Exclusions(e), cur.exclusions, cat.exclusions);
    ListedIsWellNamed(Triggers(e), cur.triggers, cat.triggers);
    ListedIsWellNamed(Policies(e), cur.policies, cat.policies);
    ListedIsNamed(e.index, cur.indexes, cat.indexes);
    ListedIsDistinct(Indexes(e.index), cur.indexes, cat.indexes.indexes);
  }

  lemma NamedIsReported(e: Server, constraints: seq<string>, end: TableCatalog) returns (relisted: Listing)
    requires HexDigest(e.hash) && TableNamed(e, end) && ListsConstraints(constraints, end.indexes)
    ensures Reports(e, relisted, end) && relisted.constraints == constraints
  {
    hide HexDigest, Lists, WellNamed, IndexesNamed, Checks, Indexes, Exclusions, Triggers, Policies, ListsConstraints;
    var checks := WellNamedIsListed(Checks(e), end.checks);
    var indexes := NamedIsListed(e.index, end.indexes);
    var exclusions := WellNamedIsListed(Exclusions(e), end.exclusions);
    var triggers := WellNamedIsListed(Triggers(e), end.triggers);
    var policies := WellNamedIsListed(Policies(e), end.policies);
    relisted := Listing(checks, indexes, constraints, exclusions, triggers, end.flags, policies);
  }

  /** Wherever an accepted plan ends, the end can be reported. */
  lemma EndIsReported(e: Server, spec: TableSpec, cur: Listing, cat: TableCatalog, x: Sections,
      end: TableCatalog) returns (relisted: Listing)
    requires HexDigest(e.hash) && Reports(e, cur, cat) && Declares(e, spec) && SectionsOf(e, spec, cur) == Ok(x)
    requires TableExec(e, cat, x.Flatten()) == Some(end)
    ensures Reports(e, relisted, end) && relisted.constraints == cur.constraints
  {
    assert ListsConstraints(cur.constraints, cat.indexes);
    hide *;
    ReportedIsNamed(e, cur, cat);
    StatementsRenderNames(e, spec, cur, x);
    TableExecNamed(e, cat, x.Flatten());
    FewerBacked(cur.constraints, cat.indexes, end.indexes);
    relisted := NamedIsReported(e, cur.constraints, end);
  }

  lemma FewerBacked(constraints: seq<string>, cat: IndexCatalog, end: IndexCatalog)
    requires ListsConstraints(constraints, cat) && end.backed <= cat.backed
    ensures ListsConstraints(constraints, end)
  {
  }

  lemma WellNamedIsListed<D, C>(f: Family<D, C>, cat: map<string, C>) returns (cur: seq<C>)
    requires WellNamed(f, cat)
    ensures Lists(f, cur, cat)
  {
    hide Lists;
    cur := SomeListing(f, cat);
  }

  // ----- a plain index under a constraint's name -----------------------------------------------------------------

  lemma {:induction false} TablePlainStays(e: Server, cat: TableCatalog, plan: seq<TableStmt>, n: string)
    requires HexDigest(e.hash) && n in cat.indexes.indexes && n !in cat.indexes.backed
    requires forall i :: 0 <= i < |plan| ==> plan[i] != OnIndex(DropIndex(n))
    requires TableExec(e, cat, plan).Some?
    ensures var end := TableExec(e, cat, plan).value.indexes;
      n in end.indexes && end.indexes[n] == cat.indexes.indexes[n] && n !in end.backed
    decreases |plan|
  {
    hide TableStep, HexDigest;
    if plan != [] {
      TableStepLeavesPlain(e, cat, plan[0], n);
      TablePlainStays(e, TableStep(e, cat, plan[0]).value, plan[1..], n);
    }
  }

  lemma TableStepLeavesPlain(e: Server, cat: TableCatalog, s: TableStmt, n: string)
    requires HexDigest(e.hash) && n in cat.indexes.indexes && n !in cat.indexes.backed && s != OnIndex(DropIndex(n))
    requires TableStep(e, cat, s).Some?
    ensures var next := TableStep(e, cat, s).value.indexes;
      n in next.indexes && next.indexes[n] == cat.indexes.indexes[n] && n !in next.backed
  {
    hide Diff.Step, IndexStep, FlagStep, Checks, Exclusions, Triggers, Policies, HexDigest;
    if s.OnIndex? && !Strays(cat.indexes, s.index) {
      StepLeavesPlain(e.index, cat.indexes, s.index, n);
    }
  }

  /** No accepted plan drops as an index what is listed as a constraint. */
  lemma PlanNeverDrops(e: Server, spec: TableSpec, cur: Listing, x: Sections, n: string)
    requires HexDigest(e.hash) && SectionsOf(e, spec, cur) == Ok(x) && DistinctCurrent(Indexes(e.index), cur.indexes)
    requires n in cur.constraints
    ensures forall i :: 0 <= i < |x.Flatten()| ==> x.Flatten()[i] != OnIndex(DropIndex(n))
  {
    var good := (s: TableStmt) => s != OnIndex(DropIndex(n));
    hide Plan, IndexStatements, NamedIndexes, RowSecurityFlags, HexDigest, SectionsOf, Checks, Indexes, Exclusions, Triggers, Policies,
      DesiredTriggers, DistinctCurrent, Sections.Flatten;
    SectionsAre(e, spec, cur);
    StatementsNeverDrop(e.index, NamedIndexes(e, spec), cur.indexes, cur.constraints, n);
    AllSections(x, good);
    var plan := x.Flatten();
    forall i | 0 <= i < |plan| ensures plan[i] != OnIndex(DropIndex(n)) {
      assert good(plan[i]);
    }
  }

  lemma {:induction false} TaggedHasDrop(plan: seq<Stmt<IndexSpec>>, constraints: seq<string>, n: string)
    requires n in Drops(plan) && n in constraints
    ensures DropConstraint(n) in Tagged(plan, constraints)
    decreases |plan|
  {
    if plan[0] == Drop(n) {
      assert Tagged(plan, constraints)[0] == DropConstraint(n);
    } else {
      TaggedHasDrop(plan[1..], constraints, n);
    }
  }

  lemma {:induction false} LiftedHas<S>(plan: seq<S>, wrap: S -> TableStmt, s: S)
    requires s in plan
    ensures wrap(s) in Lift(plan, wrap)
    decreases |plan|
  {
    if plan[0] != s {
      LiftedHas(plan[1..], wrap, s);
    }
  }

  lemma {:induction false} ChecksShrink(e: Server, cat: TableCatalog, plan: seq<TableStmt>)
    requires HexDigest(e.hash) && TableExec(e, cat, plan).Some? && forall i :: 0 <= i < |plan| ==> !plan[i].OnCheck?
    ensures TableExec(e, cat, plan).value.checks.Keys <= cat.checks.Keys
    decreases |plan|
  {
    if plan != [] {
      var next := TableStep(e, cat, plan[0]).value;
      assert next.checks.Keys <= cat.checks.Keys by {
        hide Diff.Step, IndexStep, FlagStep, Checks, Exclusions, Triggers, Policies, HexDigest;
      }
      hide TableStep, HexDigest;
      ChecksShrink(e, next, plan[1..]);
    }
  }

  /** Behind the checks a stray removal ends without a check of that name. */
  lemma {:induction false} StrayTakesCheck(e: Server, cat: TableCatalog, plan: seq<TableStmt>, n: string)
    requires HexDigest(e.hash) && n in cat.indexes.indexes && n !in cat.indexes.backed
    requires forall i :: 0 <= i < |plan| ==> !plan[i].OnCheck? && plan[i] != OnIndex(DropIndex(n))
    requires OnIndex(DropConstraint(n)) in plan && TableExec(e, cat, plan).Some?
    ensures n !in TableExec(e, cat, plan).value.checks
    decreases |plan|
  {
    var next := TableStep(e, cat, plan[0]).value;
    assert plan[0] == OnIndex(DropConstraint(n)) ==> n !in next.checks;
    hide TableStep, HexDigest;
    if plan[0] == OnIndex(DropConstraint(n)) {
      ChecksShrink(e, next, plan[1..]);
    } else {
      TableStepLeavesPlain(e, cat, plan[0], n);
      StrayTakesCheck(e, next, plan[1..], n);
    }
  }

  /** The plan behind its check section. */
  function BehindChecks(x: Sections): seq<TableStmt> {
    x.(checks := []).Flatten()
  }

  lemma ChecksFirst(x: Sections)
    ensures x.Flatten() == Lift(x.checks, WrapCheck) + BehindChecks(x)
  {
    assert Lift<Stmt<CheckSpec>>([], WrapCheck) == [];
    hide Lift;
  }

  lemma NoChecksBehind(x: Sections)
    ensures forall i :: 0 <= i < |BehindChecks(x)| ==> !BehindChecks(x)[i].OnCheck?
  {
    var good := (s: TableStmt) => !s.OnCheck?;
    hide Sections.Flatten;
    AllSections(x.(checks := []), good);
    var plan := BehindChecks(x);
    forall i | 0 <= i < |plan| ensures !plan[i].OnCheck? {
      assert good(plan[i]);
    }
  }

  lemma IndexStatementBehind(x: Sections, s: IndexStmt)
    requires s in x.indexes
    ensures OnIndex(s) in BehindChecks(x)
  {
    LiftedHas(x.indexes, WrapIndex, s);
    hide Lift;
  }

  ghost predicate DeclaredAsStored<D, C>(f: Family<D, C>, ds: seq<D>, cat: map<string, C>, n: string) {
    exists i :: 0 <= i < |ds| && f.nameOf(ds[i]) == n && Kept(f, ds[i], cat)
  }

  /**
   A plain index that shares its name with a constraint and is not declared as it is stored is
   removed as that constraint: the plan leaves the index in place and no check of that name,
   declared or not.
   */
  lemma ConfusedIndexTakesCheck(e: Server, spec: TableSpec, cur: Listing, cat: TableCatalog, n: string)
    requires HexDigest(e.hash) && Reports(e, cur, cat) && DistinctDesired(Indexes(e.index), NamedIndexes(e, spec))
    requires TableStatements(e, spec, cur).Ok? && TableExec(e, cat, TableStatements(e, spec, cur).value).Some?
    requires Confused(cat.indexes, cur.constraints, n)
    requires !DeclaredAsStored(Indexes(e.index), NamedIndexes(e, spec), cat.indexes.indexes, n)
    ensures var end := TableExec(e, cat, TableStatements(e, spec, cur).value).value;
      Unchanged(cat.indexes.indexes, end.indexes.indexes, n) && n !in end.checks
  {
    var x := SectionsOf(e, spec, cur).value;
    assert n in cat.indexes.indexes && n !in cat.indexes.backed && n in cur.constraints;
    assert TableStatements(e, spec, cur).value == x.Flatten();
    hide *;
    ReportedIsNamed(e, cur, cat);
    StrayIsPlanned(e, spec, cur, cat, x, n);
    PlanNeverDrops(e, spec, cur, x, n);
    StrayRuns(e, cat, x, n);
  }

  lemma StrayRuns(e: Server, cat: TableCatalog, x: Sections, n: string)
    requires HexDigest(e.hash) && n in cat.indexes.indexes && n !in cat.indexes.backed && DropConstraint(n) in x.indexes
    requires TableExec(e, cat, x.Flatten()).Some? && forall i :: 0 <= i < |x.Flatten()| ==> x.Flatten()[i] != OnIndex(DropIndex(n))
    ensures var end := TableExec(e, cat, x.Flatten()).value;
      Unchanged(cat.indexes.indexes, end.indexes.indexes, n) && n !in end.checks
  {
    hide TableExec, Sections.Flatten, HexDigest, BehindChecks, Lift;
    var plan := x.Flatten();
    TablePlainStays(e, cat, plan, n);
    ChecksFirst(x);
    NoChecksBehind(x);
    IndexStatementBehind(x, DropConstraint(n));
    var front, rest := Lift(x.checks, WrapCheck), BehindChecks(x);
    TableExecSplit(e, cat, front, rest);
    assert forall i :: 0 <= i < |front| ==> front[i] == plan[i];
    assert forall i :: 0 <= i < |rest| ==> rest[i] == plan[|front| + i];
    TablePlainStays(e, cat, front, n);
    StrayTakesCheck(e, TableExec(e, cat, front).value, rest, n);
  }

  lemma StrayIsPlanned(e: Server, spec: TableSpec, cur: Listing, cat: TableCatalog, x: Sections, n: string)
    requires HexDigest(e.hash) && Reports(e, cur, cat) && DistinctDesired(Indexes(e.index), NamedIndexes(e, spec))
    requires SectionsOf(e, spec, cur) == Ok(x) && Confused(cat.indexes, cur.constraints, n)
    requires !DeclaredAsStored(Indexes(e.index), NamedIndexes(e, spec), cat.indexes.indexes, n)
    ensures DropConstraint(n) in x.indexes
  {
    var f, ds := Indexes(e.index), NamedIndexes(e, spec);
    hide Plan, IndexStatements, NamedIndexes, HexDigest, SectionsOf, Checks, Indexes, Exclusions, Triggers, Policies, Lists,
      Tagged, Drops, Kept, ListsConstraints, DistinctDesired;
    SectionsAre(e, spec, cur);
    ListedIsDistinct(f, cur.indexes, cat.indexes.indexes);
    IndexStatementsAreDiff(e.index, ds, cur.indexes, cur.constraints);
    DropsOnce(f, ds, cur.indexes, cat.indexes.indexes);
    TaggedHasDrop(Plan(f, ds, cur.indexes), cur.constraints, n);
  }

  /** A table that settles confuses no index with a constraint. */
  lemma SettlingTableIsUnconfused(e: Server, spec: TableSpec, cur: Listing, cat: TableCatalog, x: Sections, end: TableCatalog,
      relisted: Listing, y: Sections)
    requires HexDigest(e.hash) && Reports(e, cur, cat) && SectionsOf(e, spec, cur) == Ok(x)
    requires TableExec(e, cat, x.Flatten()) == Some(end)
    requires Reports(e, relisted, end) && SectionsOf(e, spec, relisted) == Ok(y) && y.indexes == []
    ensures ConfusedKept(e.index, NamedIndexes(e, spec), cur.constraints, cat.indexes)
  {
    ReportedIsNamed(e, cur, cat);
    SectionsAre(e, spec, relisted);
    hide TableExec, SectionsOf, Sections.Flatten, HexDigest, IndexStatements, NamedIndexes, Lists, Checks, Indexes, Exclusions,
      Triggers, Policies, DistinctCurrent, ConfusedKept, TableNamed;
    forall n | Confused(cat.indexes, cur.constraints, n)
      ensures n in end.indexes.indexes && end.indexes.indexes[n] == cat.indexes.indexes[n]
    {
      PlanNeverDrops(e, spec, cur, x, n);
      TablePlainStays(e, cat, x.Flatten(), n);
    }
    EmptyReplanKeepsConfused(e.index, NamedIndexes(e, spec), cur.indexes, cur.constraints, cat.indexes, end.indexes,
      relisted.indexes, relisted.constraints);
  }

  /** Once nothing is confused, every section of a plan that runs has run on its own part. */
  lemma SectionsRan(e: Server, spec: TableSpec, cur: Listing, cat: TableCatalog, x: Sections, end: TableCatalog)
    requires HexDigest(e.hash) && Reports(e, cur, cat) && Declares(e, spec) && SectionsOf(e, spec, cur) == Ok(x)
    requires TableExec(e, cat, x.Flatten()) == Some(end)
    requires ConfusedKept(e.index, NamedIndexes(e, spec), cur.constraints, cat.indexes)
    ensures Exec(Checks(e), cat.checks, x.checks) == Some(end.checks)
    ensures IndexExec(e.index, cat.indexes, x.indexes) == Some(end.indexes)
    ensures Exec(Exclusions(e), cat.exclusions, x.exclusions) == Some(end.exclusions)
    ensures Exec(Triggers(e), cat.triggers, x.triggers) == Some(end.triggers)
    ensures Exec(Policies(e), cat.policies, x.policies) == Some(end.policies)
  {
    SectionsAre(e, spec, cur);
    hide Plan, IndexStatements, NamedIndexes, RowSecurityFlags, Exec, IndexExec, HexDigest, Lists, ListsConstraints, FlagExec,
      SectionsOf, Checks, Indexes, Exclusions, Triggers, Policies, DesiredTriggers, Pick, TableExec, Sections.Flatten, ConfusedKept,
      DistinctDesired, Renders, NeverStrays;
    IndexExecIs(e.index, NamedIndexes(e, spec), cur.indexes, cur.constraints, cat.indexes);
    PickIndexes(x);
    RunsApart(e, cat, x.Flatten());
    PickChecks(x);
    PickExclusions(x);
    PickTriggers(x);
    PickPolicies(x);
  }

  lemma SettlingTableFits(e: Server, spec: TableSpec, cur: Listing, cat: TableCatalog)
    requires HexDigest(e.hash) && Reports(e, cur, cat) && Declares(e, spec) && TableSettles(e, spec, cur, cat)
    ensures TableFits(e, spec, cur, cat)
  {
    var x := SectionsOf(e, spec, cur).value;
    var end := TableExec(e, cat, x.Flatten()).value;
    var relisted := EndIsReported(e, spec, cur, cat, x, end);
    var y := SectionsOf(e, spec, relisted).value;
    assert y.Flatten() == [];
    hide TableSettles, TableStatements, TableExec, Plan, IndexStatements, NamedIndexes, RowSecurityFlags, Exec, IndexExec, HexDigest, Lists,
      ListsConstraints, SectionsOf, Checks, Indexes, Exclusions, Triggers, Policies, DesiredTriggers, Sections.Flatten, ConfusedKept,
      DistinctDesired, Renders, AllFit;
    SectionsEmpty(y);
    SettlingTableIsUnconfused(e, spec, cur, cat, x, end, relisted, y);
    SectionsRan(e, spec, cur, cat, x, end);
    SectionsAre(e, spec, cur);
    SectionsAre(e, spec, relisted);
    FilingSettlesTruncated(e);
    EmptyReplanFits(Checks(e), spec.checks, cur.checks, cat.checks, relisted.checks);
    EmptyReplanFits(Exclusions(e), spec.exclusions, cur.exclusions, cat.exclusions, relisted.exclusions);
    EmptyReplanFits(Triggers(e), DesiredTriggers(spec), cur.triggers, cat.triggers, relisted.triggers);
    SettlingIndexesFit(e.index, NamedIndexes(e, spec), cur.indexes, cur.constraints, cat.indexes, relisted.indexes, relisted.constraints);
    if spec.rowSecurity.Some? {
      EmptyReplanFits(Policies(e), spec.policies, cur.policies, cat.policies, relisted.policies);
    }
  }

  lemma SettlingIndexesFit(render: IndexSpec -> Index, ds: seq<IndexSpec>, cur: seq<Index>, constraints: seq<string>, cat: IndexCatalog,
      relisted: seq<Index>, listed: seq<string>)
    requires DeclaresFamily(Indexes(render), ds) && Lists(Indexes(render), cur, cat.indexes) && ListsConstraints(constraints, cat)
    requires ConfusedKept(render, ds, constraints, cat)
    requires IndexExec(render, cat, IndexStatements(true, ds, cur, constraints)).Some?
    requires Lists(Indexes(render), relisted, IndexExec(render, cat, IndexStatements(true, ds, cur, constraints)).value.indexes)
    requires IndexStatements(true, ds, relisted, listed) == []
    ensures AllFit(Indexes(render), ds, cat.indexes)
  {
    hide Plan, IndexStatements, Exec, IndexExec, Lists, ListsConstraints, Indexes, ConfusedKept, AllFit, DistinctDesired, Renders,
      NeverStrays;
    IndexExecIs(render, ds, cur, constraints, cat);
    IndexFilingSettles(render);
    ListedIsDistinct(Indexes(render), relisted, IndexExec(render, cat, IndexStatements(true, ds, cur, constraints)).value.indexes);
    IndexStatementsAreDiff(render, ds, relisted, listed);
    EmptyTagged(Plan(Indexes(render), ds, relisted), listed);
    EmptyReplanFits(Indexes(render), ds, cur, cat.indexes, relisted);
  }

  lemma AcceptedAgain(e: Server, spec: TableSpec, cur: Listing, relisted: Listing)
    requires HexDigest(e.hash) && TableStatements(e, spec, cur).Ok?
    ensures TableStatements(e, spec, relisted).Ok?
  {
    hide TableStatements, TriggersNamed, PoliciesNamed, ToggleWord, HexDigest, DesiredTriggers;
    PlanAcceptedIff(e, spec, cur);
    PlanAcceptedIff(e, spec, relisted);
  }

  /**
   On every table the whole plan settles exactly if the schema is accepted and everything in it
   fits: stored as declared or under a name filed verbatim, and no plain index to be dropped
   that shares its name with a constraint.
   */
  lemma TableSettlesIff(e: Server, spec: TableSpec, cur: Listing, cat: TableCatalog)
    requires HexDigest(e.hash) && Reports(e, cur, cat) && Declares(e, spec)
    ensures TableSettles(e, spec, cur, cat) <==> TableStatements(e, spec, cur).Ok? && TableFits(e, spec, cur, cat)
  {
    hide TableFits, Declares, Reports, TableStatements, TableExec, HexDigest, TableReached;
    if TableSettles(e, spec, cur, cat) {
      SettlingTableFits(e, spec, cur, cat);
    }
    if TableStatements(e, spec, cur).Ok? && TableFits(e, spec, cur, cat) {
      TablePlanReachesDesired(e, spec, cur, cat);
      var end := TableExec(e, cat, TableStatements(e, spec, cur).value).value;
      forall relisted | Reports(e, relisted, end) ensures TableStatements(e, spec, relisted) == Ok([]) {
        TableReplanIsEmpty(e, spec, cat, end, relisted);
        AcceptedAgain(e, spec, cur, relisted);
      }
    }
  }
}
