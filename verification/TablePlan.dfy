/**
 The sections of a plan for an existing table that are authoritative: checks, indexes,
 exclusions, triggers, row security and its policies, in the order they are emitted.
 */
module TablePlan {
  import opened Options
  import opened Text
  import opened Canonical
  import opened ElementLists
  import opened Comparators
  import opened IndexElements
  import opened Names
  import opened TriggerText
  import opened Diff
  import opened IndexPlan

  // ----- declared and listed objects -------------------------------------------------------

  datatype CheckSpec = CheckSpec(name: string, expression: string)

  datatype CheckConstraint = CheckConstraint(name: string, expression: string)

  /** A declared trigger with its `create trigger` text, or the reason it cannot be rendered. */
  datatype TriggerSpec = TriggerSpec(name: string, text: Result<string>)

  datatype Trigger = Trigger(name: string, definition: string)

  datatype PolicySpec = PolicySpec(name: string, command: string, permissive: string, roles: seq<string>, using: string, withCheck: string)

  /** The row security toggles of a schema that manages row security at all. */
  datatype Toggles = Toggles(enable: string, force: string)

  datatype TableSpec = TableSpec(
    checks: seq<CheckSpec>, indexes: seq<IndexSpec>, exclusions: seq<ExclusionConstraint>, triggers: seq<TriggerSpec>,
    jsonTriggers: seq<TriggerSpec>, rowSecurity: Option<Toggles>, policies: seq<PolicySpec>)

  datatype Flags = Flags(enabled: bool, forced: bool)

  /** What introspection reports; `constraints` names the constraints of every kind. */
  datatype Listing = Listing(
    checks: seq<CheckConstraint>, indexes: seq<Index>, constraints: seq<string>, exclusions: seq<ExclusionConstraint>,
    triggers: seq<Trigger>, flags: Flags, policies: seq<Policy>)

  /** The server: the digest behind generated names and what it lists for created objects. */
  datatype Server = Server(
    hash: string -> string, table: string, check: CheckSpec -> CheckConstraint, index: IndexSpec -> Index,
    exclusion: ExclusionConstraint -> ExclusionConstraint, trigger: TriggerSpec -> Trigger, policy: PolicySpec -> Policy)

  // ----- the families ------------------------------------------------------------------------

  function Checks(e: Server): Family<CheckSpec, CheckConstraint>
    requires HexDigest(e.hash)
  {
    Family((d: CheckSpec) => GenerateCheckName(e.hash, e.table, d.name, d.expression),
      (c: CheckConstraint) => c.name,
      (d: CheckSpec, c: CheckConstraint) => Canonicalize(d.expression) == Canonicalize(c.expression),
      Truncated, e.check)
  }

  function ItemElements(items: seq<ExclusionItem>): seq<string> {
    if items == [] then [] else [items[0].Element()] + ItemElements(items[1..])
  }

  function Exclusions(e: Server): Family<ExclusionConstraint, ExclusionConstraint>
    requires HexDigest(e.hash)
  {
    Family((d: ExclusionConstraint) => GenerateExclusionName(e.hash, e.table, d.name, ItemElements(d.items)),
      (c: ExclusionConstraint) => c.name,
      (d: ExclusionConstraint, c: ExclusionConstraint) => ExclusionEquals(c, d),
      Truncated, e.exclusion)
  }

  predicate SameTrigger(d: TriggerSpec, c: Trigger) {
    d.text.Ok? && NormalizeTriggerDefinition(d.text.value) == NormalizeTriggerDefinition(c.definition)
  }

  function Triggers(e: Server): Family<TriggerSpec, Trigger> {
    Family((d: TriggerSpec) => d.name, (c: Trigger) => c.name, SameTrigger, Truncated, e.trigger)
  }

  function ToPolicy(d: PolicySpec): Policy {
    Policy(d.name, NormalizePolicyCommand(d.command), !EqualFold(Trim(d.permissive), "RESTRICTIVE"),
      NormalizePolicyRoles(d.roles), d.using, d.withCheck)
  }

  predicate SamePolicy(d: PolicySpec, c: Policy) {
    AttributesEqual(c, ToPolicy(d))
  }

  function Policies(e: Server): Family<PolicySpec, Policy> {
    Family((d: PolicySpec) => d.name, (c: Policy) => c.name, SamePolicy, Truncated, e.policy)
  }

  // ----- builders that may refuse a schema -----------------------------------------------------

  const UNNAMED_TRIGGER := "trigger requires a name to be managed on an existing table"
  const UNNAMED_POLICY := "policy requires a name to be managed on an existing table"
  const INVALID_TOGGLE := "invalid rowLevelSecurity toggle"

  function TriggerError(d: TriggerSpec): Option<string> {
    if d.name == "" then Some(UNNAMED_TRIGGER) else if d.text.Err? then Some(d.text.error) else None
  }

  function PolicyError(d: PolicySpec): Option<string> {
    if d.name == "" then Some(UNNAMED_POLICY) else None
  }

  /** The first error among the declared objects. */
  function FirstError<D>(ds: seq<D>, error: D -> Option<string>): Option<string> {
    if ds == [] then None else if error(ds[0]).Some? then error(ds[0]) else FirstError(ds[1..], error)
  }

  function Checked<D, C>(f: Family<D, C>, error: D -> Option<string>, ds: seq<D>, cur: seq<C>): Result<seq<Stmt<D>>> {
    match FirstError(ds, error)
    case Some(e) => Err(e)
    case None => Ok(Plan(f, ds, cur))
  }

  /** The two passes for objects that may be refused one by one while they are looked up. */
  method BuildCheckedStatements<D, C>(f: Family<D, C>, error: D -> Option<string>, ds: seq<D>, cur: seq<C>)
      returns (r: Result<seq<Stmt<D>>>)
    ensures r == Checked(f, error, ds, cur)
  {
    for i := 0 to |ds|
      invariant FirstError(ds, error) == FirstError(ds[i..], error)
    {
      assert ds[i..][1..] == ds[i + 1..];
      if error(ds[i]).Some? {
        return Err(error(ds[i]).value);
      }
    }
    assert ds[|ds|..] == [];
    var statements := BuildStatements(f, ds, cur);
    r := Ok(statements);
  }

  function DesiredTriggers(spec: TableSpec): seq<TriggerSpec> {
    if spec.jsonTriggers != [] then spec.jsonTriggers else spec.triggers
  }

  datatype FlagStmt = SetEnabled(on: bool) | SetForced(on: bool)

  /** Whether a toggle has to be set, and to what. */
  function Toggle(desired: string, current: bool, onWord: string, offWord: string): Result<Option<bool>> {
    var word := Lower(Trim(desired));
    if word == "" then Ok(None)
    else if word == onWord then Ok(if current then None else Some(true))
    else if word == offWord then Ok(if current then Some(false) else None)
    else Err(INVALID_TOGGLE)
  }

  function FlagStatements(enable: Option<bool>, force: Option<bool>): seq<FlagStmt> {
    (if enable.Some? then [SetEnabled(enable.value)] else []) + (if force.Some? then [SetForced(force.value)] else [])
  }

  function EnableToggle(t: Toggles, flags: Flags): Result<Option<bool>> {
    Toggle(t.enable, flags.enabled, "enable", "disable")
  }

  function ForceToggle(t: Toggles, flags: Flags): Result<Option<bool>> {
    Toggle(t.force, flags.forced, "force", "noforce")
  }

  function RowSecurityFlags(t: Toggles, flags: Flags): Result<seq<FlagStmt>> {
    match EnableToggle(t, flags)
    case Err(e) => Err(e)
    case Ok(enable) =>
      match ForceToggle(t, flags)
      case Err(e) => Err(e)
      case Ok(force) => Ok(FlagStatements(enable, force))
  }

  // ----- the whole plan ------------------------------------------------------------------------

  datatype TableStmt =
    | OnCheck(check: Stmt<CheckSpec>)
    | OnIndex(index: IndexStmt)
    | OnExclusion(exclusion: Stmt<ExclusionConstraint>)
    | OnTrigger(trigger: Stmt<TriggerSpec>)
    | OnFlag(flag: FlagStmt)
    | OnPolicy(policy: Stmt<PolicySpec>)

  function Lift<S>(plan: seq<S>, wrap: S -> TableStmt): seq<TableStmt> {
    if plan == [] then [] else [wrap(plan[0])] + Lift(plan[1..], wrap)
  }

  function WrapCheck(s: Stmt<CheckSpec>): TableStmt { OnCheck(s) }
  function WrapIndex(s: IndexStmt): TableStmt { OnIndex(s) }
  function WrapExclusion(s: Stmt<ExclusionConstraint>): TableStmt { OnExclusion(s) }
  function WrapTrigger(s: Stmt<TriggerSpec>): TableStmt { OnTrigger(s) }
  function WrapFlag(s: FlagStmt): TableStmt { OnFlag(s) }
  function WrapPolicy(s: Stmt<PolicySpec>): TableStmt { OnPolicy(s) }

  method LiftAll<S>(plan: seq<S>, wrap: S -> TableStmt) returns (r: seq<TableStmt>)
    ensures r == Lift(plan, wrap)
  {
    r := [];
    assert plan[0..] == plan;
    for i := 0 to |plan|
      invariant r + Lift(plan[i..], wrap) == Lift(plan, wrap)
    {
      assert plan[i..][1..] == plan[i + 1..] && plan[i..][0] == plan[i];
      r := r + [wrap(plan[i])];
    }
    assert plan[|plan|..] == [];
  }

  /** The declared indexes with their names filled in. */
  function NamedIndexes(e: Server, spec: TableSpec): seq<IndexSpec>
    requires HexDigest(e.hash)
  {
    NameAll(e.hash, e.table, true, spec.indexes)
  }

  /** One plan per family; row security only if the schema manages it. */
  datatype Sections = Sections(
    checks: seq<Stmt<CheckSpec>>, indexes: seq<IndexStmt>, exclusions: seq<Stmt<ExclusionConstraint>>,
    triggers: seq<Stmt<TriggerSpec>>, flags: seq<FlagStmt>, policies: seq<Stmt<PolicySpec>>)
  {
    function Flatten(): seq<TableStmt> {
      Lift(checks, WrapCheck) + Lift(indexes, WrapIndex) + Lift(exclusions, WrapExclusion)
      + Lift(triggers, WrapTrigger) + Lift(flags, WrapFlag) + Lift(policies, WrapPolicy)
    }
  }

  function RowSecuritySections(e: Server, spec: TableSpec, cur: Listing): Result<(seq<FlagStmt>, seq<Stmt<PolicySpec>>)> {
    if spec.rowSecurity.None? then Ok(([], [])) else
    match RowSecurityFlags(spec.rowSecurity.value, cur.flags)
    case Err(x) => Err(x)
    case Ok(flags) =>
      match Checked(Policies(e), PolicyError, spec.policies, cur.policies)
      case Err(x) => Err(x)
      case Ok(policies) => Ok((flags, policies))
  }

  function SectionsOf(e: Server, spec: TableSpec, cur: Listing): Result<Sections>
    requires HexDigest(e.hash)
  {
    match Checked(Triggers(e), TriggerError, DesiredTriggers(spec), cur.triggers)
    case Err(x) => Err(x)
    case Ok(triggers) =>
      match RowSecuritySections(e, spec, cur)
      case Err(x) => Err(x)
      case Ok(security) => Ok(Sections(
        Plan(Checks(e), spec.checks, cur.checks),
        IndexStatements(true, NamedIndexes(e, spec), cur.indexes, cur.constraints),
        Plan(Exclusions(e), spec.exclusions, cur.exclusions),
        triggers, security.0, security.1))
  }

  function TableStatements(e: Server, spec: TableSpec, cur: Listing): Result<seq<TableStmt>>
    requires HexDigest(e.hash)
  {
    match SectionsOf(e, spec, cur)
    case Err(x) => Err(x)
    case Ok(sections) => Ok(sections.Flatten())
  }

  method BuildCheckConstraintStatements(e: Server, spec: TableSpec, cur: Listing) returns (statements: seq<Stmt<CheckSpec>>)
    requires HexDigest(e.hash)
    ensures statements == Plan(Checks(e), spec.checks, cur.checks)
  {
    statements := BuildStatements(Checks(e), spec.checks, cur.checks);
  }

  method BuildExclusionConstraintStatements(e: Server, spec: TableSpec, cur: Listing) returns (statements: seq<Stmt<ExclusionConstraint>>)
    requires HexDigest(e.hash)
    ensures statements == Plan(Exclusions(e), spec.exclusions, cur.exclusions)
  {
    statements := BuildStatements(Exclusions(e), spec.exclusions, cur.exclusions);
  }

  method BuildTriggerStatements(e: Server, spec: TableSpec, cur: Listing) returns (r: Result<seq<Stmt<TriggerSpec>>>)
    ensures r == Checked(Triggers(e), TriggerError, DesiredTriggers(spec), cur.triggers)
  {
    var triggers := spec.triggers;
    if |spec.jsonTriggers| > 0 {
      triggers := spec.jsonTriggers;
    }
    r := BuildCheckedStatements(Triggers(e), TriggerError, triggers, cur.triggers);
  }

  method BuildRowLevelSecurityStatements(e: Server, spec: TableSpec, cur: Listing)
      returns (r: Result<(seq<FlagStmt>, seq<Stmt<PolicySpec>>)>)
    ensures r == RowSecuritySections(e, spec, cur)
  {
    hide Toggle, Checked;
    if spec.rowSecurity.None? {
      return Ok(([], []));
    }
    var statements: seq<FlagStmt> := [];
    var enable := EnableToggle(spec.rowSecurity.value, cur.flags);
    if enable.Err? {
      return Err(enable.error);
    }
    if enable.value.Some? {
      statements := statements + [SetEnabled(enable.value.value)];
    }
    var force := ForceToggle(spec.rowSecurity.value, cur.flags);
    if force.Err? {
      return Err(force.error);
    }
    if force.value.Some? {
      statements := statements + [SetForced(force.value.value)];
    }
    assert statements == FlagStatements(enable.value, force.value);
    var policies := BuildCheckedStatements(Policies(e), PolicyError, spec.policies, cur.policies);
    if policies.Err? {
      return Err(policies.error);
    }
    r := Ok((statements, policies.value));
  }

  method PlanTable(e: Server, spec: TableSpec, cur: Listing) returns (r: Result<seq<TableStmt>>)
    requires HexDigest(e.hash)
    ensures r == TableStatements(e, spec, cur)
  {
    hide Checked, RowSecuritySections, Plan, IndexStatements, Lift, HexDigest, NamedIndexes;
    var checks := BuildCheckConstraintStatements(e, spec, cur);
    var indexes, declared := BuildIndexStatements(e.hash, e.table, true, spec.indexes, cur.indexes, cur.constraints);
    NamedIndexesAre(e, spec);
    var exclusions := BuildExclusionConstraintStatements(e, spec, cur);
    var triggers := BuildTriggerStatements(e, spec, cur);
    if triggers.Err? {
      return Err(triggers.error);
    }
    var security := BuildRowLevelSecurityStatements(e, spec, cur);
    if security.Err? {
      return Err(security.error);
    }
    var statements := LiftAll(checks, WrapCheck);
    var more := LiftAll(indexes, WrapIndex);
    statements := statements + more;
    more := LiftAll(exclusions, WrapExclusion);
    statements := statements + more;
    more := LiftAll(triggers.value, WrapTrigger);
    statements := statements + more;
    more := LiftAll(security.value.0, WrapFlag);
    statements := statements + more;
    more := LiftAll(security.value.1, WrapPolicy);
    statements := statements + more;
    r := Ok(statements);
  }

  lemma NamedIndexesAre(e: Server, spec: TableSpec)
    requires HexDigest(e.hash)
    ensures NamedIndexes(e, spec) == NameAll(e.hash, e.table, true, spec.indexes)
  {
  }
}
