/** What a stored object shares with its declaration once the planner leaves it alone, field by field. */
module AsDeclared {
  import opened Options
  import opened Text
  import opened Canonical
  import opened StringOrder
  import opened ElementLists
  import opened Comparators
  import opened IndexElements
  import opened Names
  import opened TriggerText
  import opened Diff
  import opened DiffLaws
  import opened IndexPlan
  import opened TablePlan
  import opened TableLaws

  // ----- words that may be left out ----------------------------------------------------------

  /** Two words that are the same, or both the default or nothing. */
  predicate SameWord(x: string, y: string, default_: string) {
    x == y || ((x == "" || x == default_) && (y == "" || y == default_))
  }

  // ----- indexes -----------------------------------------------------------------------------

  predicate ColumnAsDeclared(c: IndexColumn, d: IndexColumn) {
    && c.column == d.column
    && SameWord(Upper(Trim(c.sort)), Upper(Trim(d.sort)), "ASC")
    && Upper(Trim(c.nulls)) == Upper(Trim(d.nulls))
    && Lower(Trim(c.opClass)) == Lower(Trim(d.opClass))
  }

  /** The declared columns and as many, or the declared elements one by one. */
  predicate ElementsAsDeclared(c: Index, d: IndexSpec) {
    if d.sortedColumns == [] && d.expressions == [] then
      && c.sortedColumns == [] && c.expressions == [] && |c.columns| == |d.columns|
      && forall i :: 0 <= i < |d.columns| ==> d.columns[i] in c.columns
    else
      && |c.sortedColumns| == |d.sortedColumns| && |c.expressions| == |d.expressions|
      && (forall i :: 0 <= i < |d.sortedColumns| ==> ColumnAsDeclared(c.sortedColumns[i], d.sortedColumns[i]))
      && (forall i :: 0 <= i < |d.expressions| ==> Canonicalize(c.expressions[i]) == Canonicalize(d.expressions[i]))
  }

  /** As unique as declared, by the declared method (btree if none), over the same rows and elements. */
  predicate IndexAsDeclared(c: Index, d: IndexSpec) {
    && c.name == d.name
    && (c.isUnique <==> d.isUnique)
    && SameWord(Lower(Trim(c.method_)), Lower(Trim(d.method_)), "btree")
    && Canonicalize(c.where_) == Canonicalize(d.where_)
    && ElementsAsDeclared(c, d)
  }

  lemma MethodsEqualIff(a: string, b: string)
    ensures NormalizeIndexMethod(a) == NormalizeIndexMethod(b) <==> SameWord(Lower(Trim(a)), Lower(Trim(b)), "btree")
  {
    hide Lower, Trim;
  }

  lemma ColumnsEqualIff(c: IndexColumn, d: IndexColumn)
    ensures SortedColumnEqual(c, d) <==> ColumnAsDeclared(c, d)
  {
    hide Lower, Upper, Trim;
  }

  /** The comparison accepts an index exactly if it is as declared, field by field. */
  lemma IndexEqualsIff(c: Index, d: IndexSpec)
    ensures IndexEquals(c, ToIndex(d)) <==> IndexAsDeclared(c, d)
  {
    hide Canonicalize, NormalizeIndexMethod, SortedColumnEqual, ColumnAsDeclared, SameWord, Lower, Trim;
    MethodsEqualIff(c.method_, d.method_);
    forall i | 0 <= i < |c.sortedColumns| && i < |d.sortedColumns|
      ensures SortedColumnEqual(c.sortedColumns[i], d.sortedColumns[i]) <==> ColumnAsDeclared(c.sortedColumns[i], d.sortedColumns[i])
    {
      ColumnsEqualIff(c.sortedColumns[i], d.sortedColumns[i]);
    }
  }

  // ----- exclusion constraints ---------------------------------------------------------------

  /** An item is compared by its column if it has one, otherwise by its expression. */
  function ComparedBy(it: ExclusionItem): string {
    if |it.column| > 0 then it.column else it.expression
  }

  predicate ExclusionAsDeclared(c: ExclusionConstraint, d: ExclusionConstraint) {
    && (c.name == "" || d.name == "" || c.name == d.name)
    && SameWord(Lower(Trim(c.using)), Lower(Trim(d.using)), "gist")
    && Canonicalize(c.where_) == Canonicalize(d.where_)
    && |c.items| == |d.items|
    && (forall i :: 0 <= i < |d.items| ==> Canonicalize(ComparedBy(c.items[i])) == Canonicalize(ComparedBy(d.items[i])))
    && (forall i :: 0 <= i < |d.items| ==> Canonicalize(c.items[i].operator) == Canonicalize(d.items[i].operator))
  }

  lemma UsingEqualIff(a: string, b: string)
    ensures NormalizeUsing(a) == NormalizeUsing(b) <==> SameWord(Lower(Trim(a)), Lower(Trim(b)), "gist")
  {
    hide Lower, Trim;
  }

  lemma ExclusionEqualsIff(c: ExclusionConstraint, d: ExclusionConstraint)
    ensures ExclusionEquals(c, d) <==> ExclusionAsDeclared(c, d)
  {
    hide Canonicalize, NormalizeUsing, SameWord, Lower, Trim;
    UsingEqualIff(c.using, d.using);
    assert forall it: ExclusionItem :: it.Element() == ComparedBy(it);
  }

  // ----- policies ----------------------------------------------------------------------------

  /** Restrictive exactly if the word says so; the declared command (all if none) and role bag. */
  predicate PolicyAsDeclared(c: Policy, d: PolicySpec) {
    && (c.permissive <==> Lower(Trim(d.permissive)) != "restrictive")
    && SameWord(Upper(Trim(c.command)), Upper(Trim(d.command)), "ALL")
    && RoleBag(c.roles) == RoleBag(d.roles)
  }

  lemma CommandTwice(c: string)
    ensures NormalizePolicyCommand(NormalizePolicyCommand(c)) == NormalizePolicyCommand(c)
  {
    var t := Trim(c);
    UpperIs("ALL", "ALL");
    TrimIdentity("ALL");
    UpperTrimmed(t);
    UpperTwice(t);
    TrimIdentity(Upper(t));
    hide Upper, Trim;
  }

  lemma UpperTrimmed(t: string)
    requires Trimmed(t)
    ensures Trimmed(Upper(t))
  {
    if t != "" {
      UpperAt(t, 0);
      UpperAt(t, |t| - 1);
    }
  }

  lemma UpperTwice(s: string)
    ensures Upper(Upper(s)) == Upper(s)
  {
    forall i | 0 <= i < |s| ensures UpperChar(Upper(s)[i]) == Upper(s)[i] {
      UpperAt(s, i);
    }
    UpperIs(Upper(s), Upper(s));
  }

  lemma CommandsEqualIff(a: string, b: string)
    ensures NormalizePolicyCommand(a) == NormalizePolicyCommand(b) <==> SameWord(Upper(Trim(a)), Upper(Trim(b)), "ALL")
  {
    hide Upper, Trim;
  }

  lemma RolesOnceSorted(roles: seq<string>)
    ensures RoleBag(NormalizePolicyRoles(roles)) == RoleBag(roles)
  {
    if roles == [] {
      assert multiset(["public"]) == multiset{"public"};
    } else {
      SortStringsSorts(roles);
      assert |multiset(roles)| == |roles|;
    }
  }

  lemma RestrictiveWord(w: string)
    ensures EqualFold(Trim(w), "RESTRICTIVE") <==> Lower(Trim(w)) == "restrictive"
  {
    LowerIs("RESTRICTIVE", "restrictive");
    hide Lower, Trim;
  }

  lemma SamePolicyIff(d: PolicySpec, c: Policy)
    ensures SamePolicy(d, c) <==> PolicyAsDeclared(c, d)
  {
    hide Lower, Upper, Trim, NormalizePolicyCommand, NormalizePolicyRoles, RoleBag, SameWord, RolesEqual, EqualFold;
    CommandTwice(d.command);
    CommandsEqualIff(c.command, d.command);
    RestrictiveWord(d.permissive);
    RolesEqualIff(c.roles, ToPolicy(d).roles);
    RolesOnceSorted(d.roles);
  }

  // ----- whole families ------------------------------------------------------------------------

  /** The declared objects and no others, each comparing equal. */
  ghost predicate Holds<D, C>(f: Family<D, C>, ds: seq<D>, cat: map<string, C>) {
    cat.Keys == Diff.Names(f, ds) && forall i :: 0 <= i < |ds| ==> Kept(f, ds[i], cat)
  }

  lemma PlansNothingIff<D, C>(f: Family<D, C>, ds: seq<D>, cur: seq<C>, cat: map<string, C>)
    requires Lists(f, cur, cat)
    ensures Plan(f, ds, cur) == [] <==> Holds(f, ds, cat)
  {
    hide Plan, Lists, Kept;
    if Plan(f, ds, cur) == [] {
      EmptyPlanMeans(f, ds, cur, cat);
    }
    if Holds(f, ds, cat) {
      SettledPlansNothing(f, ds, cur, cat);
    }
  }

  lemma IndexesPlanNothingIff(render: IndexSpec -> Index, ds: seq<IndexSpec>, cur: seq<Index>, constraints: seq<string>,
      cat: map<string, Index>)
    requires Lists(Indexes(render), cur, cat)
    ensures IndexStatements(true, ds, cur, constraints) == [] <==> Holds(Indexes(render), ds, cat)
  {
    hide Plan, IndexStatements, Lists, Holds, Indexes;
    ListedIsDistinct(Indexes(render), cur, cat);
    IndexStatementsAreDiff(render, ds, cur, constraints);
    EmptyTagged(Plan(Indexes(render), ds, cur), constraints);
    PlansNothingIff(Indexes(render), ds, cur, cat);
  }

  function CheckName(e: Server, d: CheckSpec): string
    requires HexDigest(e.hash)
  {
    GenerateCheckName(e.hash, e.table, d.name, d.expression)
  }

  ghost predicate ChecksAsDeclared(e: Server, ds: seq<CheckSpec>, cat: map<string, CheckConstraint>)
    requires HexDigest(e.hash)
  {
    && (forall n :: n in cat <==> exists i :: 0 <= i < |ds| && CheckName(e, ds[i]) == n)
    && (forall i :: 0 <= i < |ds| ==> CheckName(e, ds[i]) in cat)
    && (forall i :: 0 <= i < |ds| ==> Canonicalize(cat[CheckName(e, ds[i])].expression) == Canonicalize(ds[i].expression))
  }

  ghost predicate IndexesAsDeclared(ds: seq<IndexSpec>, cat: map<string, Index>) {
    && (forall n :: n in cat <==> exists i :: 0 <= i < |ds| && ds[i].name == n)
    && (forall i :: 0 <= i < |ds| ==> ds[i].name in cat && IndexAsDeclared(cat[ds[i].name], ds[i]))
  }

  function ExclusionName(e: Server, d: ExclusionConstraint): string
    requires HexDigest(e.hash)
  {
    GenerateExclusionName(e.hash, e.table, d.name, ItemElements(d.items))
  }

  ghost predicate ExclusionsAsDeclared(e: Server, ds: seq<ExclusionConstraint>, cat: map<string, ExclusionConstraint>)
    requires HexDigest(e.hash)
  {
    && (forall n :: n in cat <==> exists i :: 0 <= i < |ds| && ExclusionName(e, ds[i]) == n)
    && (forall i :: 0 <= i < |ds| ==> ExclusionName(e, ds[i]) in cat && ExclusionAsDeclared(cat[ExclusionName(e, ds[i])], ds[i]))
  }

  predicate TriggerAsDeclared(c: Trigger, d: TriggerSpec) {
    d.text.Ok? && NormalizeTriggerDefinition(c.definition) == NormalizeTriggerDefinition(d.text.value)
  }

  ghost predicate TriggersAsDeclared(ds: seq<TriggerSpec>, cat: map<string, Trigger>) {
    && (forall n :: n in cat <==> exists i :: 0 <= i < |ds| && ds[i].name == n)
    && (forall i :: 0 <= i < |ds| ==> ds[i].name in cat && TriggerAsDeclared(cat[ds[i].name], ds[i]))
  }

  ghost predicate PoliciesAsDeclared(ds: seq<PolicySpec>, cat: map<string, Policy>) {
    && (forall n :: n in cat <==> exists i :: 0 <= i < |ds| && ds[i].name == n)
    && (forall i :: 0 <= i < |ds| ==> ds[i].name in cat && PolicyAsDeclared(cat[ds[i].name], ds[i]))
  }

  lemma ChecksHoldIff(e: Server, ds: seq<CheckSpec>, cat: map<string, CheckConstraint>)
    requires HexDigest(e.hash)
    ensures Holds(Checks(e), ds, cat) <==> ChecksAsDeclared(e, ds, cat)
  {
    var f := Checks(e);
    hide Canonicalize, GenerateCheckName, HexDigest;
    assert forall i :: 0 <= i < |ds| ==> f.nameOf(ds[i]) == CheckName(e, ds[i]);
    NamedIff(f, ds, cat);
  }

  lemma IndexesHoldIff(render: IndexSpec -> Index, ds: seq<IndexSpec>, cat: map<string, Index>)
    ensures Holds(Indexes(render), ds, cat) <==> IndexesAsDeclared(ds, cat)
  {
    var f := Indexes(render);
    hide IndexEquals, IndexAsDeclared, ToIndex;
    forall i | 0 <= i < |ds| && ds[i].name in cat ensures Kept(f, ds[i], cat) <==> IndexAsDeclared(cat[ds[i].name], ds[i]) {
      IndexEqualsIff(cat[ds[i].name], ds[i]);
    }
    NamedIff(f, ds, cat);
  }

  lemma ExclusionsHoldIff(e: Server, ds: seq<ExclusionConstraint>, cat: map<string, ExclusionConstraint>)
    requires HexDigest(e.hash)
    ensures Holds(Exclusions(e), ds, cat) <==> ExclusionsAsDeclared(e, ds, cat)
  {
    var f := Exclusions(e);
    forall i | 0 <= i < |ds|
      ensures f.nameOf(ds[i]) == ExclusionName(e, ds[i])
      ensures Kept(f, ds[i], cat) <==> ExclusionName(e, ds[i]) in cat && ExclusionAsDeclared(cat[ExclusionName(e, ds[i])], ds[i])
    {
      ExclusionKeptIff(e, ds[i], cat);
    }
    hide Exclusions, ExclusionAsDeclared, ExclusionName, HexDigest, Kept;
    NamedIff(f, ds, cat);
  }

  lemma NamedIff<D, C>(f: Family<D, C>, ds: seq<D>, cat: map<string, C>)
    ensures cat.Keys == Diff.Names(f, ds) <==> forall n :: n in cat <==> exists i :: 0 <= i < |ds| && f.nameOf(ds[i]) == n
  {
    if forall n :: n in cat <==> exists i :: 0 <= i < |ds| && f.nameOf(ds[i]) == n {
      forall n ensures n in cat.Keys <==> n in Diff.Names(f, ds) {
      }
    }
  }

  lemma ExclusionKeptIff(e: Server, d: ExclusionConstraint, cat: map<string, ExclusionConstraint>)
    requires HexDigest(e.hash)
    ensures Exclusions(e).nameOf(d) == ExclusionName(e, d)
    ensures Kept(Exclusions(e), d, cat) <==> ExclusionName(e, d) in cat && ExclusionAsDeclared(cat[ExclusionName(e, d)], d)
  {
    hide ExclusionEquals, ExclusionAsDeclared, GenerateExclusionName, HexDigest, ItemElements;
    if ExclusionName(e, d) in cat {
      ExclusionEqualsIff(cat[ExclusionName(e, d)], d);
    }
  }

  lemma TriggersHoldIff(e: Server, ds: seq<TriggerSpec>, cat: map<string, Trigger>)
    ensures Holds(Triggers(e), ds, cat) <==> TriggersAsDeclared(ds, cat)
  {
    var f := Triggers(e);
    hide NormalizeTriggerDefinition;
    NamedIff(f, ds, cat);
  }

  lemma PoliciesHoldIff(e: Server, ds: seq<PolicySpec>, cat: map<string, Policy>)
    ensures Holds(Policies(e), ds, cat) <==> PoliciesAsDeclared(ds, cat)
  {
    var f := Policies(e);
    hide SamePolicy, PolicyAsDeclared;
    forall i | 0 <= i < |ds| && ds[i].name in cat ensures Kept(f, ds[i], cat) <==> PolicyAsDeclared(cat[ds[i].name], ds[i]) {
      SamePolicyIff(ds[i], cat[ds[i].name]);
    }
    NamedIff(f, ds, cat);
  }

  // ----- the whole table -------------------------------------------------------------------------

  /** Row security is switched as the words ask; a blank word asks for nothing. */
  predicate FlagsAsDeclared(t: Toggles, flags: Flags) {
    var enable, force := Lower(Trim(t.enable)), Lower(Trim(t.force));
    && (enable == "" || (enable == "enable" && flags.enabled) || (enable == "disable" && !flags.enabled))
    && (force == "" || (force == "force" && flags.forced) || (force == "noforce" && !flags.forced))
  }

  /** Triggers given as JSON take the place of the others. */
  function TriggersOf(spec: TableSpec): seq<TriggerSpec> {
    if |spec.jsonTriggers| == 0 then spec.triggers else spec.jsonTriggers
  }

  /** Every family holds exactly the declared objects, each as declared; row security only if it is managed. */
  ghost predicate TableAsDeclared(e: Server, spec: TableSpec, cat: TableCatalog)
    requires HexDigest(e.hash)
  {
    && ChecksAsDeclared(e, spec.checks, cat.checks)
    && IndexesAsDeclared(NamedIndexes(e, spec), cat.indexes.indexes)
    && ExclusionsAsDeclared(e, spec.exclusions, cat.exclusions)
    && TriggersAsDeclared(TriggersOf(spec), cat.triggers)
    && (spec.rowSecurity.Some? ==> FlagsAsDeclared(spec.rowSecurity.value, cat.flags) && PoliciesAsDeclared(spec.policies, cat.policies))
  }

  /** Wherever an accepted plan ends, everything is as declared, field by field. */
  lemma ReachedIsAsDeclared(e: Server, spec: TableSpec, cat: TableCatalog, end: TableCatalog)
    requires HexDigest(e.hash) && TableReached(e, spec, cat, end)
    ensures TableAsDeclared(e, spec, end)
  {
    assert TriggersOf(spec) == DesiredTriggers(spec);
    hide HexDigest, Checks, Indexes, Exclusions, Triggers, Policies, Kept, NamedIndexes, DesiredTriggers, TriggersOf, ChecksAsDeclared,
      IndexesAsDeclared, ExclusionsAsDeclared, TriggersAsDeclared, PoliciesAsDeclared, Lower, Trim;
    ChecksHoldIff(e, spec.checks, end.checks);
    IndexesHoldIff(e.index, NamedIndexes(e, spec), end.indexes.indexes);
    ExclusionsHoldIff(e, spec.exclusions, end.exclusions);
    TriggersHoldIff(e, DesiredTriggers(spec), end.triggers);
    PoliciesHoldIff(e, spec.policies, end.policies);
  }

  lemma TableEndsAsDeclared(e: Server, spec: TableSpec, cur: Listing, cat: TableCatalog)
    requires HexDigest(e.hash) && Reports(e, cur, cat) && Declares(e, spec) && TableFits(e, spec, cur, cat)
    requires TableStatements(e, spec, cur).Ok?
    ensures var end := TableExec(e, cat, TableStatements(e, spec, cur).value); end.Some? && TableAsDeclared(e, spec, end.value)
  {
    hide *;
    TablePlanReachesDesired(e, spec, cur, cat);
    ReachedIsAsDeclared(e, spec, cat, TableExec(e, cat, TableStatements(e, spec, cur).value).value);
  }

  lemma FlagsSilentIff(t: Toggles, flags: Flags)
    requires RowSecurityFlags(t, flags).Ok?
    ensures RowSecurityFlags(t, flags) == Ok([]) <==> FlagsAsDeclared(t, flags)
  {
    assert FlagsMet(t, flags) <==> FlagsAsDeclared(t, flags) by { hide Lower, Trim; }
    hide RowSecurityFlags, FlagsMet, FlagsAsDeclared;
    FlagsReached(t, flags);
    assert FlagExec(flags, []) == flags;
  }

  lemma FlattenEmptyIff(x: Sections)
    ensures x.Flatten() == [] <==> x == Sections([], [], [], [], [], [])
  {
    PickFlags(x);
    if x.Flatten() == [] {
      SectionsEmpty(x);
    } else if x == Sections([], [], [], [], [], []) {
      EmptySections(x);
    }
  }

  /** On every table a plan is empty exactly if the schema is accepted and the table is as declared. */
  lemma TablePlansNothingIff(e: Server, spec: TableSpec, cur: Listing, cat: TableCatalog)
    requires HexDigest(e.hash) && Reports(e, cur, cat)
    ensures TableStatements(e, spec, cur) == Ok([]) <==> TableStatements(e, spec, cur).Ok? && TableAsDeclared(e, spec, cat)
  {
    assert TriggersOf(spec) == DesiredTriggers(spec);
    hide HexDigest, Checks, Indexes, Exclusions, Triggers, Policies, NamedIndexes, DesiredTriggers, TriggersOf, ChecksAsDeclared,
      IndexesAsDeclared, ExclusionsAsDeclared, TriggersAsDeclared, PoliciesAsDeclared, FlagsAsDeclared, SectionsOf, Plan, IndexStatements,
      RowSecurityFlags, Lists, Holds, ListsConstraints, Sections.Flatten;
    if SectionsOf(e, spec, cur).Ok? {
      var x := SectionsOf(e, spec, cur).value;
      SectionsAre(e, spec, cur);
      FlattenEmptyIff(x);
      PlansNothingIff(Checks(e), spec.checks, cur.checks, cat.checks);
      ChecksHoldIff(e, spec.checks, cat.checks);
      IndexesPlanNothingIff(e.index, NamedIndexes(e, spec), cur.indexes, cur.constraints, cat.indexes.indexes);
      IndexesHoldIff(e.index, NamedIndexes(e, spec), cat.indexes.indexes);
      PlansNothingIff(Exclusions(e), spec.exclusions, cur.exclusions, cat.exclusions);
      ExclusionsHoldIff(e, spec.exclusions, cat.exclusions);
      PlansNothingIff(Triggers(e), DesiredTriggers(spec), cur.triggers, cat.triggers);
      TriggersHoldIff(e, DesiredTriggers(spec), cat.triggers);
      if spec.rowSecurity.Some? {
        FlagsSilentIff(spec.rowSecurity.value, cur.flags);
        PlansNothingIff(Policies(e), spec.policies, cur.policies, cat.policies);
        PoliciesHoldIff(e, spec.policies, cat.policies);
      }
    }
  }
}
