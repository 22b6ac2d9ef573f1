/** The order of a table's plan: a section never starts before the ones it may depend on are done. */
module PlanOrder {
  import opened Names
  import opened TablePlan
  import opened TableLaws

  /** Checks, indexes, exclusion constraints, triggers, row security switches (on before forced), policies. */
  function Rank(s: TableStmt): nat {
    match s
    case OnCheck(_) => 0
    case OnIndex(_) => 1
    case OnExclusion(_) => 2
    case OnTrigger(_) => 3
    case OnFlag(x) => if x.SetEnabled? then 4 else 5
    case OnPolicy(_) => 6
  }

  ghost predicate Ordered(plan: seq<TableStmt>) {
    forall i, j :: 0 <= i < j < |plan| ==> Rank(plan[i]) <= Rank(plan[j])
  }

  ghost predicate Between(plan: seq<TableStmt>, low: nat, high: nat) {
    forall i :: 0 <= i < |plan| ==> low <= Rank(plan[i]) <= high
  }

  lemma OrderedConcat(p: seq<TableStmt>, q: seq<TableStmt>, a: nat, b: nat, c: nat)
    requires Ordered(p) && Ordered(q) && Between(p, a, b) && Between(q, b, c) && a <= b <= c
    ensures Ordered(p + q) && Between(p + q, a, c)
  {
    hide Rank;
    var all := p + q;
    forall i | 0 <= i < |all| ensures a <= Rank(all[i]) <= c && (i < |p| ==> Rank(all[i]) <= b) && (i >= |p| ==> b <= Rank(all[i])) {
      if i < |p| { assert all[i] == p[i]; } else { assert all[i] == q[i - |p|]; }
    }
    forall i, j | 0 <= i < j < |all| ensures Rank(all[i]) <= Rank(all[j]) {
      if j < |p| {
        assert all[i] == p[i] && all[j] == p[j];
      } else if i >= |p| {
        assert all[i] == q[i - |p|] && all[j] == q[j - |p|];
      }
    }
  }

  lemma SameRank<S>(plan: seq<S>, wrap: S -> TableStmt, k: nat)
    requires forall s :: Rank(wrap(s)) == k
    ensures var l := Lift(plan, wrap); Ordered(l) && Between(l, k, k)
  {
    var good := (s: TableStmt) => Rank(s) == k;
    LiftedAll(plan, wrap, good);
    var l := Lift(plan, wrap);
    hide Rank, Lift;
    forall i | 0 <= i < |l| ensures Rank(l[i]) == k {
      assert good(l[i]);
    }
  }

  /** The switches are at most two, enabling first. */
  ghost predicate FlagOrder(flags: seq<FlagStmt>) {
    forall i, j :: 0 <= i < j < |flags| ==> flags[i].SetEnabled? && flags[j].SetForced?
  }

  lemma {:induction false} LiftAt(flags: seq<FlagStmt>, i: nat)
    requires i < |flags|
    ensures |Lift(flags, WrapFlag)| == |flags| && Lift(flags, WrapFlag)[i] == OnFlag(flags[i])
  {
    if |flags| > 1 {
      LiftAt(flags[1..], if i > 0 then i - 1 else 0);
    }
  }

  lemma FlagsRanked(flags: seq<FlagStmt>)
    requires FlagOrder(flags)
    ensures var l := Lift(flags, WrapFlag); Ordered(l) && Between(l, 4, 5)
  {
    var l := Lift(flags, WrapFlag);
    assert flags == [] ==> l == [];
    forall i | 0 <= i < |flags| ensures |l| == |flags| && l[i] == OnFlag(flags[i]) {
      LiftAt(flags, i);
    }
    hide Lift;
  }

  lemma FlagsInOrder(t: Toggles, flags: Flags)
    requires RowSecurityFlags(t, flags).Ok?
    ensures FlagOrder(RowSecurityFlags(t, flags).value)
  {
    hide Toggle;
  }

  lemma FlattenIsOrdered(x: Sections)
    requires FlagOrder(x.flags)
    ensures Ordered(x.Flatten())
  {
    SameRank(x.checks, WrapCheck, 0);
    SameRank(x.indexes, WrapIndex, 1);
    SameRank(x.exclusions, WrapExclusion, 2);
    SameRank(x.triggers, WrapTrigger, 3);
    SameRank(x.policies, WrapPolicy, 6);
    FlagsRanked(x.flags);
    hide Lift, Ordered, Between, FlagOrder;
    var a, b, c := Lift(x.checks, WrapCheck), Lift(x.indexes, WrapIndex), Lift(x.exclusions, WrapExclusion);
    var d, f, g := Lift(x.triggers, WrapTrigger), Lift(x.flags, WrapFlag), Lift(x.policies, WrapPolicy);
    Wider(b, 1, 1, 0, 1);
    OrderedConcat(a, b, 0, 0, 1);
    Wider(c, 2, 2, 1, 2);
    OrderedConcat(a + b, c, 0, 1, 2);
    Wider(d, 3, 3, 2, 3);
    OrderedConcat(a + b + c, d, 0, 2, 3);
    Wider(f, 4, 5, 3, 5);
    OrderedConcat(a + b + c + d, f, 0, 3, 5);
    Wider(g, 6, 6, 5, 6);
    OrderedConcat(a + b + c + d + f, g, 0, 5, 6);
  }

  lemma Wider(p: seq<TableStmt>, a: nat, b: nat, low: nat, high: nat)
    requires Between(p, a, b) && low <= a && b <= high
    ensures Between(p, low, high)
  {
    hide Rank;
  }

  /** Every accepted plan is in that order. */
  lemma PlanIsOrdered(e: Server, spec: TableSpec, cur: Listing)
    requires HexDigest(e.hash) && TableStatements(e, spec, cur).Ok?
    ensures Ordered(TableStatements(e, spec, cur).value)
  {
    var x := SectionsOf(e, spec, cur).value;
    assert TableStatements(e, spec, cur).value == x.Flatten();
    hide SectionsOf, TableStatements, Sections.Flatten, RowSecurityFlags, Ordered, HexDigest;
    SectionsAre(e, spec, cur);
    if spec.rowSecurity.Some? {
      FlagsInOrder(spec.rowSecurity.value, cur.flags);
    }
    FlattenIsOrdered(x);
  }
}
