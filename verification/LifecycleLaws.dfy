/** What every run of planners, approvers, rejecters and executors keeps. */
module LifecycleLaws {
  import opened Lifecycle

  // ----- every version follows from the one before -------------------------------------------

  /** A version as a planner writes it. */
  predicate Fresh(v: Version) {
    v.writer.ByPlan? && v.m == Migration(v.m.ddl, v.m.approvedAt, 0, 0, Planned) && (v.writer.immediate <==> v.m.approvedAt > 0)
  }

  predicate Follows(prev: Version, next: Version, v: nat) {
    match next.writer
    case ByPlan(immediate) => Fresh(next)
    case ByApprove => prev.m.phase == Planned && next.m.approvedAt > 0 &&
      next.m == prev.m.(approvedAt := next.m.approvedAt, phase := Phase.Approved)
    case ByReject => prev.m.phase == Planned && next.m.rejectedAt > 0 &&
      next.m == prev.m.(rejectedAt := next.m.rejectedAt, phase := Rejected)
    case ByExecute => ShouldApply(prev.m) && next.m.executedAt > 0 &&
      next.m == prev.m.(executedAt := next.m.executedAt, phase := Executed)
    case ByRetry(applied) => applied < v && next.m.executedAt > 0 && next.m == prev.m.(executedAt := next.m.executedAt)
  }

  ghost predicate Chain(hist: seq<Version>) {
    && (hist != [] ==> Fresh(hist[0]))
    && forall v :: 0 < v < |hist| ==> Follows(hist[v - 1], hist[v], v)
  }

  /** `v` was stored and called for applying its text. */
  predicate Called(hist: seq<Version>, v: nat) {
    v < |hist| && ShouldApply(hist[v].m)
  }

  ghost predicate AllCalled(hist: seq<Version>, applied: seq<nat>) {
    forall v :: v in applied ==> Called(hist, v)
  }

  /** Executors in flight have applied the version they name. */
  ghost predicate InFlight(s: State) {
    && (forall v :: v in s.running ==> v in s.applied)
    && (forall v :: v in s.conflicted ==> v in s.applied)
    && (forall r :: r in s.retrying ==> r.applied in s.applied)
  }

  /** The version a stamp is for was applied. */
  predicate StampFor(version: Version, v: nat, applied: seq<nat>) {
    && (version.writer == ByExecute ==> v > 0 && v - 1 in applied)
    && (version.writer.ByRetry? ==> version.writer.applied in applied)
  }

  ghost predicate Stamps(hist: seq<Version>, applied: seq<nat>) {
    forall v :: 0 <= v < |hist| ==> StampFor(hist[v], v, applied)
  }

  ghost predicate Invariant(s: State) {
    Chain(s.hist) && AllCalled(s.hist, s.applied) && InFlight(s) && Stamps(s.hist, s.applied)
  }

  lemma ChainExtends(hist: seq<Version>, next: Version)
    requires Chain(hist) && hist != [] && Follows(hist[|hist| - 1], next, |hist|)
    ensures Chain(hist + [next])
  {
    hide Follows;
  }

  lemma StampsExtend(hist: seq<Version>, next: Version, applied: seq<nat>)
    requires Stamps(hist, applied) && StampFor(next, |hist|, applied)
    ensures Stamps(hist + [next], applied)
  {
    hide StampFor;
  }

  lemma CalledStays(hist: seq<Version>, next: Version, applied: seq<nat>)
    requires AllCalled(hist, applied)
    ensures AllCalled(hist + [next], applied)
  {
  }

  /** A state that differs by one more version, and by fewer executors in flight. */
  lemma ExtendedKeeps(s: State, t: State, next: Version)
    requires Invariant(s) && t.hist == s.hist + [next] && t.applied == s.applied && InFlight(t)
    requires s.hist != [] && Follows(s.hist[|s.hist| - 1], next, |s.hist|) && StampFor(next, |s.hist|, s.applied)
    ensures Invariant(t)
  {
    hide Follows, StampFor, InFlight, AllCalled, Stamps, Chain;
    ChainExtends(s.hist, next);
    StampsExtend(s.hist, next, s.applied);
    CalledStays(s.hist, next, s.applied);
  }

  /** Versions written by planners, approvers and rejecters. */
  lemma DecisionKeeps(s: State, a: Action)
    requires Invariant(s) && (a.Overwrite? || a.Approve? || a.Reject?)
    ensures Invariant(Perform(s, a))
  {
    var t := Perform(s, a);
    if t != s {
      hide Chain, AllCalled, Stamps;
      ExtendedKeeps(s, t, t.hist[|s.hist|]);
    }
  }

  lemma CreateKeeps(s: State, ddl: string, immediate: bool, now: Time)
    requires Invariant(s)
    ensures Invariant(Perform(s, Create(ddl, immediate, now)))
  {
  }

  lemma ApplyKeeps(s: State, read: nat)
    requires Invariant(s)
    ensures Invariant(Perform(s, Apply(read)))
  {
    hide Chain;
    var t := Perform(s, Apply(read));
    if t != s {
      hide Called;
      forall v | 0 <= v < |t.hist| ensures StampFor(t.hist[v], v, t.applied) {
        assert StampFor(s.hist[v], v, s.applied);
      }
    }
  }

  lemma WriteBackKeeps(s: State, read: nat, now: Time)
    requires Invariant(s)
    ensures Invariant(Perform(s, WriteBack(read, now)))
  {
    hide Chain, Stamps, AllCalled;
    var t := Perform(s, WriteBack(read, now));
    if read in s.running {
      RunningIsCalled(s, read);
      assert InFlight(t) by { FewerRunning(s, t, read); }
      if |t.hist| > |s.hist| {
        ExtendedKeeps(s, t, t.hist[|s.hist|]);
      }
    }
  }

  lemma FewerRunning(s: State, t: State, read: nat)
    requires InFlight(s) && read in s.applied && t.applied == s.applied && t.retrying == s.retrying
    requires t.running == s.running - multiset{read} || t.running == s.running
    requires t.conflicted == s.conflicted || t.conflicted == s.conflicted + multiset{read}
    ensures InFlight(t)
  {
  }

  lemma ReadAgainKeeps(s: State, applied: nat, read: nat)
    requires Invariant(s)
    ensures Invariant(Perform(s, ReadAgain(applied, read)))
  {
    hide Chain, Stamps, AllCalled;
    var t := Perform(s, ReadAgain(applied, read));
    forall r | r in t.retrying ensures r.applied in t.applied {
      assert r in s.retrying || r == Retrying(applied, read);
    }
  }

  lemma WriteAgainKeeps(s: State, applied: nat, read: nat, now: Time)
    requires Invariant(s)
    ensures Invariant(Perform(s, WriteAgain(applied, read, now)))
  {
    hide Chain, Stamps, AllCalled;
    var t := Perform(s, WriteAgain(applied, read, now));
    if Retrying(applied, read) in s.retrying {
      RetryingIsCalled(s, Retrying(applied, read));
      if |t.hist| > |s.hist| {
        ExtendedKeeps(s, t, t.hist[|s.hist|]);
      }
    }
  }

  /** Every action of every client keeps the invariant. */
  lemma StepKeeps(s: State, a: Action)
    requires Invariant(s)
    ensures Invariant(Perform(s, a))
  {
    hide Invariant, Perform;
    match a
    case Create(ddl, immediate, now) => CreateKeeps(s, ddl, immediate, now);
    case Overwrite(_, _, _, _) => DecisionKeeps(s, a);
    case Approve(_, _) => DecisionKeeps(s, a);
    case Reject(_, _) => DecisionKeeps(s, a);
    case Apply(read) => ApplyKeeps(s, read);
    case WriteBack(read, now) => WriteBackKeeps(s, read, now);
    case ReadAgain(applied, read) => ReadAgainKeeps(s, applied, read);
    case WriteAgain(applied, read, now) => WriteAgainKeeps(s, applied, read, now);
  }

  lemma RunningIsCalled(s: State, v: nat)
    requires Invariant(s) && v in s.running
    ensures v in s.applied && Called(s.hist, v)
  {
  }

  lemma RetryingIsCalled(s: State, r: Retrying)
    requires Invariant(s) && r in s.retrying
    ensures r.applied in s.applied && Called(s.hist, r.applied)
  {
  }

  lemma {:induction false} EveryRunKeeps(actions: seq<Action>)
    ensures Invariant(Run(actions))
  {
    if actions != [] {
      EveryRunKeeps(actions[..|actions| - 1]);
      StepKeeps(Run(actions[..|actions| - 1]), actions[|actions| - 1]);
    }
  }

  // ----- what a chain of versions means --------------------------------------------------------

  /** No version in `(from, to]` is a plan. */
  ghost predicate NoPlan(hist: seq<Version>, from: nat, to: nat)
    requires to < |hist|
  {
    forall v :: from < v <= to ==> !hist[v].writer.ByPlan?
  }

  /** The plan a version belongs to: the latest one up to it. */
  function PlanOf(hist: seq<Version>, v: nat): (p: nat)
    requires v < |hist|
    ensures p <= v
  {
    if v == 0 || hist[v].writer.ByPlan? then v else PlanOf(hist, v - 1)
  }

  /** The version's plan was deployed immediately. */
  predicate Immediate(hist: seq<Version>, v: nat)
    requires v < |hist|
  {
    hist[PlanOf(hist, v)].writer == ByPlan(true)
  }

  /** A version has an approval mark exactly if its plan came with one or its phase says so. */
  lemma {:induction false} ApprovedIff(hist: seq<Version>, v: nat)
    requires Chain(hist) && v < |hist|
    ensures hist[v].m.approvedAt > 0 <==> Immediate(hist, v) || hist[v].m.phase == Phase.Approved || hist[v].m.phase == Executed
  {
    if v > 0 {
      ApprovedIff(hist, v - 1);
      assert Follows(hist[v - 1], hist[v], v);
    }
  }

  /** Somebody approved this version: by hand, or by planning for immediate deployment. */
  predicate Approves(w: Writer) {
    w == ByApprove || w == ByPlan(true)
  }

  /** An approval mark goes back to an approval of the very same text, with no plan since. */
  lemma {:induction false} ApprovedBefore(hist: seq<Version>, v: nat) returns (j: nat)
    requires Chain(hist) && v < |hist| && hist[v].m.approvedAt > 0
    ensures j <= v && Approves(hist[j].writer) && hist[j].m.ddl == hist[v].m.ddl && NoPlan(hist, j, v)
  {
    if Approves(hist[v].writer) {
      j := v;
    } else {
      if v > 0 {
        assert Follows(hist[v - 1], hist[v], v);
      }
      j := ApprovedBefore(hist, v - 1);
    }
  }

  lemma {:induction false} SameText(hist: seq<Version>, i: nat, j: nat)
    requires Chain(hist) && i <= j < |hist| && NoPlan(hist, i, j)
    ensures hist[j].m.ddl == hist[i].m.ddl
    ensures hist[i].m.executedAt > 0 ==> hist[j].m.executedAt > 0
  {
    if i < j {
      SameText(hist, i, j - 1);
      assert Follows(hist[j - 1], hist[j], j);
    }
  }

  // ----- over all runs -----------------------------------------------------------------------------

  /** Every text ever applied had been approved as that exact text, and not planned anew since. */
  lemma AppliedWasApproved(actions: seq<Action>, k: nat) returns (j: nat)
    requires k < |Run(actions).applied|
    ensures var s := Run(actions); var v := s.applied[k];
      && j <= v < |s.hist| && Approves(s.hist[j].writer)
      && s.hist[j].m.ddl == s.hist[v].m.ddl && NoPlan(s.hist, j, v)
  {
    EveryRunKeeps(actions);
    var s := Run(actions);
    assert Called(s.hist, s.applied[k]);
    j := ApprovedBefore(s.hist, s.applied[k]);
  }

  /** No plan of the run was for immediate deployment. */
  ghost predicate NoneImmediate(hist: seq<Version>) {
    forall v :: 0 <= v < |hist| ==> hist[v].writer != ByPlan(true)
  }

  /** Without immediate deployment every applied text was approved by hand. */
  lemma AppliedWasApprovedByHand(actions: seq<Action>, k: nat) returns (j: nat)
    requires k < |Run(actions).applied| && NoneImmediate(Run(actions).hist)
    ensures var s := Run(actions); var v := s.applied[k];
      && j <= v < |s.hist| && s.hist[j].writer == ByApprove
      && s.hist[j].m.ddl == s.hist[v].m.ddl && NoPlan(s.hist, j, v)
  {
    j := AppliedWasApproved(actions, k);
  }

  /** A stored rejected version calls for applying exactly if it is not executed and its plan was immediate. */
  lemma RejectedCallsIff(actions: seq<Action>, v: nat)
    requires v < |Run(actions).hist| && Run(actions).hist[v].m.phase == Rejected
    ensures var hist := Run(actions).hist; ShouldApply(hist[v].m) <==> hist[v].m.executedAt == 0 && Immediate(hist, v)
  {
    EveryRunKeeps(actions);
    ApprovedIff(Run(actions).hist, v);
  }

  /** So without immediate deployment it never does, and was never applied. */
  lemma RejectedIsNeverApplied(actions: seq<Action>, v: nat)
    requires v < |Run(actions).hist| && Run(actions).hist[v].m.phase == Rejected && !Immediate(Run(actions).hist, v)
    ensures !ShouldApply(Run(actions).hist[v].m) && v !in Run(actions).applied
  {
    EveryRunKeeps(actions);
    RejectedCallsIff(actions, v);
    var s := Run(actions);
    assert v in s.applied ==> Called(s.hist, v);
  }

  /** Rejecting takes effect on what comes after, too. */
  lemma {:induction false} RejectionLasts(hist: seq<Version>, i: nat, j: nat)
    requires Chain(hist) && i <= j < |hist| && hist[i].m.phase == Rejected && NoPlan(hist, i, j)
    ensures hist[j].m.phase == Rejected || hist[j].m.phase == Executed
    ensures hist[j].m.phase == Executed ==> Immediate(hist, j) && hist[j].m.executedAt > 0
  {
    if i < j {
      RejectionLasts(hist, i, j - 1);
      ApprovedIff(hist, j - 1);
      assert Follows(hist[j - 1], hist[j], j);
    }
  }

  /** After a rejection only a new plan leads to an apply, unless the plan was immediate. */
  lemma RejectedUntilPlanned(actions: seq<Action>, i: nat, j: nat)
    requires var hist := Run(actions).hist; i <= j < |hist| && hist[i].m.phase == Rejected && ShouldApply(hist[j].m)
    ensures !NoPlan(Run(actions).hist, i, j) || Immediate(Run(actions).hist, j)
  {
    EveryRunKeeps(actions);
    var hist := Run(actions).hist;
    if NoPlan(hist, i, j) {
      RejectionLasts(hist, i, j);
      ApprovedIff(hist, j);
    }
  }

  /** Once an execution is stored, nothing calls for applying until a plan overwrites the object. */
  lemma ExecutedUntilPlanned(actions: seq<Action>, i: nat, j: nat)
    requires var hist := Run(actions).hist; i <= j < |hist| && hist[i].m.executedAt > 0 && ShouldApply(hist[j].m)
    ensures !NoPlan(Run(actions).hist, i, j)
  {
    EveryRunKeeps(actions);
    var hist := Run(actions).hist;
    if NoPlan(hist, i, j) {
      SameText(hist, i, j);
      assert false;
    }
  }

  /** A stamp written without conflict is on the very version whose text was applied. */
  lemma StampedWasApplied(actions: seq<Action>, v: nat)
    requires 0 < v < |Run(actions).hist| && Run(actions).hist[v].writer == ByExecute
    ensures var s := Run(actions); v - 1 in s.applied && s.hist[v].m.ddl == s.hist[v - 1].m.ddl
  {
    EveryRunKeeps(actions);
    var s := Run(actions);
    assert Follows(s.hist[v - 1], s.hist[v], v);
  }

  /** A stamp written after a conflict is right if nobody planned in the meantime. */
  lemma RetryStampsAppliedText(actions: seq<Action>, v: nat)
    requires 0 < v < |Run(actions).hist| && Run(actions).hist[v].writer.ByRetry?
    ensures var s := Run(actions); var a := s.hist[v].writer.applied;
      a < v && a in s.applied && (NoPlan(s.hist, a, v) ==> s.hist[v].m.ddl == s.hist[a].m.ddl)
  {
    EveryRunKeeps(actions);
    var s := Run(actions);
    assert Follows(s.hist[v - 1], s.hist[v], v);
    if NoPlan(s.hist, s.hist[v].writer.applied, v) {
      SameText(s.hist, s.hist[v].writer.applied, v);
    }
  }

  // ----- plans and the stamps on them ----------------------------------------------------------------

  lemma {:induction false} PlanOfIs(hist: seq<Version>, v: nat, u: nat)
    requires Chain(hist) && u <= v < |hist|
    ensures PlanOf(hist, u) == PlanOf(hist, v) <==> NoPlan(hist, u, v)
    ensures NoPlan(hist, u, v) <==> PlanOf(hist, v) <= u
    decreases v
  {
    if u < v {
      if !hist[v].writer.ByPlan? {
        PlanOfIs(hist, v - 1, u);
      } else {
        assert PlanOf(hist, v) == v;
        assert !NoPlan(hist, u, v);
      }
    }
  }

  predicate OfPlan(hist: seq<Version>, v: nat, p: nat) {
    v < |hist| && PlanOf(hist, v) == p
  }

  /** Behind a stored execution no version of the same plan calls for applying. */
  lemma CalledBeforeStamp(hist: seq<Version>, v: nat, u: nat)
    requires Chain(hist) && v < |hist| && hist[v].m.executedAt > 0 && Called(hist, u) && OfPlan(hist, u, PlanOf(hist, v))
    ensures PlanOf(hist, v) <= u < v
  {
    if u >= v {
      PlanOfIs(hist, u, v);
      SameText(hist, v, u);
      assert false;
    }
  }

  /** Some version of the plan has been applied. */
  ghost predicate PlanApplied(s: State, p: nat) {
    exists u :: u in s.applied && OfPlan(s.hist, u, p)
  }

  /**
   A stamp written after a conflict is on a plan that was applied exactly if no plan came
   between the applied version and the stamp, or some other executor applied a version of the
   newer plan before it.
   */
  lemma RetryStampsAppliedPlanIff(actions: seq<Action>, v: nat)
    requires 0 < v < |Run(actions).hist| && Run(actions).hist[v].writer.ByRetry?
    ensures var s := Run(actions); var p := PlanOf(s.hist, v);
      PlanApplied(s, p) <==> NoPlan(s.hist, s.hist[v].writer.applied, v) || exists u :: u in s.applied && p <= u < v
  {
    EveryRunKeeps(actions);
    var s := Run(actions);
    var p, a := PlanOf(s.hist, v), s.hist[v].writer.applied;
    assert Follows(s.hist[v - 1], s.hist[v], v);
    assert StampFor(s.hist[v], v, s.applied);
    PlanOfIs(s.hist, v, a);
    if PlanApplied(s, p) {
      var u :| u in s.applied && OfPlan(s.hist, u, p);
      CalledBeforeStamp(s.hist, v, u);
    }
    if NoPlan(s.hist, a, v) {
      assert a in s.applied && OfPlan(s.hist, a, p);
    }
    if u :| u in s.applied && p <= u < v {
      PlanOfIs(s.hist, v, u);
      assert OfPlan(s.hist, u, p);
    }
  }

  lemma {:induction false} HistoryGrows(actions: seq<Action>, more: seq<Action>)
    ensures Run(actions).hist <= Run(actions + more).hist
    decreases |more|
  {
    hide Run, Perform;
    if more == [] {
      assert actions + more == actions;
    } else {
      var n := |more| - 1;
      HistoryGrows(actions, more[..n]);
      assert actions + more == (actions + more[..n]) + [more[n]];
      RunSnoc(actions + more[..n], more[n]);
      OneMore(Run(actions + more[..n]), more[n]);
    }
  }

  lemma OneMore(s: State, a: Action)
    ensures s.hist <= Perform(s, a).hist
  {
  }

  lemma {:induction false} PlanOfPrefix(hist: seq<Version>, longer: seq<Version>, v: nat)
    requires hist <= longer && v < |hist|
    ensures PlanOf(longer, v) == PlanOf(hist, v)
  {
    if v > 0 {
      PlanOfPrefix(hist, longer, v - 1);
    }
  }

  /** Some run that goes on from here applies a version of the plan, or has done so already. */
  ghost predicate EverApplied(actions: seq<Action>, p: nat) {
    exists more :: PlanApplied(Run(actions + more), p)
  }

  /** An apply of the stamped plan, in any continuation, was called for before the stamp. */
  lemma AppliedWasCalled(actions: seq<Action>, more: seq<Action>, v: nat) returns (u: nat)
    requires v < |Run(actions).hist| && Run(actions).hist[v].m.executedAt > 0
    requires PlanApplied(Run(actions + more), PlanOf(Run(actions).hist, v))
    ensures PlanOf(Run(actions).hist, v) <= u < v && Called(Run(actions).hist, u)
  {
    EveryRunKeeps(actions + more);
    HistoryGrows(actions, more);
    hide Run, Chain, InFlight, Stamps;
    var hist, s := Run(actions).hist, Run(actions + more);
    var p := PlanOf(hist, v);
    u :| u in s.applied && OfPlan(s.hist, u, p);
    PlanOfPrefix(hist, s.hist, v);
    CalledBeforeStamp(s.hist, v, u);
  }

  /** A version that called for applying may still be read, and applied, later. */
  lemma CalledCanBeApplied(actions: seq<Action>, v: nat, u: nat)
    requires v < |Run(actions).hist| && PlanOf(Run(actions).hist, v) <= u < v && Called(Run(actions).hist, u)
    ensures EverApplied(actions, PlanOf(Run(actions).hist, v))
  {
    EveryRunKeeps(actions);
    RunSnoc(actions, Apply(u));
    hide Run, AllCalled, InFlight, Stamps;
    var hist := Run(actions).hist;
    PlanOfIs(hist, v, u);
    hide Chain;
    var more := [Apply(u)];
    var s := Run(actions + more);
    assert u in s.applied && OfPlan(s.hist, u, PlanOf(hist, v));
    assert PlanApplied(Run(actions + more), PlanOf(hist, v));
  }

  /**
   Once a version is stamped as executed, its plan is applied in some continuation exactly if
   it had been approved, and not yet stamped, before: a plan stamped while it was still waiting
   for approval is never applied, whatever happens next.
   */
  lemma StampedPlanAppliedIff(actions: seq<Action>, v: nat)
    requires v < |Run(actions).hist| && Run(actions).hist[v].m.executedAt > 0
    ensures var hist := Run(actions).hist; var p := PlanOf(hist, v);
      EverApplied(actions, p) <==> exists u :: p <= u < v && Called(hist, u)
  {
    hide Run, PlanApplied, Called;
    var hist := Run(actions).hist;
    var p := PlanOf(hist, v);
    if EverApplied(actions, p) {
      var more :| PlanApplied(Run(actions + more), p);
      var u := AppliedWasCalled(actions, more, v);
    }
    if u :| p <= u < v && Called(hist, u) {
      CalledCanBeApplied(actions, v, u);
    }
  }

  /** Two applies of one plan need an executor that had not yet stored the first. */
  lemma AppliesOfOnePlan(actions: seq<Action>, i: nat, j: nat)
    requires var s := Run(actions); i < |s.applied| && j < |s.applied|
    requires var s := Run(actions); s.applied[i] <= s.applied[j] < |s.hist| && NoPlan(s.hist, s.applied[i], s.applied[j])
    ensures var s := Run(actions); forall v :: s.applied[i] <= v <= s.applied[j] ==> s.hist[v].m.executedAt == 0
  {
    EveryRunKeeps(actions);
    var s := Run(actions);
    var a, b := s.applied[i], s.applied[j];
    assert Called(s.hist, s.applied[j]);
    forall v | a <= v <= b ensures s.hist[v].m.executedAt == 0 {
      SameText(s.hist, v, b);
    }
  }

  // ----- what goes wrong after a conflict ------------------------------------------------------------

  function Race(first: string, second: string): seq<Action> {
    [Create(first, false, 1), Approve(0, 1), Apply(1), Overwrite(1, second, false, 1),
      WriteBack(1, 2), ReadAgain(1, 2), WriteAgain(1, 2, 3)]
  }

  lemma RunSnoc(actions: seq<Action>, a: Action)
    ensures Run(actions + [a]) == Perform(Run(actions), a)
  {
    var all := actions + [a];
    assert all[..|all| - 1] == actions && all[|all| - 1] == a;
  }

  /** The versions of the race, one after the other. */
  function RaceVersions(first: string, second: string): seq<Version> {
    [Version(Planning(first, false, 1), ByPlan(false)), Version(Migration(first, 1, 0, 0, Phase.Approved), ByApprove),
     Version(Planning(second, false, 1), ByPlan(false)), Version(Migration(second, 0, 0, 3, Planned), ByRetry(1)),
     Version(Migration(second, 4, 0, 3, Phase.Approved), ByApprove)]
  }

  function AfterThree(first: string, second: string): State {
    State(RaceVersions(first, second)[..2], [1], multiset{1}, multiset{}, multiset{})
  }

  function Idle(hist: seq<Version>): State {
    State(hist, [], multiset{}, multiset{}, multiset{})
  }

  lemma RaceCreates(first: string, second: string)
    ensures Perform(START, Create(first, false, 1)) == Idle(RaceVersions(first, second)[..1])
  {
    assert RaceVersions(first, second)[..1] == [RaceVersions(first, second)[0]];
  }

  lemma RaceApprovesFirst(first: string, second: string)
    ensures Perform(Idle(RaceVersions(first, second)[..1]), Approve(0, 1)) == Idle(RaceVersions(first, second)[..2])
  {
    var v := RaceVersions(first, second);
    assert v[..2] == v[..1] + [v[1]];
  }

  lemma RaceApplies(first: string, second: string)
    ensures Perform(Idle(RaceVersions(first, second)[..2]), Apply(1)) == AfterThree(first, second)
  {
    assert [1] == [] + [1] && multiset{1} == multiset{} + multiset{1};
  }

  lemma RaceStart(first: string, second: string)
    ensures Run([Create(first, false, 1), Approve(0, 1), Apply(1)]) == AfterThree(first, second)
  {
    assert Run([]) == START;
    hide Run, Perform, AfterThree, Idle;
    RaceCreates(first, second);
    RaceApprovesFirst(first, second);
    RaceApplies(first, second);
    var p1 := [Create(first, false, 1)];
    var p2 := p1 + [Approve(0, 1)];
    RunSnoc([], Create(first, false, 1));
    RunSnoc(p1, Approve(0, 1));
    RunSnoc(p2, Apply(1));
    assert [] + p1 == p1;
    assert p2 + [Apply(1)] == [Create(first, false, 1), Approve(0, 1), Apply(1)];
  }

  lemma RaceOverwrites(first: string, second: string)
    ensures Perform(AfterThree(first, second), Overwrite(1, second, false, 1)) ==
      State(RaceVersions(first, second)[..3], [1], multiset{1}, multiset{}, multiset{})
  {
  }

  lemma RaceConflicts(h: seq<Version>)
    requires |h| == 3
    ensures Perform(State(h, [1], multiset{1}, multiset{}, multiset{}), WriteBack(1, 2)) ==
      State(h, [1], multiset{}, multiset{1}, multiset{})
    ensures Perform(State(h, [1], multiset{}, multiset{1}, multiset{}), ReadAgain(1, 2)) ==
      State(h, [1], multiset{}, multiset{}, multiset{Retrying(1, 2)})
  {
  }

  lemma RaceStamps(first: string, second: string)
    ensures Perform(State(RaceVersions(first, second)[..3], [1], multiset{}, multiset{}, multiset{Retrying(1, 2)}), WriteAgain(1, 2, 3)) ==
      State(RaceVersions(first, second)[..4], [1], multiset{}, multiset{}, multiset{})
  {
  }

  lemma RaceApproves(first: string, second: string)
    ensures Perform(State(RaceVersions(first, second)[..4], [1], multiset{}, multiset{}, multiset{}), Approve(3, 4)) ==
      State(RaceVersions(first, second), [1], multiset{}, multiset{}, multiset{})
  {
  }

  lemma RaceRuns(first: string, second: string)
    ensures Run(Race(first, second)) == State(RaceVersions(first, second)[..4], [1], multiset{}, multiset{}, multiset{})
  {
    hide Run, Perform, RaceVersions;
    var p3 := [Create(first, false, 1), Approve(0, 1), Apply(1)];
    var p4 := p3 + [Overwrite(1, second, false, 1)];
    var p5 := p4 + [WriteBack(1, 2)];
    var p6 := p5 + [ReadAgain(1, 2)];
    assert Race(first, second) == p6 + [WriteAgain(1, 2, 3)];
    RaceStart(first, second);
    RunSnoc(p3, Overwrite(1, second, false, 1));
    RaceOverwrites(first, second);
    RunSnoc(p4, WriteBack(1, 2));
    RaceLength(first, second);
    RaceConflicts(RaceVersions(first, second)[..3]);
    RunSnoc(p5, ReadAgain(1, 2));
    RunSnoc(p6, WriteAgain(1, 2, 3));
    RaceStamps(first, second);
  }

  lemma RaceLength(first: string, second: string)
    ensures |RaceVersions(first, second)| == 5
  {
  }

  lemma RacePlanIsLost(first: string, second: string)
    ensures !EverApplied(Race(first, second), 2)
  {
    RaceRuns(first, second);
    hide Run, EverApplied;
    var hist := Run(Race(first, second)).hist;
    assert hist[2] == Version(Planning(second, false, 1), ByPlan(false)) && hist[3].m.executedAt > 0 && hist[3].writer == ByRetry(1);
    StampedPlanAppliedIff(Race(first, second), 3);
    assert PlanOf(hist, 3) == PlanOf(hist, 2) == 2;
    assert !Called(hist, 2);
  }

  /**
   A plan that overwrites the object while its old text is being applied is stamped executed by
   the retry: the new text was never applied, and even once approved it never will be.
   */
  lemma ConflictLosesPlan(first: string, second: string)
    ensures var s := Run(Race(first, second));
      && |s.hist| == 4 && s.applied == [1] && s.hist[1].m.ddl == first
      && s.hist[3].m == Migration(second, 0, 0, 3, Planned)
    ensures var s := Run(Race(first, second) + [Approve(3, 4)]);
      s.hist[4].m.ddl == second && s.hist[4].m.approvedAt > 0 && !ShouldApply(s.hist[4].m)
    ensures !EverApplied(Race(first, second), 2)
  {
    RaceRuns(first, second);
    RacePlanIsLost(first, second);
    RunSnoc(Race(first, second), Approve(3, 4));
    RaceApproves(first, second);
    hide Run, Perform, Race;
  }

  // ----- what goes wrong with immediate deployment -------------------------------------------------------

  lemma ImmediateStart(ddl: string)
    ensures Run([Create(ddl, true, 1), Reject(0, 2)]) ==
      State([Version(Migration(ddl, 1, 0, 0, Planned), ByPlan(true)), Version(Migration(ddl, 1, 2, 0, Rejected), ByReject)],
        [], multiset{}, multiset{}, multiset{})
  {
    RunSnoc([], Create(ddl, true, 1));
    RunSnoc([Create(ddl, true, 1)], Reject(0, 2));
    assert [] + [Create(ddl, true, 1)] == [Create(ddl, true, 1)];
    assert [Create(ddl, true, 1)] + [Reject(0, 2)] == [Create(ddl, true, 1), Reject(0, 2)];
  }

  /** A migration planned for immediate deployment can be rejected and applied all the same. */
  lemma ImmediateIsAppliedThoughRejected(ddl: string)
    ensures var s := Run([Create(ddl, true, 1), Reject(0, 2)] + [Apply(1)]);
      |s.hist| == 2 && s.hist[1].m.phase == Rejected && s.applied == [1]
  {
    ImmediateStart(ddl);
    RunSnoc([Create(ddl, true, 1), Reject(0, 2)], Apply(1));
    hide Run;
  }

  // ----- stale clients ----------------------------------------------------------------------------------

  /** The version a client read before it writes. */
  function ReadBefore(a: Action): int {
    match a
    case Create(_, _, _) => -1
    case Overwrite(read, _, _, _) => read
    case Approve(read, _) => read
    case Reject(read, _) => read
    case Apply(read) => read
    case WriteBack(read, _) => read
    case ReadAgain(_, read) => read
    case WriteAgain(_, read, _) => read
  }

  /** In every state: a client that has not read the newest version writes nothing, and no client writes more than one version. */
  lemma StaleWritesNothing(s: State, a: Action)
    ensures ReadBefore(a) != |s.hist| - 1 ==> Perform(s, a).hist == s.hist
    ensures Perform(s, a).hist == s.hist || (|Perform(s, a).hist| == |s.hist| + 1 && Perform(s, a).hist[..|s.hist|] == s.hist)
    ensures a.Apply? || a.ReadAgain? ==> Perform(s, a).hist == s.hist
  {
  }

  /** A version written by anyone but a plan keeps the text, and every stamp but its own. */
  lemma WritesKeepTheRest(s: State, a: Action)
    requires |Perform(s, a).hist| == |s.hist| + 1 && !a.Create? && !a.Overwrite?
    ensures var old_, new_ := s.hist[|s.hist| - 1].m, Perform(s, a).hist[|s.hist|].m;
      && new_.ddl == old_.ddl
      && (!a.Approve? ==> new_.approvedAt == old_.approvedAt)
      && (!a.Reject? ==> new_.rejectedAt == old_.rejectedAt)
      && (a.Approve? || a.Reject? ==> new_.executedAt == old_.executedAt)
      && (a.Approve? ==> new_.approvedAt == a.now && new_.phase == Phase.Approved && old_.phase == Planned)
      && (a.Reject? ==> new_.rejectedAt == a.now && new_.phase == Rejected && old_.phase == Planned)
      && (a.WriteBack? ==> new_.executedAt == a.now && new_.phase == Executed)
      && (a.WriteAgain? ==> new_.executedAt == a.now && new_.phase == old_.phase)
  {
  }

  /** A plan starts afresh, approved only if it is deployed immediately, and touches nothing but the newest version. */
  lemma PlansStartAfresh(s: State, a: Action)
    requires |Perform(s, a).hist| == |s.hist| + 1 && (a.Create? || a.Overwrite?)
    ensures var new_ := Perform(s, a).hist[|s.hist|];
      && new_.m.ddl == a.ddl && new_.m.rejectedAt == 0 && new_.m.executedAt == 0 && new_.m.phase == Planned
      && new_.m.approvedAt == (if a.immediate then a.now else 0) && new_.writer == ByPlan(a.immediate)
      && (a.Create? ==> s.hist == [])
  {
  }
}
