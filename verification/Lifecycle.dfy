/**
 A migration object from plan to execution. Every client reads a version, decides, and writes
 back; the store refuses a write whose version is no longer the newest. Reads may be stale, so
 a run is any sequence of client actions, each naming the version it has read.
 */
module Lifecycle {
  type Time = t: nat | t > 0 witness 1

  datatype Phase = Planned | Approved | Rejected | Executed

  datatype Migration = Migration(ddl: string, approvedAt: nat, rejectedAt: nat, executedAt: nat, phase: Phase)

  /**
   Who wrote a version: a plan for a database that deploys immediately carries its own approval,
   and a retry remembers the version whose text it had applied.
   */
  datatype Writer = ByPlan(immediate: bool) | ByApprove | ByReject | ByExecute | ByRetry(applied: nat)

  datatype Version = Version(m: Migration, writer: Writer)

  /** A retry in flight: the version whose text was applied and the version read again. */
  datatype Retrying = Retrying(applied: nat, read: nat)

  /**
   All versions so far, the versions whose text was applied, executors between applying and
   writing back, executors whose write was refused, and executors about to write again.
   */
  datatype State = State(
    hist: seq<Version>, applied: seq<nat>, running: multiset<nat>, conflicted: multiset<nat>, retrying: multiset<Retrying>)

  datatype Action =
    | Create(ddl: string, immediate: bool, now: Time)
    | Overwrite(read: nat, ddl: string, immediate: bool, now: Time)
    | Approve(read: nat, now: Time)
    | Reject(read: nat, now: Time)
    | Apply(read: nat)
    | WriteBack(read: nat, now: Time)
    | ReadAgain(applied: nat, read: nat)
    | WriteAgain(applied: nat, read: nat, now: Time)

  predicate ShouldApply(m: Migration) {
    m.approvedAt > 0 && m.executedAt == 0
  }

  /** A fresh plan; deployed immediately, it is approved while its phase stays planned. */
  function Planning(ddl: string, immediate: bool, now: Time): Migration {
    Migration(ddl, if immediate then now else 0, 0, 0, Planned)
  }

  /** What an action does; refused writes and disabled actions change nothing. */
  function Perform(s: State, a: Action): State {
    var newest := |s.hist| - 1;
    match a
    case Create(ddl, immediate, now) =>
      if s.hist != [] then s else s.(hist := [Version(Planning(ddl, immediate, now), ByPlan(immediate))])
    case Overwrite(read, ddl, immediate, now) =>
      if read != newest then s else s.(hist := s.hist + [Version(Planning(ddl, immediate, now), ByPlan(immediate))])
    case Approve(read, now) =>
      if read >= |s.hist| || s.hist[read].m.phase != Planned || read != newest then s
      else s.(hist := s.hist + [Version(s.hist[read].m.(approvedAt := now, phase := Phase.Approved), ByApprove)])
    case Reject(read, now) =>
      if read >= |s.hist| || s.hist[read].m.phase != Planned || read != newest then s
      else s.(hist := s.hist + [Version(s.hist[read].m.(rejectedAt := now, phase := Rejected), ByReject)])
    case Apply(read) =>
      if read >= |s.hist| || !ShouldApply(s.hist[read].m) then s
      else s.(applied := s.applied + [read], running := s.running + multiset{read})
    case WriteBack(read, now) =>
      if read !in s.running || read >= |s.hist| then s
      else if read != newest then s.(running := s.running - multiset{read}, conflicted := s.conflicted + multiset{read})
      else s.(running := s.running - multiset{read},
              hist := s.hist + [Version(s.hist[read].m.(executedAt := now, phase := Executed), ByExecute)])
    case ReadAgain(applied, read) =>
      if applied !in s.conflicted || read >= |s.hist| then s
      else s.(conflicted := s.conflicted - multiset{applied}, retrying := s.retrying + multiset{Retrying(applied, read)})
    case WriteAgain(applied, read, now) =>
      if Retrying(applied, read) !in s.retrying || read >= |s.hist| then s
      else if read != newest then s.(retrying := s.retrying - multiset{Retrying(applied, read)})
      else s.(retrying := s.retrying - multiset{Retrying(applied, read)},
              hist := s.hist + [Version(s.hist[read].m.(executedAt := now), ByRetry(applied))])
  }

  const START := State([], [], multiset{}, multiset{}, multiset{})

  function Run(actions: seq<Action>): State {
    if actions == [] then START else Perform(Run(actions[..|actions| - 1]), actions[|actions| - 1])
  }

  // ----- the clients ---------------------------------------------------------------------------

  datatype Outcome = Written | Conflict | Refused | NotFound

  /** The stored object and the clients in flight. */
  class Cluster {
    var hist: seq<Version>
    var applied: seq<nat>
    var running: multiset<nat>
    var conflicted: multiset<nat>
    var retrying: multiset<Retrying>

    constructor ()
      ensures Value() == START
    {
      hist, applied, running, conflicted, retrying := [], [], multiset{}, multiset{}, multiset{};
    }

    ghost function Value(): State
      reads this
    {
      State(hist, applied, running, conflicted, retrying)
    }

    /** The store's conditional write. */
    method Update(read: nat, m: Migration, writer: Writer) returns (outcome: Outcome)
      modifies this`hist
      ensures outcome == if read == |old(hist)| - 1 then Written else Conflict
      ensures hist == if outcome == Written then old(hist) + [Version(m, writer)] else old(hist)
    {
      if read != |hist| - 1 {
        return Conflict;
      }
      hist := hist + [Version(m, writer)];
      return Written;
    }

    /** Plans: creates the object if the earlier lookup found none, overwrites it otherwise. */
    method Plan(found: bool, read: nat, ddl: string, immediateDeploy: bool, now: Time) returns (outcome: Outcome)
      modifies this`hist
      ensures Value() == Perform(old(Value()),
        if found then Overwrite(read, ddl, immediateDeploy, now) else Create(ddl, immediateDeploy, now))
    {
      var migration := Migration(ddl, 0, 0, 0, Planned);
      if immediateDeploy {
        migration := migration.(approvedAt := now, phase := Planned);
      }
      if !found {
        if hist != [] {
          return Refused;
        }
        hist := hist + [Version(migration, ByPlan(immediateDeploy))];
        return Written;
      }
      outcome := Update(read, migration, ByPlan(immediateDeploy));
    }

    method ApproveMigration(read: nat, now: Time) returns (outcome: Outcome)
      modifies this`hist
      ensures Value() == Perform(old(Value()), Approve(read, now))
      ensures outcome == NotFound <==> read >= |old(hist)|
      ensures read < |old(hist)| ==> (outcome == Refused <==> old(hist)[read].m.phase != Planned)
    {
      if read >= |hist| {
        return NotFound;
      }
      var migration := hist[read].m;
      if migration.phase != Planned {
        return Refused;
      }
      migration := migration.(approvedAt := now, phase := Phase.Approved);
      outcome := Update(read, migration, ByApprove);
    }

    method RejectMigration(read: nat, now: Time) returns (outcome: Outcome)
      modifies this`hist
      ensures Value() == Perform(old(Value()), Reject(read, now))
      ensures outcome == NotFound <==> read >= |old(hist)|
      ensures read < |old(hist)| ==> (outcome == Refused <==> old(hist)[read].m.phase != Planned)
    {
      if read >= |hist| {
        return NotFound;
      }
      var migration := hist[read].m;
      if migration.phase == Planned {
        migration := migration.(rejectedAt := now, phase := Rejected);
        outcome := Update(read, migration, ByReject);
      } else {
        outcome := Refused;
      }
    }

    /** The first half of a reconcile: check, then apply the statements. */
    method ApplyMigration(read: nat) returns (outcome: Outcome)
      modifies this`applied, this`running
      ensures Value() == Perform(old(Value()), Apply(read))
      ensures outcome == NotFound <==> read >= |old(hist)|
      ensures read < |old(hist)| ==> (outcome == Refused <==> !ShouldApply(old(hist)[read].m))
    {
      if read >= |hist| {
        return NotFound;
      }
      if !ShouldApply(hist[read].m) {
        return Refused;
      }
      applied := applied + [read];
      running := running + multiset{read};
      return Written;
    }

    /** The second half: stamp the object as read, and note a conflict. */
    method StampMigration(read: nat, now: Time) returns (outcome: Outcome)
      requires read < |hist| && read in running
      modifies this`hist, this`running, this`conflicted
      ensures running == old(running) - multiset{read} && applied == old(applied) && retrying == old(retrying)
      ensures outcome == if read == |old(hist)| - 1 then Written else Conflict
      ensures hist == if outcome == Written
        then old(hist) + [Version(old(hist)[read].m.(executedAt := now, phase := Executed), ByExecute)] else old(hist)
      ensures conflicted == if outcome == Conflict then old(conflicted) + multiset{read} else old(conflicted)
      ensures Value() == Perform(old(Value()), WriteBack(read, now))
    {
      var migration := hist[read].m.(executedAt := now, phase := Executed);
      running := running - multiset{read};
      outcome := Update(read, migration, ByExecute);
      if outcome == Conflict {
        conflicted := conflicted + multiset{read};
      }
    }

    /** After a conflict: read the object again... */
    method ReadMigrationAgain(stamped: nat, read: nat)
      requires stamped in conflicted && read < |hist|
      modifies this`conflicted, this`retrying
      ensures Value() == Perform(old(Value()), ReadAgain(stamped, read))
    {
      conflicted := conflicted - multiset{stamped};
      retrying := retrying + multiset{Retrying(stamped, read)};
    }

    /** ... and stamp it; the phase of the object read again is left alone. */
    method StampMigrationAgain(stamped: nat, read: nat, now: Time) returns (outcome: Outcome)
      requires Retrying(stamped, read) in retrying && read < |hist|
      modifies this`hist, this`retrying
      ensures Value() == Perform(old(Value()), WriteAgain(stamped, read, now))
    {
      var updated := hist[read].m.(executedAt := now);
      retrying := retrying - multiset{Retrying(stamped, read)};
      outcome := Update(read, updated, ByRetry(stamped));
    }
  }
}
