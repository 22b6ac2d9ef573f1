/**
 The batch queue: tables wait per database until a timer that every further table restarts
 runs out. Queueing, a timer firing and its callback draining the queue interleave freely.
 */
module Batch {
  import opened Options

  /** One call that queued a table version; its place in the log identifies the version. */
  datatype Queued = Queued(db: string, key: string)

  datatype BatchState = BatchState(pending: map<string, nat>, timer: Option<nat>)

  /** The versions one callback took out of a database's queue, by table. */
  datatype Drained = Drained(db: string, tables: map<string, nat>)

  /**
   The manager's queues, the timers (numbered as created) that are armed or have fired without
   their callback having drained yet, and what has happened so far: every version queued,
   which later version replaced it while it waited, and the batches drained.
   */
  datatype State = State(
    batches: map<string, BatchState>, armed: map<nat, string>, fired: map<nat, string>, timers: nat,
    queued: seq<Queued>, replaced: map<nat, nat>, drained: seq<Drained>)

  const START := State(map[], map[], map[], 0, [], map[], [])

  datatype Action = Queue(db: string, window: nat, key: string) | Fire(timer: nat) | Drain(timer: nat)

  function BatchOf(batches: map<string, BatchState>, db: string): BatchState {
    if db in batches then batches[db] else BatchState(map[], None)
  }

  /** Stopping a timer that has fired, or none, does nothing. */
  function Stopped(armed: map<nat, string>, timer: Option<nat>): map<nat, string> {
    match timer
    case None => armed
    case Some(t) => armed - {t}
  }

  function Perform(s: State, a: Action): State {
    match a
    case Queue(db, window, key) =>
      if window == 0 then s else
      var b, id := BatchOf(s.batches, db), |s.queued|;
      State(s.batches[db := BatchState(b.pending[key := id], Some(s.timers))], Stopped(s.armed, b.timer)[s.timers := db], s.fired,
        s.timers + 1, s.queued + [Queued(db, key)],
        if key in b.pending then s.replaced[b.pending[key] := id] else s.replaced, s.drained)
    case Fire(t) =>
      if t !in s.armed then s else s.(armed := s.armed - {t}, fired := s.fired[t := s.armed[t]])
    case Drain(t) =>
      if t !in s.fired then s else
      var db := s.fired[t];
      var b := BatchOf(s.batches, db);
      State(if db in s.batches then s.batches[db := BatchState(map[], None)] else s.batches, s.armed, s.fired - {t}, s.timers,
        s.queued, s.replaced, if b.pending == map[] then s.drained else s.drained + [Drained(db, b.pending)])
  }

  function Run(actions: seq<Action>): State {
    if actions == [] then START else Perform(Run(actions[..|actions| - 1]), actions[|actions| - 1])
  }

  // ----- the manager -----------------------------------------------------------------------------

  class BatchManager {
    var batches: map<string, BatchState>
    var armed: map<nat, string>
    var fired: map<nat, string>
    var timers: nat
    var queued: seq<Queued>
    var replaced: map<nat, nat>
    var drained: seq<Drained>

    constructor ()
      ensures Value() == START
    {
      batches, armed, fired, timers := map[], map[], map[], 0;
      queued, replaced, drained := [], map[], [];
    }

    ghost function Value(): State
      reads this
    {
      State(batches, armed, fired, timers, queued, replaced, drained)
    }

    method QueueTable(db: string, window: nat, key: string) returns (accepted: bool)
      modifies this
      ensures accepted <==> window > 0
      ensures Value() == Perform(old(Value()), Queue(db, window, key))
    {
      if window == 0 {
        return false;
      }
      if db !in batches {
        batches := batches[db := BatchState(map[], None)];
      }
      var batch := batches[db];
      var id := |queued|;
      queued := queued + [Queued(db, key)];
      if key in batch.pending {
        replaced := replaced[batch.pending[key] := id];
      }
      batch := batch.(pending := batch.pending[key := id]);
      if batch.timer.Some? {
        armed := armed - {batch.timer.value};
      }
      armed := armed[timers := db];
      batch := batch.(timer := Some(timers));
      timers := timers + 1;
      batches := batches[db := batch];
      return true;
    }

    /** The runtime's side of a timer: from here on its callback is due and cannot be stopped. */
    method FireTimer(t: nat)
      requires t in armed
      modifies this`armed, this`fired
      ensures Value() == Perform(old(Value()), Fire(t))
    {
      fired := fired[t := armed[t]];
      armed := armed - {t};
    }

    /** A due callback: takes everything pending, whoever queued it. */
    method ProcessBatch(t: nat) returns (tables: seq<nat>)
      requires t in fired
      modifies this`fired, this`batches, this`drained
      ensures Value() == Perform(old(Value()), Drain(t))
      ensures var pending := BatchOf(old(batches), old(fired)[t]).pending;
        |tables| == |pending| && forall id :: id in tables <==> id in pending.Values
    {
      var db := fired[t];
      fired := fired - {t};
      tables := [];
      if db !in batches {
        return;
      }
      var pending := batches[db].pending;
      tables := CollectTables(pending);
      batches := batches[db := BatchState(map[], None)];
      if |tables| == 0 {
        return;
      }
      drained := drained + [Drained(db, pending)];
    }
  }

  /** Walks the queue in whatever order the map gives. */
  method CollectTables(pending: map<string, nat>) returns (tables: seq<nat>)
    ensures |tables| == |pending|
    ensures forall id :: id in tables <==> id in pending.Values
  {
    tables := [];
    var rest := pending.Keys;
    while rest != {}
      invariant rest <= pending.Keys && |tables| + |rest| == |pending.Keys|
      invariant forall id :: id in tables <==> exists k :: k in pending && k !in rest && pending[k] == id
      decreases |rest|
    {
      var key :| key in rest;
      ghost var before := tables;
      tables := tables + [pending[key]];
      forall id ensures id in tables <==> exists k :: k in pending && k !in rest - {key} && pending[k] == id {
        CollectStep(pending, rest, key, before, id);
      }
      rest := rest - {key};
    }
  }

  lemma CollectStep(pending: map<string, nat>, rest: set<string>, key: string, tables: seq<nat>, id: nat)
    requires key in rest && rest <= pending.Keys
    requires id in tables <==> exists k :: k in pending && k !in rest && pending[k] == id
    ensures id in tables + [pending[key]] <==> exists k :: k in pending && k !in rest - {key} && pending[k] == id
  {
    if id == pending[key] {
      assert key in pending && key !in rest - {key} && pending[key] == id;
    }
    if k :| k in pending && k !in rest && pending[k] == id {
      assert k !in rest - {key};
    }
  }

  // ----- what a drained batch is planned into ---------------------------------------------------

  /** How planning one table went: its schema statements, and its seed statements if asked for. */
  datatype Outcome = Outcome(schema: Result<seq<string>>, wantsSeed: bool, seed: Result<seq<string>>)

  /** The statements a table adds to the batch; one that cannot be planned adds none. */
  function Contribution(o: Outcome): seq<string> {
    if o.schema.Err? then []
    else if o.wantsSeed && o.schema.value == [] then (if o.seed.Err? then [] else o.seed.value)
    else o.schema.value
  }

  function AllStatements(outcomes: seq<Outcome>): seq<string> {
    if outcomes == [] then [] else AllStatements(outcomes[..|outcomes| - 1]) + Contribution(outcomes[|outcomes| - 1])
  }

  /** Collects the batch's statements and the tables they come from. */
  method CollectStatements(outcomes: seq<Outcome>) returns (statements: seq<string>, processed: seq<nat>)
    ensures statements == AllStatements(outcomes)
    ensures forall i :: i in processed <==> 0 <= i < |outcomes| && Contribution(outcomes[i]) != []
    ensures statements != [] <==> processed != []
  {
    statements, processed := [], [];
    for i := 0 to |outcomes|
      invariant statements == AllStatements(outcomes[..i])
      invariant forall k :: k in processed <==> 0 <= k < i && Contribution(outcomes[k]) != []
      invariant statements != [] <==> processed != []
    {
      assert outcomes[..i + 1][..i] == outcomes[..i];
      var o := outcomes[i];
      if o.schema.Err? {
        continue;
      }
      var seed := [];
      if o.wantsSeed && |o.schema.value| == 0 {
        if o.seed.Err? {
          continue;
        }
        seed := o.seed.value;
      }
      if |o.schema.value| == 0 && |seed| == 0 {
        continue;
      }
      assert o.schema.value + seed == Contribution(o);
      statements := statements + (o.schema.value + seed);
      processed := processed + [i];
    }
    assert outcomes[..|outcomes|] == outcomes;
  }
}
