/** No interleaving of queueing, firing and draining loses or repeats a table version. */
module BatchLaws {
  import opened Batch

  // ----- where a version is ----------------------------------------------------------------------

  predicate Waiting(s: State, id: nat) {
    id < |s.queued| &&
    var q := s.queued[id];
    q.db in s.batches && q.key in s.batches[q.db].pending && s.batches[q.db].pending[q.key] == id
  }

  /** The `k`-th drained batch holds the version. */
  predicate InBatch(s: State, id: nat, k: nat) {
    id < |s.queued| && k < |s.drained| && s.drained[k].db == s.queued[id].db &&
    s.queued[id].key in s.drained[k].tables && s.drained[k].tables[s.queued[id].key] == id
  }

  ghost predicate InNoBatch(s: State, id: nat) {
    forall k: nat :: !InBatch(s, id, k)
  }

  ghost predicate InOneBatch(s: State, id: nat) {
    exists k: nat :: InBatch(s, id, k) && forall l: nat :: InBatch(s, id, l) ==> l == k
  }

  /** Exactly one of: still waiting, replaced while waiting, in one drained batch. */
  ghost predicate Accounted(s: State, id: nat) {
    || (Waiting(s, id) && id !in s.replaced && InNoBatch(s, id))
    || (!Waiting(s, id) && id in s.replaced && InNoBatch(s, id))
    || (!Waiting(s, id) && id !in s.replaced && InOneBatch(s, id))
  }

  // ----- the invariant -----------------------------------------------------------------------------

  ghost predicate Holds(queued: seq<Queued>, db: string, tables: map<string, nat>) {
    forall key :: key in tables ==> tables[key] < |queued| && queued[tables[key]] == Queued(db, key)
  }

  /** Queues and batches hold versions of their own database and tables; replacements are later versions of the same table. */
  ghost predicate Known(s: State) {
    && (forall db :: db in s.batches ==> Holds(s.queued, db, s.batches[db].pending))
    && (forall k :: 0 <= k < |s.drained| ==> Holds(s.queued, s.drained[k].db, s.drained[k].tables))
    && (forall id :: id in s.replaced ==> id < s.replaced[id] < |s.queued| && s.queued[id] == s.queued[s.replaced[id]])
  }

  ghost predicate AllAccounted(s: State) {
    forall id :: 0 <= id < |s.queued| ==> Accounted(s, id)
  }

  /** A callback that will drain the database is armed or due. */
  ghost predicate Due(s: State, db: string) {
    exists t :: (t in s.armed && s.armed[t] == db) || (t in s.fired && s.fired[t] == db)
  }

  ghost predicate Timely(s: State) {
    && (forall db :: db in s.batches && s.batches[db].pending != map[] ==> Due(s, db))
    && (forall db :: db in s.batches && s.batches[db].timer.Some? ==>
      var t := s.batches[db].timer.value; t < s.timers && (t in s.armed ==> s.armed[t] == db))
    && (forall t :: t in s.armed ==> t < s.timers && t !in s.fired)
    && (forall t :: t in s.fired ==> t < s.timers)
  }

  ghost predicate Invariant(s: State) {
    Known(s) && AllAccounted(s) && Timely(s)
  }

  // ----- queueing ------------------------------------------------------------------------------------

  lemma HoldsMore(queued: seq<Queued>, q: Queued, db: string, tables: map<string, nat>)
    requires Holds(queued, db, tables)
    ensures Holds(queued + [q], db, tables)
  {
  }

  lemma QueueKnown(s: State, db: string, window: nat, key: string)
    requires Known(s) && window > 0
    ensures Known(Perform(s, Queue(db, window, key)))
  {
    var t := Perform(s, Queue(db, window, key));
    var b := BatchOf(s.batches, db);
    var q := Queued(db, key);
    assert Holds(s.queued, db, b.pending);
    HoldsMore(s.queued, q, db, b.pending);
    forall d | d in t.batches ensures Holds(t.queued, d, t.batches[d].pending) {
      if d != db {
        HoldsMore(s.queued, q, d, s.batches[d].pending);
      }
    }
    forall k | 0 <= k < |t.drained| ensures Holds(t.queued, t.drained[k].db, t.drained[k].tables) {
      HoldsMore(s.queued, q, s.drained[k].db, s.drained[k].tables);
    }
  }

  /** Batches already drained hold the same versions after queueing. */
  lemma QueueKeepsBatches(s: State, db: string, window: nat, key: string, id: nat)
    requires Known(s) && window > 0 && id <= |s.queued|
    ensures var t := Perform(s, Queue(db, window, key));
      forall k: nat :: InBatch(t, id, k) <==> id < |s.queued| && InBatch(s, id, k)
  {
    var t := Perform(s, Queue(db, window, key));
    forall k: nat ensures InBatch(t, id, k) <==> id < |s.queued| && InBatch(s, id, k) {
      if k < |s.drained| {
        assert Holds(s.queued, s.drained[k].db, s.drained[k].tables);
      }
    }
  }

  lemma QueueAccounts(s: State, db: string, window: nat, key: string, id: nat)
    requires Known(s) && window > 0 && id <= |s.queued| && (id < |s.queued| ==> Accounted(s, id))
    ensures Accounted(Perform(s, Queue(db, window, key)), id)
  {
    var t := Perform(s, Queue(db, window, key));
    var b := BatchOf(s.batches, db);
    QueueKeepsBatches(s, db, window, key, id);
    assert Holds(s.queued, db, b.pending);
    hide InBatch, Known, Holds;
    if id == |s.queued| {
      assert Waiting(t, id);
      assert id !in t.replaced by { NewIsNotReplaced(s, db, window, key); }
      assert InNoBatch(t, id);
    } else {
      assert t.queued[id] == s.queued[id];
      WaitingMoves(s, db, window, key, id);
      if InOneBatch(s, id) {
        var k: nat :| InBatch(s, id, k) && forall l: nat :: InBatch(s, id, l) ==> l == k;
        assert InBatch(t, id, k);
        assert InOneBatch(t, id);
      }
      assert InNoBatch(s, id) ==> InNoBatch(t, id);
    }
  }

  lemma NewIsNotReplaced(s: State, db: string, window: nat, key: string)
    requires Known(s) && window > 0
    ensures |s.queued| !in Perform(s, Queue(db, window, key)).replaced
  {
    assert Holds(s.queued, db, BatchOf(s.batches, db).pending);
  }

  /** The version waiting under the same table is replaced, every other stays as it was. */
  lemma WaitingMoves(s: State, db: string, window: nat, key: string, id: nat)
    requires Known(s) && window > 0 && id < |s.queued|
    ensures var t := Perform(s, Queue(db, window, key)); var b := BatchOf(s.batches, db);
      if key in b.pending && b.pending[key] == id
      then Waiting(s, id) && !Waiting(t, id) && id in t.replaced
      else (Waiting(t, id) <==> Waiting(s, id)) && (id in t.replaced <==> id in s.replaced)
  {
    assert Holds(s.queued, db, BatchOf(s.batches, db).pending);
  }

  lemma QueueTimely(s: State, db: string, window: nat, key: string)
    requires Timely(s) && window > 0
    ensures Timely(Perform(s, Queue(db, window, key)))
  {
    var t := Perform(s, Queue(db, window, key));
    forall d | d in t.batches && t.batches[d].pending != map[] ensures Due(t, d) {
      if d == db {
        assert s.timers in t.armed && t.armed[s.timers] == db;
      } else {
        var x :| (x in s.armed && s.armed[x] == d) || (x in s.fired && s.fired[x] == d);
        assert (x in t.armed && t.armed[x] == d) || (x in t.fired && t.fired[x] == d);
      }
    }
  }

  // ----- firing and draining ---------------------------------------------------------------------------

  lemma FireTimely(s: State, x: nat)
    requires Timely(s)
    ensures Timely(Perform(s, Fire(x)))
  {
    var t := Perform(s, Fire(x));
    forall d | d in t.batches && t.batches[d].pending != map[] ensures Due(t, d) {
      var y :| (y in s.armed && s.armed[y] == d) || (y in s.fired && s.fired[y] == d);
      assert (y in t.armed && t.armed[y] == d) || (y in t.fired && t.fired[y] == d);
    }
  }

  lemma FireAccounts(s: State, x: nat, id: nat)
    requires Accounted(s, id)
    ensures Accounted(Perform(s, Fire(x)), id)
  {
    var t := Perform(s, Fire(x));
    assert forall k: nat :: InBatch(t, id, k) <==> InBatch(s, id, k);
    hide InBatch;
  }

  lemma DrainTimely(s: State, x: nat)
    requires Timely(s)
    ensures Timely(Perform(s, Drain(x)))
  {
    var t := Perform(s, Drain(x));
    forall d | d in t.batches && t.batches[d].pending != map[] ensures Due(t, d) {
      var y :| (y in s.armed && s.armed[y] == d) || (y in s.fired && s.fired[y] == d);
      assert (y in t.armed && t.armed[y] == d) || (y in t.fired && t.fired[y] == d);
    }
  }

  lemma DrainKnown(s: State, x: nat)
    requires Known(s)
    ensures Known(Perform(s, Drain(x)))
  {
    var t := Perform(s, Drain(x));
    if x in s.fired {
      assert Holds(s.queued, s.fired[x], BatchOf(s.batches, s.fired[x]).pending);
      forall k | 0 <= k < |t.drained| ensures Holds(t.queued, t.drained[k].db, t.drained[k].tables) {
        if k < |s.drained| {
          assert Holds(s.queued, s.drained[k].db, s.drained[k].tables);
        }
      }
    }
  }

  /** Exactly the versions waiting for that database are moved, into the new batch. */
  lemma DrainMoves(s: State, x: nat, id: nat)
    requires x in s.fired && id < |s.queued|
    ensures var t := Perform(s, Drain(x)); var moved := Waiting(s, id) && s.queued[id].db == s.fired[x];
      && (Waiting(t, id) <==> Waiting(s, id) && !moved)
      && (forall k: nat :: InBatch(t, id, k) <==> InBatch(s, id, k) || (moved && k == |s.drained|))
  {
  }

  lemma DrainAccounts(s: State, x: nat, id: nat)
    requires id < |s.queued| && Accounted(s, id)
    ensures Accounted(Perform(s, Drain(x)), id)
  {
    var t := Perform(s, Drain(x));
    if x in s.fired {
      DrainMoves(s, x, id);
      assert t.replaced == s.replaced;
      BatchesBelow(s, id);
      hide InBatch, Waiting, Perform;
      var moved := Waiting(s, id) && s.queued[id].db == s.fired[x];
      if moved {
        assert InBatch(t, id, |s.drained|);
        assert InOneBatch(t, id);
      } else {
        assert InNoBatch(s, id) ==> InNoBatch(t, id);
        if InOneBatch(s, id) {
          var k: nat :| InBatch(s, id, k) && forall l: nat :: InBatch(s, id, l) ==> l == k;
          assert InBatch(t, id, k);
          assert InOneBatch(t, id);
        }
      }
    }
  }

  lemma BatchesBelow(s: State, id: nat)
    ensures forall k: nat :: InBatch(s, id, k) ==> k < |s.drained|
  {
  }

  // ----- every run ---------------------------------------------------------------------------------------

  lemma StepKeeps(s: State, a: Action)
    requires Invariant(s)
    ensures Invariant(Perform(s, a))
  {
    hide Known, Timely, Accounted;
    var t := Perform(s, a);
    match a
    case Queue(db, window, key) =>
      if window > 0 {
        QueueKnown(s, db, window, key);
        QueueTimely(s, db, window, key);
        forall id | 0 <= id < |t.queued| ensures Accounted(t, id) {
          QueueAccounts(s, db, window, key, id);
        }
      }
    case Fire(x) =>
      FireTimely(s, x);
      FireKnown(s, x);
      forall id | 0 <= id < |t.queued| ensures Accounted(t, id) {
        FireAccounts(s, x, id);
      }
    case Drain(x) =>
      DrainTimely(s, x);
      DrainKnown(s, x);
      forall id | 0 <= id < |t.queued| ensures Accounted(t, id) {
        DrainAccounts(s, x, id);
      }
  }

  lemma FireKnown(s: State, x: nat)
    requires Known(s)
    ensures Known(Perform(s, Fire(x)))
  {
  }

  lemma {:induction false} EveryRunKeeps(actions: seq<Action>)
    ensures Invariant(Run(actions))
  {
    if actions != [] {
      EveryRunKeeps(actions[..|actions| - 1]);
      StepKeeps(Run(actions[..|actions| - 1]), actions[|actions| - 1]);
    }
  }

  /** A database with tables waiting always has a callback armed or due. */
  lemma NothingIsForgotten(actions: seq<Action>, db: string)
    requires db in Run(actions).batches && Run(actions).batches[db].pending != map[]
    ensures Due(Run(actions), db)
  {
    EveryRunKeeps(actions);
  }

  /** Every version ever queued is in exactly one place. */
  lemma EveryVersionIsAccounted(actions: seq<Action>, id: nat)
    requires id < |Run(actions).queued|
    ensures Accounted(Run(actions), id)
    ensures id in Run(actions).replaced ==>
      var later := Run(actions).replaced[id]; id < later < |Run(actions).queued| && Run(actions).queued[later] == Run(actions).queued[id]
  {
    EveryRunKeeps(actions);
  }

  /** The newest version of a table is never dropped: it waits or is in one batch. */
  lemma NewestSurvives(actions: seq<Action>, id: nat)
    requires var s := Run(actions); id < |s.queued| && forall later :: id < later < |s.queued| ==> s.queued[later] != s.queued[id]
    ensures Waiting(Run(actions), id) || InOneBatch(Run(actions), id)
  {
    EveryVersionIsAccounted(actions, id);
  }

  /** With no timer armed and no callback due, everything has been drained. */
  lemma QuietMeansDrained(actions: seq<Action>, id: nat)
    requires var s := Run(actions); s.armed == map[] && s.fired == map[] && id < |s.queued|
    ensures var s := Run(actions); !Waiting(s, id) && (id in s.replaced || InOneBatch(s, id))
  {
    EveryRunKeeps(actions);
    var s := Run(actions);
    assert Accounted(s, id);
    var db := s.queued[id].db;
    assert !Due(s, db);
    assert db in s.batches ==> s.batches[db].pending == map[];
  }
}
