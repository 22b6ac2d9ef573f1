/** The batch timers: one per database as long as no callback overlaps, and what each table of a batch contributes. */
module BatchTimers {
  import opened Options
  import opened Batch
  import opened BatchLaws

  // ----- restarting the timer ----------------------------------------------------------------------

  /** Every armed timer is the one its database would stop. */
  ghost predicate OneTimer(s: State) {
    forall t :: t in s.armed ==> s.armed[t] in s.batches && s.batches[s.armed[t]].timer == Some(t)
  }

  /** A callback drains while another timer of its database is armed. */
  ghost predicate Overlaps(s: State, a: Action) {
    a.Drain? && a.timer in s.fired && exists u :: u in s.armed && s.armed[u] == s.fired[a.timer]
  }

  /** Queueing a table stops its database's timer and arms a new one; the others run on. */
  lemma QueueRestarts(s: State, db: string, window: nat, key: string)
    requires Invariant(s) && window > 0
    ensures var next := Perform(s, Queue(db, window, key)); var own := BatchOf(s.batches, db).timer;
      && s.timers !in s.armed && s.timers in next.armed && next.armed[s.timers] == db
      && (forall t :: t != s.timers ==> (t in next.armed <==> t in s.armed && own != Some(t)))
      && (forall t :: t != s.timers && t in next.armed ==> next.armed[t] == s.armed[t])
      && next.batches[db].timer == Some(s.timers) && next.fired == s.fired
  {
  }

  lemma OneTimerKept(s: State, a: Action)
    requires Invariant(s) && OneTimer(s) && !Overlaps(s, a)
    ensures OneTimer(Perform(s, a))
  {
    assert Timely(s);
    hide Known, AllAccounted;
    var next := Perform(s, a);
    if a.Queue? && a.window > 0 {
      QueueRestarts(s, a.db, a.window, a.key);
      forall t | t in next.armed ensures next.armed[t] in next.batches && next.batches[next.armed[t]].timer == Some(t) {
      }
    }
  }

  /** No callback of the run overlaps. */
  ghost predicate NoOverlap(actions: seq<Action>) {
    forall k :: 0 <= k < |actions| ==> !Overlaps(Run(actions[..k]), actions[k])
  }

  /** Then two timers are never armed for one database. */
  lemma {:induction false} OneTimerAlways(actions: seq<Action>)
    requires NoOverlap(actions)
    ensures OneTimer(Run(actions))
    ensures var s := Run(actions); forall t, u :: t in s.armed && u in s.armed && s.armed[t] == s.armed[u] ==> t == u
    decreases |actions|
  {
    if actions != [] {
      var n := |actions| - 1;
      var front := actions[..n];
      forall k | 0 <= k < |front| ensures !Overlaps(Run(front[..k]), front[k]) {
        assert front[..k] == actions[..k];
      }
      hide Overlaps;
      OneTimerAlways(front);
      EveryRunKeeps(front);
      hide Perform, Invariant;
      OneTimerKept(Run(front), actions[n]);
    }
  }

  /** A callback that overlaps leaves a timer nobody stops: the next table of the database arms a second one. */
  lemma OverlapLeavesTwo(s: State, x: nat, window: nat, key: string)
    requires Invariant(s) && Overlaps(s, Drain(x)) && window > 0
    ensures var db := s.fired[x]; var end := Perform(Perform(s, Drain(x)), Queue(db, window, key));
      exists t, u :: t != u && t in end.armed && u in end.armed && end.armed[t] == db && end.armed[u] == db
  {
    var db := s.fired[x];
    var u :| u in s.armed && s.armed[u] == db;
    var mid := Perform(s, Drain(x));
    StepKeeps(s, Drain(x));
    assert u in mid.armed && mid.armed[u] == db && BatchOf(mid.batches, db).timer == None;
    hide Invariant, Perform;
    QueueRestarts(mid, db, window, key);
    assert u != mid.timers;
  }

  /** Such a run: a table is queued between a timer's firing and its callback. */
  lemma OverlapHappens(db: string)
    ensures Overlaps(Run([Queue(db, 1, "a"), Fire(0), Queue(db, 1, "b")]), Drain(0))
  {
    var q, f, r := Queue(db, 1, "a"), Fire(0), Queue(db, 1, "b");
    var a1, a2, a3 := [q], [q, f], [q, f, r];
    assert a1[..0] == [] && a2[..1] == a1 && a3[..2] == a2;
    assert Run(a1) == Perform(START, q) && Run(a2) == Perform(Run(a1), f) && Run(a3) == Perform(Run(a2), r);
    hide Run;
    var s1 := Run(a1);
    assert 0 in s1.armed && s1.armed[0] == db && s1.timers == 1 && s1.fired == map[];
    var s2 := Run(a2);
    assert s2.fired == map[0 := db] && s2.timers == 1;
    var s3 := Run(a3);
    assert s3.fired == map[0 := db] && 1 in s3.armed && s3.armed[1] == db;
  }

  // ----- what a table contributes --------------------------------------------------------------------

  lemma {:induction false} StatementsConcat(a: seq<Outcome>, b: seq<Outcome>)
    ensures AllStatements(a + b) == AllStatements(a) + AllStatements(b)
    decreases |b|
  {
    hide Contribution;
    if b == [] {
      assert a + b == a;
    } else {
      var n := |b| - 1;
      var all := a + b;
      assert all[..|all| - 1] == a + b[..n] && all[|all| - 1] == b[n];
      StatementsConcat(a, b[..n]);
    }
  }

  /**
   In table order: a table whose schema differs contributes its schema statements, one in sync
   that wants seeds exactly its seed statements, and every other nothing.
   */
  lemma TableContributes(before: seq<Outcome>, o: Outcome, after: seq<Outcome>)
    ensures var all, front, back := AllStatements(before + [o] + after), AllStatements(before), AllStatements(after);
      && (o.schema.Ok? && o.schema.value != [] ==> all == front + o.schema.value + back)
      && (o.schema == Ok([]) && o.wantsSeed && o.seed.Ok? ==> all == front + o.seed.value + back)
      && (o.schema.Err? || (o.schema == Ok([]) && (!o.wantsSeed || o.seed.Err?)) ==> all == front + back)
  {
    StatementsConcat(before + [o], after);
    StatementsConcat(before, [o]);
    assert [o][..0] == [] && AllStatements([o]) == [] + Contribution(o);
    hide AllStatements;
    assert [] + Contribution(o) == Contribution(o);
    assert AllStatements(before) + [] == AllStatements(before);
  }
}
