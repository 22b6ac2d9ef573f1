/** What running a two-pass plan does: it always runs, reaches the declared objects and then plans nothing. */
module DiffLaws {
  import opened Options
  import opened Collections
  import opened Diff

  // ----- the desired pass ----------------------------------------------------------------

  /** The catalog after the desired objects are dealt with, one after the other. */
  function After<D, C>(f: Family<D, C>, cat: map<string, C>, ds: seq<D>): map<string, C>
    decreases |ds|
  {
    if ds == [] then cat
    else if Kept(f, ds[0], cat) then After(f, cat, ds[1..])
    else After(f, cat[f.nameOf(ds[0]) := f.render(ds[0])], ds[1..])
  }

  lemma {:induction false} AfterAt<D, C>(f: Family<D, C>, cat: map<string, C>, ds: seq<D>, n: string)
    requires !Named(f, ds, n)
    ensures n in After(f, cat, ds) <==> n in cat
    ensures n in cat ==> After(f, cat, ds)[n] == cat[n]
    decreases |ds|
  {
    if ds != [] {
      assert f.nameOf(ds[0]) != n;
      NamedTail(f, ds, n);
      AfterAt(f, if Kept(f, ds[0], cat) then cat else cat[f.nameOf(ds[0]) := f.render(ds[0])], ds[1..], n);
    }
  }

  lemma NamedTail<D, C>(f: Family<D, C>, ds: seq<D>, n: string)
    requires ds != []
    ensures Named(f, ds, n) <==> f.nameOf(ds[0]) == n || Named(f, ds[1..], n)
  {
    if Named(f, ds[1..], n) {
      var i :| 0 <= i < |ds[1..]| && f.nameOf(ds[1..][i]) == n;
      assert f.nameOf(ds[i + 1]) == n;
    }
    if Named(f, ds, n) {
      var i :| 0 <= i < |ds| && f.nameOf(ds[i]) == n;
      if i > 0 { assert f.nameOf(ds[1..][i - 1]) == n; }
    }
  }

  lemma DistinctTail<D, C>(f: Family<D, C>, ds: seq<D>)
    requires ds != [] && DistinctDesired(f, ds)
    ensures DistinctDesired(f, ds[1..]) && !Named(f, ds[1..], f.nameOf(ds[0]))
  {
    var r := ds[1..];
    forall i, j | 0 <= i < j < |r| ensures f.nameOf(r[i]) != f.nameOf(r[j]) {
      assert r[i] == ds[i + 1] && r[j] == ds[j + 1];
    }
    forall i | 0 <= i < |r| ensures f.nameOf(r[i]) != f.nameOf(ds[0]) {
      assert r[i] == ds[i + 1];
    }
  }

  lemma {:induction false} AfterDesired<D, C>(f: Family<D, C>, cat: map<string, C>, ds: seq<D>, k: nat)
    requires DistinctDesired(f, ds) && k < |ds|
    ensures f.nameOf(ds[k]) in After(f, cat, ds)
    ensures After(f, cat, ds)[f.nameOf(ds[k])] == Wanted(f, ds[k], cat)
    decreases |ds|
  {
    DistinctTail(f, ds);
    var n0 := f.nameOf(ds[0]);
    var next := if Kept(f, ds[0], cat) then cat else cat[n0 := f.render(ds[0])];
    if k == 0 {
      AfterAt(f, next, ds[1..], n0);
    } else {
      assert ds[1..][k - 1] == ds[k];
      assert f.nameOf(ds[k]) != n0;
      AfterDesired(f, next, ds[1..], k - 1);
      assert Kept(f, ds[k], next) <==> Kept(f, ds[k], cat);
    }
  }

  /** The listing tells, for every desired name, what the catalog holds. */
  ghost predicate Agrees<D, C>(f: Family<D, C>, cur: seq<C>, cat: map<string, C>, ds: seq<D>) {
    forall i :: 0 <= i < |ds| ==>
      Lookup(f, cur, f.nameOf(ds[i])) == if f.nameOf(ds[i]) in cat then Some(cat[f.nameOf(ds[i])]) else None
  }

  lemma OneDesiredRuns<D, C>(f: Family<D, C>, d: D, cur: seq<C>, cat: map<string, C>)
    requires Fits(f, d, cat)
    requires Lookup(f, cur, f.nameOf(d)) == if f.nameOf(d) in cat then Some(cat[f.nameOf(d)]) else None
    ensures Exec(f, cat, ForDesired(f, d, cur)) == Some(if Kept(f, d, cat) then cat else cat[f.nameOf(d) := f.render(d)])
  {
    var n := f.nameOf(d);
    var p := ForDesired(f, d, cur);
    if n !in cat {
      assert p == [Create(d)];
      assert p[1..] == [];
    } else if !Kept(f, d, cat) {
      assert p == [Drop(n), Create(d)];
      var q := p[1..];
      assert q == [Create(d)] && q[1..] == [];
      assert Exec(f, cat - {n}, q) == Some((cat - {n})[n := f.render(d)]);
      assert (cat - {n})[n := f.render(d)] == cat[n := f.render(d)];
    }
  }

  lemma {:induction false} DesiredPassRuns<D, C>(f: Family<D, C>, ds: seq<D>, cur: seq<C>, cat: map<string, C>)
    requires DistinctDesired(f, ds) && AllFit(f, ds, cat) && Agrees(f, cur, cat, ds)
    ensures Exec(f, cat, DesiredPass(f, ds, cur)) == Some(After(f, cat, ds))
    decreases |ds|
  {
    if ds != [] {
      var d, r := ds[0], ds[1..];
      DistinctTail(f, ds);
      OneDesiredRuns(f, d, cur, cat);
      var next := if Kept(f, d, cat) then cat else cat[f.nameOf(d) := f.render(d)];
      forall i | 0 <= i < |r|
        ensures Fits(f, r[i], next)
        ensures Lookup(f, cur, f.nameOf(r[i])) == if f.nameOf(r[i]) in next then Some(next[f.nameOf(r[i])]) else None
      {
        assert r[i] == ds[i + 1];
        assert f.nameOf(r[i]) != f.nameOf(d);
        assert Fits(f, ds[i + 1], cat);
      }
      DesiredPassRuns(f, r, cur, next);
      ExecConcat(f, cat, ForDesired(f, d, cur), DesiredPass(f, r, cur));
    }
  }

  // ----- the existing pass ---------------------------------------------------------------

  function Undesired<D, C>(f: Family<D, C>, cur: seq<C>, ds: seq<D>): seq<string> {
    if cur == [] then []
    else (if Named(f, ds, f.nameIn(cur[0])) then [] else [f.nameIn(cur[0])]) + Undesired(f, cur[1..], ds)
  }

  lemma {:induction false} UndesiredAre<D, C>(f: Family<D, C>, cur: seq<C>, ds: seq<D>, n: string)
    ensures n in Undesired(f, cur, ds) <==> !Named(f, ds, n) && exists i :: 0 <= i < |cur| && f.nameIn(cur[i]) == n
    decreases |cur|
  {
    hide Named;
    if cur != [] {
      UndesiredAre(f, cur[1..], ds, n);
      if i :| 0 <= i < |cur| && f.nameIn(cur[i]) == n {
        if i > 0 { assert f.nameIn(cur[1..][i - 1]) == n; }
      }
      if i :| 0 <= i < |cur[1..]| && f.nameIn(cur[1..][i]) == n {
        assert f.nameIn(cur[i + 1]) == n;
      }
    }
  }

  function SetOf<T>(s: seq<T>): set<T> {
    set x | x in s
  }

  lemma DistinctCurrentTail<D, C>(f: Family<D, C>, cur: seq<C>)
    requires cur != [] && DistinctCurrent(f, cur)
    ensures DistinctCurrent(f, cur[1..])
    ensures forall i :: 0 <= i < |cur[1..]| ==> f.nameIn(cur[1..][i]) != f.nameIn(cur[0])
  {
    var r := cur[1..];
    forall i, j | 0 <= i < j < |r| ensures f.nameIn(r[i]) != f.nameIn(r[j]) {
      assert r[i] == cur[i + 1] && r[j] == cur[j + 1];
    }
    forall i | 0 <= i < |r| ensures f.nameIn(r[i]) != f.nameIn(cur[0]) {
      assert r[i] == cur[i + 1];
    }
  }

  lemma {:induction false} ExistingPassRuns<D, C>(f: Family<D, C>, cur: seq<C>, ds: seq<D>, cat: map<string, C>)
    requires DistinctCurrent(f, cur)
    requires forall i :: 0 <= i < |cur| ==> f.nameIn(cur[i]) in cat
    ensures Exec(f, cat, ExistingPass(f, cur, ds)) == Some(cat - SetOf(Undesired(f, cur, ds)))
    decreases |cur|
  {
    hide Named;
    if cur == [] {
      assert cat - SetOf([]) == cat;
    } else {
      var n, r := f.nameIn(cur[0]), cur[1..];
      DistinctCurrentTail(f, cur);
      var p := ForExisting(f, cur[0], ds);
      if Named(f, ds, n) {
        assert p + ExistingPass(f, r, ds) == ExistingPass(f, r, ds);
        assert [] + Undesired(f, r, ds) == Undesired(f, r, ds);
        ExistingPassRuns(f, r, ds, cat);
      } else {
        ExistingPassRuns(f, r, ds, cat - {n});
        assert p[1..] == [];
        ExecConcat(f, cat, p, ExistingPass(f, r, ds));
        assert SetOf([n] + Undesired(f, r, ds)) == {n} + SetOf(Undesired(f, r, ds));
        assert (cat - {n}) - SetOf(Undesired(f, r, ds)) == cat - ({n} + SetOf(Undesired(f, r, ds)));
      }
    }
  }

  // ----- the whole plan --------------------------------------------------------------------

  /** What the catalog should hold for a declared object: what it holds if that is equal. */
  function Wanted<D, C>(f: Family<D, C>, d: D, cat: map<string, C>): C {
    if Kept(f, d, cat) then cat[f.nameOf(d)] else f.render(d)
  }

  /** The declared objects and no others: equal ones as they were, the rest as created. */
  ghost predicate Reached<D, C>(f: Family<D, C>, cat: map<string, C>, ds: seq<D>, end: map<string, C>) {
    && end.Keys == Names(f, ds)
    && (forall i :: 0 <= i < |ds| ==> Kept(f, ds[i], end))
    && (forall i :: 0 <= i < |ds| ==> end[f.nameOf(ds[i])] == Wanted(f, ds[i], cat))
  }

  /** Distinct names that fit the catalog, and a server that lists what it was told to create. */
  ghost predicate Manageable<D, C>(f: Family<D, C>, ds: seq<D>, cat: map<string, C>) {
    DistinctDesired(f, ds) && AllFit(f, ds, cat) && Renders(f, ds)
  }

  function End<D, C>(f: Family<D, C>, ds: seq<D>, cur: seq<C>, cat: map<string, C>): map<string, C> {
    After(f, cat, ds) - SetOf(Undesired(f, cur, ds))
  }

  lemma EndIsReached<D, C>(f: Family<D, C>, ds: seq<D>, cur: seq<C>, cat: map<string, C>)
    requires Manageable(f, ds, cat) && Lists(f, cur, cat)
    ensures Reached(f, cat, ds, End(f, ds, cur, cat))
  {
    hide After, Undesired;
    var end := End(f, ds, cur, cat);
    forall n ensures n in end <==> n in Names(f, ds) {
      UndesiredAre(f, cur, ds, n);
      if Named(f, ds, n) {
        var i :| 0 <= i < |ds| && f.nameOf(ds[i]) == n;
        AfterDesired(f, cat, ds, i);
      } else {
        AfterAt(f, cat, ds, n);
      }
    }
    forall i | 0 <= i < |ds|
      ensures f.nameOf(ds[i]) in end && f.same(ds[i], end[f.nameOf(ds[i])])
      ensures end[f.nameOf(ds[i])] == Wanted(f, ds[i], cat)
    {
      AfterDesired(f, cat, ds, i);
      UndesiredAre(f, cur, ds, f.nameOf(ds[i]));
      assert Fits(f, ds[i], cat);
    }
  }

  /** The plan never drops what is absent or creates what is present, and ends with the declared objects. */
  lemma PlanReachesDesired<D, C>(f: Family<D, C>, ds: seq<D>, cur: seq<C>, cat: map<string, C>)
    requires Manageable(f, ds, cat) && Lists(f, cur, cat)
    ensures Exec(f, cat, Plan(f, ds, cur)).Some?
    ensures Reached(f, cat, ds, Exec(f, cat, Plan(f, ds, cur)).value)
  {
    hide After, Undesired, DesiredPass, ExistingPass, Reached;
    forall i | 0 <= i < |ds|
      ensures Lookup(f, cur, f.nameOf(ds[i])) == if f.nameOf(ds[i]) in cat then Some(cat[f.nameOf(ds[i])]) else None
    {
      LookupInCatalog(f, cur, cat, f.nameOf(ds[i]));
    }
    DesiredPassRuns(f, ds, cur, cat);
    var mid := After(f, cat, ds);
    forall i | 0 <= i < |cur| ensures f.nameIn(cur[i]) in mid {
      StillThere(f, cat, ds, f.nameIn(cur[i]));
    }
    ExistingPassRuns(f, cur, ds, mid);
    ExecConcat(f, cat, DesiredPass(f, ds, cur), ExistingPass(f, cur, ds));
    EndIsReached(f, ds, cur, cat);
  }

  lemma {:induction false} StillThere<D, C>(f: Family<D, C>, cat: map<string, C>, ds: seq<D>, n: string)
    requires n in cat
    ensures n in After(f, cat, ds)
    decreases |ds|
  {
    if ds != [] {
      StillThere(f, if Kept(f, ds[0], cat) then cat else cat[f.nameOf(ds[0]) := f.render(ds[0])], ds[1..], n);
    }
  }

  /** However the server lists a catalog of declared, equal objects, there is nothing to plan. */
  lemma SettledPlansNothing<D, C>(f: Family<D, C>, ds: seq<D>, cur: seq<C>, cat: map<string, C>)
    requires Lists(f, cur, cat) && cat.Keys == Names(f, ds)
    requires forall i :: 0 <= i < |ds| ==> Kept(f, ds[i], cat)
    ensures Plan(f, ds, cur) == []
  {
    DesiredNothing(f, ds, cur, cat);
    forall i | 0 <= i < |cur| ensures Named(f, ds, f.nameIn(cur[i])) {
      assert f.nameIn(cur[i]) in Names(f, ds);
    }
    ExistingNothing(f, cur, ds);
  }

  lemma {:induction false} DesiredNothing<D, C>(f: Family<D, C>, ds: seq<D>, cur: seq<C>, cat: map<string, C>)
    requires Lists(f, cur, cat)
    requires forall i :: 0 <= i < |ds| ==> Kept(f, ds[i], cat)
    ensures DesiredPass(f, ds, cur) == []
  {
    hide Lists;
    if ds != [] {
      LookupInCatalog(f, cur, cat, f.nameOf(ds[0]));
      assert Kept(f, ds[0], cat);
      DesiredNothing(f, ds[1..], cur, cat);
    }
  }

  lemma {:induction false} ExistingNothing<D, C>(f: Family<D, C>, cur: seq<C>, ds: seq<D>)
    requires forall i :: 0 <= i < |cur| ==> Named(f, ds, f.nameIn(cur[i]))
    ensures ExistingPass(f, cur, ds) == []
  {
    hide Named;
    if cur != [] {
      ExistingNothing(f, cur[1..], ds);
    }
  }

  lemma ReplanIsEmpty<D, C>(f: Family<D, C>, ds: seq<D>, cat: map<string, C>, end: map<string, C>, relisted: seq<C>)
    requires Reached(f, cat, ds, end) && Lists(f, relisted, end)
    ensures Plan(f, ds, relisted) == []
  {
    SettledPlansNothing(f, ds, relisted, end);
  }

  // ----- every prefix ------------------------------------------------------------------------

  /** The name a statement is about, as the server knows it. */
  function About<D, C>(f: Family<D, C>, s: Stmt<D>): string {
    match s
    case Drop(n) => n
    case Create(d) => f.filed(f.nameOf(d))
  }

  ghost predicate Silent<D, C>(f: Family<D, C>, plan: seq<Stmt<D>>, n: string) {
    forall i :: 0 <= i < |plan| ==> About(f, plan[i]) != n
  }

  lemma SilentConcat<D, C>(f: Family<D, C>, p: seq<Stmt<D>>, q: seq<Stmt<D>>, n: string)
    requires Silent(f, p, n) && Silent(f, q, n)
    ensures Silent(f, p + q, n)
  {
    hide About;
  }

  lemma {:induction false} SilentFrame<D, C>(f: Family<D, C>, cat: map<string, C>, plan: seq<Stmt<D>>, n: string)
    requires Silent(f, plan, n) && Exec(f, cat, plan).Some?
    ensures var end := Exec(f, cat, plan).value; (n in end <==> n in cat) && (n in cat ==> end[n] == cat[n])
    decreases |plan|
  {
    if plan != [] {
      var next := Step(f, cat, plan[0]).value;
      assert About(f, plan[0]) != n;
      forall i | 0 <= i < |plan[1..]| ensures About(f, plan[1..][i]) != n {
        assert plan[1..][i] == plan[i + 1];
      }
      SilentFrame(f, next, plan[1..], n);
    }
  }

  lemma ForDesiredSilent<D, C>(f: Family<D, C>, d: D, cur: seq<C>, cat: map<string, C>, n: string)
    requires Lookup(f, cur, f.nameOf(d)) == if f.nameOf(d) in cat then Some(cat[f.nameOf(d)]) else None
    requires Fits(f, d, cat) && (f.nameOf(d) == n ==> Kept(f, d, cat))
    ensures Silent(f, ForDesired(f, d, cur), n)
  {
  }

  lemma {:induction false} DesiredSilent<D, C>(f: Family<D, C>, ds: seq<D>, cur: seq<C>, cat: map<string, C>, n: string)
    requires AllFit(f, ds, cat) && Lists(f, cur, cat)
    requires forall i :: 0 <= i < |ds| && f.nameOf(ds[i]) == n ==> Kept(f, ds[i], cat)
    ensures Silent(f, DesiredPass(f, ds, cur), n)
    decreases |ds|
  {
    hide Lists, Kept, FiledVerbatim, Silent;
    if ds == [] {
      NothingSilent(f, n);
    } else {
      var r := ds[1..];
      forall i | 0 <= i < |r|
        ensures Fits(f, r[i], cat)
        ensures f.nameOf(r[i]) == n ==> Kept(f, r[i], cat)
      {
        assert r[i] == ds[i + 1];
        assert Fits(f, ds[i + 1], cat);
      }
      DesiredSilent(f, r, cur, cat, n);
      LookupInCatalog(f, cur, cat, f.nameOf(ds[0]));
      assert Fits(f, ds[0], cat);
      ForDesiredSilent(f, ds[0], cur, cat, n);
      SilentConcat(f, ForDesired(f, ds[0], cur), DesiredPass(f, r, cur), n);
    }
  }

  lemma NothingSilent<D, C>(f: Family<D, C>, n: string)
    ensures Silent(f, [], n)
  {
  }

  lemma {:induction false} ExistingSilent<D, C>(f: Family<D, C>, cur: seq<C>, ds: seq<D>, n: string)
    requires Named(f, ds, n)
    ensures Silent(f, ExistingPass(f, cur, ds), n)
    decreases |cur|
  {
    hide Named;
    if cur != [] {
      ExistingSilent(f, cur[1..], ds, n);
      SilentConcat(f, ForExisting(f, cur[0], ds), ExistingPass(f, cur[1..], ds), n);
    }
  }

  lemma KeptIsSilent<D, C>(f: Family<D, C>, ds: seq<D>, cur: seq<C>, cat: map<string, C>, k: nat)
    requires DistinctDesired(f, ds) && AllFit(f, ds, cat) && Lists(f, cur, cat) && k < |ds| && Kept(f, ds[k], cat)
    ensures Silent(f, Plan(f, ds, cur), f.nameOf(ds[k]))
  {
    hide Silent, DesiredPass, ExistingPass;
    var n := f.nameOf(ds[k]);
    forall i | 0 <= i < |ds| && f.nameOf(ds[i]) == n ensures Kept(f, ds[i], cat) {
      assert i == k;
    }
    DesiredSilent(f, ds, cur, cat, n);
    ExistingSilent(f, cur, ds, n);
    SilentConcat(f, DesiredPass(f, ds, cur), ExistingPass(f, cur, ds), n);
  }

  lemma PrefixRuns<D, C>(f: Family<D, C>, cat: map<string, C>, plan: seq<Stmt<D>>, k: nat)
    requires k <= |plan| && Exec(f, cat, plan).Some?
    ensures Exec(f, cat, plan[..k]).Some?
  {
    ExecConcat(f, cat, plan[..k], plan[k..]);
    assert plan[..k] + plan[k..] == plan;
  }

  /** An object that already compares equal is there, unchanged, after every prefix of the plan. */
  lemma KeptThroughout<D, C>(f: Family<D, C>, ds: seq<D>, cur: seq<C>, cat: map<string, C>, i: nat, k: nat)
    requires Manageable(f, ds, cat) && Lists(f, cur, cat) && i < |ds| && Kept(f, ds[i], cat)
    requires k <= |Plan(f, ds, cur)|
    ensures var mid := Exec(f, cat, Plan(f, ds, cur)[..k]); var n := f.nameOf(ds[i]);
      mid.Some? && n in mid.value && mid.value[n] == cat[n]
  {
    hide Plan, Lists;
    var plan := Plan(f, ds, cur);
    var n := f.nameOf(ds[i]);
    PlanReachesDesired(f, ds, cur, cat);
    PrefixRuns(f, cat, plan, k);
    KeptIsSilent(f, ds, cur, cat, i);
    SilentPrefix(f, plan, k, n);
    SilentFrame(f, cat, plan[..k], n);
  }

  lemma SilentPrefix<D, C>(f: Family<D, C>, plan: seq<Stmt<D>>, k: nat, n: string)
    requires k <= |plan| && Silent(f, plan, n)
    ensures Silent(f, plan[..k], n)
  {
    hide About;
  }

  // ----- how many statements ------------------------------------------------------------------

  function Drops<D>(plan: seq<Stmt<D>>): seq<string> {
    if plan == [] then [] else (if plan[0].Drop? then [plan[0].name] else []) + Drops(plan[1..])
  }

  function Creates<D>(plan: seq<Stmt<D>>): seq<D> {
    if plan == [] then [] else (if plan[0].Create? then [plan[0].desired] else []) + Creates(plan[1..])
  }

  lemma {:induction false} DropsConcat<D>(p: seq<Stmt<D>>, q: seq<Stmt<D>>)
    ensures Drops(p + q) == Drops(p) + Drops(q)
    decreases |p|
  {
    if p == [] {
      assert p + q == q;
    } else {
      assert (p + q)[0] == p[0] && (p + q)[1..] == p[1..] + q;
      DropsConcat(p[1..], q);
      Associative(if p[0].Drop? then [p[0].name] else [], Drops(p[1..]), Drops(q));
    }
  }

  lemma {:induction false} CreatesConcat<D>(p: seq<Stmt<D>>, q: seq<Stmt<D>>)
    ensures Creates(p + q) == Creates(p) + Creates(q)
    decreases |p|
  {
    if p == [] {
      assert p + q == q;
    } else {
      assert (p + q)[0] == p[0] && (p + q)[1..] == p[1..] + q;
      CreatesConcat(p[1..], q);
      Associative(if p[0].Create? then [p[0].desired] else [], Creates(p[1..]), Creates(q));
    }
  }

  lemma CountsConcat<D>(p: seq<Stmt<D>>, q: seq<Stmt<D>>)
    ensures Drops(p + q) == Drops(p) + Drops(q) && Creates(p + q) == Creates(p) + Creates(q)
  {
    DropsConcat(p, q);
    CreatesConcat(p, q);
  }

  /** Desired objects present under their name but different. */
  function Changed<D, C>(f: Family<D, C>, ds: seq<D>, cat: map<string, C>): seq<string> {
    if ds == [] then []
    else (if f.nameOf(ds[0]) in cat && !Kept(f, ds[0], cat) then [f.nameOf(ds[0])] else []) + Changed(f, ds[1..], cat)
  }

  /** Desired objects that have to be created: changed and new ones. */
  function ToCreate<D, C>(f: Family<D, C>, ds: seq<D>, cat: map<string, C>): seq<D> {
    if ds == [] then []
    else (if Kept(f, ds[0], cat) then [] else [ds[0]]) + ToCreate(f, ds[1..], cat)
  }

  lemma {:induction false} DesiredCounts<D, C>(f: Family<D, C>, ds: seq<D>, cur: seq<C>, cat: map<string, C>)
    requires Lists(f, cur, cat)
    ensures Drops(DesiredPass(f, ds, cur)) == Changed(f, ds, cat) && Creates(DesiredPass(f, ds, cur)) == ToCreate(f, ds, cat)
    decreases |ds|
  {
    hide Lists;
    if ds != [] {
      DesiredCounts(f, ds[1..], cur, cat);
      LookupInCatalog(f, cur, cat, f.nameOf(ds[0]));
      var p := ForDesired(f, ds[0], cur);
      CountsConcat(p, DesiredPass(f, ds[1..], cur));
      OneCount(f, ds[0], cur);
    }
  }

  lemma OneCount<D, C>(f: Family<D, C>, d: D, cur: seq<C>)
    ensures var p := ForDesired(f, d, cur);
      match Lookup(f, cur, f.nameOf(d))
      case None => Drops(p) == [] && Creates(p) == [d]
      case Some(c) => if f.same(d, c) then Drops(p) == [] && Creates(p) == [] else Drops(p) == [f.nameOf(d)] && Creates(p) == [d]
  {
    var p := ForDesired(f, d, cur);
    if |p| == 1 {
      assert p[1..] == [];
    } else if |p| == 2 {
      CountsConcat([p[0]], [p[1]]);
      assert p == [p[0]] + [p[1]] && [p[0]][1..] == [] && [p[1]][1..] == [];
    }
  }

  lemma {:induction false} ExistingCounts<D, C>(f: Family<D, C>, cur: seq<C>, ds: seq<D>)
    ensures Drops(ExistingPass(f, cur, ds)) == Undesired(f, cur, ds) && Creates(ExistingPass(f, cur, ds)) == []
    decreases |cur|
  {
    hide Named;
    if cur != [] {
      ExistingCounts(f, cur[1..], ds);
      var p := ForExisting(f, cur[0], ds);
      CountsConcat(p, ExistingPass(f, cur[1..], ds));
      if p != [] { assert p[1..] == []; }
    }
  }

  /** Exactly the changed and the undeclared objects are dropped, exactly the changed and the new ones created. */
  lemma PlanCounts<D, C>(f: Family<D, C>, ds: seq<D>, cur: seq<C>, cat: map<string, C>)
    requires Lists(f, cur, cat)
    ensures Drops(Plan(f, ds, cur)) == Changed(f, ds, cat) + Undesired(f, cur, ds)
    ensures Creates(Plan(f, ds, cur)) == ToCreate(f, ds, cat)
  {
    DesiredCounts(f, ds, cur, cat);
    ExistingCounts(f, cur, ds);
    CountsConcat(DesiredPass(f, ds, cur), ExistingPass(f, cur, ds));
  }

  lemma {:induction false} ChangedAre<D, C>(f: Family<D, C>, ds: seq<D>, cat: map<string, C>, n: string)
    ensures n in Changed(f, ds, cat) <==> n in cat && exists i :: 0 <= i < |ds| && f.nameOf(ds[i]) == n && !Kept(f, ds[i], cat)
    decreases |ds|
  {
    hide Kept;
    if ds != [] {
      ChangedAre(f, ds[1..], cat, n);
      if i :| 0 <= i < |ds| && f.nameOf(ds[i]) == n && !Kept(f, ds[i], cat) {
        if i > 0 { assert f.nameOf(ds[1..][i - 1]) == n && !Kept(f, ds[1..][i - 1], cat); }
      }
      if i :| 0 <= i < |ds[1..]| && f.nameOf(ds[1..][i]) == n && !Kept(f, ds[1..][i], cat) {
        assert f.nameOf(ds[i + 1]) == n && !Kept(f, ds[i + 1], cat);
      }
    }
  }

  lemma {:induction false} ChangedDistinct<D, C>(f: Family<D, C>, ds: seq<D>, cat: map<string, C>)
    requires DistinctDesired(f, ds)
    ensures NoDuplicates(Changed(f, ds, cat))
    decreases |ds|
  {
    if ds != [] {
      DistinctTail(f, ds);
      ChangedDistinct(f, ds[1..], cat);
      ChangedAre(f, ds[1..], cat, f.nameOf(ds[0]));
    }
  }

  lemma {:induction false} UndesiredDistinct<D, C>(f: Family<D, C>, cur: seq<C>, ds: seq<D>)
    requires DistinctCurrent(f, cur)
    ensures NoDuplicates(Undesired(f, cur, ds))
    decreases |cur|
  {
    hide Named;
    if cur != [] {
      DistinctCurrentTail(f, cur);
      UndesiredDistinct(f, cur[1..], ds);
      UndesiredAre(f, cur[1..], ds, f.nameIn(cur[0]));
    }
  }

  /** No name is dropped twice, and what is dropped is what is stored but not declared as it is. */
  lemma DropsOnce<D, C>(f: Family<D, C>, ds: seq<D>, cur: seq<C>, cat: map<string, C>)
    requires Lists(f, cur, cat) && DistinctDesired(f, ds)
    ensures NoDuplicates(Drops(Plan(f, ds, cur)))
    ensures forall n :: n in Drops(Plan(f, ds, cur)) <==>
      n in cat && !exists i :: 0 <= i < |ds| && f.nameOf(ds[i]) == n && Kept(f, ds[i], cat)
  {
    hide Plan, Changed, Undesired, Kept;
    PlanCounts(f, ds, cur, cat);
    ChangedDistinct(f, ds, cat);
    UndesiredDistinct(f, cur, ds);
    var a, b := Changed(f, ds, cat), Undesired(f, cur, ds);
    forall i, j | 0 <= i < |a| && 0 <= j < |b| ensures a[i] != b[j] {
      ChangedAre(f, ds, cat, a[i]);
      UndesiredAre(f, cur, ds, b[j]);
    }
    forall n
      ensures n in a + b <==> n in cat && !exists i :: 0 <= i < |ds| && f.nameOf(ds[i]) == n && Kept(f, ds[i], cat)
    {
      ChangedAre(f, ds, cat, n);
      UndesiredAre(f, cur, ds, n);
      DroppedName(f, ds, cur, cat, n);
    }
  }

  lemma DroppedName<D, C>(f: Family<D, C>, ds: seq<D>, cur: seq<C>, cat: map<string, C>, n: string)
    requires Lists(f, cur, cat) && DistinctDesired(f, ds)
    ensures n in cat <==> exists i :: 0 <= i < |cur| && f.nameIn(cur[i]) == n
    ensures (exists i :: 0 <= i < |ds| && f.nameOf(ds[i]) == n && !Kept(f, ds[i], cat)) <==>
      Named(f, ds, n) && !exists i :: 0 <= i < |ds| && f.nameOf(ds[i]) == n && Kept(f, ds[i], cat)
  {
    hide Kept;
  }

  // ----- names the server changes ---------------------------------------------------------------

  /** Filing a name twice changes nothing more. */
  ghost predicate FilingSettles<D, C>(f: Family<D, C>) {
    forall n :: f.filed(f.filed(n)) == f.filed(n)
  }

  /** A name the server never files stays absent. */
  lemma {:induction false} NeverFiled<D, C>(f: Family<D, C>, cat: map<string, C>, plan: seq<Stmt<D>>, n: string)
    requires FilingSettles(f) && f.filed(n) != n && n !in cat
    ensures Exec(f, cat, plan).Some? ==> n !in Exec(f, cat, plan).value
    decreases |plan|
  {
    if plan != [] && Step(f, cat, plan[0]).Some? {
      var next := Step(f, cat, plan[0]).value;
      if plan[0].Create? {
        var m := f.nameOf(plan[0].desired);
        assert f.filed(f.filed(m)) == f.filed(m);
        assert f.filed(m) != n;
      }
      NeverFiled(f, next, plan[1..], n);
    }
  }

  lemma {:induction false} MissingIsCreated<D, C>(f: Family<D, C>, ds: seq<D>, cur: seq<C>, k: nat)
    requires k < |ds| && Lookup(f, cur, f.nameOf(ds[k])) == None
    ensures DesiredPass(f, ds, cur) != []
  {
    if k > 0 {
      MissingIsCreated(f, ds[1..], cur, k - 1);
    }
  }

  /** The plan runs, and any listing of where it ends plans nothing more. */
  ghost predicate Settles<D(!new), C(!new)>(f: Family<D, C>, ds: seq<D>, cur: seq<C>, cat: map<string, C>) {
    var end := Exec(f, cat, Plan(f, ds, cur));
    end.Some? && forall relisted :: Lists(f, relisted, end.value) ==> Plan(f, ds, relisted) == []
  }

  lemma {:induction false} SomeListing<D, C>(f: Family<D, C>, cat: map<string, C>) returns (cur: seq<C>)
    requires forall n :: n in cat ==> f.nameIn(cat[n]) == n
    ensures Lists(f, cur, cat)
    decreases |cat|
  {
    if |cat| == 0 {
      cur := [];
    } else {
      var n :| n in cat;
      var rest := cat - {n};
      assert cat.Keys == rest.Keys + {n};
      var cur' := SomeListing(f, rest);
      cur := [cat[n]] + cur';
      ListsCons(f, cat, n, cur');
    }
  }

  lemma ListsCons<D, C>(f: Family<D, C>, cat: map<string, C>, n: string, cur': seq<C>)
    requires n in cat && f.nameIn(cat[n]) == n && Lists(f, cur', cat - {n})
    ensures Lists(f, [cat[n]] + cur', cat)
  {
    var cur := [cat[n]] + cur';
    assert cur[0] == cat[n];
    assert forall i :: 0 < i < |cur| ==> cur[i] == cur'[i - 1];
    assert forall i :: 0 < i < |cur| ==> f.nameIn(cur[i]) in cat - {n} && cat[f.nameIn(cur[i])] == cur[i];
    assert DistinctCurrent(f, cur);
    forall m | m in cat ensures exists i :: 0 <= i < |cur| && f.nameIn(cur[i]) == m {
      if m == n {
        assert f.nameIn(cur[0]) == m;
      } else {
        assert m in cat - {n};
        var i :| 0 <= i < |cur'| && f.nameIn(cur'[i]) == m;
        assert f.nameIn(cur[i + 1]) == m;
      }
    }
  }

  /** Every stored object carries the name it is filed under, and so does every created one. */
  ghost predicate WellNamed<D, C>(f: Family<D, C>, cat: map<string, C>) {
    forall n :: n in cat ==> f.nameIn(cat[n]) == n
  }

  lemma {:induction false} StaysWellNamed<D, C>(f: Family<D, C>, cat: map<string, C>, plan: seq<Stmt<D>>)
    requires WellNamed(f, cat)
    requires forall i :: 0 <= i < |plan| && plan[i].Create? ==>
      f.nameIn(f.render(plan[i].desired)) == f.filed(f.nameOf(plan[i].desired))
    ensures Exec(f, cat, plan).Some? ==> WellNamed(f, Exec(f, cat, plan).value)
    decreases |plan|
  {
    if plan != [] && Step(f, cat, plan[0]).Some? {
      StaysWellNamed(f, Step(f, cat, plan[0]).value, plan[1..]);
    }
  }

  /** A name that is dropped and never filed is gone for good. */
  lemma {:induction false} DroppedStaysGone<D, C>(f: Family<D, C>, cat: map<string, C>, plan: seq<Stmt<D>>, n: string)
    requires FilingSettles(f) && f.filed(n) != n && n in Drops(plan)
    ensures Exec(f, cat, plan).Some? ==> n !in Exec(f, cat, plan).value
    decreases |plan|
  {
    if Step(f, cat, plan[0]).Some? {
      var next := Step(f, cat, plan[0]).value;
      if plan[0] == Drop(n) {
        NeverFiled(f, next, plan[1..], n);
      } else {
        DroppedStaysGone(f, next, plan[1..], n);
      }
    }
  }

  /** A declared object that does not fit is missing wherever the plan ends. */
  lemma MisfitIsMissing<D, C>(f: Family<D, C>, ds: seq<D>, cur: seq<C>, cat: map<string, C>, k: nat)
    requires DistinctDesired(f, ds) && Lists(f, cur, cat) && FilingSettles(f) && k < |ds| && !Fits(f, ds[k], cat)
    ensures Exec(f, cat, Plan(f, ds, cur)).Some? ==> f.nameOf(ds[k]) !in Exec(f, cat, Plan(f, ds, cur)).value
  {
    var n := f.nameOf(ds[k]);
    hide Plan, Exec, Drops, FilingSettles, Lists;
    if n in cat {
      DropsOnce(f, ds, cur, cat);
      assert forall i :: 0 <= i < |ds| && f.nameOf(ds[i]) == n ==> i == k;
      DroppedStaysGone(f, cat, Plan(f, ds, cur), n);
    } else {
      NeverFiled(f, cat, Plan(f, ds, cur), n);
    }
  }

  /** Wherever a plan ends, the end can be listed. */
  lemma EndIsListed<D, C>(f: Family<D, C>, ds: seq<D>, cur: seq<C>, cat: map<string, C>) returns (relisted: seq<C>)
    requires Renders(f, ds) && Lists(f, cur, cat) && Exec(f, cat, Plan(f, ds, cur)).Some?
    ensures Lists(f, relisted, Exec(f, cat, Plan(f, ds, cur)).value)
  {
    hide Plan, Exec;
    PlanCreatesDesired(f, ds, cur);
    StaysWellNamed(f, cat, Plan(f, ds, cur));
    relisted := SomeListing(f, Exec(f, cat, Plan(f, ds, cur)).value);
  }

  /**
   On every catalog a plan settles exactly if every declared object already compares equal or
   has a name the server files verbatim: any other is created anew by every plan.
   */
  lemma SettlesIff<D(!new), C(!new)>(f: Family<D, C>, ds: seq<D>, cur: seq<C>, cat: map<string, C>)
    requires DistinctDesired(f, ds) && Renders(f, ds) && Lists(f, cur, cat) && FilingSettles(f)
    ensures Settles(f, ds, cur, cat) <==> AllFit(f, ds, cat)
  {
    hide Plan, FilingSettles, Lists, Renders, Fits, Exec, DistinctDesired;
    if AllFit(f, ds, cat) {
      PlanReachesDesired(f, ds, cur, cat);
      var end := Exec(f, cat, Plan(f, ds, cur)).value;
      forall relisted | Lists(f, relisted, end) ensures Plan(f, ds, relisted) == [] {
        ReplanIsEmpty(f, ds, cat, end, relisted);
      }
    } else if Exec(f, cat, Plan(f, ds, cur)).Some? {
      var k :| 0 <= k < |ds| && !Fits(f, ds[k], cat);
      MisfitIsMissing(f, ds, cur, cat, k);
      var relisted := EndIsListed(f, ds, cur, cat);
      NeverSettles(f, ds, relisted, Exec(f, cat, Plan(f, ds, cur)).value, k);
    }
  }

  lemma NeverSettles<D, C>(f: Family<D, C>, ds: seq<D>, cur: seq<C>, cat: map<string, C>, k: nat)
    requires Lists(f, cur, cat) && k < |ds| && f.nameOf(ds[k]) !in cat
    ensures Plan(f, ds, cur) != []
  {
    LookupInCatalog(f, cur, cat, f.nameOf(ds[k]));
    MissingIsCreated(f, ds, cur, k);
  }

  lemma PlanCreatesDesired<D, C>(f: Family<D, C>, ds: seq<D>, cur: seq<C>)
    requires Renders(f, ds)
    ensures forall i :: 0 <= i < |Plan(f, ds, cur)| && Plan(f, ds, cur)[i].Create? ==>
      var d := Plan(f, ds, cur)[i].desired; f.nameIn(f.render(d)) == f.filed(f.nameOf(d))
  {
    DesiredCreates(f, ds, cur);
    ExistingCreates(f, cur, ds);
  }

  lemma {:induction false} DesiredCreates<D, C>(f: Family<D, C>, ds: seq<D>, cur: seq<C>)
    requires Renders(f, ds)
    ensures forall i :: 0 <= i < |DesiredPass(f, ds, cur)| && DesiredPass(f, ds, cur)[i].Create? ==>
      var d := DesiredPass(f, ds, cur)[i].desired; f.nameIn(f.render(d)) == f.filed(f.nameOf(d))
    decreases |ds|
  {
    if ds != [] {
      forall i | 0 <= i < |ds[1..]| ensures ds[1..][i] == ds[i + 1] {
      }
      DesiredCreates(f, ds[1..], cur);
    }
  }

  lemma {:induction false} ExistingCreates<D, C>(f: Family<D, C>, cur: seq<C>, ds: seq<D>)
    ensures forall i :: 0 <= i < |ExistingPass(f, cur, ds)| ==> ExistingPass(f, cur, ds)[i].Drop?
    decreases |cur|
  {
    hide Named;
    if cur != [] {
      ExistingCreates(f, cur[1..], ds);
    }
  }

  // ----- what an empty plan means -----------------------------------------------------------------

  lemma {:induction false} NothingDesired<D, C>(f: Family<D, C>, ds: seq<D>, cur: seq<C>, cat: map<string, C>, i: nat)
    requires Lists(f, cur, cat) && DesiredPass(f, ds, cur) == [] && i < |ds|
    ensures Kept(f, ds[i], cat)
    decreases |ds|
  {
    hide Lists;
    LookupInCatalog(f, cur, cat, f.nameOf(ds[0]));
    assert |ForDesired(f, ds[0], cur)| == 0 && |DesiredPass(f, ds[1..], cur)| == 0;
    if i > 0 {
      NothingDesired(f, ds[1..], cur, cat, i - 1);
    }
  }

  lemma {:induction false} NothingExisting<D, C>(f: Family<D, C>, cur: seq<C>, ds: seq<D>, i: nat)
    requires ExistingPass(f, cur, ds) == [] && i < |cur|
    ensures Named(f, ds, f.nameIn(cur[i]))
    decreases |cur|
  {
    hide Named;
    assert |ForExisting(f, cur[0], ds)| == 0 && |ExistingPass(f, cur[1..], ds)| == 0;
    if i > 0 {
      NothingExisting(f, cur[1..], ds, i - 1);
    }
  }

  /** An empty plan means exactly the declared objects, each comparing equal. */
  lemma EmptyPlanMeans<D, C>(f: Family<D, C>, ds: seq<D>, cur: seq<C>, cat: map<string, C>)
    requires Lists(f, cur, cat) && Plan(f, ds, cur) == []
    ensures cat.Keys == Names(f, ds) && forall i :: 0 <= i < |ds| ==> Kept(f, ds[i], cat)
  {
    assert |DesiredPass(f, ds, cur)| == 0 && |ExistingPass(f, cur, ds)| == 0;
    forall i | 0 <= i < |ds| ensures Kept(f, ds[i], cat) {
      NothingDesired(f, ds, cur, cat, i);
    }
    forall n | n in cat ensures n in Names(f, ds) {
      var i :| 0 <= i < |cur| && f.nameIn(cur[i]) == n;
      NothingExisting(f, cur, ds, i);
    }
  }

  /** If planning from one listing of the end yields nothing, everything fitted. */
  lemma EmptyReplanFits<D, C>(f: Family<D, C>, ds: seq<D>, cur: seq<C>, cat: map<string, C>, relisted: seq<C>)
    requires DistinctDesired(f, ds) && Renders(f, ds) && Lists(f, cur, cat) && FilingSettles(f) && Exec(f, cat, Plan(f, ds, cur)).Some?
    requires Lists(f, relisted, Exec(f, cat, Plan(f, ds, cur)).value) && Plan(f, ds, relisted) == []
    ensures AllFit(f, ds, cat)
  {
    hide Lists, Plan, Exec, FilingSettles, DistinctDesired, Renders, Fits;
    forall k | 0 <= k < |ds| ensures Fits(f, ds[k], cat) {
      if !Fits(f, ds[k], cat) {
        MisfitIsMissing(f, ds, cur, cat, k);
        NeverSettles(f, ds, relisted, Exec(f, cat, Plan(f, ds, cur)).value, k);
      }
    }
  }
}
