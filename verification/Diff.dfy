/**
 The two-pass diff behind the check, exclusion, trigger and policy builders: a desired pass
 that creates what is missing and recreates what differs, and an existing pass that drops
 what is no longer declared. Statements get a meaning over a catalog, a map from names to
 stored objects.
 */
module Diff {
  import opened Options
  import opened Collections

  /**
   What the builders differ in: the name a desired object (`D`) is looked up by, the name and
   the comparator of a listed one (`C`), the name the server files a created object under and
   what it lists for it afterwards.
   */
  datatype Family<!D, !C> = Family(
    nameOf: D -> string, nameIn: C -> string, same: (D, C) -> bool, filed: string -> string, render: D -> C)

  datatype Stmt<D> = Drop(name: string) | Create(desired: D)

  // ----- the plan ------------------------------------------------------------------------

  /** The first listed object of that name. */
  function Lookup<D, C>(f: Family<D, C>, cur: seq<C>, n: string): Option<C> {
    if cur == [] then None
    else if f.nameIn(cur[0]) == n then Some(cur[0])
    else Lookup(f, cur[1..], n)
  }

  predicate Named<D, C>(f: Family<D, C>, ds: seq<D>, n: string) {
    exists i :: 0 <= i < |ds| && f.nameOf(ds[i]) == n
  }

  function ForDesired<D, C>(f: Family<D, C>, d: D, cur: seq<C>): seq<Stmt<D>> {
    match Lookup(f, cur, f.nameOf(d))
    case None => [Create(d)]
    case Some(c) => if f.same(d, c) then [] else [Drop(f.nameOf(d)), Create(d)]
  }

  function DesiredPass<D, C>(f: Family<D, C>, ds: seq<D>, cur: seq<C>): seq<Stmt<D>> {
    if ds == [] then [] else ForDesired(f, ds[0], cur) + DesiredPass(f, ds[1..], cur)
  }

  function ForExisting<D, C>(f: Family<D, C>, c: C, ds: seq<D>): seq<Stmt<D>> {
    if Named(f, ds, f.nameIn(c)) then [] else [Drop(f.nameIn(c))]
  }

  function ExistingPass<D, C>(f: Family<D, C>, cur: seq<C>, ds: seq<D>): seq<Stmt<D>> {
    if cur == [] then [] else ForExisting(f, cur[0], ds) + ExistingPass(f, cur[1..], ds)
  }

  function Plan<D, C>(f: Family<D, C>, ds: seq<D>, cur: seq<C>): seq<Stmt<D>> {
    DesiredPass(f, ds, cur) + ExistingPass(f, cur, ds)
  }

  // ----- the builders' loops -------------------------------------------------------------

  method FindNamed<D, C>(f: Family<D, C>, cur: seq<C>, n: string) returns (matched: Option<C>)
    ensures matched == Lookup(f, cur, n)
    ensures matched.Some? ==> f.nameIn(matched.value) == n
  {
    matched := None;
    assert cur[0..] == cur;
    for i := 0 to |cur|
      invariant matched == None
      invariant Lookup(f, cur, n) == Lookup(f, cur[i..], n)
    {
      assert cur[i..][1..] == cur[i + 1..];
      if f.nameIn(cur[i]) == n {
        matched := Some(cur[i]);
        break;
      }
    }
  }

  method IsDesired<D, C>(f: Family<D, C>, ds: seq<D>, n: string) returns (found: bool)
    ensures found == Named(f, ds, n)
  {
    for i := 0 to |ds|
      invariant forall k :: 0 <= k < i ==> f.nameOf(ds[k]) != n
    {
      if f.nameOf(ds[i]) == n {
        return true;
      }
    }
    return false;
  }

  method IsDropped(dropped: seq<string>, n: string) returns (found: bool)
    ensures found == (n in dropped)
  {
    for i := 0 to |dropped|
      invariant n !in dropped[..i]
    {
      if dropped[i] == n {
        return true;
      }
    }
    assert dropped[..|dropped|] == dropped;
    return false;
  }

  lemma DesiredStep<D, C>(f: Family<D, C>, ds: seq<D>, i: nat, cur: seq<C>, done: seq<Stmt<D>>)
    requires i < |ds|
    ensures done + DesiredPass(f, ds[i..], cur) == (done + ForDesired(f, ds[i], cur)) + DesiredPass(f, ds[i + 1..], cur)
  {
    hide ForDesired;
    assert ds[i..][1..] == ds[i + 1..] && ds[i..][0] == ds[i];
    Associative(done, ForDesired(f, ds[i], cur), DesiredPass(f, ds[i + 1..], cur));
  }

  lemma ExistingStep<D, C>(f: Family<D, C>, cur: seq<C>, i: nat, ds: seq<D>, done: seq<Stmt<D>>)
    requires i < |cur|
    ensures done + ExistingPass(f, cur[i..], ds) == (done + ForExisting(f, cur[i], ds)) + ExistingPass(f, cur[i + 1..], ds)
  {
    hide ForExisting;
    assert cur[i..][1..] == cur[i + 1..] && cur[i..][0] == cur[i];
    Associative(done, ForExisting(f, cur[i], ds), ExistingPass(f, cur[i + 1..], ds));
  }

  lemma PassesEnd<D, C>(f: Family<D, C>, ds: seq<D>, cur: seq<C>, done: seq<Stmt<D>>)
    ensures done + DesiredPass(f, ds[|ds|..], cur) == done && done + ExistingPass(f, cur[|cur|..], ds) == done
    ensures [] + DesiredPass(f, ds[0..], cur) == DesiredPass(f, ds, cur) && cur[0..] == cur
  {
    assert ds[|ds|..] == [] && cur[|cur|..] == [] && ds[0..] == ds;
  }

  /** The statements for one desired object, and the name they drop. */
  method DiffOne<D, C>(f: Family<D, C>, d: D, cur: seq<C>) returns (statements: seq<Stmt<D>>, dropped: seq<string>)
    ensures statements == ForDesired(f, d, cur)
    ensures dropped == [] || dropped == [f.nameOf(d)]
  {
    statements, dropped := [], [];
    var matched := FindNamed(f, cur, f.nameOf(d));
    if matched.Some? && f.same(d, matched.value) {
      return;
    }
    if matched.Some? {
      statements := statements + [Drop(f.nameIn(matched.value))];
      dropped := dropped + [f.nameIn(matched.value)];
    }
    statements := statements + [Create(d)];
  }

  method DiffDesired<D, C>(f: Family<D, C>, ds: seq<D>, cur: seq<C>) returns (statements: seq<Stmt<D>>, dropped: seq<string>)
    ensures statements == DesiredPass(f, ds, cur)
    ensures forall n :: n in dropped ==> Named(f, ds, n)
  {
    hide DesiredPass, ForDesired, ExistingPass;
    statements, dropped := [], [];
    PassesEnd(f, ds, cur, statements);
    for i := 0 to |ds|
      invariant statements + DesiredPass(f, ds[i..], cur) == DesiredPass(f, ds, cur)
      invariant forall n :: n in dropped ==> Named(f, ds, n)
    {
      DesiredStep(f, ds, i, cur, statements);
      var more, gone := DiffOne(f, ds[i], cur);
      statements := statements + more;
      dropped := dropped + gone;
    }
    PassesEnd(f, ds, cur, statements);
  }

  /** Both passes; the names already dropped never matter, since the desired pass drops desired names only. */
  method BuildStatements<D, C>(f: Family<D, C>, ds: seq<D>, cur: seq<C>) returns (statements: seq<Stmt<D>>)
    ensures statements == Plan(f, ds, cur)
  {
    hide DesiredPass, ExistingPass;
    var dropped;
    statements, dropped := DiffDesired(f, ds, cur);
    PassesEnd(f, ds, cur, []);
    for i := 0 to |cur|
      invariant statements + ExistingPass(f, cur[i..], ds) == Plan(f, ds, cur)
    {
      var c := cur[i];
      ExistingStep(f, cur, i, ds, statements);
      var desired := IsDesired(f, ds, f.nameIn(c));
      if desired {
        assert statements + [] == statements;
        continue;
      }
      var already := IsDropped(dropped, f.nameIn(c));
      if already {
        continue;
      }
      statements := statements + [Drop(f.nameIn(c))];
    }
    PassesEnd(f, ds, cur, statements);
  }

  // ----- what a plan does to a catalog ---------------------------------------------------

  /** Dropping needs presence, creating needs absence. */
  function Step<D, C>(f: Family<D, C>, cat: map<string, C>, s: Stmt<D>): Option<map<string, C>> {
    match s
    case Drop(n) => if n in cat then Some(cat - {n}) else None
    case Create(d) =>
      var n := f.filed(f.nameOf(d));
      if n in cat then None else Some(cat[n := f.render(d)])
  }

  function Exec<D, C>(f: Family<D, C>, cat: map<string, C>, plan: seq<Stmt<D>>): Option<map<string, C>>
    decreases |plan|
  {
    if plan == [] then Some(cat) else
    match Step(f, cat, plan[0])
    case None => None
    case Some(next) => Exec(f, next, plan[1..])
  }

  lemma {:induction false} ExecConcat<D, C>(f: Family<D, C>, cat: map<string, C>, p: seq<Stmt<D>>, q: seq<Stmt<D>>)
    ensures Exec(f, cat, p + q) == match Exec(f, cat, p) case None => None case Some(mid) => Exec(f, mid, q)
    decreases |p|
  {
    if p == [] {
      assert p + q == q;
    } else {
      assert (p + q)[0] == p[0] && (p + q)[1..] == p[1..] + q;
      var next := Step(f, cat, p[0]);
      if next.Some? {
        ExecConcat(f, next.value, p[1..], q);
      }
    }
  }

  /** `cur` lists the objects of the catalog, in any order. */
  ghost predicate Lists<D, C>(f: Family<D, C>, cur: seq<C>, cat: map<string, C>) {
    && DistinctCurrent(f, cur)
    && (forall i :: 0 <= i < |cur| ==> f.nameIn(cur[i]) in cat && cat[f.nameIn(cur[i])] == cur[i])
    && (forall n :: n in cat ==> exists i :: 0 <= i < |cur| && f.nameIn(cur[i]) == n)
  }

  ghost predicate DistinctCurrent<D, C>(f: Family<D, C>, cur: seq<C>) {
    forall i, j :: 0 <= i < j < |cur| ==> f.nameIn(cur[i]) != f.nameIn(cur[j])
  }

  ghost predicate DistinctDesired<D, C>(f: Family<D, C>, ds: seq<D>) {
    forall i, j :: 0 <= i < j < |ds| ==> f.nameOf(ds[i]) != f.nameOf(ds[j])
  }

  /** The server files the desired object under the very name it is looked up by. */
  predicate FiledVerbatim<D, C>(f: Family<D, C>, d: D) {
    f.filed(f.nameOf(d)) == f.nameOf(d)
  }

  /**
   A created object is listed under the name it was filed under; if that is the declared name,
   what is listed compares equal to what was declared.
   */
  ghost predicate Renders<D, C>(f: Family<D, C>, ds: seq<D>) {
    forall i :: 0 <= i < |ds| ==>
      && f.nameIn(f.render(ds[i])) == f.filed(f.nameOf(ds[i]))
      && (FiledVerbatim(f, ds[i]) ==> f.same(ds[i], f.render(ds[i])))
  }

  function Names<D, C>(f: Family<D, C>, ds: seq<D>): set<string> {
    set i | 0 <= i < |ds| :: f.nameOf(ds[i])
  }

  predicate Kept<D, C>(f: Family<D, C>, d: D, cat: map<string, C>) {
    f.nameOf(d) in cat && f.same(d, cat[f.nameOf(d)])
  }

  /** Nothing to create, or something the server files as declared. */
  predicate Fits<D, C>(f: Family<D, C>, d: D, cat: map<string, C>) {
    FiledVerbatim(f, d) || Kept(f, d, cat)
  }

  ghost predicate AllFit<D, C>(f: Family<D, C>, ds: seq<D>, cat: map<string, C>) {
    forall i :: 0 <= i < |ds| ==> Fits(f, ds[i], cat)
  }

  lemma {:induction false} LookupFinds<D, C>(f: Family<D, C>, cur: seq<C>, n: string)
    ensures match Lookup(f, cur, n)
      case None => forall i :: 0 <= i < |cur| ==> f.nameIn(cur[i]) != n
      case Some(c) => f.nameIn(c) == n && exists i :: 0 <= i < |cur| && cur[i] == c
  {
    if cur != [] && f.nameIn(cur[0]) != n {
      LookupFinds(f, cur[1..], n);
      var r := Lookup(f, cur[1..], n);
      if r.Some? {
        var i :| 0 <= i < |cur[1..]| && cur[1..][i] == r.value;
        assert cur[i + 1] == r.value;
      } else {
        forall i | 0 <= i < |cur| ensures f.nameIn(cur[i]) != n {
          if i > 0 { assert cur[i] == cur[1..][i - 1]; }
        }
      }
    }
  }

  lemma LookupInCatalog<D, C>(f: Family<D, C>, cur: seq<C>, cat: map<string, C>, n: string)
    requires Lists(f, cur, cat)
    ensures Lookup(f, cur, n) == if n in cat then Some(cat[n]) else None
  {
    LookupFinds(f, cur, n);
  }
}
