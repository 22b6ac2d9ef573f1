/** The plugin boundary: defaults that a lossy codec would drop, and the table of connections. */
module Rpc {
  import opened Options
  import opened Collections
  import opened Literals

  // ----- values across the codec -----------------------------------------------------------------

  const EMPTY_STRING_SENTINEL := "__SCHEMAHERO_EMPTY_STRING_DEFAULT__"
  const ZERO_INT_SENTINEL := -999999999

  /** The codec cannot tell a pointer to the zero value from no pointer. */
  function Coded<T(==)>(zero: T, x: Option<T>): Option<T> {
    if x == Some(zero) then None else x
  }

  function Replaced<T(==)>(zero: T, sentinel: T, x: Option<T>): Option<T> {
    if x == Some(zero) then Some(sentinel) else x
  }

  function Restored<T(==)>(zero: T, sentinel: T, x: Option<T>): Option<T> {
    if x == Some(sentinel) then Some(zero) else x
  }

  function EachReplaced(xs: seq<Option<string>>): seq<Option<string>> {
    seq(|xs|, i requires 0 <= i < |xs| => Replaced("", EMPTY_STRING_SENTINEL, xs[i]))
  }

  function EachCoded(xs: seq<Option<string>>): seq<Option<string>> {
    seq(|xs|, i requires 0 <= i < |xs| => Coded("", xs[i]))
  }

  function EachRestored(xs: seq<Option<string>>): seq<Option<string>> {
    seq(|xs|, i requires 0 <= i < |xs| => Restored("", EMPTY_STRING_SENTINEL, xs[i]))
  }

  /** The sender's loop over the column defaults, in place. */
  method ReplaceDefaults(defaults: array<Option<string>>)
    modifies defaults
    ensures defaults[..] == EachReplaced(old(defaults[..]))
  {
    for i := 0 to defaults.Length
      invariant forall k :: 0 <= k < i ==> defaults[k] == Replaced("", EMPTY_STRING_SENTINEL, old(defaults[k]))
      invariant forall k :: i <= k < defaults.Length ==> defaults[k] == old(defaults[k])
    {
      if defaults[i].Some? && defaults[i].value == "" {
        defaults[i] := Some(EMPTY_STRING_SENTINEL);
      }
    }
  }

  /** The receiver's loop. */
  method RestoreDefaults(defaults: array<Option<string>>)
    modifies defaults
    ensures defaults[..] == EachRestored(old(defaults[..]))
  {
    for i := 0 to defaults.Length
      invariant forall k :: 0 <= k < i ==> defaults[k] == Restored("", EMPTY_STRING_SENTINEL, old(defaults[k]))
      invariant forall k :: i <= k < defaults.Length ==> defaults[k] == old(defaults[k])
    {
      if defaults[i].Some? && defaults[i].value == EMPTY_STRING_SENTINEL {
        defaults[i] := Some("");
      }
    }
  }

  /** One value survives exactly if it is not the sentinel itself. */
  lemma ValueSurvivesIff<T>(zero: T, sentinel: T, x: Option<T>)
    requires zero != sentinel
    ensures Restored(zero, sentinel, Coded(zero, Replaced(zero, sentinel, x))) == x <==> x != Some(sentinel)
  {
  }

  lemma SentinelIsNotEmpty()
    ensures EMPTY_STRING_SENTINEL != ""
  {
    assert |EMPTY_STRING_SENTINEL| > 0;
  }

  /** All column defaults survive exactly if none is the sentinel; no table needs the codec to keep empty strings. */
  lemma DefaultsSurviveIff(xs: seq<Option<string>>)
    ensures EachRestored(EachCoded(EachReplaced(xs))) == xs <==> forall i :: 0 <= i < |xs| ==> xs[i] != Some(EMPTY_STRING_SENTINEL)
  {
    SentinelIsNotEmpty();
    var r, s := EachReplaced(xs), EMPTY_STRING_SENTINEL;
    var c := EachCoded(r);
    var back := EachRestored(c);
    forall i | 0 <= i < |xs| ensures back[i] == xs[i] <==> xs[i] != Some(s) {
      ValueSurvivesIff("", s, xs[i]);
      assert r[i] == Replaced("", s, xs[i]) && c[i] == Coded("", r[i]) && back[i] == Restored("", s, c[i]);
    }
  }

  /** Without the replacement a table survives exactly if no default is the empty string. */
  lemma CodecAloneLosesEmpty(xs: seq<Option<string>>)
    ensures EachCoded(xs) == xs <==> forall i :: 0 <= i < |xs| ==> xs[i] != Some("")
  {
    var c := EachCoded(xs);
    assert forall i :: 0 <= i < |xs| ==> (c[i] == xs[i] <==> xs[i] != Some(""));
  }

  datatype CassandraProperties = CassandraProperties(defaultTtl: Option<int>, memtableFlushPeriodMs: Option<int>)

  function PropertiesSent(p: CassandraProperties): CassandraProperties {
    CassandraProperties(Replaced(0, ZERO_INT_SENTINEL, p.defaultTtl), Replaced(0, ZERO_INT_SENTINEL, p.memtableFlushPeriodMs))
  }

  function PropertiesCoded(p: CassandraProperties): CassandraProperties {
    CassandraProperties(Coded(0, p.defaultTtl), Coded(0, p.memtableFlushPeriodMs))
  }

  function PropertiesReceived(p: CassandraProperties): CassandraProperties {
    CassandraProperties(Restored(0, ZERO_INT_SENTINEL, p.defaultTtl), Restored(0, ZERO_INT_SENTINEL, p.memtableFlushPeriodMs))
  }

  lemma PropertiesSurviveIff(p: CassandraProperties)
    ensures PropertiesReceived(PropertiesCoded(PropertiesSent(p))) == p <==>
      p.defaultTtl != Some(ZERO_INT_SENTINEL) && p.memtableFlushPeriodMs != Some(ZERO_INT_SENTINEL)
  {
    ValueSurvivesIff(0, ZERO_INT_SENTINEL, p.defaultTtl);
    ValueSurvivesIff(0, ZERO_INT_SENTINEL, p.memtableFlushPeriodMs);
  }

  // ----- connections -------------------------------------------------------------------------------

  function ConnectionId(n: nat): string {
    "conn-" + NatText(n)
  }

  lemma ConnectionIdsDiffer(m: nat, n: nat)
    requires m != n
    ensures ConnectionId(m) != ConnectionId(n)
  {
    hide NatText;
    if ConnectionId(m) == ConnectionId(n) {
      assert NatText(m) == ConnectionId(m)[5..] == ConnectionId(n)[5..] == NatText(n);
      NatTextInjective(m, n);
    }
  }

  /**
   Connections are numbered as the plugin opens them. `opening` are open but not yet in the
   table, `closing` are taken out of it but not yet closed.
   */
  datatype State = State(
    next: nat, total: nat, opening: set<nat>, connections: map<string, nat>, issued: seq<string>, taken: seq<string>,
    closing: set<nat>, closed: seq<nat>)

  const START := State(0, 0, {}, map[], [], [], {}, [])

  datatype Action = Open(succeeds: bool) | Register(conn: nat) | Take(id: string) | Close(conn: nat)

  function Perform(s: State, a: Action): State {
    match a
    case Open(succeeds) =>
      if !succeeds then s else s.(total := s.total + 1, opening := s.opening + {s.total})
    case Register(conn) =>
      if conn !in s.opening then s else
      var id := ConnectionId(s.next + 1);
      s.(next := s.next + 1, opening := s.opening - {conn}, connections := s.connections[id := conn], issued := s.issued + [id])
    case Take(id) =>
      if id !in s.connections then s else
      s.(connections := s.connections - {id}, taken := s.taken + [id], closing := s.closing + {s.connections[id]})
    case Close(conn) =>
      if conn !in s.closing then s else s.(closing := s.closing - {conn}, closed := s.closed + [conn])
  }

  function Run(actions: seq<Action>): State {
    if actions == [] then START else Perform(Run(actions[..|actions| - 1]), actions[|actions| - 1])
  }

  /** The server's table; calls interleave at the points where they let go of its lock. */
  class RPCServer {
    var next: nat
    var total: nat
    var opening: set<nat>
    var connections: map<string, nat>
    var issued: seq<string>
    var taken: seq<string>
    var closing: set<nat>
    var closed: seq<nat>

    constructor ()
      ensures Value() == START
    {
      next, total, opening, connections := 0, 0, {}, map[];
      issued, taken, closing, closed := [], [], {}, [];
    }

    ghost function Value(): State
      reads this
    {
      State(next, total, opening, connections, issued, taken, closing, closed)
    }

    /** Asks the plugin for a connection. */
    method OpenConnection(succeeds: bool) returns (conn: Option<nat>)
      modifies this`total, this`opening
      ensures Value() == Perform(old(Value()), Open(succeeds))
      ensures conn == if succeeds then Some(old(total)) else None
    {
      if !succeeds {
        return None;
      }
      conn := Some(total);
      opening := opening + {total};
      total := total + 1;
    }

    /** Enters it in the table under a new identifier. */
    method RegisterConnection(conn: nat) returns (id: string)
      requires conn in opening
      modifies this`next, this`opening, this`connections, this`issued
      ensures Value() == Perform(old(Value()), Register(conn)) && id == ConnectionId(next)
    {
      next := next + 1;
      id := ConnectionId(next);
      connections := connections[id := conn];
      opening := opening - {conn};
      issued := issued + [id];
    }

    /** Looks an identifier up and removes it, or reports that it is not there. */
    method TakeConnection(id: string) returns (conn: Option<nat>)
      modifies this`connections, this`taken, this`closing
      ensures Value() == Perform(old(Value()), Take(id))
      ensures conn == if id in old(connections) then Some(old(connections)[id]) else None
    {
      if id !in connections {
        return None;
      }
      conn := Some(connections[id]);
      closing := closing + {connections[id]};
      connections := connections - {id};
      taken := taken + [id];
    }

    method CloseConnection(conn: nat)
      requires conn in closing
      modifies this`closing, this`closed
      ensures Value() == Perform(old(Value()), Close(conn))
    {
      closing := closing - {conn};
      closed := closed + [conn];
    }
  }

  // ----- every run -----------------------------------------------------------------------------------

  /** Identifiers are numbered as issued; one that was taken is in the table no more. */
  ghost predicate Identified(s: State) {
    && s.next == |s.issued| && (forall i :: 0 <= i < |s.issued| ==> s.issued[i] == ConnectionId(i + 1))
    && (forall id :: id in s.connections ==> id in s.issued)
    && (forall id :: id in s.taken ==> id in s.issued && id !in s.connections)
    && NoDuplicates(s.taken)
  }

  /** A connection is in one place only. */
  ghost predicate Placed(s: State) {
    && (forall c :: c in s.opening ==> c < s.total && c !in s.closing && c !in s.closed)
    && (forall id :: id in s.connections ==>
      var c := s.connections[id]; c < s.total && c !in s.opening && c !in s.closing && c !in s.closed)
    && (forall a, b :: a in s.connections && b in s.connections && a != b ==> s.connections[a] != s.connections[b])
    && (forall c :: c in s.closing ==> c < s.total && c !in s.closed)
    && (forall c :: c in s.closed ==> c < s.total)
    && NoDuplicates(s.closed)
  }

  lemma NewIdentifier(s: State)
    requires Identified(s)
    ensures ConnectionId(s.next + 1) !in s.issued
  {
    hide ConnectionId;
    forall i | 0 <= i < |s.issued| ensures s.issued[i] != ConnectionId(s.next + 1) {
      ConnectionIdsDiffer(i + 1, s.next + 1);
    }
  }

  lemma StepIdentifies(s: State, a: Action)
    requires Identified(s)
    ensures Identified(Perform(s, a))
  {
    hide ConnectionId;
    NewIdentifier(s);
  }

  lemma StepPlaces(s: State, a: Action)
    requires Placed(s)
    ensures Placed(Perform(s, a))
  {
    hide ConnectionId;
  }

  lemma {:induction false} EveryRunKeeps(actions: seq<Action>)
    ensures Identified(Run(actions)) && Placed(Run(actions))
  {
    hide Identified, Placed, Perform;
    if actions == [] {
      StartKeeps();
    } else {
      var before, a := Run(actions[..|actions| - 1]), actions[|actions| - 1];
      EveryRunKeeps(actions[..|actions| - 1]);
      StepIdentifies(before, a);
      StepPlaces(before, a);
    }
  }

  lemma StartKeeps()
    ensures Identified(START) && Placed(START)
  {
  }

  /** No identifier is issued twice, none comes back once taken, and no connection is closed twice. */
  lemma ConnectionsAreSafe(actions: seq<Action>)
    ensures var s := Run(actions);
      && NoDuplicates(s.issued) && NoDuplicates(s.taken) && NoDuplicates(s.closed)
      && (forall id :: id in s.taken ==> id !in s.connections)
      && (forall a, b :: a in s.connections && b in s.connections && a != b ==> s.connections[a] != s.connections[b])
  {
    EveryRunKeeps(actions);
    hide ConnectionId;
    var s := Run(actions);
    forall i, j | 0 <= i < j < |s.issued| ensures s.issued[i] != s.issued[j] {
      ConnectionIdsDiffer(i + 1, j + 1);
    }
  }

  /** Every connection ever opened is somewhere: about to be entered, in the table, about to be closed, or closed. */
  ghost predicate NoneLost(s: State) {
    forall c :: 0 <= c < s.total ==>
      c in s.opening || (exists id :: id in s.connections && s.connections[id] == c) || c in s.closing || c in s.closed
  }

  lemma StepLosesNone(s: State, a: Action)
    requires NoneLost(s) && Identified(s)
    ensures NoneLost(Perform(s, a))
  {
    var t := Perform(s, a);
    NewIdentifier(s);
    forall c | 0 <= c < t.total
      ensures c in t.opening || (exists id :: id in t.connections && t.connections[id] == c) || c in t.closing || c in t.closed
    {
      if id :| c < s.total && id in s.connections && s.connections[id] == c {
        if !(a.Take? && a.id == id) {
          assert id in t.connections && t.connections[id] == c;
        }
      }
      if a.Register? && a.conn == c && c in s.opening {
        assert t.connections[ConnectionId(s.next + 1)] == c;
      }
    }
  }

  /** No run loses a connection. */
  lemma {:induction false} NoConnectionIsLost(actions: seq<Action>)
    ensures NoneLost(Run(actions))
  {
    if actions != [] {
      var front := actions[..|actions| - 1];
      NoConnectionIsLost(front);
      EveryRunKeeps(front);
      hide Perform, NoneLost;
      StepLosesNone(Run(front), actions[|actions| - 1]);
    }
  }
}
