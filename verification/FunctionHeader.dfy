/** Reading the head of a `create or replace function` statement back: name, parameters, return type, security. */
module FunctionHeader {
  import opened Text
  import opened Parens
  import opened ElementLists
  import opened FunctionText

  // ----- parameters ----------------------------------------------------------------------------------

  /** The modes of section 36.5 of the PostgreSQL documentation. */
  predicate ModeWord(w: string) {
    Lower(w) in {"in", "out", "inout", "variadic"}
  }

  /** A name and its type, or a type alone if it is a single word. */
  function ReadNamed(mode: string, text: string): Param {
    var k := IndexOfChar(text, ' ');
    if k < 0 then Param(mode, "", text) else Param(mode, text[..k], text[k + 1..])
  }

  function ReadParam(text: string): Param {
    var k := IndexOfChar(text, ' ');
    if k >= 0 && ModeWord(text[..k]) then ReadNamed(text[..k], text[k + 1..]) else ReadNamed("", text)
  }

  /** A mode, if any; a name that is no mode, or a type that is a single word. */
  predicate PlainParam(p: Param) {
    && (p.mode != "" ==> ModeWord(p.mode) && ' ' !in p.mode)
    && ' ' !in p.name && !ModeWord(p.name)
    && (p.name == "" ==> ' ' !in p.typ)
  }

  lemma SplitAtBlank(a: string, b: string)
    requires ' ' !in a
    ensures var s := a + " " + b; IndexOfChar(s, ' ') == |a| && s[..|a|] == a && s[|a| + 1..] == b
  {
    IndexOfCharIs(a + " " + b, ' ', |a|);
  }

  lemma NamedReadsBack(mode: string, name: string, typ: string)
    requires ' ' !in name && (name == "" ==> ' ' !in typ)
    ensures ReadNamed(mode, (if name != "" then name + " " else "") + typ) == Param(mode, name, typ)
  {
    hide IndexOfChar;
    if name != "" {
      SplitAtBlank(name, typ);
    } else {
      assert "" + typ == typ;
    }
  }

  lemma ParamReadsBack(p: Param)
    requires PlainParam(p)
    ensures ReadParam(SerializeParam(p)) == p
  {
    hide IndexOfChar, ModeWord;
    var rest := (if p.name != "" then p.name + " " else "") + p.typ;
    NamedReadsBack(p.mode, p.name, p.typ);
    if p.mode != "" {
      assert SerializeParam(p) == p.mode + " " + rest;
      SplitAtBlank(p.mode, rest);
    } else {
      assert SerializeParam(p) == rest;
      if p.name != "" {
        SplitAtBlank(p.name, p.typ);
      }
    }
  }

  // ----- the head ------------------------------------------------------------------------------------

  datatype Head = Head(name: string, params: seq<string>, ret: string, returnSet: bool, definer: bool)

  const CREATE := "create or replace function "
  const DEFINER := " security definer"
  const RETURNS := " returns "
  const SETOF := "setof "

  function ReadReturn(t: string): (string, bool) {
    if !(RETURNS <= t) then ("", false)
    else
      var r := t[|RETURNS|..];
      if SETOF <= r then (r[|SETOF|..], true) else (r, false)
  }

  function ReadTail(t: string): (string, bool, bool) {
    var definer := HasSuffix(t, DEFINER);
    var r := ReadReturn(if definer then t[..|t| - |DEFINER|] else t);
    (r.0, r.1, definer)
  }

  function ReadHead(text: string): Head {
    if !(CREATE <= text) then Head("", [], "", false, false) else
    var rest := text[|CREATE|..];
    var open := IndexOfChar(rest, '(');
    if open < 0 then Head(rest, [], "", false, false) else
    var list := ElementList(rest);
    if open + |list| + 2 > |rest| then Head(rest, [], "", false, false) else
    var tail := ReadTail(rest[open + |list| + 2..]);
    Head(rest[..open], if list == "" then [] else TrimEach(SplitTop(list)), tail.0, tail.1, tail.2)
  }

  /** What stands behind the parameters. */
  function Tail(f: FunctionSchema): string {
    (if f.ret != "" then " returns" + (if f.returnSet then " setof" else "") + " " + f.ret else "")
    + (if f.securityDefiner then " security definer" else "")
  }

  /** A return type that is not taken for one of the words around it. */
  predicate PlainReturn(ret: string) {
    !("setof " <= ret) && !HasSuffix(" " + ret, " security definer")
  }

  lemma ReturnReadsBack(ret: string, returnSet: bool)
    requires !("setof " <= ret)
    ensures ReadReturn(if ret != "" then " returns" + (if returnSet then " setof" else "") + " " + ret else "") ==
      (ret, returnSet && ret != "")
  {
    if ret != "" {
      var t := " returns" + (if returnSet then " setof" else "") + " " + ret;
      if returnSet {
        assert t == RETURNS + (SETOF + ret) && t[|RETURNS|..] == SETOF + ret && (SETOF + ret)[|SETOF|..] == ret;
      } else {
        assert t == RETURNS + ret && t[|RETURNS|..] == ret;
      }
    }
  }

  /** A suffix does not begin inside `x` if the blank behind `x` would have to follow another character. */
  lemma NoSuffixAcross(x: string, r: string, suffix: string)
    requires x != "" && r != "" && r[0] == ' ' && !HasSuffix(r, suffix)
    requires forall i :: 0 < i < |suffix| && suffix[i] == ' ' ==> suffix[i - 1] != x[|x| - 1]
    ensures !HasSuffix(x + r, suffix)
  {
    var s, n := x + r, |suffix|;
    if |r| >= n {
      assert s[|s| - n..] == r[|r| - n..];
    } else if |s| >= n {
      var k, back := n - |r|, s[|s| - n..];
      assert back[k] == r[0] && back[k - 1] == x[|x| - 1];
    }
  }

  lemma DefinerBlanks(i: nat)
    requires 0 < i < |DEFINER| && DEFINER[i] == ' '
    ensures DEFINER[i - 1] == 'y'
  {
    assert |DEFINER| == 17;
    assert DEFINER[9] == ' ' && DEFINER[8] == 'y';
  }

  /** No return clause ends like the security clause unless its type does. */
  lemma NotDefiner(x: string, ret: string)
    requires x != "" && (x[|x| - 1] == 's' || x[|x| - 1] == 'f') && !HasSuffix(" " + ret, DEFINER)
    ensures !HasSuffix(x + " " + ret, DEFINER)
  {
    forall i | 0 < i < |DEFINER| && DEFINER[i] == ' ' ensures DEFINER[i - 1] != x[|x| - 1] {
      DefinerBlanks(i);
    }
    hide HasSuffix;
    NoSuffixAcross(x, " " + ret, DEFINER);
    assert x + " " + ret == x + (" " + ret);
  }

  lemma TailReadsBack(f: FunctionSchema)
    requires PlainReturn(f.ret)
    ensures ReadTail(Tail(f)) == (f.ret, f.returnSet && f.ret != "", f.securityDefiner)
  {
    var clause := if f.ret != "" then " returns" + (if f.returnSet then " setof" else "") + " " + f.ret else "";
    ReturnReadsBack(f.ret, f.returnSet);
    hide ReadReturn;
    if f.securityDefiner {
      var t := Tail(f);
      assert t == clause + DEFINER && t[|t| - |DEFINER|..] == DEFINER && t[..|t| - |DEFINER|] == clause;
    } else {
      assert Tail(f) == clause + "" == clause;
      if f.ret != "" {
        var x := " returns" + (if f.returnSet then " setof" else "");
        assert clause == x + " " + f.ret;
        NotDefiner(x, f.ret);
      } else {
        assert !HasSuffix("", DEFINER);
      }
    }
  }

  function NameOf(name: string, schema: string): string {
    if schema == "" || schema == "public" then name else schema + "." + name
  }

  /** Every parameter is balanced text without a comma of its own. */
  ghost predicate PlainParams(params: seq<Param>) {
    forall i :: 0 <= i < |params| ==>
      var e := SerializeParam(params[i]); Element(e) && Trimmed(e) && e != ""
  }

  lemma {:induction false} SerializedAt(params: seq<Param>, i: nat)
    requires i < |params|
    ensures |SerializeParams(params)| == |params| && SerializeParams(params)[i] == SerializeParam(params[i])
  {
    hide SerializeParam;
    if |params| > 1 {
      SerializedAt(params[1..], if i > 0 then i - 1 else 0);
    }
  }

  lemma ParamsReadBack(params: seq<Param>)
    requires PlainParams(params)
    ensures var list := Join(SerializeParams(params), ", ");
      Balanced(list) && (if list == "" then [] else TrimEach(SplitTop(list))) == SerializeParams(params)
  {
    var es := SerializeParams(params);
    if params == [] {
      assert Join(es, ", ") == "";
    } else {
      forall i | 0 <= i < |params| ensures |es| == |params| && Element(es[i]) && Trimmed(es[i]) && es[i] != "" {
        SerializedAt(params, i);
      }
      assert Join(es, ", ") != "";
      hide SerializeParams, SplitTop, Trimmed, TrimEach, Join;
      PrintedListSplits(es);
      JoinBalanced(es);
    }
  }

  /** The head of every function reads back as its name, its parameters, its return type and its security. */
  lemma HeadReadsBack(name: string, f: FunctionSchema)
    requires '(' !in name && '(' !in f.schema && PlainParams(f.params) && PlainReturn(f.ret)
    ensures ReadHead(Header(name, f)) ==
      Head(NameOf(name, f.schema), SerializeParams(f.params), f.ret, f.returnSet && f.ret != "", f.securityDefiner)
  {
    var n, list, tail := NameOf(name, f.schema), Join(SerializeParams(f.params), ", "), Tail(f);
    assert '(' !in n;
    hide SerializeParams, Join, ElementList, ReadTail, PlainReturn, PlainParams, TrimEach, SplitTop;
    ParamsReadBack(f.params);
    TailReadsBack(f);
    HeaderIs(name, f);
    HeadOf(n, list, tail);
  }

  lemma HeaderIs(name: string, f: FunctionSchema)
    ensures Header(name, f) == CREATE + (NameOf(name, f.schema) + "(" + Join(SerializeParams(f.params), ", ") + ")" + Tail(f))
  {
    hide SerializeParams, Join;
  }

  lemma HeadOf(n: string, list: string, tail: string)
    requires '(' !in n && Balanced(list)
    ensures var t := ReadTail(tail);
      ReadHead(CREATE + (n + "(" + list + ")" + tail)) == Head(n, if list == "" then [] else TrimEach(SplitTop(list)), t.0, t.1, t.2)
  {
    var rest := n + "(" + list + ")" + tail;
    assert (CREATE + rest)[|CREATE|..] == rest;
    ElementListOf(n, list, tail);
    IndexOfCharIs(rest, '(', |n|);
    hide ElementList, ReadTail, TrimEach, SplitTop, IndexOfChar;
    assert rest[|n| + |list| + 2..] == tail && rest[..|n|] == n;
  }
}
