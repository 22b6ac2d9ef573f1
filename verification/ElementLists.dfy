/** Lists of index and constraint elements: nested parentheses, commas, keywords. */
module ElementLists {
  import opened Text
  import opened Parens

  predicate EqualFold(a: string, b: string) {
    Lower(a) == Lower(b)
  }

  // ----- top-level commas --------------------------------------------------------------

  /** The pieces of `s`, read at depth `d`, between commas at depth zero. */
  function SplitFrom(s: string, d: int): (r: seq<string>)
    ensures r != []
    decreases |s|
  {
    if s == [] then [[]]
    else if s[0] == ',' && d == 0 then [[]] + SplitFrom(s[1..], 0)
    else PrependTo([s[0]], SplitFrom(s[1..], d + Step(s[0])))
  }

  function SplitTop(s: string): seq<string> {
    SplitFrom(s, 0)
  }

  function PrependTo(a: string, parts: seq<string>): seq<string>
    requires parts != []
  {
    [a + parts[0]] + parts[1..]
  }

  lemma PrependEmpty(parts: seq<string>)
    requires parts != []
    ensures PrependTo("", parts) == parts
  {
    assert "" + parts[0] == parts[0];
  }

  lemma PrependTwice(a: string, b: string, parts: seq<string>)
    requires parts != []
    ensures PrependTo(a, PrependTo(b, parts)) == PrependTo(a + b, parts)
  {
    assert a + (b + parts[0]) == a + b + parts[0];
  }

  method SplitTopLevelCommas(s: string) returns (parts: seq<string>)
    ensures parts == SplitTop(s)
  {
    hide SplitFrom, PrependTo;
    parts := [];
    var depth, last, i := 0, 0, 0;
    assert s[0..] == s && s[0..0] == "";
    PrependEmpty(SplitFrom(s, 0));
    while i < |s|
      invariant 0 <= last <= i <= |s|
      invariant parts + PrependTo(s[last..i], SplitFrom(s[i..], depth)) == SplitTop(s)
    {
      SplitStep(parts, s, last, i, depth);
      if s[i] == '(' {
        depth := depth + 1;
      } else if s[i] == ')' {
        depth := depth - 1;
      } else if s[i] == ',' && depth == 0 {
        parts := parts + [s[last..i]];
        last := i + 1;
      }
      i := i + 1;
    }
    assert s[i..] == "" && s[last..i] == s[last..];
    LastPart(s[last..], depth);
    parts := parts + [s[last..]];
  }

  lemma LastPart(a: string, d: int)
    ensures PrependTo(a, SplitFrom("", d)) == [a]
  {
    assert a + "" == a;
  }

  lemma SplitStep(parts: seq<string>, s: string, last: nat, i: nat, d: int)
    requires last <= i < |s|
    ensures parts + PrependTo(s[last..i], SplitFrom(s[i..], d)) ==
      if s[i] == ',' && d == 0 then (parts + [s[last..i]]) + PrependTo(s[i + 1..i + 1], SplitFrom(s[i + 1..], 0))
      else parts + PrependTo(s[last..i + 1], SplitFrom(s[i + 1..], d + Step(s[i])))
  {
    assert s[i..][1..] == s[i + 1..] && s[i..][0] == s[i];
    assert s[last..i + 1] == s[last..i] + [s[i]];
    if s[i] == ',' && d == 0 {
      var rest := SplitFrom(s[i + 1..], 0);
      assert s[last..i] + "" == s[last..i];
      assert PrependTo(s[last..i], [""] + rest) == [s[last..i]] + rest;
      PrependEmpty(rest);
      assert s[i + 1..i + 1] == "";
      assert parts + ([s[last..i]] + rest) == (parts + [s[last..i]]) + rest;
    } else {
      PrependTwice(s[last..i], [s[i]], SplitFrom(s[i + 1..], d + Step(s[i])));
    }
  }

  lemma JoinPrepended(a: string, parts: seq<string>)
    requires parts != []
    ensures Join(PrependTo(a, parts), ",") == a + Join(parts, ",")
  {
    var all := PrependTo(a, parts);
    assert all[1..] == parts[1..] && all[0] == a + parts[0];
    if |parts| > 1 {
      assert a + (parts[0] + "," + Join(parts[1..], ",")) == (a + parts[0]) + "," + Join(parts[1..], ",");
    }
  }

  lemma JoinEmptyFirst(parts: seq<string>)
    requires parts != []
    ensures Join([[]] + parts, ",") == "," + Join(parts, ",")
  {
    assert ([[]] + parts)[1..] == parts;
  }

  /** Splitting and joining with commas is the identity on every text. */
  lemma {:induction false} JoinSplitFrom(s: string, d: int)
    ensures Join(SplitFrom(s, d), ",") == s
    decreases |s|
  {
    hide Join, PrependTo;
    if s == [] {
      JoinSingleton("");
    } else {
      assert [s[0]] + s[1..] == s;
      if s[0] == ',' && d == 0 {
        JoinSplitFrom(s[1..], 0);
        JoinEmptyFirst(SplitFrom(s[1..], 0));
      } else {
        JoinSplitFrom(s[1..], d + Step(s[0]));
        JoinPrepended([s[0]], SplitFrom(s[1..], d + Step(s[0])));
      }
    }
  }

  lemma JoinSingleton(x: string)
    ensures Join([x], ",") == x
  {
  }

  lemma SplitTopJoins(s: string)
    ensures Join(SplitTop(s), ",") == s
  {
    JoinSplitFrom(s, 0);
  }

  /** One balanced element without a top-level comma. */
  ghost predicate Element(e: string) {
    Balanced(e) && SplitTop(e) == [e]
  }

  /** A text that is not split does not start with a top-level comma, and its rest is not split either. */
  lemma WholeTail(a: string, d: int)
    requires a != [] && SplitFrom(a, d) == [a]
    ensures !(a[0] == ',' && d == 0) && SplitFrom(a[1..], d + Step(a[0])) == [a[1..]]
  {
    assert |[[]] + SplitFrom(a[1..], 0)| >= 2;
    assert !(a[0] == ',' && d == 0);
    var ra := SplitFrom(a[1..], d + Step(a[0]));
    assert SplitFrom(a, d)[0] == [a[0]] + ra[0];
    assert ([a[0]] + ra[0])[1..] == ra[0];
    assert |ra| == 1;
  }

  lemma {:induction false} SplitFromConcat(a: string, d: int, b: string)
    requires SplitFrom(a, d) == [a]
    ensures SplitFrom(a + b, d) == PrependTo(a, SplitFrom(b, d + Depth(a)))
    decreases |a|
  {
    hide PrependTo;
    if a == [] {
      assert a + b == b;
      PrependEmpty(SplitFrom(b, d));
    } else {
      var d' := d + Step(a[0]);
      WholeTail(a, d);
      assert (a + b)[1..] == a[1..] + b && (a + b)[0] == a[0];
      SplitFromConcat(a[1..], d', b);
      PrependTwice([a[0]], a[1..], SplitFrom(b, d + Depth(a)));
      assert [a[0]] + a[1..] == a;
    }
  }

  /** An element in front of a comma is split off. */
  lemma SplitElement(e: string, rest: string)
    requires Element(e)
    ensures SplitTop(e + "," + rest) == [e] + SplitTop(rest)
  {
    BalancedDepth(e, 0);
    SplitFromConcat(e, 0, "," + rest);
    assert e + "," + rest == e + ("," + rest);
    assert ("," + rest)[1..] == rest;
    assert e + "" == e;
    assert PrependTo(e, [""] + SplitTop(rest)) == [e] + SplitTop(rest);
  }

  lemma {:induction false} SplitPadLeft(a: string, s: string)
    requires forall i :: 0 <= i < |a| ==> a[i] == ' '
    ensures SplitTop(a + s) == PrependTo(a, SplitTop(s))
    decreases |a|
  {
    if a == [] {
      assert a + s == s;
      PrependEmpty(SplitTop(s));
    } else {
      assert (a + s)[1..] == a[1..] + s;
      SplitPadLeft(a[1..], s);
      PrependTwice([a[0]], a[1..], SplitTop(s));
      assert [a[0]] + a[1..] == a;
    }
  }

  function TrimEach(parts: seq<string>): seq<string> {
    if parts == [] then [] else [Trim(parts[0])] + TrimEach(parts[1..])
  }

  /** A list printed with `", "` between trimmed elements splits back into them. */
  lemma {:induction false} PrintedListSplits(es: seq<string>)
    requires es != [] && forall i :: 0 <= i < |es| ==> Element(es[i]) && Trimmed(es[i])
    ensures TrimEach(SplitTop(Join(es, ", "))) == es
    decreases |es|
  {
    hide Trim, SplitTop, Trimmed;
    TrimIdentity(es[0]);
    if |es| == 1 {
      assert TrimEach([es[0]]) == [es[0]] by { assert [es[0]][1..] == []; }
    } else {
      var rest := Join(es[1..], ", ");
      PrintedListSplits(es[1..]);
      assert Join(es, ", ") == es[0] + "," + (" " + rest);
      SplitElement(es[0], " " + rest);
      SplitPadLeft(" ", rest);
      SplitTopNonEmpty(rest);
      var parts := SplitTop(rest);
      TrimPadLeft(" ", parts[0]);
      assert ([es[0]] + PrependTo(" ", parts))[1..] == PrependTo(" ", parts);
      assert PrependTo(" ", parts)[1..] == parts[1..];
    }
  }

  lemma SplitTopNonEmpty(s: string)
    ensures SplitTop(s) != []
  {
  }

  lemma {:induction false} JoinBalanced(es: seq<string>)
    requires forall i :: 0 <= i < |es| ==> Balanced(es[i])
    ensures Balanced(Join(es, ", "))
    decreases |es|
  {
    if |es| > 1 {
      JoinBalanced(es[1..]);
      var rest := Join(es[1..], ", ");
      BalancedConcat(", ", 0, rest, 0);
      BalancedConcat(es[0], 0, ", " + rest, 0);
      assert es[0] + ", " + rest == es[0] + (", " + rest);
      assert BalancedFrom(", ", 0) by { assert ", "[1..] == " "; }
    }
  }

  // ----- the first parenthesized group ---------------------------------------------------

  function ElementList(def: string): string {
    var start := IndexOfChar(def, '(');
    if start < 0 then "" else
    var k := ClosePos(def[start + 1..], 1);
    if k < 0 then "" else def[start + 1..start + 1 + k]
  }

  lemma ClosePosStep(s: string, i: nat, d: nat)
    requires i < |s| && d > 0
    ensures ClosePos(s[i..], d) ==
      if s[i] == ')' && d == 1 then 0
      else var k := ClosePos(s[i + 1..], d + Step(s[i])); if k < 0 then -1 else k + 1
  {
    assert s[i..][1..] == s[i + 1..] && s[i..][0] == s[i];
  }

  lemma ClosePosEnd(s: string, d: nat)
    requires d > 0
    ensures ClosePos(s[|s|..], d) == -1
  {
    assert s[|s|..] == "";
  }

  method ExtractIndexElementList(def: string) returns (list: string)
    ensures list == ElementList(def)
  {
    hide IndexOfChar, ClosePos;
    var start := IndexOfChar(def, '(');
    if start < 0 {
      return "";
    }
    ghost var k := ClosePos(def[start + 1..], 1);
    var depth := 0;
    var i := start;
    while i < |def|
      invariant start <= i <= |def|
      invariant depth >= 0 && (depth == 0 <==> i == start)
      invariant i > start ==>
        var k' := ClosePos(def[i..], depth);
        if k < 0 then k' < 0 else k' >= 0 && start + 1 + k == i + k'
    {
      if i > start {
        ClosePosStep(def, i, depth);
      }
      if def[i] == '(' {
        depth := depth + 1;
      } else if def[i] == ')' {
        depth := depth - 1;
        if depth == 0 {
          return def[start + 1..i];
        }
      }
      i := i + 1;
    }
    ClosePosEnd(def, depth);
    return "";
  }

  /** The group recovered from `prefix(list)tail`. */
  lemma ElementListOf(prefix: string, list: string, tail: string)
    requires '(' !in prefix && Balanced(list)
    ensures ElementList(prefix + "(" + list + ")" + tail) == list
  {
    hide IndexOfChar, ClosePos, BalancedFrom;
    var def := prefix + "(" + list + ")" + tail;
    IndexOfCharIs(def, '(', |prefix|);
    assert def[|prefix| + 1..] == list + ")" + tail;
    ClosePosAfterBalanced(list, 0, tail);
    assert def[|prefix| + 1..|prefix| + 1 + |list|] == list;
  }

  // ----- outer parentheses ---------------------------------------------------------------

  predicate OuterParens(s: string) {
    |s| >= 2 && s[0] == '(' && s[|s| - 1] == ')' && ClosePos(s[1..], 1) == |s| - 2
  }

  method HasBalancedOuterParens(s: string) returns (ok: bool)
    ensures ok == OuterParens(s)
  {
    if |s| < 2 || s[0] != '(' || s[|s| - 1] != ')' {
      return false;
    }
    var depth := 0;
    for i := 0 to |s|
      invariant depth >= 0 && (depth == 0 <==> i == 0)
      invariant i > 0 ==>
        var k := ClosePos(s[1..], 1);
        var k' := ClosePos(s[i..], depth);
        if k < 0 then k' < 0 else k' >= 0 && 1 + k == i + k'
    {
      assert s[i..][1..] == s[i + 1..];
      if s[i] == '(' {
        depth := depth + 1;
      } else if s[i] == ')' {
        depth := depth - 1;
        if depth == 0 {
          return i == |s| - 1;
        }
      }
    }
    assert s[|s|..] == "";
    return false;
  }

  /** A pair of parentheses around `p` is the outer pair exactly when `p` is balanced. */
  lemma OuterParensIff(p: string)
    ensures OuterParens("(" + p + ")") <==> Balanced(p)
  {
    var s := "(" + p + ")";
    assert s[1..] == p + ")" + "";
    if Balanced(p) {
      ClosePosAfterBalanced(p, 0, "");
    }
    if OuterParens(s) {
      ClosePosOnlyBalanced(p, 0, "");
    }
  }

  /** Drops one outer pair of parentheses, if there is one. */
  function Unwrap(s: string): string {
    if s != [] && s[0] == '(' && OuterParens(s) then Trim(s[1..|s| - 1]) else s
  }

  lemma UnwrapWrapped(p: string)
    requires Balanced(p)
    ensures Unwrap("(" + p + ")") == Trim(p)
  {
    hide Trim, OuterParens;
    OuterParensIff(p);
    var s := "(" + p + ")";
    assert s[1..|s| - 1] == p;
  }

  method StripCheckWrapper(condef: string) returns (s: string)
    ensures s == CheckBody(condef)
  {
    hide Trim, ClosePos;
    s := Trim(condef);
    if |s| >= 5 && EqualFold(s[..5], "check") {
      s := Trim(s[5..]);
    }
    if s != "" && s[0] == '(' {
      var wrapped := HasBalancedOuterParens(s);
      if wrapped {
        s := Trim(s[1..|s| - 1]);
      }
    }
  }

  function CheckBody(condef: string): string {
    var s := Trim(condef);
    Unwrap(if |s| >= 5 && EqualFold(s[..5], "check") then Trim(s[5..]) else s)
  }

  /** The predicate recovered from the catalog's rendering of a check constraint. */
  lemma CheckBodyOf(keyword: string, p: string)
    requires EqualFold(keyword, "check") && |keyword| == 5 && Balanced(p)
    ensures CheckBody(keyword + " (" + p + ")") == Trim(p)
  {
    var def := keyword + " (" + p + ")";
    assert !IsSpace(keyword[0]) by {
      LowerAt(keyword, 0);
      LowerAt("check", 0);
    }
    hide Trim, Unwrap, Lower;
    TrimIdentity(def);
    assert def[..5] == keyword;
    assert def[5..] == " " + ("(" + p + ")");
    assert "(" + p + ")" == "" + ("(" + p + ")");
    TrimPadLeft(" ", "(" + p + ")");
    TrimIdentity("(" + p + ")");
    UnwrapWrapped(p);
  }
}
