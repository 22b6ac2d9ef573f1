/** Reading the element list of a printed index gives back elements equal to its specification. */
module IndexRoundTrip {
  import opened Text
  import opened CanonicalLaws
  import opened Comparators
  import opened IndexElements

  // ----- texts of blank-separated tokens -------------------------------------------------

  predicate Token(t: string) {
    t != "" && forall i :: 0 <= i < |t| ==> !IsSpace(t[i])
  }

  ghost predicate Tokens(ts: seq<string>) {
    forall i :: 0 <= i < |ts| ==> Token(ts[i])
  }

  lemma {:induction false} FieldsOfTokens(ts: seq<string>)
    requires ts != [] && Tokens(ts)
    ensures Fields(Join(ts, " ")) == ts && Fields(" " + Join(ts, " ")) == ts
    ensures Join(ts, " ") != "" && !IsSpace(Join(ts, " ")[0])
    decreases |ts|
  {
    var t, s := ts[0], Join(ts, " ");
    var rest := if |ts| == 1 then "" else " " + Join(ts[1..], " ");
    if |ts| > 1 {
      FieldsOfTokens(ts[1..]);
    }
    assert s == t + rest;
    assert s[0] == t[0];
    FirstFieldOf(t, rest);
    assert s[|t|..] == rest;
    assert ts == [t] + ts[1..];
    assert (" " + s)[1..] == s;
    assert TrimLeft(" " + s) == s;
    assert TrimLeft(s) == s;
    if |ts| == 1 {
      assert Fields("") == [];
      assert ts[1..] == [];
    }
  }

  /** `key` starts some token behind the first. */
  ghost predicate StartsLater(ts: seq<string>, key: string) {
    exists j :: 1 <= j < |ts| && key <= ts[j]
  }

  /** Where ` key` matches in `t more`: at the blank or within `more`. */
  lemma BlankKeyAt(s: string, t: string, more: string, key: string, i: nat)
    requires s == t + " " + more && Token(t) && i <= |s|
    ensures MatchAt(s, " " + key, i) <==> (i == |t| && key <= more) || (i > |t| && MatchAt(more, " " + key, i - |t| - 1))
  {
    var sub := " " + key;
    if i < |t| {
      assert s[i] == t[i];
      BlankNotHere(s, sub, i);
    } else if i == |t| {
      KeyHere(s, t, more, key);
    } else if i + |sub| <= |s| {
      assert s[|t| + 1..|t| + 1 + |more|] == more;
      MatchInside(s, more, |t| + 1, sub, i);
    }
  }

  lemma BlankKeySplit(s: string, t: string, more: string, key: string)
    requires s == t + " " + more && Token(t)
    ensures Contains(s, " " + key) <==> key <= more || Contains(more, " " + key)
  {
    var sub := " " + key;
    hide MatchAt, Token;
    if Contains(s, sub) {
      var i :| 0 <= i <= |s| && MatchAt(s, sub, i);
      BlankKeyAt(s, t, more, key, i);
    }
    if key <= more {
      BlankKeyAt(s, t, more, key, |t|);
    }
    if Contains(more, sub) {
      var i :| 0 <= i <= |more| && MatchAt(more, sub, i);
      BlankKeyAt(s, t, more, key, i + |t| + 1);
    }
  }

  lemma StartsLaterCons(ts: seq<string>, key: string)
    requires |ts| > 1
    ensures StartsLater(ts, key) <==> key <= ts[1] || StartsLater(ts[1..], key)
  {
    var r := ts[1..];
    if StartsLater(r, key) {
      var j :| 1 <= j < |r| && key <= r[j];
      assert key <= ts[j + 1];
    }
    if StartsLater(ts, key) {
      var j :| 1 <= j < |ts| && key <= ts[j];
      if j > 1 { assert key <= r[j - 1]; }
    }
  }

  lemma {:induction false} BlankThenKey(ts: seq<string>, key: string)
    requires ts != [] && Tokens(ts) && Token(key)
    ensures Contains(Join(ts, " "), " " + key) <==> StartsLater(ts, key)
    decreases |ts|
  {
    hide Contains, Token;
    if |ts| == 1 {
      NoBlankNoMatch(ts[0], " " + key, 0);
    } else {
      var t, more := ts[0], Join(ts[1..], " ");
      BlankThenKey(ts[1..], key);
      BlankKeySplit(t + " " + more, t, more, key);
      KeyAtStart(ts[1..], key);
      StartsLaterCons(ts, key);
    }
  }

  lemma BlankNotHere(s: string, sub: string, i: nat)
    requires i < |s| && sub != "" && s[i] != sub[0]
    ensures !MatchAt(s, sub, i)
  {
    if i + |sub| <= |s| {
      assert s[i..i + |sub|][0] == s[i];
    }
  }

  lemma KeyHere(s: string, t: string, more: string, key: string)
    requires s == t + " " + more
    ensures MatchAt(s, " " + key, |t|) <==> key <= more
  {
    var sub := " " + key;
    if |t| + |sub| <= |s| {
      assert s[|t|..|t| + |sub|] == " " + more[..|key|];
      assert s[|t|..|t| + |sub|][1..] == more[..|key|];
      assert sub[1..] == key;
    }
  }

  /** A token in front of joined tokens is in front of the first of them. */
  lemma KeyAtStart(ts: seq<string>, key: string)
    requires ts != [] && Tokens(ts) && Token(key)
    ensures key <= Join(ts, " ") <==> key <= ts[0]
  {
    var s := Join(ts, " ");
    if |ts| > 1 {
      assert s == ts[0] + (" " + Join(ts[1..], " "));
      if |key| <= |ts[0]| {
        assert s[..|key|] == ts[0][..|key|];
      } else {
        assert s[|ts[0]|] == ' ' && !IsSpace(key[|ts[0]|]);
        NotPrefix(key, s, |ts[0]|);
      }
    }
  }

  lemma NotPrefix(key: string, s: string, k: nat)
    requires k < |key| && k < |s| && key[k] != s[k]
    ensures !(key <= s)
  {
  }

  /** `a` ends some token and `b` starts the next. */
  ghost predicate Adjacent(ts: seq<string>, a: string, b: string) {
    exists j :: 0 <= j < |ts| - 1 && HasSuffix(ts[j], a) && b <= ts[j + 1]
  }

  lemma NoBlankNoMatch(s: string, sub: string, k: nat)
    requires Token(s) && k < |sub| && sub[k] == ' '
    ensures !Contains(s, sub)
  {
    forall i | 0 <= i <= |s| ensures !MatchAt(s, sub, i) {
      if i + |sub| <= |s| {
        MismatchAt(s, sub, i, k);
      }
    }
  }

  /** Where two keys match in `t more`: across the blank or within `more`. */
  lemma TwoKeysAt(s: string, t: string, more: string, a: string, b: string, i: nat)
    requires s == t + " " + more && Token(t) && Token(a) && i <= |s|
    ensures MatchAt(s, a + " " + b, i) <==>
      (i + |a| == |t| && HasSuffix(t, a) && b <= more) || (i > |t| && MatchAt(more, a + " " + b, i - |t| - 1))
  {
    var sub := a + " " + b;
    if i + |sub| > |s| {
    } else if i + |a| < |t| {
      assert sub[|a|] == ' ' && s[i + |a|] == t[i + |a|];
      MismatchAt(s, sub, i, |a|);
    } else if i + |a| == |t| {
      TwoKeysHere(s, t, more, a, b, i);
    } else if i <= |t| {
      assert sub[|t| - i] == a[|t| - i] && s[|t|] == ' ';
      MismatchAt(s, sub, i, |t| - i);
    } else {
      assert s[|t| + 1..|t| + 1 + |more|] == more;
      MatchInside(s, more, |t| + 1, sub, i);
    }
  }

  lemma TwoKeysSplit(s: string, t: string, more: string, a: string, b: string)
    requires s == t + " " + more && Token(t) && Token(a)
    ensures Contains(s, a + " " + b) <==> (HasSuffix(t, a) && b <= more) || Contains(more, a + " " + b)
  {
    var sub := a + " " + b;
    hide MatchAt;
    if Contains(s, sub) {
      var i :| 0 <= i <= |s| && MatchAt(s, sub, i);
      TwoKeysAt(s, t, more, a, b, i);
    }
    if HasSuffix(t, a) && b <= more {
      TwoKeysAt(s, t, more, a, b, |t| - |a|);
    }
    if Contains(more, sub) {
      var i :| 0 <= i <= |more| && MatchAt(more, sub, i);
      TwoKeysAt(s, t, more, a, b, i + |t| + 1);
    }
  }

  lemma {:induction false} TwoKeys(ts: seq<string>, a: string, b: string)
    requires ts != [] && Tokens(ts) && Token(a) && Token(b)
    ensures Contains(Join(ts, " "), a + " " + b) <==> Adjacent(ts, a, b)
    decreases |ts|
  {
    hide Contains, Token, HasSuffix;
    if |ts| == 1 {
      NoBlankNoMatch(ts[0], a + " " + b, |a|);
    } else {
      var t, more := ts[0], Join(ts[1..], " ");
      TwoKeys(ts[1..], a, b);
      TwoKeysSplit(t + " " + more, t, more, a, b);
      KeyAtStart(ts[1..], b);
      AdjacentCons(ts, a, b);
    }
  }

  lemma AdjacentCons(ts: seq<string>, a: string, b: string)
    requires |ts| > 1
    ensures Adjacent(ts, a, b) <==> (HasSuffix(ts[0], a) && b <= ts[1]) || Adjacent(ts[1..], a, b)
  {
    hide HasSuffix;
    var r := ts[1..];
    forall j | 0 <= j < |r| ensures r[j] == ts[j + 1] {
    }
    if Adjacent(ts, a, b) {
      var j :| 0 <= j < |ts| - 1 && HasSuffix(ts[j], a) && b <= ts[j + 1];
      if j > 0 {
        assert HasSuffix(r[j - 1], a) && b <= r[j - 1 + 1];
      }
    }
    if Adjacent(r, a, b) {
      var j :| 0 <= j < |r| - 1 && HasSuffix(r[j], a) && b <= r[j + 1];
      assert HasSuffix(ts[j + 1], a) && b <= ts[j + 1 + 1];
    }
  }

  lemma MismatchAt(s: string, sub: string, i: nat, k: nat)
    requires i + |sub| <= |s| && k < |sub| && s[i + k] != sub[k]
    ensures !MatchAt(s, sub, i)
  {
    assert s[i..i + |sub|][k] == s[i + k];
  }

  lemma TwoKeysHere(s: string, t: string, more: string, a: string, b: string, i: nat)
    requires s == t + " " + more && i + |a| == |t| && i + |a| + 1 + |b| <= |s|
    ensures MatchAt(s, a + " " + b, i) <==> HasSuffix(t, a) && b <= more
  {
    var sub := a + " " + b;
    assert s[i..i + |sub|] == t[i..] + " " + more[..|b|];
    var x := t[i..] + " " + more[..|b|];
    assert x[..|a|] == t[i..] && x[|a| + 1..] == more[..|b|];
    assert sub[..|a|] == a && sub[|a| + 1..] == b;
  }

  // ----- sorted columns ------------------------------------------------------------------

  /** A column or operator class name: no blanks, commas or parentheses. */
  predicate Name(t: string) {
    Token(t) && forall i :: 0 <= i < |t| ==> t[i] != ',' && t[i] != '(' && t[i] != ')'
  }

  predicate StartsWithOrderingKeyword(op: string) {
    "asc" <= op || "desc" <= op || "nulls" <= op || "first" <= op || "last" <= op
  }

  predicate ValidColumn(sc: IndexColumn) {
    var op, dir, nulls := Lower(Trim(sc.opClass)), Upper(Trim(sc.sort)), Upper(Trim(sc.nulls));
    && Name(sc.column)
    && (op == "" || (Name(op) && !StartsWithOrderingKeyword(op)))
    && (dir == "" || dir == "ASC" || dir == "DESC")
    && (nulls == "" || nulls == "FIRST" || nulls == "LAST")
  }

  /** The printed element in normal form: operator class, direction, nulls. */
  datatype Ordering = Ordering(column: string, op: string, dir: string, nulls: string)

  function OrderingOf(sc: IndexColumn): Ordering {
    Ordering(sc.column, Lower(Trim(sc.opClass)), Upper(Trim(sc.sort)), Upper(Trim(sc.nulls)))
  }

  predicate ValidOrdering(o: Ordering) {
    && Name(o.column)
    && (o.op == "" || (Name(o.op) && UpperFree(o.op) && !StartsWithOrderingKeyword(o.op)))
    && (o.dir == "" || o.dir == "ASC" || o.dir == "DESC")
    && (o.nulls == "" || o.nulls == "FIRST" || o.nulls == "LAST")
  }

  function OpTokens(o: Ordering): seq<string> {
    if o.op == "" then [] else [o.op]
  }

  function DirTokens(o: Ordering): seq<string> {
    if o.dir == "DESC" then ["desc"] else if o.dir == "ASC" then ["asc"] else []
  }

  function NullsTokens(o: Ordering): seq<string> {
    if o.nulls == "FIRST" then ["nulls", "first"] else if o.nulls == "LAST" then ["nulls", "last"] else []
  }

  function TokensOf(o: Ordering): seq<string> {
    [o.column] + OpTokens(o) + DirTokens(o) + NullsTokens(o)
  }

  lemma ElementIsTokens(sc: IndexColumn)
    ensures SortedElement(sc) == Join(TokensOf(OrderingOf(sc)), " ")
  {
    var o := OrderingOf(sc);
    OptionalTexts(sc);
    hide Lower, Upper, Trim, OpTokens, DirTokens, NullsTokens, SortText, NullsText, Join;
    var opText := if o.op != "" then " " + o.op else "";
    JoinSingle(o.column);
    JoinOptional([o.column], OpTokens(o), opText);
    JoinOptional([o.column] + OpTokens(o), DirTokens(o), SortText(sc.sort));
    JoinOptional([o.column] + OpTokens(o) + DirTokens(o), NullsTokens(o), NullsText(sc.nulls));
  }

  lemma JoinSingle(t: string)
    ensures Join([t], " ") == t
  {
  }

  /** The optional part `text` of an element is a blank in front of each of its tokens. */
  predicate Optional(ts: seq<string>, text: string) {
    || (ts == [] && text == "")
    || (|ts| == 1 && text == " " + ts[0])
    || (|ts| == 2 && text == " " + ts[0] + " " + ts[1])
  }

  lemma OptionalTexts(sc: IndexColumn)
    ensures var o := OrderingOf(sc);
      && Optional(OpTokens(o), if o.op != "" then " " + o.op else "")
      && Optional(DirTokens(o), SortText(sc.sort))
      && Optional(NullsTokens(o), NullsText(sc.nulls))
  {
    hide Lower, Upper, Trim;
    assert " desc" == " " + "desc" && " asc" == " " + "asc";
    assert " nulls first" == " " + "nulls" + " " + "first" && " nulls last" == " " + "nulls" + " " + "last";
  }

  lemma JoinOptional(a: seq<string>, ts: seq<string>, text: string)
    requires a != [] && Optional(ts, text)
    ensures Join(a + ts, " ") == Join(a, " ") + text
  {
    if ts == [] {
      assert a + ts == a;
    } else {
      JoinAppend(a, ts, " ");
      if |ts| == 2 {
        assert ts[1..] == [ts[1]];
        assert Join(a, " ") + " " + (ts[0] + " " + ts[1]) == Join(a, " ") + text;
      }
    }
  }

  lemma OrderingIsValid(sc: IndexColumn)
    requires ValidColumn(sc)
    ensures ValidOrdering(OrderingOf(sc))
  {
    hide Trim, StartsWithOrderingKeyword, Upper;
    LowerUpperFree(Trim(sc.opClass));
    hide Lower;
  }

  lemma KeywordTokens()
    ensures Token("asc") && Token("desc") && Token("nulls") && Token("first") && Token("last")
    ensures Token("ASC") && Token("DESC") && Token("NULLS") && Token("FIRST") && Token("LAST")
  {
  }

  lemma TokensAreTokens(o: Ordering)
    requires ValidOrdering(o)
    ensures Tokens(TokensOf(o))
  {
    hide StartsWithOrderingKeyword, Token, UpperFree;
    assert Token(o.column) && (o.op != "" ==> Token(o.op)) by { NameToken(o.column); NameToken(o.op); }
    KeywordTokens();
  }

  lemma NameToken(t: string)
    ensures Name(t) ==> Token(t)
  {
  }

  // ----- upper-casing the tokens -----------------------------------------------------------

  function UpperEach(ts: seq<string>): (r: seq<string>)
    ensures |r| == |ts|
  {
    if ts == [] then [] else [Upper(ts[0])] + UpperEach(ts[1..])
  }

  lemma {:induction false} UpperEachConcat(a: seq<string>, b: seq<string>)
    ensures UpperEach(a + b) == UpperEach(a) + UpperEach(b)
  {
    hide Upper;
    if a == [] {
      assert a + b == b;
    } else {
      assert (a + b)[1..] == a[1..] + b;
      UpperEachConcat(a[1..], b);
    }
  }

  lemma {:induction false} UpperJoin(ts: seq<string>)
    ensures Upper(Join(ts, " ")) == Join(UpperEach(ts), " ")
    decreases |ts|
  {
    if ts == [] {
    } else if |ts| == 1 {
      assert UpperEach(ts) == [Upper(ts[0])] by { assert ts[1..] == []; }
    } else {
      UpperJoin(ts[1..]);
      assert UpperEach(ts)[1..] == UpperEach(ts[1..]);
      assert Join(ts, " ") == ts[0] + " " + Join(ts[1..], " ");
      UpperConcat(ts[0] + " ", Join(ts[1..], " "));
      UpperConcat(ts[0], " ");
      assert Upper(" ") == " " by { assert " "[1..] == ""; }
    }
  }

  lemma UpperToken(t: string)
    requires Token(t)
    ensures Token(Upper(t))
  {
    hide Upper;
    forall i | 0 <= i < |t| ensures !IsSpace(Upper(t)[i]) {
      UpperAt(t, i);
    }
  }

  lemma {:induction false} UpperTokens(ts: seq<string>)
    requires Tokens(ts)
    ensures Tokens(UpperEach(ts))
  {
    hide Upper, Token;
    if ts != [] {
      UpperToken(ts[0]);
      UpperTokens(ts[1..]);
    }
  }

  /** An upper-cased keyword in front of an upper-cased lower-case name. */
  lemma UpperPrefix(key: string, k: string, op: string)
    requires UpperFree(op) && |key| == |k|
    requires forall i :: 0 <= i < |k| ==> 'a' <= k[i] <= 'z' && key[i] == UpperChar(k[i])
    ensures key <= Upper(op) ==> k <= op
  {
    hide Upper;
    if key <= Upper(op) {
      forall i | 0 <= i < |k| ensures k[i] == op[i] {
        UpperAt(op, i);
        assert Upper(op)[i] == key[i];
      }
    }
  }

  lemma OpStartsNothing(op: string)
    requires UpperFree(op) && !StartsWithOrderingKeyword(op)
    ensures var u := Upper(op);
      !("ASC" <= u) && !("DESC" <= u) && !("FIRST" <= u) && !("LAST" <= u)
  {
    hide Upper;
    UpperPrefix("ASC", "asc", op);
    UpperPrefix("DESC", "desc", op);
    UpperPrefix("FIRST", "first", op);
    UpperPrefix("LAST", "last", op);
  }

  lemma UpperKeywords()
    ensures Upper("asc") == "ASC" && Upper("desc") == "DESC" && Upper("nulls") == "NULLS"
    ensures Upper("first") == "FIRST" && Upper("last") == "LAST"
  {
    UpperIs("asc", "ASC");
    UpperIs("desc", "DESC");
    UpperIs("nulls", "NULLS");
    UpperIs("first", "FIRST");
    UpperIs("last", "LAST");
  }

  // ----- which keys the element mentions ---------------------------------------------------

  ghost predicate AnyStarts(ts: seq<string>, key: string) {
    exists j :: 0 <= j < |ts| && key <= ts[j]
  }

  lemma AnyStartsConcat(a: seq<string>, b: seq<string>, key: string)
    ensures AnyStarts(a + b, key) <==> AnyStarts(a, key) || AnyStarts(b, key)
  {
    var s := a + b;
    if AnyStarts(a, key) {
      var j :| 0 <= j < |a| && key <= a[j];
      assert key <= s[j];
    }
    if AnyStarts(b, key) {
      var j :| 0 <= j < |b| && key <= b[j];
      assert key <= s[|a| + j];
    }
    if AnyStarts(s, key) {
      var j :| 0 <= j < |s| && key <= s[j];
      if j >= |a| {
        assert key <= b[j - |a|];
      }
    }
  }

  lemma StartsLaterTail(t: string, rest: seq<string>, key: string)
    ensures StartsLater([t] + rest, key) <==> AnyStarts(rest, key)
  {
    var s := [t] + rest;
    if AnyStarts(rest, key) {
      var j :| 0 <= j < |rest| && key <= rest[j];
      assert key <= s[j + 1];
    }
    if StartsLater(s, key) {
      var j :| 1 <= j < |s| && key <= s[j];
      assert key <= rest[j - 1];
    }
  }

  function UpperDirection(o: Ordering): seq<string> {
    if o.dir == "DESC" then ["DESC"] else if o.dir == "ASC" then ["ASC"] else []
  }

  function UpperNulls(o: Ordering): seq<string> {
    if o.nulls == "FIRST" then ["NULLS", "FIRST"] else if o.nulls == "LAST" then ["NULLS", "LAST"] else []
  }

  function UpperOp(o: Ordering): seq<string> {
    if o.op == "" then [] else [Upper(o.op)]
  }

  lemma UpperOfFour(c: string, x: seq<string>, y: seq<string>, z: seq<string>)
    ensures UpperEach([c] + x + y + z) == [Upper(c)] + (UpperEach(x) + UpperEach(y) + UpperEach(z))
  {
    hide Upper, UpperEach;
    UpperEachConcat([c] + x + y, z);
    UpperEachConcat([c] + x, y);
    UpperEachConcat([c], x);
    UpperEachOne(c);
  }

  lemma UpperOpPart(o: Ordering)
    ensures UpperEach(OpTokens(o)) == UpperOp(o)
  {
    hide Upper;
    UpperEachOne(o.op);
  }

  lemma UpperDirectionPart(o: Ordering)
    ensures UpperEach(DirTokens(o)) == UpperDirection(o)
  {
    UpperKeywords();
    UpperEachOne("desc");
    UpperEachOne("asc");
    hide UpperEach, Upper;
    assert [] == UpperEach([]) by { UpperEachConcat([], []); }
  }

  lemma UpperNullsPart(o: Ordering)
    ensures UpperEach(NullsTokens(o)) == UpperNulls(o)
  {
    UpperKeywords();
    UpperEachTwo("nulls", "first");
    UpperEachTwo("nulls", "last");
    hide UpperEach, Upper;
    assert [] == UpperEach([]) by { UpperEachConcat([], []); }
  }

  /** The upper-cased tokens, part by part. */
  lemma UpperParts(o: Ordering)
    ensures UpperEach(TokensOf(o)) == [Upper(o.column)] + (UpperOp(o) + UpperDirection(o) + UpperNulls(o))
  {
    hide Upper, UpperEach, OpTokens, DirTokens, NullsTokens, UpperOp, UpperDirection, UpperNulls;
    UpperOfFour(o.column, OpTokens(o), DirTokens(o), NullsTokens(o));
    UpperOpPart(o);
    UpperDirectionPart(o);
    UpperNullsPart(o);
  }

  lemma UpperEachOne(t: string)
    ensures UpperEach([t]) == [Upper(t)]
  {
    hide Upper;
    assert [t][1..] == [];
  }

  lemma UpperEachTwo(t: string, u: string)
    ensures UpperEach([t, u]) == [Upper(t), Upper(u)]
  {
    hide Upper;
    assert [t, u][1..] == [u];
    UpperEachOne(u);
  }

  predicate FirstDiffers(key: string, t: string) {
    key != "" && t != "" && key[0] != t[0]
  }

  lemma StartsNothingElse(key: string, x: string, t: string)
    requires FirstDiffers(key, x)
    ensures AnyStarts([x, t], key) <==> key <= t
    ensures !AnyStarts([x], key)
  {
    NotPrefix(key, x, 0);
    assert [x, t][1] == t && [x, t][0] == x && [x][0] == x;
  }

  lemma SelfStarts(key: string)
    ensures AnyStarts([key], key)
  {
    assert [key][0] == key;
  }

  lemma KeywordsDiffer()
    ensures FirstDiffers("DESC", "ASC") && FirstDiffers("ASC", "DESC")
    ensures FirstDiffers("FIRST", "LAST") && FirstDiffers("LAST", "FIRST")
    ensures FirstDiffers("DESC", "NULLS") && FirstDiffers("ASC", "NULLS")
    ensures FirstDiffers("FIRST", "NULLS") && FirstDiffers("LAST", "NULLS")
    ensures FirstDiffers("DESC", "FIRST") && FirstDiffers("ASC", "FIRST")
    ensures FirstDiffers("DESC", "LAST") && FirstDiffers("ASC", "LAST")
    ensures FirstDiffers("FIRST", "DESC") && FirstDiffers("FIRST", "ASC")
    ensures FirstDiffers("LAST", "DESC") && FirstDiffers("LAST", "ASC")
  {
  }

  lemma NeverIn(key: string, x: string)
    requires FirstDiffers(key, x)
    ensures !(key <= x)
  {
    NotPrefix(key, x, 0);
  }

  lemma OpStartsWhere(o: Ordering, key: string)
    requires ValidOrdering(o) && (key == "DESC" || key == "ASC" || key == "FIRST" || key == "LAST")
    ensures !AnyStarts(UpperOp(o), key)
  {
    if o.op != "" {
      OpStartsNothing(o.op);
    }
    hide Upper, StartsWithOrderingKeyword, Name, UpperFree;
  }

  lemma DirectionStartsWhere(o: Ordering, key: string)
    requires key == "DESC" || key == "ASC" || key == "FIRST" || key == "LAST"
    ensures AnyStarts(UpperDirection(o), key) <==> o.dir == key && (key == "DESC" || key == "ASC")
  {
    KeywordsDiffer();
    hide AnyStarts, FirstDiffers;
    assert !AnyStarts([], key) by { NothingStarts(key); }
    SelfStarts(key);
    if key != "DESC" { StartsNothingElse(key, "DESC", ""); }
    if key != "ASC" { StartsNothingElse(key, "ASC", ""); }
  }

  lemma NothingStarts(key: string)
    ensures !AnyStarts([], key)
  {
  }

  lemma NullsStartWhere(o: Ordering, key: string)
    requires key == "DESC" || key == "ASC" || key == "FIRST" || key == "LAST"
    ensures AnyStarts(UpperNulls(o), key) <==> o.nulls == key && (key == "FIRST" || key == "LAST")
  {
    KeywordsDiffer();
    hide AnyStarts, FirstDiffers;
    NothingStarts(key);
    StartsNothingElse(key, "NULLS", "FIRST");
    StartsNothingElse(key, "NULLS", "LAST");
    if key != "FIRST" { NeverIn(key, "FIRST"); }
    if key != "LAST" { NeverIn(key, "LAST"); }
  }

  /** The upper-cased tokens behind the column. */
  function UpperRest(o: Ordering): seq<string> {
    UpperOp(o) + UpperDirection(o) + UpperNulls(o)
  }

  /** The upper-cased element is its upper-cased tokens, joined. */
  lemma UpperElement(o: Ordering)
    requires ValidOrdering(o)
    ensures var up := [Upper(o.column)] + UpperRest(o); Tokens(up) && Upper(Join(TokensOf(o), " ")) == Join(up, " ")
  {
    hide Upper, Join, Tokens, TokensOf, ValidOrdering, UpperEach, UpperOp, UpperDirection, UpperNulls;
    TokensAreTokens(o);
    UpperJoin(TokensOf(o));
    UpperTokens(TokensOf(o));
    UpperParts(o);
  }

  lemma MentionsKey(o: Ordering, key: string)
    requires ValidOrdering(o) && (key == "DESC" || key == "ASC")
    ensures Contains(Upper(Join(TokensOf(o), " ")), " " + key) <==> o.dir == key
  {
    KeywordTokens();
    hide Contains, Upper, Join, Token, Tokens, TokensOf, UpperRest, ValidOrdering, StartsLater, AnyStarts;
    UpperElement(o);
    BlankThenKey([Upper(o.column)] + UpperRest(o), key);
    StartsLaterTail(Upper(o.column), UpperRest(o), key);
    DirectionKeyWhere(o, key);
  }

  lemma DirectionKeyWhere(o: Ordering, key: string)
    requires ValidOrdering(o) && (key == "DESC" || key == "ASC")
    ensures AnyStarts(UpperRest(o), key) <==> o.dir == key
  {
    var a, b, c := UpperOp(o), UpperDirection(o), UpperNulls(o);
    hide UpperOp, UpperDirection, UpperNulls, ValidOrdering, AnyStarts;
    AnyStartsConcat(a + b, c, key);
    AnyStartsConcat(a, b, key);
    OpStartsWhere(o, key);
    DirectionStartsWhere(o, key);
    NullsStartWhere(o, key);
  }

  /** The key starts a token behind the column exactly if it is the nulls order. */
  lemma NullsKeyWhere(o: Ordering, key: string)
    requires ValidOrdering(o) && (key == "FIRST" || key == "LAST")
    ensures AnyStarts(UpperRest(o), key) <==> o.nulls == key
  {
    var a, b, c := UpperOp(o), UpperDirection(o), UpperNulls(o);
    hide UpperOp, UpperDirection, UpperNulls, ValidOrdering, AnyStarts;
    AnyStartsConcat(a + b, c, key);
    AnyStartsConcat(a, b, key);
    OpStartsWhere(o, key);
    DirectionStartsWhere(o, key);
    NullsStartWhere(o, key);
  }

  lemma UpperNullsAre(o: Ordering, key: string)
    requires o.nulls == key && (key == "FIRST" || key == "LAST")
    ensures UpperNulls(o) == ["NULLS", key]
  {
  }

  lemma MentionsNulls(o: Ordering, key: string)
    requires ValidOrdering(o) && (key == "FIRST" || key == "LAST")
    ensures Contains(Upper(Join(TokensOf(o), " ")), "NULLS" + " " + key) <==> o.nulls == key
  {
    KeywordTokens();
    hide Contains, Upper, Join, Token, Tokens, TokensOf, UpperRest, ValidOrdering, AnyStarts, Adjacent;
    var up := [Upper(o.column)] + UpperRest(o);
    UpperElement(o);
    TwoKeys(up, "NULLS", key);
    NullsKeyWhere(o, key);
    if Adjacent(up, "NULLS", key) {
      AdjacentStarts(up, Upper(o.column), UpperRest(o), "NULLS", key);
    }
    if o.nulls == key {
      NullsAtEnd(o, key);
    }
  }

  lemma NullsAtEnd(o: Ordering, key: string)
    requires o.nulls == key && (key == "FIRST" || key == "LAST")
    ensures Adjacent([Upper(o.column)] + UpperRest(o), "NULLS", key)
  {
    hide Upper, UpperOp, UpperDirection, UpperNulls, Adjacent;
    var front := [Upper(o.column)] + UpperOp(o) + UpperDirection(o);
    UpperNullsAre(o, key);
    AdjacentAtEnd(front, UpperNulls(o), "NULLS", key);
    assert [Upper(o.column)] + UpperRest(o) == front + UpperNulls(o);
  }

  lemma AdjacentStarts(up: seq<string>, t: string, rest: seq<string>, x: string, key: string)
    requires up == [t] + rest && Adjacent(up, x, key)
    ensures AnyStarts(rest, key)
  {
    hide HasSuffix;
    var j :| 0 <= j < |up| - 1 && HasSuffix(up[j], x) && key <= up[j + 1];
    assert key <= rest[j];
  }

  lemma AdjacentAtEnd(front: seq<string>, c: seq<string>, x: string, key: string)
    requires c == [x, key]
    ensures Adjacent(front + c, x, key)
  {
    var s := front + c;
    var n := |front|;
    assert x[0..] == x;
    assert HasSuffix(s[n], x) && key <= s[n + 1];
  }

  // ----- reading one element ---------------------------------------------------------------

  lemma OpClassReadsBack(o: Ordering)
    requires ValidOrdering(o)
    ensures OpClassOf(TokensOf(o)[1..]) == o.op
  {
    var x, y, z := OpTokens(o), DirTokens(o), NullsTokens(o);
    TailOfFour(o.column, x, y, z);
    KeywordTokensOnly(o);
    assert o.op != "" ==> x == [o.op];
    assert o.op == "" ==> x == [];
    hide Lower, TokensOf, OpTokens, DirTokens, NullsTokens, OpClassOf, Name;
    if o.op != "" {
      OpIsNoKeyword(o.op);
      FirstIsOpClass(o.op, y + z);
      assert x + y + z == [o.op] + (y + z);
    } else {
      assert x + y + z == y + z;
      KeywordsOnly(y + z);
    }
  }

  lemma TailOfFour(c: string, x: seq<string>, y: seq<string>, z: seq<string>)
    ensures ([c] + x + y + z)[1..] == x + y + z
  {
  }

  lemma OpIsNoKeyword(op: string)
    requires UpperFree(op) && !StartsWithOrderingKeyword(op)
    ensures Lower(op) == op && !OrderingKeyword(op)
  {
    LowerIdentity(op);
    hide Lower;
  }

  lemma FirstIsOpClass(op: string, rest: seq<string>)
    requires Lower(op) == op && !OrderingKeyword(op)
    ensures OpClassOf([op] + rest) == op
  {
    hide Lower, OrderingKeyword;
    assert ([op] + rest)[0] == op;
  }

  ghost predicate KeywordsAll(ts: seq<string>) {
    forall i :: 0 <= i < |ts| ==> OrderingKeyword(Lower(ts[i]))
  }

  lemma KeywordsConcat(x: seq<string>, y: seq<string>)
    requires KeywordsAll(x) && KeywordsAll(y)
    ensures KeywordsAll(x + y)
  {
    hide Lower, OrderingKeyword;
  }

  lemma DirectionKeywords(o: Ordering)
    ensures KeywordsAll(DirTokens(o))
  {
    LowerKeyword("asc");
    LowerKeyword("desc");
    hide Lower, OrderingKeyword;
  }

  lemma NullsKeywords(o: Ordering)
    ensures KeywordsAll(NullsTokens(o))
  {
    LowerKeyword("nulls");
    LowerKeyword("first");
    LowerKeyword("last");
    hide Lower, OrderingKeyword;
  }

  lemma KeywordTokensOnly(o: Ordering)
    ensures KeywordsAll(DirTokens(o) + NullsTokens(o))
  {
    hide KeywordsAll, DirTokens, NullsTokens;
    DirectionKeywords(o);
    NullsKeywords(o);
    KeywordsConcat(DirTokens(o), NullsTokens(o));
  }

  lemma LowerKeyword(k: string)
    requires OrderingKeyword(k)
    ensures OrderingKeyword(Lower(k))
  {
    LowerIdentity(k);
    hide Lower;
  }

  lemma {:induction false} KeywordsOnly(ts: seq<string>)
    requires KeywordsAll(ts)
    ensures OpClassOf(ts) == ""
  {
    hide Lower, OrderingKeyword;
    if ts != [] {
      KeywordsOnly(ts[1..]);
    }
  }

  lemma SortReadsBack(o: Ordering)
    requires ValidOrdering(o)
    ensures SortOf(Upper(Join(TokensOf(o), " "))) == o.dir
  {
    assert o.dir == "" || o.dir == "ASC" || o.dir == "DESC";
    hide Contains, Upper, Join, TokensOf, ValidOrdering;
    MentionsKey(o, "DESC");
    MentionsKey(o, "ASC");
    assert " " + "DESC" == " DESC" && " " + "ASC" == " ASC";
  }

  lemma NullsReadBack(o: Ordering)
    requires ValidOrdering(o)
    ensures NullsOf(Upper(Join(TokensOf(o), " "))) == o.nulls
  {
    assert o.nulls == "" || o.nulls == "FIRST" || o.nulls == "LAST";
    hide Contains, Upper, Join, TokensOf, ValidOrdering;
    MentionsNulls(o, "FIRST");
    MentionsNulls(o, "LAST");
    assert "NULLS" + " " + "FIRST" == "NULLS FIRST" && "NULLS" + " " + "LAST" == "NULLS LAST";
  }

  lemma FirstToken(o: Ordering)
    ensures TokensOf(o) != [] && TokensOf(o)[0] == o.column
  {
    hide OpTokens, DirTokens, NullsTokens;
  }

  lemma OrderingReadsBack(o: Ordering)
    requires ValidOrdering(o)
    ensures SortedColumnOf(Join(TokensOf(o), " ")) == IndexColumn(o.column, o.op, o.dir, o.nulls)
  {
    hide SortOf, NullsOf, Upper, Join, Tokens, TokensOf, OpClassOf, Fields, ValidOrdering;
    TokensAreTokens(o);
    OpClassReadsBack(o);
    SortReadsBack(o);
    NullsReadBack(o);
    FirstToken(o);
    FieldsOfTokens(TokensOf(o));
  }

  lemma OpNormal(s: string)
    requires var op := Lower(Trim(s)); op == "" || Name(op)
    ensures var op := Lower(Trim(s)); Lower(Trim(op)) == op
  {
    var op := Lower(Trim(s));
    LowerUpperFree(Trim(s));
    hide Lower;
    LowerIdentity(op);
    TrimIdentity(op);
    hide Trim;
  }

  lemma KeywordNormal(k: string)
    requires k == "" || k == "ASC" || k == "DESC" || k == "FIRST" || k == "LAST"
    ensures Upper(Trim(k)) == k
  {
    UpperKeywordsFixed();
    hide Upper;
    TrimIdentity(k);
    hide Trim;
  }

  lemma NormalFormsAreEqual(sc: IndexColumn)
    requires ValidColumn(sc)
    ensures var o := OrderingOf(sc); SortedColumnEqual(IndexColumn(o.column, o.op, o.dir, o.nulls), sc)
  {
    var o := OrderingOf(sc);
    hide Trim, Lower, Upper, Name, StartsWithOrderingKeyword;
    OpNormal(sc.opClass);
    KeywordNormal(o.dir);
    KeywordNormal(o.nulls);
  }

  lemma UpperKeywordsFixed()
    ensures Upper("") == "" && Upper("ASC") == "ASC" && Upper("DESC") == "DESC"
    ensures Upper("FIRST") == "FIRST" && Upper("LAST") == "LAST"
  {
    UpperIs("ASC", "ASC");
    UpperIs("DESC", "DESC");
    UpperIs("FIRST", "FIRST");
    UpperIs("LAST", "LAST");
  }

  /** A printed sorted column reads back as one that compares equal to its specification. */
  lemma SortedColumnReadsBack(sc: IndexColumn)
    requires ValidColumn(sc)
    ensures SortedColumnEqual(SortedColumnOf(SortedElement(sc)), sc)
  {
    hide SortedColumnOf, SortedElement, SortedColumnEqual, Join, TokensOf, ValidOrdering, ValidColumn, OrderingOf;
    ElementIsTokens(sc);
    OrderingIsValid(sc);
    OrderingReadsBack(OrderingOf(sc));
    NormalFormsAreEqual(sc);
  }
}
