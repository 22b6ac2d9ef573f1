/** Reading a whole `create index` statement back: uniqueness, name, table, method, elements, options and predicate. */
module IndexText {
  import opened Text
  import opened Parens
  import opened ElementLists
  import opened IndexElements

  datatype Parts = Parts(
    isUnique: bool, name: string, table: string, method_: string, elements: seq<string>, options: seq<string>, where_: string)

  /** The text in front of the first blank, and the text behind it. */
  function FirstWord(s: string): (string, string) {
    var k := IndexOfChar(s, ' ');
    if k < 0 then (s, "") else (s[..k], s[k + 1..])
  }

  function ListOf(s: string): seq<string> {
    if s == "" then [] else TrimEach(SplitTop(s))
  }

  const USING := "using \""
  const WITH := " with "
  const WHERE := " where "

  /** The method, if one is given, and the text behind it. */
  function ReadMethod(s: string): (string, string) {
    if !(USING <= s) then ("", s) else
    var r := s[|USING|..];
    var k := IndexOfChar(r, '"');
    if k < 0 then ("", s) else (r[..k], r[k + 1..])
  }

  /** The options, if any, and the text behind them. */
  function ReadOptions(s: string): (seq<string>, string) {
    if !(WITH + "(" <= s) then ([], s) else
    var list := ElementList(s);
    var end := |WITH| + |list| + 2;
    if end > |s| then ([], s) else (ListOf(list), s[end..])
  }

  function ReadWhere(s: string): string {
    if WHERE <= s then s[|WHERE|..] else ""
  }

  function ReadElements(isUnique: bool, name: string, table: string, method_: string, s: string): Parts {
    var open := IndexOfChar(s, '(');
    var list := ElementList(s);
    var end := open + |list| + 2;
    if open < 0 || end > |s| then Parts(isUnique, name, table, method_, [], [], "") else
    var tail := ReadOptions(s[end..]);
    Parts(isUnique, name, table, method_, ListOf(list), tail.0, ReadWhere(tail.1))
  }

  /** `name on table [using "m"] (elements) ...` */
  function ReadNamed(isUnique: bool, s: string): Parts {
    var name := FirstWord(s);
    var on := FirstWord(name.1);
    var table := FirstWord(on.1);
    var using := ReadMethod(table.1);
    ReadElements(isUnique, name.0, table.0, using.0, using.1)
  }

  function ReadIndex(text: string): Parts {
    var create := FirstWord(text);
    var next := FirstWord(create.1);
    if next.0 == "unique" then ReadNamed(true, FirstWord(next.1).1) else ReadNamed(false, next.1)
  }

  // ----- reading the tail ------------------------------------------------------------------------------

  lemma WordOf(a: string, b: string)
    requires ' ' !in a
    ensures FirstWord(a + " " + b) == (a, b)
  {
    var s := a + " " + b;
    IndexOfCharIs(s, ' ', |a|);
    assert s[..|a|] == a && s[|a| + 1..] == b;
  }

  /** Elements that a printed list keeps apart. */
  ghost predicate Listable(es: seq<string>) {
    forall i :: 0 <= i < |es| ==> Element(es[i]) && Trimmed(es[i]) && es[i] != ""
  }

  lemma ListReadsBack(es: seq<string>)
    requires Listable(es)
    ensures Balanced(Join(es, ", ")) && ListOf(Join(es, ", ")) == es
  {
    if es != [] {
      assert es[0] != "" && Join(es, ", ") != "";
      hide Join, SplitTop, TrimEach;
      PrintedListSplits(es);
      JoinBalanced(es);
    }
  }

  lemma GroupAt(prefix: string, list: string, tail: string)
    requires '(' !in prefix && Balanced(list)
    ensures var s := prefix + "(" + list + ")" + tail;
      IndexOfChar(s, '(') == |prefix| && ElementList(s) == list && |prefix| + |list| + 2 <= |s| && s[|prefix| + |list| + 2..] == tail
  {
    ElementListOf(prefix, list, tail);
    IndexOfCharIs(prefix + "(" + list + ")" + tail, '(', |prefix|);
  }

  lemma WhereReadsBack(pred: string)
    ensures ReadWhere(if pred == "" then "" else WHERE + pred) == pred
    ensures var s := if pred == "" then "" else WHERE + pred; !(WITH + "(" <= s)
  {
    if pred != "" {
      assert (WHERE + pred)[|WHERE|..] == pred && (WHERE + pred)[2] == 'h' && (WITH + "(")[2] == 'i';
    }
  }

  lemma OptionsReadBack(es: seq<string>, back: string)
    requires es != [] && Listable(es)
    ensures ReadOptions(WITH + "(" + Join(es, ", ") + ")" + back) == (es, back)
  {
    hide ListOf, ElementList, Join, Listable;
    ListReadsBack(es);
    var list := Join(es, ", ");
    var s := WITH + "(" + list + ")" + back;
    assert s[..|WITH| + 1] == WITH + "(";
    GroupAt(WITH, list, back);
  }

  lemma TailIs(ix: IndexSpec)
    ensures var pred := Trim(ix.where_); var back := if pred == "" then "" else WHERE + pred;
      IndexTail(ix) == if ix.withOptions == [] then back else WITH + "(" + Join(WithTexts(ix.withOptions), ", ") + ")" + back
    ensures ix.withOptions == [] <==> WithTexts(ix.withOptions) == []
  {
    hide Join, Trim;
    var back := if Trim(ix.where_) == "" then "" else WHERE + Trim(ix.where_);
    assert "" + back == back;
  }

  lemma TailReadsBack(ix: IndexSpec)
    requires Listable(WithTexts(ix.withOptions))
    ensures var r := ReadOptions(IndexTail(ix)); r.0 == WithTexts(ix.withOptions) && ReadWhere(r.1) == Trim(ix.where_)
  {
    var pred := Trim(ix.where_);
    var back := if pred == "" then "" else WHERE + pred;
    WhereReadsBack(pred);
    assert ix.withOptions == [] ==> ReadOptions(back) == ([], back);
    hide ReadOptions, ReadWhere, WithTexts, Join, Trim, IndexTail, Listable;
    TailIs(ix);
    if ix.withOptions != [] {
      OptionsReadBack(WithTexts(ix.withOptions), back);
    }
  }

  // ----- the whole statement ----------------------------------------------------------------------------

  /** The method as it is written: none for the default. */
  function WrittenMethod(m: string): string {
    var l := Lower(Trim(m));
    if l == "btree" then "" else l
  }

  /** Names without blanks, a method without quotes, and elements and options that a list keeps apart. */
  ghost predicate Plain(table: string, ix: IndexSpec) {
    && ' ' !in ix.name && ' ' !in table && '"' !in ix.method_
    && Listable(BuildIndexElements(ix)) && Listable(WithTexts(ix.withOptions))
  }

  lemma LowerKeepsOut(s: string, c: char)
    requires c !in s && !('a' <= c <= 'z')
    ensures c !in Lower(s)
  {
    forall i | 0 <= i < |s| ensures Lower(s)[i] != c {
      LowerAt(s, i);
    }
  }

  lemma WrittenHasNoQuote(m: string)
    requires '"' !in m
    ensures '"' !in WrittenMethod(m)
  {
    var a, b := TrimSplit(m);
    hide Trim, Lower;
    assert forall i :: 0 <= i < |Trim(m)| ==> Trim(m)[i] == m[|a| + i];
    LowerKeepsOut(Trim(m), '"');
  }

  lemma MethodOf(m: string, rest: string)
    requires '"' !in m && m != ""
    ensures ReadMethod(USING + m + "\" " + rest) == (m, " " + rest)
  {
    var s := USING + m + "\" " + rest;
    var r := m + ("\" " + rest);
    assert s == USING + r && s[|USING|..] == r && s[..|USING|] == USING;
    IndexOfCharIs(r, '"', |m|);
    hide IndexOfChar;
    assert r[..|m|] == m && r[|m| + 1..] == " " + rest;
  }

  lemma MethodReadsBack(ix: IndexSpec, rest: string)
    requires '"' !in ix.method_ && rest != "" && rest[0] == '('
    ensures var m := WrittenMethod(ix.method_);
      ReadMethod(if m == "" then rest else USING + m + "\" " + rest) == if m == "" then ("", rest) else (m, " " + rest)
  {
    assert USING[0] == 'u' && !(USING <= rest);
    WrittenHasNoQuote(ix.method_);
    hide WrittenMethod;
    if WrittenMethod(ix.method_) != "" {
      MethodOf(WrittenMethod(ix.method_), rest);
    }
  }

  lemma ElementsReadBack(table: string, ix: IndexSpec, lead: string)
    requires Listable(BuildIndexElements(ix)) && Listable(WithTexts(ix.withOptions)) && '(' !in lead
    ensures var s := lead + "(" + Join(BuildIndexElements(ix), ", ") + ")" + IndexTail(ix); var m := WrittenMethod(ix.method_);
      ReadElements(ix.isUnique, ix.name, table, m, s) ==
        Parts(ix.isUnique, ix.name, table, m, BuildIndexElements(ix), WithTexts(ix.withOptions), Trim(ix.where_))
  {
    hide WrittenMethod, BuildIndexElements, IndexTail, ListOf, ReadOptions, ReadWhere, WithTexts, Join, Trim, ElementList;
    ListReadsBack(BuildIndexElements(ix));
    TailReadsBack(ix);
    GroupAt(lead, Join(BuildIndexElements(ix), ", "), IndexTail(ix));
  }

  lemma BehindTable(table: string, m: string, body: string)
    ensures " on " + table + (if m != "" then " using " + "\"" + m + "\"" else "") + " " + body ==
      " " + ("on" + " " + (table + " " + (if m == "" then body else USING + m + "\" " + body)))
  {
    assert " on " == " " + "on" + " ";
    if m != "" {
      assert " using " + "\"" == " " + USING;
    }
  }

  lemma UpToName(isUnique: bool, name: string, rest: string)
    ensures "create " + (if isUnique then "unique " else "") + "index " + name + (" " + rest) ==
      "create" + " " + (if isUnique then "unique" + " " + ("index" + " " + (name + " " + rest)) else "index" + " " + (name + " " + rest))
  {
    assert "create " == "create" + " " && "unique " == "unique" + " " && "index " == "index" + " ";
  }

  lemma SixParts(a: string, b: string, c: string, d: string, e: string, body: string)
    ensures a + b + c + d + e + body == a + (b + c + d + e + body)
  {
  }

  /** The head word by word. */
  lemma StatementIs(table: string, ix: IndexSpec)
    ensures var body := "(" + Join(BuildIndexElements(ix), ", ") + ")" + IndexTail(ix); var m := WrittenMethod(ix.method_);
      var named := ix.name + " " + ("on" + " " + (table + " " + (if m == "" then body else USING + m + "\" " + body)));
      AddIndexStatement(table, ix) ==
        "create" + " " + (if ix.isUnique then "unique" + " " + ("index" + " " + named) else "index" + " " + named)
  {
    var l, m := Lower(Trim(ix.method_)), WrittenMethod(ix.method_);
    var list, tail := Join(BuildIndexElements(ix), ", "), IndexTail(ix);
    var body := "(" + list + ")" + tail;
    var using := if l != "" && l != "btree" then " using " + "\"" + l + "\"" else "";
    assert using == if m != "" then " using " + "\"" + m + "\"" else "";
    var front := "create " + (if ix.isUnique then "unique " else "") + "index " + ix.name;
    assert IndexHead(table, ix) == front + " on " + table + using + " ";
    assert AddIndexStatement(table, ix) == IndexHead(table, ix) + body;
    hide *;
    SixParts(front, " on ", table, using, " ", body);
    BehindTable(table, m, body);
    UpToName(ix.isUnique, ix.name, "on" + " " + (table + " " + (if m == "" then body else USING + m + "\" " + body)));
  }

  lemma NamedReadsBack(isUnique: bool, name: string, table: string, rest: string)
    requires ' ' !in name && ' ' !in table
    ensures ReadNamed(isUnique, name + " " + ("on" + " " + (table + " " + rest))) ==
      var using := ReadMethod(rest); ReadElements(isUnique, name, table, using.0, using.1)
  {
    hide FirstWord, ReadMethod, ReadElements;
    WordOf(name, "on" + " " + (table + " " + rest));
    WordOf("on", table + " " + rest);
    WordOf(table, rest);
  }

  lemma UniqueReadsBack(isUnique: bool, named: string)
    ensures ReadIndex("create" + " " + (if isUnique then "unique" + " " + ("index" + " " + named) else "index" + " " + named)) ==
      ReadNamed(isUnique, named)
  {
    hide FirstWord, ReadNamed;
    WordOf("create", if isUnique then "unique" + " " + ("index" + " " + named) else "index" + " " + named);
    WordOf("unique", "index" + " " + named);
    WordOf("index", named);
    assert |"index"| != |"unique"|;
  }

  /** Every `create index` statement reads back as what it was printed from. */
  lemma IndexReadsBack(table: string, ix: IndexSpec)
    requires Plain(table, ix)
    ensures ReadIndex(AddIndexStatement(table, ix)) ==
      Parts(ix.isUnique, ix.name, table, WrittenMethod(ix.method_), BuildIndexElements(ix), WithTexts(ix.withOptions), Trim(ix.where_))
  {
    hide *;
    StatementIs(table, ix);
    var body := "(" + Join(BuildIndexElements(ix), ", ") + ")" + IndexTail(ix);
    var m := WrittenMethod(ix.method_);
    var rest := if m == "" then body else USING + m + "\" " + body;
    var named := ix.name + " " + ("on" + " " + (table + " " + rest));
    PlainMeans(table, ix);
    UniqueReadsBack(ix.isUnique, named);
    NamedReadsBack(ix.isUnique, ix.name, table, rest);
    MethodReadsBack(ix, body);
    ElementsReadBack(table, ix, if m == "" then "" else " ");
    BodyIs(Join(BuildIndexElements(ix), ", "), IndexTail(ix));
  }

  lemma PlainMeans(table: string, ix: IndexSpec)
    requires Plain(table, ix)
    ensures ' ' !in ix.name && ' ' !in table && '"' !in ix.method_
    ensures Listable(BuildIndexElements(ix)) && Listable(WithTexts(ix.withOptions))
  {
  }

  lemma BodyIs(list: string, tail: string)
    ensures var body := "(" + list + ")" + tail;
      body[0] == '(' && "" + "(" + list + ")" + tail == body && " " + "(" + list + ")" + tail == " " + body
  {
  }
}
