/** A whole printed index reads back as element lists equal to its specification. */
module IndexListLaws {
  import opened Text
  import opened Parens
  import opened Canonical
  import opened ElementLists
  import opened Comparators
  import opened IndexElements
  import opened IndexRoundTrip
  import opened WrapLaws
  import opened CanonicalLaws

  // ----- element texts -------------------------------------------------------------------

  predicate PlainChar(c: char) {
    c != ',' && c != '(' && c != ')'
  }

  ghost predicate PlainText(e: string) {
    forall i :: 0 <= i < |e| ==> PlainChar(e[i])
  }

  lemma {:induction false} PlainIsElement(e: string)
    requires PlainText(e)
    ensures Balanced(e) && SplitTop(e) == [e]
  {
    if e != [] {
      assert PlainChar(e[0]);
      PlainIsElement(e[1..]);
      assert [e[0]] + e[1..] == e;
      assert [e[1..]][1..] == [];
    }
  }

  lemma {:induction false} JoinPlain(ts: seq<string>)
    requires forall i :: 0 <= i < |ts| ==> PlainText(ts[i])
    ensures PlainText(Join(ts, " "))
    decreases |ts|
  {
    if |ts| > 1 {
      JoinPlain(ts[1..]);
    }
  }

  lemma {:induction false} JoinEnds(ts: seq<string>)
    requires ts != [] && Tokens(ts)
    ensures Join(ts, " ") != "" && Trimmed(Join(ts, " "))
    ensures ' ' in Join(ts, " ") <==> |ts| > 1
    ensures '\t' !in Join(ts, " ")
    decreases |ts|
  {
    if |ts| == 1 {
      assert Token(ts[0]);
    } else {
      JoinEnds(ts[1..]);
      var s := Join(ts, " ");
      assert Token(ts[0]);
      assert s == ts[0] + " " + Join(ts[1..], " ");
      assert s[|ts[0]|] == ' ';
    }
  }

  lemma KeywordsArePlain()
    ensures PlainText("asc") && PlainText("desc") && PlainText("nulls") && PlainText("first") && PlainText("last")
  {
  }

  lemma NameIsPlain(t: string)
    requires Name(t)
    ensures PlainText(t)
  {
  }

  lemma TokensArePlain(o: Ordering)
    requires ValidOrdering(o)
    ensures forall i :: 0 <= i < |TokensOf(o)| ==> PlainText(TokensOf(o)[i])
  {
    KeywordsArePlain();
    hide StartsWithOrderingKeyword, UpperFree, PlainText, Name;
    NameIsPlain(o.column);
    if o.op != "" {
      NameIsPlain(o.op);
    }
  }

  /** The column carries an operator class, a direction or a nulls order. */
  predicate Ordered(sc: IndexColumn) {
    var o := OrderingOf(sc);
    o.op != "" || o.dir != "" || o.nulls != ""
  }

  lemma SortedElementText(sc: IndexColumn)
    requires ValidColumn(sc)
    ensures var e := SortedElement(sc);
      Element(e) && Trimmed(e) && !IsExpression(e) && (HasBlank(e) <==> Ordered(sc))
  {
    var o := OrderingOf(sc);
    hide SortedElement, Trimmed, SplitTop, Balanced, Join, ValidColumn, ValidOrdering, OrderingOf, Tokens, TokensOf, PlainText;
    OrderingIsValid(sc);
    ElementIsTokens(sc);
    TokensAreTokens(o);
    TokensArePlain(o);
    TokenCount(o);
    JoinPlain(TokensOf(o));
    JoinEnds(TokensOf(o));
    var e := SortedElement(sc);
    PlainIsElement(e);
    PlainHasNoParen(e);
  }

  lemma PlainHasNoParen(e: string)
    requires PlainText(e)
    ensures '(' !in e
  {
    assert forall i :: 0 <= i < |e| ==> PlainChar(e[i]) && e[i] != '(';
  }

  lemma TokenCount(o: Ordering)
    requires ValidOrdering(o)
    ensures TokensOf(o) != []
    ensures |TokensOf(o)| > 1 <==> o.op != "" || o.dir != "" || o.nulls != ""
  {
    hide StartsWithOrderingKeyword, UpperFree, Name;
  }

  // ----- lists of sorted columns ------------------------------------------------------------

  lemma {:induction false} SortedElementsAt(scs: seq<IndexColumn>, i: nat)
    requires i < |scs|
    ensures |SortedElements(scs)| == |scs| && SortedElements(scs)[i] == SortedElement(scs[i])
  {
    hide SortedElement;
    if |scs| > 1 {
      SortedElementsAt(scs[1..], if i == 0 then 0 else i - 1);
    } else {
      assert scs[1..] == [];
    }
  }

  lemma SortedElementTexts(scs: seq<IndexColumn>)
    requires scs != [] && forall i :: 0 <= i < |scs| ==> ValidColumn(scs[i])
    ensures var es := SortedElements(scs);
      && |es| == |scs|
      && forall i :: 0 <= i < |es| ==> Element(es[i]) && Trimmed(es[i]) && !IsExpression(es[i])
    ensures Rich(SortedElements(scs)) <==> exists i :: 0 <= i < |scs| && Ordered(scs[i])
  {
    hide SortedElements, SortedElement, Element, Trimmed, IsExpression, HasBlank, Ordered, ValidColumn;
    var es := SortedElements(scs);
    SortedElementsAt(scs, 0);
    forall i | 0 <= i < |scs|
      ensures Element(es[i]) && Trimmed(es[i]) && !IsExpression(es[i])
      ensures HasBlank(es[i]) <==> Ordered(scs[i])
    {
      SortedElementsAt(scs, i);
      SortedElementText(scs[i]);
    }
  }

  lemma {:induction false} PlainColumnsOf(scs: seq<IndexColumn>)
    requires forall i :: 0 <= i < |scs| ==> ValidColumn(scs[i])
    ensures ExpressionsOf(SortedElements(scs)) == []
    ensures SortedColumnsEqual(PlainColumns(SortedElements(scs)), scs)
  {
    hide SortedElement, ValidColumn, SortedColumnEqual, IsExpression, SortedColumnOf, Element;
    if scs != [] {
      PlainColumnsOf(scs[1..]);
      SortedElementText(scs[0]);
      SortedColumnReadsBack(scs[0]);
      var es := SortedElements(scs);
      assert es[0] == SortedElement(scs[0]) && es[1..] == SortedElements(scs[1..]);
      var cs, cs' := PlainColumns(es), PlainColumns(es[1..]);
      assert cs == [SortedColumnOf(es[0])] + cs';
      forall i | 0 <= i < |cs| ensures SortedColumnEqual(cs[i], scs[i]) {
        if i > 0 {
          assert cs[i] == cs'[i - 1] && scs[i] == scs[1..][i - 1];
        }
      }
    }
  }

  /** What the reader makes of a printed list that splits back. */
  lemma PrintedListParses(head: string, es: seq<string>, tail: string)
    requires '(' !in head
    requires es != [] && forall i :: 0 <= i < |es| ==> Element(es[i]) && Trimmed(es[i])
    ensures Join(es, ", ") == "" ==> es == [""]
    ensures Join(es, ", ") != "" ==> ParsedElements(head + "(" + Join(es, ", ") + ")" + tail) == ElementsOf(es)
  {
    hide Trimmed, SplitTop, TrimEach, ElementsOf, BalancedFrom, ElementList;
    forall i | 0 <= i < |es| ensures Balanced(es[i]) {
      assert Element(es[i]);
    }
    JoinBalanced(es);
    ElementListOf(head, Join(es, ", "), tail);
    PrintedListSplits(es);
  }

  lemma {:induction false} OpenFree(s: string)
    requires '(' !in s
    ensures '(' !in Lower(Trim(s))
  {
    var a, b := TrimSplit(s);
    var t := Trim(s);
    hide Lower, Trim;
    forall i | 0 <= i < |t| ensures Lower(t)[i] != '(' {
      LowerAt(t, i);
      assert s[|a| + i] == t[i];
    }
  }

  lemma HeadHasNoParen(table: string, ix: IndexSpec)
    requires '(' !in table && '(' !in ix.name && '(' !in ix.method_
    ensures '(' !in IndexHead(table, ix)
  {
    hide Lower, Trim;
    OpenFree(ix.method_);
  }

  /** Names in front of the element list hold no parenthesis. */
  predicate PlainHead(table: string, ix: IndexSpec) {
    '(' !in table && '(' !in ix.name && '(' !in ix.method_
  }

  /** An index over sorted columns reads back equal exactly if one of them is ordered. */
  lemma SortedIndexReadsBackIff(table: string, ix: IndexSpec)
    requires PlainHead(table, ix) && ix.columns == [] && ix.expressions == []
    requires ix.sortedColumns != [] && forall i :: 0 <= i < |ix.sortedColumns| ==> ValidColumn(ix.sortedColumns[i])
    ensures var (sorted, expressions) := ParsedElements(AddIndexStatement(table, ix));
      expressions == [] &&
      (SortedColumnsEqual(sorted, ix.sortedColumns) <==> exists i :: 0 <= i < |ix.sortedColumns| && Ordered(ix.sortedColumns[i]))
  {
    var scs := ix.sortedColumns;
    var es := SortedElements(scs);
    assert BuildIndexElements(ix) == es by { assert ExpressionElements([]) == []; }
    HeadHasNoParen(table, ix);
    hide ParsedElements, IndexHead, IndexTail, SortedColumnEqual, ValidColumn, Ordered, SortedElements, PlainColumns, ExpressionsOf,
      Element, Trimmed, IsExpression, HasBlank, BuildIndexElements, PlainHead, Join;
    SortedElementTexts(scs);
    PrintedListParses(IndexHead(table, ix), es, IndexTail(ix));
    JoinedColumns(scs);
    assert !HasExpression(es);
    PlainColumnsOf(scs);
  }

  lemma JoinedColumns(scs: seq<IndexColumn>)
    requires scs != [] && ValidColumn(scs[0])
    ensures Join(SortedElements(scs), ", ") != ""
  {
    hide Lower, Trim, Upper;
    assert SortedElements(scs)[0] == SortedElement(scs[0]);
  }

  // ----- lists of expressions ---------------------------------------------------------------

  lemma {:induction false} SplitInside(m: string, d: nat)
    requires BalancedFrom(m, d)
    ensures SplitFrom(m + ")", d + 1) == [m + ")"]
    decreases |m|
  {
    var s := m + ")";
    if m == [] {
      assert s == ")" && s[1..] == "" && [s[0]] + "" == s;
    } else {
      assert s[1..] == m[1..] + ")";
      SplitInside(m[1..], d + Step(m[0]));
      assert [s[0]] + s[1..] == s;
      assert [s[1..]][1..] == [];
    }
  }

  lemma WrappedIsElement(m: string)
    requires Balanced(m)
    ensures var e := "(" + m + ")"; Element(e) && Trimmed(e) && IsExpression(e)
  {
    var e := "(" + m + ")";
    assert e[1..] == m + ")";
    SplitInside(m, 0);
    assert [e[0]] + e[1..] == e;
    assert [e[1..]][1..] == [];
    assert Balanced(e) by {
      BalancedConcat(m, 0, ")", 1);
      assert BalancedFrom(")", 1) by { assert ")"[1..] == ""; }
    }
    assert e[0] == '(';
  }

  lemma {:induction false} ExpressionElementsAt(xs: seq<string>, i: nat)
    requires i < |xs|
    ensures |ExpressionElements(xs)| == |xs| && ExpressionElements(xs)[i] == "(" + Trim(xs[i]) + ")"
  {
    hide Trim;
    if |xs| > 1 {
      ExpressionElementsAt(xs[1..], if i == 0 then 0 else i - 1);
    } else {
      assert xs[1..] == [];
    }
  }

  lemma {:induction false} AllExpressions(es: seq<string>)
    requires forall i :: 0 <= i < |es| ==> IsExpression(es[i])
    ensures PlainColumns(es) == [] && ExpressionsOf(es) == es
  {
    hide SortedColumnOf, IsExpression;
    if es != [] {
      AllExpressions(es[1..]);
    }
  }

  lemma ElementsOfExpressions(es: seq<string>)
    requires es != [] && forall i :: 0 <= i < |es| ==> IsExpression(es[i])
    ensures ElementsOf(es) == ([], es)
  {
    hide SortedColumnOf, IsExpression, PlainColumns, ExpressionsOf, MentionsOrdering, HasBlank;
    AllExpressions(es);
    assert IsExpression(es[0]);
  }

  lemma ExpressionTexts(xs: seq<string>)
    requires xs != [] && forall i :: 0 <= i < |xs| ==> Balanced(Trim(xs[i]))
    ensures var es := ExpressionElements(xs);
      && |es| == |xs| && Join(es, ", ") != ""
      && (forall i :: 0 <= i < |es| ==> Element(es[i]) && Trimmed(es[i]) && IsExpression(es[i]))
      && ExpressionsEqual(es, xs)
  {
    hide Trim, Element, Trimmed, IsExpression, ExpressionElements, Balanced, Canonicalize;
    var es := ExpressionElements(xs);
    ExpressionElementsAt(xs, 0);
    assert es[0] != "";
    forall i | 0 <= i < |xs|
      ensures Element(es[i]) && Trimmed(es[i]) && IsExpression(es[i]) && Canonicalize(es[i]) == Canonicalize(xs[i])
    {
      ExpressionElementsAt(xs, i);
      WrappedIsElement(Trim(xs[i]));
      WrappingIsInvisible(xs[i]);
    }
  }

  /** An index over balanced expressions reads back as equal expressions. */
  lemma ExpressionIndexReadsBack(table: string, ix: IndexSpec)
    requires PlainHead(table, ix) && ix.columns == [] && ix.sortedColumns == []
    requires ix.expressions != [] && forall i :: 0 <= i < |ix.expressions| ==> Balanced(Trim(ix.expressions[i]))
    ensures var (sorted, expressions) := ParsedElements(AddIndexStatement(table, ix));
      sorted == [] && ExpressionsEqual(expressions, ix.expressions)
  {
    var xs := ix.expressions;
    var es := ExpressionElements(xs);
    assert BuildIndexElements(ix) == es by { assert SortedElements([]) == []; }
    HeadHasNoParen(table, ix);
    hide ParsedElements, IndexHead, IndexTail, ExpressionElements, Canonicalize, Trim, Balanced, ElementsOf,
      Element, Trimmed, IsExpression, HasBlank, BuildIndexElements, PlainHead, Join, ExpressionsEqual;
    ExpressionTexts(xs);
    PrintedListParses(IndexHead(table, ix), es, IndexTail(ix));
    ElementsOfExpressions(es);
  }

  // ----- lists of every kind -----------------------------------------------------------------

  ghost predicate Printed(es: seq<string>) {
    es != [] && forall i :: 0 <= i < |es| ==> Element(es[i]) && Trimmed(es[i]) && es[i] != ""
  }

  lemma PrintedIsRead(head: string, es: seq<string>, tail: string)
    requires '(' !in head && Printed(es)
    ensures ParsedElements(head + "(" + Join(es, ", ") + ")" + tail) == ElementsOf(es)
  {
    assert es[0] != "" && Join(es, ", ") != "";
    hide ParsedElements, ElementsOf, Join, Element, Trimmed;
    PrintedListParses(head, es, tail);
  }

  /** Bare names are a plain index: nothing is read. */
  lemma BareListReadsNothing(head: string, es: seq<string>, tail: string)
    requires '(' !in head && Printed(es) && forall i :: 0 <= i < |es| ==> '(' !in es[i] && ' ' !in es[i] && '\t' !in es[i]
    ensures ParsedElements(head + "(" + Join(es, ", ") + ")" + tail) == ([], [])
  {
    hide ParsedElements, Join;
    PrintedIsRead(head, es, tail);
  }

  /** With anything behind one of the names, all of them are read as ordered columns, in order. */
  lemma OrderedListReadsColumns(head: string, es: seq<string>, tail: string)
    requires '(' !in head && Printed(es) && forall i :: 0 <= i < |es| ==> '(' !in es[i]
    requires exists i :: 0 <= i < |es| && (' ' in es[i] || '\t' in es[i])
    ensures var r := ParsedElements(head + "(" + Join(es, ", ") + ")" + tail);
      r.1 == [] && |r.0| == |es| && forall i :: 0 <= i < |es| ==> r.0[i] == SortedColumnOf(es[i])
  {
    hide ParsedElements, Join, SortedColumnOf, Element, Trimmed;
    PrintedIsRead(head, es, tail);
    AllPlainColumns(es);
  }

  lemma {:induction false} AllPlainColumns(es: seq<string>)
    requires forall i :: 0 <= i < |es| ==> '(' !in es[i]
    ensures |PlainColumns(es)| == |es| && ExpressionsOf(es) == []
    ensures forall i :: 0 <= i < |es| ==> PlainColumns(es)[i] == SortedColumnOf(es[i])
  {
    hide SortedColumnOf;
    if es != [] {
      AllPlainColumns(es[1..]);
      forall i | 0 < i < |es| ensures PlainColumns(es)[i] == SortedColumnOf(es[i]) {
        assert es[1..][i - 1] == es[i];
      }
    }
  }

  /** Bare names among expressions are read as expressions too, so that the order of the list is kept. */
  lemma MixedListReadsExpressions(head: string, es: seq<string>, tail: string)
    requires '(' !in head && Printed(es)
    requires (exists i :: 0 <= i < |es| && '(' in es[i]) && exists i :: 0 <= i < |es| && '(' !in es[i]
    requires forall i :: 0 <= i < |es| && '(' !in es[i] ==> ' ' !in es[i] && '\t' !in es[i]
    ensures ParsedElements(head + "(" + Join(es, ", ") + ")" + tail) == ([], es)
  {
    hide ParsedElements, Join, Contains, Element, Trimmed;
    PrintedIsRead(head, es, tail);
    forall i | 0 <= i < |es| && '(' !in es[i] ensures !MentionsOrdering(es[i]) {
      UpperHasNoBlank(es[i]);
    }
  }

  lemma UpperHasNoBlank(e: string)
    requires ' ' !in e && '\t' !in e
    ensures !HasBlank(Upper(e))
  {
    forall i | 0 <= i < |e| ensures Upper(e)[i] != ' ' && Upper(e)[i] != '\t' {
      UpperAt(e, i);
    }
  }

  /** An operator class is read in lower case, and never one of the ordering keywords. */
  lemma {:induction false} OperatorClassIsLower(fields: seq<string>)
    ensures var op := OpClassOf(fields); Lower(op) == op && op !in {"asc", "desc", "nulls", "first", "last"}
  {
    if fields == [] {
      assert Lower("") == "";
    } else {
      LowerTwice(fields[0]);
      hide Lower;
      OperatorClassIsLower(fields[1..]);
    }
  }
}
