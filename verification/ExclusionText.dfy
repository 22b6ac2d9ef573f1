/**
 Reading an EXCLUDE constraint back from the catalog's rendering
 `EXCLUDE USING m (e WITH op, ...) [WHERE (p)]`.
 */
module ExclusionText {
  import opened Text
  import opened Parens
  import opened ElementLists

  predicate KeywordSpace(c: char) {
    c == ' ' || c == '\t' || c == '\n' || c == '\r'
  }

  // ----- keywords ----------------------------------------------------------------------

  /** `word`, in any case, at `i`, delimited by white space, the ends, or `(` behind it. */
  predicate WordAt(s: string, word: string, i: nat) {
    && i + |word| <= |s| && EqualFold(s[i..i + |word|], word)
    && (i == 0 || KeywordSpace(s[i - 1]))
    && (i + |word| == |s| || KeywordSpace(s[i + |word|]) || s[i + |word|] == '(')
  }

  function FindWord(s: string, word: string, from: nat): (r: int)
    requires from <= |s|
    ensures r >= 0 ==> from <= r && WordAt(s, word, r) && forall j :: from <= j < r ==> !WordAt(s, word, j)
    ensures r < 0 ==> r == -1 && forall j :: from <= j <= |s| ==> !WordAt(s, word, j)
    decreases |s| - from
  {
    if WordAt(s, word, from) then from else if from == |s| then -1 else FindWord(s, word, from + 1)
  }

  method IndexOfWordCI(s: string, word: string) returns (r: int)
    ensures r == FindWord(s, word, 0)
  {
    hide WordAt;
    var i := 0;
    while i + |word| <= |s|
      invariant 0 <= i <= |s| + 1
      invariant forall j :: 0 <= j < i ==> !WordAt(s, word, j)
    {
      if WordAt(s, word, i) {
        return i;
      }
      i := i + 1;
    }
    TooLate(s, word);
    return -1;
  }

  lemma TooLate(s: string, word: string)
    ensures forall j: nat :: j + |word| > |s| ==> !WordAt(s, word, j)
  {
  }

  ghost predicate NoWord(s: string, word: string) {
    forall i: nat :: i <= |s| ==> !WordAt(s, word, i)
  }

  /** An occurrence inside a factor is an occurrence in that factor. */
  lemma WordInFactor(s: string, t: string, at: nat, word: string, i: nat)
    requires at + |t| <= |s| && s[at..at + |t|] == t
    requires i + |word| <= |t| && !WordAt(t, word, i)
    ensures !WordAt(s, word, at + i)
  {
    hide EqualFold;
    SliceOfSlice(s, at, at + |t|, i, i + |word|);
    assert i > 0 ==> s[at..at + |t|][i - 1] == s[at + i - 1];
    assert i + |word| < |t| ==> s[at..at + |t|][i + |word|] == s[at + i + |word|];
  }

  /** No occurrence covers a character that the word does not have. */
  lemma WordAcross(s: string, word: string, i: nat, k: nat)
    requires k < |word| && i + k < |s| && LowerChar(s[i + k]) !in Lower(word)
    ensures !WordAt(s, word, i)
  {
    hide Lower, KeywordSpace;
    if i + |word| <= |s| {
      assert s[i..i + |word|][k] == s[i + k];
      LowerAt(s[i..i + |word|], k);
      assert Lower(word)[k] in Lower(word);
    }
  }

  /** Text around a character that is not part of the word holds it only inside one side. */
  lemma NoWordConcat(a: string, c: char, b: string, word: string)
    requires NoWord(a, word) && NoWord(b, word) && word != "" && LowerChar(c) !in Lower(word)
    ensures NoWord(a + [c] + b, word)
  {
    hide Lower, WordAt;
    var s := a + [c] + b;
    assert s[0..0 + |a|] == a && s[|a| + 1..|a| + 1 + |b|] == b;
    TooLate(s, word);
    forall i: nat | i + |word| <= |s| ensures !WordAt(s, word, i) {
      if i + |word| <= |a| {
        WordInFactor(s, a, 0, word, i);
      } else if i > |a| {
        WordInFactor(s, b, |a| + 1, word, i - |a| - 1);
      } else {
        WordAcross(s, word, i, |a| - i);
      }
    }
  }

  lemma WordThere(a: string, keyword: string, b: string, word: string)
    requires |keyword| == |word| && EqualFold(keyword, word)
    requires b == "" || KeywordSpace(b[0]) || b[0] == '('
    ensures WordAt(a + " " + keyword + b, word, |a| + 1)
  {
    hide EqualFold;
    var s := a + " " + keyword + b;
    assert s[|a| + 1..|a| + 1 + |word|] == keyword;
    assert b != "" ==> s[|a| + 1 + |word|] == b[0];
  }

  /** A delimited word behind text without it is the first one. */
  lemma FirstWord(a: string, keyword: string, b: string, word: string)
    requires word != "" && NoWord(a, word) && |keyword| == |word| && EqualFold(keyword, word)
    requires LowerChar(' ') !in Lower(word)
    requires b == "" || KeywordSpace(b[0]) || b[0] == '('
    ensures FindWord(a + " " + keyword + b, word, 0) == |a| + 1
  {
    hide Lower, FindWord, WordAt;
    var s := a + " " + keyword + b;
    WordThere(a, keyword, b, word);
    assert s[0..0 + |a|] == a;
    forall i: nat | i <= |a| ensures !WordAt(s, word, i) {
      if i + |word| <= |a| {
        WordInFactor(s, a, 0, word, i);
      } else {
        WordAcross(s, word, i, |a| - i);
      }
    }
  }

  // ----- an element and its operator -----------------------------------------------------

  /** The keyword `with` at `i`, delimited by white space or the ends. */
  predicate WithAt(s: string, i: nat) {
    && i + 4 <= |s| && (s[i] == 'w' || s[i] == 'W') && EqualFold(s[i..i + 4], "with")
    && (i == 0 || KeywordSpace(s[i - 1]))
    && (i + 4 == |s| || KeywordSpace(s[i + 4]))
  }

  /** First `with` at depth zero at or behind `i`, where the depth is `d`; or -1. */
  function FindWith(s: string, i: nat, d: int): (r: int)
    requires i <= |s|
    ensures r == -1 || i <= r <= |s| - 4
    decreases |s| - i
  {
    if i == |s| then -1
    else if d == 0 && WithAt(s, i) then i
    else FindWith(s, i + 1, d + Step(s[i]))
  }

  function SplitWith(item: string): (string, string) {
    var i := FindWith(item, 0, 0);
    if i < 0 then (item, "") else (item[..i], item[i + 4..])
  }

  method SplitItemOnWith(item: string) returns (element: string, operator: string)
    ensures (element, operator) == SplitWith(item)
  {
    hide WithAt;
    var depth := 0;
    for i := 0 to |item|
      invariant FindWith(item, 0, 0) == FindWith(item, i, depth)
    {
      WithStep(item, i);
      if item[i] == '(' {
        depth := depth + 1;
      } else if item[i] == ')' {
        depth := depth - 1;
      } else if depth == 0 && WithAt(item, i) {
        return item[..i], item[i + 4..];
      }
    }
    return item, "";
  }

  lemma WithStep(s: string, i: nat)
    requires i < |s|
    ensures WithAt(s, i) ==> Step(s[i]) == 0
  {
  }

  /** An element with no `with` of its own at depth zero. */
  ghost predicate NoTopWith(e: string) {
    FindWith(e, 0, 0) == -1
  }

  lemma {:induction false} FindWithBehind(e: string, op: string, i: nat, d: int)
    requires i <= |e| && FindWith(e, i, d) == -1 && d + Depth(e[i..]) == 0
    ensures FindWith(e + " WITH " + op, i, d) == |e| + 1
    decreases |e| - i
  {
    var s := e + " WITH " + op;
    if i == |e| {
      assert e[i..] == "";
      assert s[i] == ' ' && s[i + 1] == 'W';
      assert s[i + 1..i + 5] == "WITH";
      assert WithAt(s, i + 1) by { SameFold(); }
    } else {
      assert e[i..][1..] == e[i + 1..] && e[i..][0] == e[i];
      assert WithAt(s, i) <==> WithAt(e, i) by {
        if i + 4 <= |e| {
          assert s[i..i + 4] == e[i..i + 4];
        } else {
          NotWith(s, i, |e| - i);
        }
      }
      FindWithBehind(e, op, i + 1, d + Step(e[i]));
    }
  }

  lemma SameFold()
    ensures EqualFold("WITH", "with")
  {
    LowerIs("WITH", "with");
    LowerIs("with", "with");
  }

  lemma NotWith(s: string, i: nat, k: nat)
    requires k < 4 && i + k < |s| && s[i + k] == ' '
    ensures !WithAt(s, i)
  {
    if i + 4 <= |s| {
      LowerAt(s[i..i + 4], k);
      LowerAt("with", k);
    }
  }

  lemma SplitWithOf(e: string, op: string)
    requires Balanced(e) && NoTopWith(e)
    ensures SplitWith(e + " WITH " + op) == (e + " ", " " + op)
  {
    BalancedDepth(e, 0);
    assert e[0..] == e;
    FindWithBehind(e, op, 0, 0);
    var s := e + " WITH " + op;
    assert s[..|e| + 1] == e + " ";
    assert s[|e| + 5..] == " " + op;
  }

  // ----- the whole definition ------------------------------------------------------------

  datatype Item = Item(element: string, operator: string)

  datatype Exclusion = Exclusion(using: string, items: seq<Item>, where_: string)

  function ParseItem(raw: string): Item {
    var sides := SplitWith(Trim(raw));
    Item(Trim(sides.0), Trim(sides.1))
  }

  function ParseItems(parts: seq<string>): seq<Item> {
    if parts == [] then []
    else (if Trim(parts[0]) == "" then [] else [ParseItem(parts[0])]) + ParseItems(parts[1..])
  }

  function MethodOf(s: string): string {
    var i := FindWord(s, "using", 0);
    if i < 0 then "" else Lower(FirstField(Trim(s[i + 5..])))
  }

  function PredicateOf(s: string): string {
    var i := FindWord(s, "where", 0);
    if i < 0 then "" else Unwrap(Trim(s[i + 5..]))
  }

  function Parsed(condef: string): Exclusion {
    var s := Trim(condef);
    Exclusion(MethodOf(s), ParseItems(SplitTop(ElementList(s))), PredicateOf(s))
  }

  method ParseExclusionConstraintDef(condef: string) returns (result: Exclusion)
    ensures result == Parsed(condef)
  {
    hide Trim, SplitTop, ElementList, FindWord, Lower, SplitWith, OuterParens, FirstField;
    var s := Trim(condef);
    var using, items, where_ := "", [], "";
    var idx := IndexOfWordCI(s, "using");
    if idx >= 0 {
      var rest := Trim(s[idx + 5..]);
      using := Lower(FirstField(rest));
    }
    var list := ExtractIndexElementList(s);
    var parts := SplitTopLevelCommas(list);
    assert parts[0..] == parts;
    for i := 0 to |parts|
      invariant items + ParseItems(parts[i..]) == ParseItems(parts)
    {
      ParseItemsStep(items, parts, i);
      var item := Trim(parts[i]);
      if item != "" {
        var element, operator := SplitItemOnWith(item);
        items := items + [Item(Trim(element), Trim(operator))];
      }
    }
    assert parts[|parts|..] == [];
    var w := IndexOfWordCI(s, "where");
    if w >= 0 {
      where_ := Trim(s[w + 5..]);
      if where_ != "" && where_[0] == '(' {
        var wrapped := HasBalancedOuterParens(where_);
        if wrapped {
          assert |where_| >= 2 by { WrappedLength(where_); }
          where_ := Trim(where_[1..|where_| - 1]);
        }
      }
    }
    result := Exclusion(using, items, where_);
  }

  lemma WrappedLength(s: string)
    requires OuterParens(s)
    ensures |s| >= 2
  {
  }

  lemma ParseItemsStep(items: seq<Item>, parts: seq<string>, i: nat)
    requires i < |parts|
    ensures items + ParseItems(parts[i..]) ==
      (if Trim(parts[i]) == "" then items else items + [ParseItem(parts[i])]) + ParseItems(parts[i + 1..])
  {
    hide Trim, ParseItem;
    assert parts[i..][1..] == parts[i + 1..] && parts[i..][0] == parts[i];
  }

  // ----- printing and reading back -------------------------------------------------------

  function PrintItem(it: Item): string {
    it.element + " WITH " + it.operator
  }

  function PrintItems(items: seq<Item>): seq<string> {
    if items == [] then [] else [PrintItem(items[0])] + PrintItems(items[1..])
  }

  /** The catalog's rendering of a constraint, without and with a predicate. */
  function Print(m: string, items: seq<Item>): string {
    "EXCLUDE USING " + m + " (" + Join(PrintItems(items), ", ") + ")"
  }

  function PrintPartial(m: string, items: seq<Item>, p: string): string {
    Print(m, items) + " WHERE (" + p + ")"
  }

  predicate MethodName(m: string) {
    m != "" && (forall i :: 0 <= i < |m| ==> !IsSpace(m[i]) && m[i] != '(') && Lower(m) != "where"
  }

  /** An item as the catalog prints it. */
  ghost predicate CatalogItem(it: Item) {
    && it.element != "" && Trimmed(it.element) && Element(it.element)
    && NoTopWith(it.element) && NoWord(it.element, "where")
    && it.operator != "" && Trimmed(it.operator) && Element(it.operator) && NoWord(it.operator, "where")
  }

  ghost predicate CatalogItems(items: seq<Item>) {
    forall i :: 0 <= i < |items| ==> CatalogItem(items[i])
  }

  lemma ItemReadsBack(it: Item)
    requires CatalogItem(it)
    ensures Element(PrintItem(it)) && Trimmed(PrintItem(it)) && PrintItem(it) != ""
    ensures ParseItem(PrintItem(it)) == it
  {
    hide Trim, NoWord, SplitWith;
    var e, op := it.element, it.operator;
    var s := PrintItem(it);
    ItemIsElement(e, op);
    TrimIdentity(s);
    SplitWithOf(e, op);
    TrimIdentity(e);
    TrimIdentity(op);
    TrimPadRight(e, " ");
    TrimPadLeft(" ", op);
  }

  lemma ItemIsElement(e: string, op: string)
    requires Element(e) && Element(op)
    ensures Element(e + " WITH " + op)
  {
    var s := e + " WITH " + op;
    assert s == e + (" WITH " + op);
    BalancedDepth(e, 0);
    WithIsInert(op);
    BalancedConcat(e, 0, " WITH " + op, 0);
    SplitFromConcat(e, 0, " WITH " + op);
    assert PrependTo(e, [" WITH " + op]) == [s];
  }

  lemma WithIsInert(op: string)
    requires Element(op)
    ensures Balanced(" WITH " + op) && SplitTop(" WITH " + op) == [" WITH " + op]
  {
    hide BalancedFrom, SplitFrom, Element;
    InertPrefix(" WITH ", op);
  }

  lemma InertPrefix(w: string, op: string)
    requires forall i :: 0 <= i < |w| ==> w[i] != ',' && w[i] != '(' && w[i] != ')'
    requires Element(op)
    ensures Balanced(w + op) && SplitTop(w + op) == [w + op]
  {
    InertText(w);
    hide BalancedFrom, SplitFrom, Depth;
    BalancedConcat(w, 0, op, 0);
    SplitFromConcat(w, 0, op);
    assert PrependTo(w, [op]) == [w + op];
  }

  lemma {:induction false} InertText(w: string)
    requires forall i :: 0 <= i < |w| ==> w[i] != ',' && w[i] != '(' && w[i] != ')'
    ensures Balanced(w) && SplitTop(w) == [w] && Depth(w) == 0
  {
    if w != [] {
      InertText(w[1..]);
      assert [w[0]] + w[1..] == w;
      assert PrependTo([w[0]], [w[1..]]) == [w];
    }
  }

  lemma {:induction false} ItemsReadBack(items: seq<Item>)
    requires CatalogItems(items)
    ensures var es := PrintItems(items);
      && |es| == |items|
      && (forall i :: 0 <= i < |es| ==> Element(es[i]) && Trimmed(es[i]) && es[i] != "")
    decreases |items|
  {
    hide PrintItem, CatalogItem, Element, Trimmed;
    if items != [] {
      ItemReadsBack(items[0]);
      ItemsReadBack(items[1..]);
    }
  }

  lemma {:induction false} ParseTrimmed(parts: seq<string>, es: seq<string>, items: seq<Item>)
    requires TrimEach(parts) == es && es == PrintItems(items) && CatalogItems(items)
    ensures ParseItems(parts) == items
    decreases |parts|
  {
    hide Trim, PrintItem, CatalogItem, Trimmed, Element;
    if parts == [] {
      assert items == [];
    } else {
      assert items != [];
      assert es[0] == Trim(parts[0]) == PrintItem(items[0]);
      ItemReadsBack(items[0]);
      TrimOfTrim(parts[0]);
      ParseItemOfTrim(parts[0]);
      assert es[1..] == TrimEach(parts[1..]);
      ParseTrimmed(parts[1..], es[1..], items[1..]);
    }
  }

  lemma TrimOfTrim(s: string)
    ensures Trim(Trim(s)) == Trim(s)
  {
    TrimIdentity(Trim(s));
  }

  lemma ParseItemOfTrim(raw: string)
    ensures ParseItem(raw) == ParseItem(Trim(raw))
  {
    hide Trim, SplitWith;
    TrimOfTrim(raw);
  }

  lemma ListReadsBack(items: seq<Item>)
    requires CatalogItems(items)
    ensures Balanced(Join(PrintItems(items), ", "))
    ensures ParseItems(SplitTop(Join(PrintItems(items), ", "))) == items
  {
    hide CatalogItem, CatalogItems, SplitTop, Trim, Trimmed, BalancedFrom;
    var es := PrintItems(items);
    ItemsReadBack(items);
    assert forall i :: 0 <= i < |es| ==> Balanced(es[i]);
    JoinBalanced(es);
    if items == [] {
      EmptyList();
    } else {
      PrintedListSplits(es);
      ParseTrimmed(SplitTop(Join(es, ", ")), es, items);
    }
  }

  lemma EmptyList()
    ensures ParseItems(SplitTop("")) == []
  {
    TrimIdentity("");
    assert [""][1..] == [];
  }

  // ----- no stray keyword in the printed list --------------------------------------------

  lemma NoWhere(s: string)
    requires forall i :: 0 <= i < |s| ==> s[i] != 'h' && s[i] != 'H'
    ensures NoWord(s, "where")
  {
    forall i: nat | i <= |s| ensures !WordAt(s, "where", i) {
      if i + 5 <= |s| {
        LowerAt(s[i..i + 5], 1);
        LowerAt("where", 1);
      }
    }
  }

  lemma WhereIsLower(c: char)
    requires c == ' ' || c == ',' || c == '(' || c == ')'
    ensures LowerChar(c) !in Lower("where")
  {
    LowerIs("where", "where");
  }

  lemma NoWhereInItem(it: Item)
    requires CatalogItem(it)
    ensures NoWord(PrintItem(it), "where")
  {
    hide NoWord, Element, NoTopWith;
    WhereIsLower(' ');
    NotWhere("WITH");
    NoWordConcat(it.element, ' ', "WITH", "where");
    NoWordConcat(it.element + " " + "WITH", ' ', it.operator, "where");
    assert PrintItem(it) == it.element + " " + "WITH" + " " + it.operator;
  }

  /** A short word that is not `where` does not hold it. */
  lemma NotWhere(w: string)
    requires Lower(w) != "where" && forall i :: 0 <= i < |w| ==> !KeywordSpace(w[i]) && w[i] != '('
    ensures NoWord(w, "where")
  {
    hide WordAt, Lower, KeywordSpace;
    LowerIs("where", "where");
    forall i: nat | i <= |w| ensures !WordAt(w, "where", i) {
      LoneWord(w, "where", i);
    }
  }

  /** Text without delimiters holds a word only if it is that word. */
  lemma LoneWord(w: string, word: string, i: nat)
    requires word != "" && !EqualFold(w, word) && forall k :: 0 <= k < |w| ==> !KeywordSpace(w[k]) && w[k] != '('
    ensures !WordAt(w, word, i)
  {
    hide EqualFold, KeywordSpace;
    assert |w| == |word| ==> w[0..0 + |word|] == w;
  }

  lemma {:induction false} NoWhereInList(items: seq<Item>)
    requires CatalogItems(items)
    ensures NoWord(Join(PrintItems(items), ", "), "where")
    decreases |items|
  {
    hide NoWord, CatalogItem, PrintItem;
    if items == [] {
      NoWhere("");
    } else {
      NoWhereInItem(items[0]);
      if |items| == 1 {
        assert PrintItems(items) == [PrintItem(items[0])];
      } else {
        NoWhereInList(items[1..]);
        assert PrintItems(items)[1..] == PrintItems(items[1..]);
        assert |PrintItems(items)| > 1;
        var rest := Join(PrintItems(items[1..]), ", ");
        WhereIsLower(',');
        WhereIsLower(' ');
        NoWhere("");
        NoWordConcat("", ' ', rest, "where");
        NoWordConcat(PrintItem(items[0]), ',', "" + " " + rest, "where");
        assert Join(PrintItems(items), ", ") == PrintItem(items[0]) + "," + ("" + " " + rest);
      }
    }
  }

  lemma NoWhereInPrint(m: string, items: seq<Item>)
    requires MethodName(m) && CatalogItems(items)
    ensures NoWord(Print(m, items), "where")
  {
    hide NoWord, CatalogItems, Join, PrintItems, Lower;
    var list := Join(PrintItems(items), ", ");
    NoWhereInList(items);
    WhereIsLower(' ');
    WhereIsLower('(');
    WhereIsLower(')');
    NoWhere("EXCLUDE USING");
    NoWhere("");
    NotWhere(m);
    NoWordConcat("EXCLUDE USING", ' ', m, "where");
    var a := "EXCLUDE USING" + " " + m;
    NoWordConcat(a, ' ', "", "where");
    NoWordConcat(a + " " + "", '(', list, "where");
    NoWordConcat(a + " " + "" + "(" + list, ')', "", "where");
    assert Print(m, items) == a + " " + "" + "(" + list + ")" + "";
  }

  // ----- the inverse ---------------------------------------------------------------------

  lemma NoUsing()
    ensures NoWord("EXCLUDE", "using") && EqualFold("USING", "using") && LowerChar(' ') !in Lower("using")
  {
    LowerIs("USING", "using");
    LowerIs("using", "using");
    hide Lower, KeywordSpace;
    TooLate("EXCLUDE", "using");
    forall i: nat | i < 3 ensures !WordAt("EXCLUDE", "using", i) {
      assert "EXCLUDE"[i] == 'E' || "EXCLUDE"[i] == 'X' || "EXCLUDE"[i] == 'C';
      WordAcross("EXCLUDE", "using", i, 0);
    }
  }

  lemma MethodReadsBack(m: string, rest: string)
    requires MethodName(m) && rest != "" && IsSpace(rest[0]) && !IsSpace(rest[|rest| - 1])
    ensures MethodOf("EXCLUDE USING " + m + rest) == Lower(m)
  {
    hide FindWord, Trim, FirstField, Lower, NoWord, EqualFold;
    var s := "EXCLUDE USING " + m + rest;
    NoUsing();
    assert s == "EXCLUDE" + " " + "USING" + (" " + m + rest);
    FirstWord("EXCLUDE", "USING", " " + m + rest, "using");
    assert s[8 + 5..] == " " + (m + rest);
    TrimPadLeft(" ", m + rest);
    TrimIdentity(m + rest);
    FirstFieldOf(m, rest);
  }

  lemma WhereWord()
    ensures EqualFold("WHERE", "where") && LowerChar(' ') !in Lower("where") && |"WHERE"| == 5 && |"where"| == 5
  {
    LowerIs("WHERE", "where");
    LowerIs("where", "where");
    WhereIsLower(' ');
    hide Lower;
  }

  lemma WhereFound(a: string, keyword: string, p: string)
    requires NoWord(a, "where") && keyword == "WHERE"
    ensures FindWord(a + " " + keyword + (" (" + p + ")"), "where", 0) == |a| + 1
  {
    hide FindWord, NoWord, Lower;
    WhereWord();
    FirstWord(a, keyword, " (" + p + ")", "where");
  }

  lemma WrappedPredicate(p: string)
    requires Balanced(p)
    ensures Unwrap(Trim(" " + ("(" + p + ")"))) == Trim(p)
  {
    hide Trim, Unwrap;
    TrimPadLeft(" ", "(" + p + ")");
    TrimIdentity("(" + p + ")");
    UnwrapWrapped(p);
  }

  lemma BehindWord(a: string, keyword: string, p: string)
    requires |keyword| == 5
    ensures (a + " " + keyword + (" (" + p + ")"))[|a| + 1 + 5..] == " " + ("(" + p + ")")
  {
  }

  lemma WhereText(a: string, p: string)
    ensures a + " WHERE (" + p + ")" == a + " " + "WHERE" + (" (" + p + ")")
  {
    assert " WHERE (" == " " + "WHERE" + " (";
  }

  lemma PredicateReadsBack(a: string, p: string)
    requires NoWord(a, "where") && Balanced(p)
    ensures PredicateOf(a + " WHERE (" + p + ")") == Trim(p)
  {
    hide FindWord, Trim, Unwrap, NoWord, Balanced;
    WhereText(a, p);
    WhereFound(a, "WHERE", p);
    BehindWord(a, "WHERE", p);
    WrappedPredicate(p);
  }

  lemma PrefixHasNoParen(m: string)
    requires MethodName(m)
    ensures '(' !in "EXCLUDE USING " + m + " "
  {
    hide Lower;
  }

  /** The texts of a rendering with a tail behind the element list. */
  lemma PrintShapes(m: string, list: string, tail: string)
    ensures "EXCLUDE USING " + m + " (" + list + ")" + tail == "EXCLUDE USING " + m + (" (" + list + ")" + tail)
    ensures "EXCLUDE USING " + m + " (" + list + ")" + tail == ("EXCLUDE USING " + m + " ") + "(" + list + ")" + tail
  {
  }

  /** Method and items are recovered whatever follows the element list. */
  lemma FrontReadsBack(m: string, items: seq<Item>, tail: string)
    requires MethodName(m) && CatalogItems(items) && (tail == "" || !IsSpace(tail[|tail| - 1]))
    ensures var s := Print(m, items) + tail;
      Trim(s) == s && MethodOf(s) == Lower(m) && ParseItems(SplitTop(ElementList(s))) == items
  {
    hide Trim, MethodOf, ParseItems, PrintItems, Join, CatalogItems, Lower, ElementList, SplitTop, BalancedFrom;
    var list := Join(PrintItems(items), ", ");
    PrintShapes(m, list, tail);
    TrimIdentity(Print(m, items) + tail);
    MethodReadsBack(m, " (" + list + ")" + tail);
    ListReadsBack(items);
    PrefixHasNoParen(m);
    ElementListOf("EXCLUDE USING " + m + " ", list, tail);
  }

  /** Reading inverts the catalog's rendering of a total constraint. */
  lemma TotalExclusionReadsBack(m: string, items: seq<Item>)
    requires MethodName(m) && CatalogItems(items)
    ensures Parsed(Print(m, items)) == Exclusion(Lower(m), items, "")
  {
    hide Trim, MethodOf, PredicateOf, ParseItems, Print, CatalogItems, Lower, ElementList, SplitTop, NoWord, MethodName;
    FrontReadsBack(m, items, "");
    assert Print(m, items) + "" == Print(m, items);
    NoWhereInPrint(m, items);
    NotFound(Print(m, items));
  }

  lemma NotFound(s: string)
    requires NoWord(s, "where")
    ensures PredicateOf(s) == ""
  {
  }

  /** Reading inverts the catalog's rendering of a partial constraint. */
  lemma PartialExclusionReadsBack(m: string, items: seq<Item>, p: string)
    requires MethodName(m) && CatalogItems(items) && Balanced(p)
    ensures Parsed(PrintPartial(m, items, p)) == Exclusion(Lower(m), items, Trim(p))
  {
    hide Trim, MethodOf, PredicateOf, ParseItems, Print, CatalogItems, Lower, ElementList, SplitTop, NoWord, MethodName, BalancedFrom;
    var tail := " WHERE (" + p + ")";
    FrontReadsBack(m, items, tail);
    TailTogether(Print(m, items), p);
    NoWhereInPrint(m, items);
    PredicateReadsBack(Print(m, items), p);
  }

  lemma TailTogether(a: string, p: string)
    ensures a + " WHERE (" + p + ")" == a + (" WHERE (" + p + ")")
  {
  }

  // ----- what delimits a keyword --------------------------------------------------------------------

  predicate Gap(c: char) {
    c == ' ' || c == '\t' || c == '\n' || c == '\r'
  }

  /** The word in any letter case between the ends or white space; a parenthesis may follow as well. */
  predicate StandsAlone(s: string, word: string, j: nat) {
    && j + |word| <= |s| && Lower(s[j..j + |word|]) == Lower(word)
    && (j == 0 || Gap(s[j - 1])) && (j + |word| == |s| || Gap(s[j + |word|]) || s[j + |word|] == '(')
  }

  lemma StandsAloneIff(s: string, word: string, j: nat)
    ensures WordAt(s, word, j) <==> StandsAlone(s, word, j)
  {
    hide Lower;
  }

  /** What is found is the first occurrence that stands alone, if there is one. */
  lemma FirstStandAlone(s: string, word: string)
    ensures var r := FindWord(s, word, 0);
      && (r >= 0 ==> StandsAlone(s, word, r))
      && forall j :: 0 <= j <= |s| && (r < 0 || j < r) ==> !StandsAlone(s, word, j)
  {
    var r := FindWord(s, word, 0);
    hide WordAt, StandsAlone, FindWord;
    if r >= 0 {
      StandsAloneIff(s, word, r);
    }
    forall j | 0 <= j <= |s| && (r < 0 || j < r) ensures !StandsAlone(s, word, j) {
      StandsAloneIff(s, word, j);
    }
  }
}
