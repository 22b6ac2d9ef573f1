/** Casts to the types PostgreSQL renders: which are dropped without a trace, and which also drop quotes. */
module CastTypes {
  import opened Text
  import opened Canonical
  import opened CanonicalLaws
  import opened CastLaws

  // ----- numbers -------------------------------------------------------------------------------

  predicate DigitOrPoint(c: char) {
    '0' <= c <= '9' || c == '.'
  }

  /** Digits, at least one, with at most one point among them. */
  ghost predicate Decimal(u: string) {
    && (forall i :: 0 <= i < |u| ==> DigitOrPoint(u[i]))
    && (exists i :: 0 <= i < |u| && u[i] != '.')
    && (forall i, j :: 0 <= i < j < |u| ==> !(u[i] == '.' && u[j] == '.'))
  }

  /** With at most one sign in front. */
  ghost predicate Number(b: string) {
    Decimal(if b != "" && (b[0] == '+' || b[0] == '-') then b[1..] else b)
  }

  lemma {:induction false} CountAtMostOne(s: string, c: char)
    ensures CountChar(s, c) == 0 <==> c !in s
    ensures CountChar(s, c) <= 1 <==> forall i, j :: 0 <= i < j < |s| ==> !(s[i] == c && s[j] == c)
  {
    if s != "" {
      var n := |s| - 1;
      var r := s[..n];
      CountAtMostOne(r, c);
      assert c in s <==> c in r || s[n] == c;
      if CountChar(s, c) <= 1 {
        forall i, j | 0 <= i < j < |s| ensures !(s[i] == c && s[j] == c) {
          if j == n { assert s[i] == r[i]; } else { assert s[i] == r[i] && s[j] == r[j]; }
        }
      } else if CountChar(r, c) == 1 {
        var i :| 0 <= i < |r| && r[i] == c;
        assert s[i] == c && s[n] == c;
      } else {
        var i, j :| 0 <= i < j < |r| && r[i] == c && r[j] == c;
        assert s[i] == c && s[j] == c;
      }
    }
  }

  lemma NumberIff(b: string)
    ensures NumericLiteral(b) <==> Number(b)
  {
    var u := Unsigned(b);
    CountAtMostOne(u, '.');
    DigitsIff(u);
    assert Decimal(u) <==> NumericLiteral(b) by { hide CountChar, IsDigit, DigitOrPoint; }
    hide NumericLiteral, Decimal;
    assert u == if b != "" && (b[0] == '+' || b[0] == '-') then b[1..] else b;
  }

  lemma DigitsIff(u: string)
    ensures (forall i :: 0 <= i < |u| ==> IsDigit(u[i]) || u[i] == '.') <==> forall i :: 0 <= i < |u| ==> DigitOrPoint(u[i])
    ensures (forall i :: 0 <= i < |u| ==> DigitOrPoint(u[i])) ==>
      ((exists i :: 0 <= i < |u| && IsDigit(u[i])) <==> exists i :: 0 <= i < |u| && u[i] != '.')
  {
    if i :| 0 <= i < |u| && IsDigit(u[i]) {
      assert u[i] != '.';
    }
  }

  /** `p` ends in a number between quotes. */
  ghost predicate EndsInQuotedNumber(p: string) {
    exists i :: 0 <= i < |p| - 1 && p[i] == '\'' && p[|p| - 1] == '\'' && Number(p[i + 1..|p| - 1])
  }

  lemma NumberOfLower(b: string)
    requires Number(Lower(b))
    ensures Number(b)
  {
    forall i | 0 <= i < |b| ensures DigitOrPoint(Lower(b)[i]) || i == 0 {
    }
    forall i | 0 <= i < |b| ensures Lower(b)[i] == b[i] {
      LowerAt(b, i);
    }
    assert Lower(b) == b;
  }

  lemma LowerSlice(s: string, i: nat, j: nat)
    requires i <= j <= |s|
    ensures Lower(s)[i..j] == Lower(s[i..j])
  {
    LowerSlices(s, i, j);
  }

  /** Quotes are dropped only around a number. */
  lemma UnquotesNumbers(out: string)
    requires Unquoted(out) != out
    ensures EndsInQuotedNumber(out)
  {
    var start := LastQuote(out, |out| - 1);
    var b := out[start + 1..|out| - 1];
    hide LastQuote, NumericLiteral, Number;
    NumberIff(b);
  }

  lemma QuotedNumberOfLower(p: string)
    requires EndsInQuotedNumber(Lower(p))
    ensures EndsInQuotedNumber(p)
  {
    hide Lower, Number;
    var l := Lower(p);
    var i :| 0 <= i < |l| - 1 && l[i] == '\'' && l[|l| - 1] == '\'' && Number(l[i + 1..|l| - 1]);
    var b := p[i + 1..|p| - 1];
    LowerAt(p, i);
    LowerAt(p, |p| - 1);
    LowerSlice(p, i + 1, |p| - 1);
    NumberOfLower(b);
    assert p[i] == '\'' && p[|p| - 1] == '\'';
  }

  /** Nothing is unquoted at the end of a text that does not end in a quoted number. */
  lemma KeepsQuotes(p: string)
    requires !EndsInQuotedNumber(p)
    ensures Unquoted(Lower(p)) == Lower(p)
  {
    hide Lower, Unquoted, EndsInQuotedNumber;
    if Unquoted(Lower(p)) != Lower(p) {
      UnquotesNumbers(Lower(p));
      QuotedNumberOfLower(p);
    }
  }

  // ----- numeric types -------------------------------------------------------------------------

  predicate NumericName(n: string) {
    n in {"smallint", "integer", "int", "int2", "int4", "int8", "bigint", "numeric", "decimal", "real", "double precision", "float",
      "float4", "float8"}
  }

  function NameAndWords(t: SqlType): string {
    (if t.qualifier == [] then t.name else t.qualifier + "." + t.name) + RenderWords(t.words)
  }

  /** A number type, with or without a modifier; an array of one only if it has a modifier. */
  predicate NumericType(t: SqlType) {
    NumericName(Lower(NameAndWords(t))) && (t.dims == [] || t.modifier != [])
  }

  lemma NumericNameIff(n: string)
    ensures NumericTypeName(n) <==> NumericName(n)
    ensures NumericTypeName(n) ==> '[' !in n
  {
  }

  /** The characters of a rendered type in front of its modifier. */
  predicate NamePart(s: string) {
    forall i :: 0 <= i < |s| ==> NameChar(s[i]) || s[i] == '.' || s[i] == ' '
  }

  lemma {:induction false} WordsAreNameParts(words: seq<string>)
    requires forall i :: 0 <= i < |words| ==> TypeWord(Lower(words[i]))
    ensures NamePart(RenderWords(words))
    ensures words != [] ==> var r := RenderWords(words); |r| > 0 && NameChar(r[|r| - 1])
  {
    if words != [] {
      WordsAreNameParts(words[1..]);
      WordIsName(words[0]);
    }
  }

  lemma WordIsName(w: string)
    requires TypeWord(Lower(w))
    ensures w != "" && forall i :: 0 <= i < |w| ==> NameChar(w[i])
  {
    hide Lower, TypeWord;
    LowerWord(Lower(w));
    forall i | 0 <= i < |w| ensures NameChar(w[i]) {
      LowerAt(w, i);
      assert 'a' <= Lower(w)[i] <= 'z';
    }
  }

  lemma LowerWord(l: string)
    requires TypeWord(l)
    ensures l != "" && forall i :: 0 <= i < |l| ==> 'a' <= l[i] <= 'z'
  {
  }

  lemma NameIsTrimmed(t: SqlType)
    requires t.Valid()
    ensures var n := NameAndWords(t); n != "" && NamePart(n) && Trimmed(n)
  {
    WordsAreNameParts(t.words);
    hide RenderWords, Lower;
    var n := NameAndWords(t);
    assert !IsSpace(n[0]) by { assert NameChar(n[0]); }
    assert !IsSpace(n[|n| - 1]) by { assert NameChar(n[|n| - 1]); }
  }

  lemma {:induction false} GroupsEnd(groups: seq<string>, open: char, close: char)
    requires groups != []
    ensures var r := RenderGroups(groups, open, close); |r| > 1 && r[0] == open && r[|r| - 1] == close
  {
    if |groups| > 1 {
      GroupsEnd(groups[1..], open, close);
    }
  }

  /** The rendered type: its name, and from there a parenthesis, a bracket or nothing. */
  lemma RenderedShape(t: SqlType) returns (rest: string)
    requires t.Valid()
    ensures t.Render() == NameAndWords(t) + rest && Trimmed(t.Render())
    ensures t.modifier != [] ==> rest != "" && rest[0] == '('
    ensures t.modifier == [] && t.dims != [] ==> rest != "" && rest[0] == '['
    ensures t.modifier == [] && t.dims == [] ==> rest == ""
  {
    NameIsTrimmed(t);
    var m, d := RenderGroups(t.modifier, '(', ')'), RenderGroups(t.dims, '[', ']');
    rest := m + d;
    if t.modifier != [] {
      GroupsEnd(t.modifier, '(', ')');
    }
    if t.dims != [] {
      GroupsEnd(t.dims, '[', ']');
    }
    hide RenderGroups, RenderWords, NamePart;
    assert t.Render() == NameAndWords(t) + rest;
  }

  lemma NumericOfParts(n: string, rest: string)
    requires n != "" && NamePart(n) && Trimmed(n) && Trimmed(n + rest) && UpperFree(n)
    requires rest == "" || rest[0] == '(' || rest[0] == '['
    ensures NumericCastType(n + rest) <==> NumericTypeName(n) && (rest == "" || rest[0] == '(')
  {
    var x := n + rest;
    hide NumericTypeName, UpperFree;
    TrimIdentity(x);
    TrimIdentity(n);
    hide Trim;
    assert '(' !in n;
    var p := IndexOfChar(x, '(');
    hide IndexOfChar;
    if rest == "" {
      assert x == n && p < 0;
    } else if rest[0] == '(' {
      assert x[|n|] == '(' && x[..|n|] == n;
      IndexOfCharIs(x, '(', |n|);
    } else {
      assert x[|n|] == '[';
      BracketIsNotNumeric(x, p);
    }
  }

  lemma BracketIsNotNumeric(x: string, p: int)
    requires p < 0 || (p < |x| && x[p] == '(')
    requires exists k :: 0 <= k < |x| && x[k] == '[' && (p < 0 || k < p)
    ensures !NumericTypeName(if p >= 0 then Trim(x[..p]) else x)
  {
    var k :| 0 <= k < |x| && x[k] == '[' && (p < 0 || k < p);
    NumericNameIff(x);
    if p >= 0 {
      var y := x[..p];
      assert y[k] == '[';
      NumericNameIff(Trim(y));
      TrimKeepsIn(y, '[');
    }
    hide NumericTypeName;
  }

  lemma TrimKeepsIn(y: string, c: char)
    requires c in y && !IsSpace(c)
    ensures c in Trim(y)
  {
    hide Trim;
    var a, b := TrimSplit(y);
    assert forall i :: 0 <= i < |a| ==> a[i] != c;
    assert forall i :: 0 <= i < |b| ==> b[i] != c;
    assert c in a || c in Trim(y) || c in b;
  }

  lemma LowerParts(n: string, rest: string)
    requires n != "" && NamePart(n) && Trimmed(n) && Trimmed(n + rest)
    requires rest == "" || rest[0] == '(' || rest[0] == '['
    ensures Lower(n + rest) == Lower(n) + Lower(rest)
    ensures var l, r := Lower(n), Lower(rest); l != "" && NamePart(l) && Trimmed(l) && Trimmed(l + r) && UpperFree(l)
    ensures var r := Lower(rest); (rest == "" <==> r == "") && (rest != "" ==> r[0] == rest[0])
  {
    LowerConcat(n, rest);
    LowerUpperFree(n);
    forall i | 0 <= i < |n| ensures NameChar(Lower(n)[i]) || Lower(n)[i] == '.' || Lower(n)[i] == ' ' {
      LowerAt(n, i);
    }
    LowerTrimmed(n);
    LowerTrimmed(n + rest);
    if rest != "" {
      LowerAt(rest, 0);
    }
    hide Lower;
  }

  lemma LowerTrimmed(s: string)
    requires Trimmed(s)
    ensures Trimmed(Lower(s))
  {
    if s != "" {
      LowerAt(s, 0);
      LowerAt(s, |s| - 1);
    }
  }

  /** The scanner takes exactly the number types for numeric. */
  lemma NumericTypeIff(t: SqlType)
    requires t.Valid()
    ensures NumericCastType(Lower(t.Render())) <==> NumericType(t)
  {
    NameIsTrimmed(t);
    var rest := RenderedShape(t);
    var n := NameAndWords(t);
    hide NumericCastType, NumericTypeName, NumericName, Lower, NamePart, Trimmed, UpperFree;
    LowerParts(n, rest);
    NumericOfParts(Lower(n), Lower(rest));
    NumericNameIff(Lower(n));
  }

  // ----- what casts leave behind -----------------------------------------------------------------

  /** A cast to any rendered type is invisible, unless it is a cast of a quoted number to a number type. */
  lemma TypedCastIsInvisible(p: string, t: SqlType, q: string)
    requires !HasCast(p) && !EndsInColon(p) && t.Valid() && CannotExtendType(q)
    requires !(NumericType(t) && EndsInQuotedNumber(p))
    ensures Canonicalize(p + "::" + t.Render() + q) == Canonicalize(p + q)
  {
    hide *;
    RenderedTypeConsumed(t, q);
    NumericTypeIff(t);
    if !EndsInQuotedNumber(p) {
      KeepsQuotes(p);
    }
    CastIsInvisible(p, t.Render(), q);
  }

  /** In that case the quotes go with the cast. */
  lemma TypedNumberReadsAsBare(p: string, n: string, t: SqlType, q: string)
    requires !HasCast(p) && Number(n) && t.Valid() && NumericType(t) && CannotExtendType(q)
    ensures Canonicalize(p + "'" + n + "'" + "::" + t.Render() + q) == Canonicalize(p + n + q)
  {
    hide *;
    RenderedTypeConsumed(t, q);
    NumericTypeIff(t);
    NumberIff(n);
    QuotedNumberReadsAsBare(p, n, t.Render(), q);
  }
}
