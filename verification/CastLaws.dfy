/**
 PostgreSQL renders a stored expression with `::type` casts its author never wrote, and
 quotes a numeric constant before casting it.  These laws say that neither changes the
 canonical form.
 */
module CastLaws {
  import opened Text
  import opened Parens
  import opened Canonical
  import opened CanonicalLaws

  // ----- the scanner ignores letter case ---------------------------------------------

  lemma {:induction false} WordLenLower(r: string)
    ensures WordLen(Lower(r)) == WordLen(r)
  {
    if r != [] {
      WordLenLower(r[1..]);
    }
  }

  lemma {:induction false} BlankLenLower(r: string)
    ensures BlankLen(Lower(r)) == BlankLen(r)
  {
    if r != [] {
      BlankLenLower(r[1..]);
    }
  }

  lemma {:induction false} CloseLenLower(r: string, d: nat)
    requires d > 0
    ensures CloseLen(Lower(r), d) == CloseLen(r, d)
    decreases |r|
  {
    if r != [] {
      CloseLenLower(r[1..], d + 1);
      CloseLenLower(r[1..], d);
      if d > 1 {
        CloseLenLower(r[1..], d - 1);
      }
    }
  }

  lemma {:induction false} BracketLenLower(r: string)
    ensures BracketLen(Lower(r)) == BracketLen(r)
  {
    if r != [] {
      BracketLenLower(r[1..]);
    }
  }

  lemma {:induction false} LowerSlices(r: string, k: nat, n: nat)
    requires k <= n <= |r|
    ensures Lower(r)[k..] == Lower(r[k..])
    ensures Lower(r)[k..n] == Lower(r[k..n])
  {
    hide Lower;
    assert r == r[..k] + r[k..] && r[k..] == r[k..n] + r[n..];
    LowerConcat(r[..k], r[k..]);
    LowerConcat(r[k..n], r[n..]);
  }

  lemma NameLenLower(r: string)
    ensures NameLen(Lower(r)) == NameLen(r)
  {
    hide WordLen, Lower;
    WordLenLower(r);
    var n := WordLen(r);
    if n < |r| {
      LowerAt(r, n);
      LowerSlices(r, n + 1, n + 1);
      WordLenLower(r[n + 1..]);
    }
  }

  lemma {:induction false} ContinuationLenLower(r: string)
    ensures ContinuationLen(Lower(r)) == ContinuationLen(r)
    decreases |r|
  {
    hide WordLen, BlankLen, Lower, ContinuationWord;
    BlankLenLower(r);
    var b := BlankLen(r);
    LowerSlices(r, b, b);
    WordLenLower(r[b..]);
    var w := WordLen(r[b..]);
    LowerSlices(r, b, b + w);
    LowerTwice(r[b..b + w]);
    if w > 0 {
      LowerSlices(r, b + w, b + w);
      ContinuationLenLower(r[b + w..]);
    }
  }

  lemma ModifierLenLower(r: string)
    ensures ModifierLen(Lower(r)) == ModifierLen(r)
  {
    hide Lower;
    if r != [] {
      LowerAt(r, 0);
      LowerSlices(r, 1, 1);
      CloseLenLower(r[1..], 1);
    }
  }

  lemma {:induction false} ArrayLenLower(r: string)
    ensures ArrayLen(Lower(r)) == ArrayLen(r)
    decreases |r|
  {
    hide Lower, BracketLen;
    if r != [] {
      LowerAt(r, 0);
      LowerSlices(r, 1, 1);
      BracketLenLower(r[1..]);
      var k := 1 + BracketLen(r[1..]);
      LowerSlices(r, k, k);
      ArrayLenLower(r[k..]);
    }
  }

  lemma TypeLenLower(r: string)
    ensures TypeLen(Lower(r)) == TypeLen(r)
  {
    hide Lower, NameLen, ContinuationLen, ModifierLen, ArrayLen;
    NameLenLower(r);
    var a := NameLen(r);
    LowerSlices(r, a, a);
    ContinuationLenLower(r[a..]);
    var b := a + ContinuationLen(r[a..]);
    LowerSlices(r, b, b);
    ModifierLenLower(r[b..]);
    var c := b + ModifierLen(r[b..]);
    LowerSlices(r, c, c);
    ArrayLenLower(r[c..]);
  }

  lemma HasCastLower(s: string)
    ensures HasCast(Lower(s)) <==> HasCast(s)
    ensures EndsInColon(Lower(s)) <==> EndsInColon(s)
    ensures StartsWithColon(Lower(s)) <==> StartsWithColon(s)
  {
    hide Lower;
    forall i | 0 <= i < |s| ensures Lower(s)[i] == ':' <==> s[i] == ':' {
      LowerAt(s, i);
    }
    forall i | 0 <= i < |s| ensures CastAt(Lower(s), i) <==> CastAt(s, i) {
    }
  }

  // ----- a cast leaves no trace ------------------------------------------------------

  /** One step of the scan at a cast whose type token is `t`. */
  lemma StripAtCast(out: string, t: string, q: string)
    requires TypeLen(t + q) == |t|
    ensures StripFrom(out, "::" + t + q) == StripFrom(if NumericCastType(t) then Unquoted(out) else out, q)
  {
    hide TypeLen, NumericCastType, Unquoted;
    var rest := "::" + t + q;
    assert rest[2..] == t + q;
    assert rest[2..2 + |t|] == t;
    assert rest[2 + |t|..] == q;
  }

  lemma {:induction false} StripCopiesPrefix(p: string, q: string)
    requires !HasCast(p) && !(EndsInColon(p) && StartsWithColon(q))
    ensures StripCasts(p + q) == StripFrom(p, q)
  {
    hide StripFrom;
    StripFromCopies([], p, q);
    assert [] + p == p;
    StripCastsIsScan(p + q);
  }

  lemma {:induction false} StripInsertedCast(p: string, t: string, q: string)
    requires !HasCast(p) && !EndsInColon(p) && TypeLen(t + q) == |t|
    ensures StripCasts(p + ("::" + t + q)) == StripFrom(if NumericCastType(t) then Unquoted(p) else p, q)
  {
    hide *;
    StripPrefixBeforeCast(p, "::" + t + q);
    StripAtCast(p, t, q);
  }

  lemma {:induction false} StripPrefixBeforeCast(p: string, r: string)
    requires !HasCast(p) && !EndsInColon(p)
    ensures StripCasts(p + r) == StripFrom(p, r)
  {
    StripCopiesPrefix(p, r);
  }

  /** The scan of lower-cased text around a cast. */
  lemma {:induction false} StripLowerCast(p: string, t: string, q: string)
    requires !HasCast(p) && !EndsInColon(p) && TypeLen(t + q) == |t|
    ensures StripCasts(Lower(p + "::" + t + q)) ==
            StripFrom(if NumericCastType(Lower(t)) then Unquoted(Lower(p)) else Lower(p), Lower(q))
  {
    hide *;
    HasCastLower(p);
    TypeLenLower(t + q);
    LowerConcat(t, q);
    StripInsertedCast(Lower(p), Lower(t), Lower(q));
    assert p + "::" + t + q == p + ("::" + t + q);
    LowerConcat(p, "::" + t + q);
    LowerConcat("::" + t, q);
    LowerConcat("::", t);
    assert Lower("::") == "::" by { LowerIdentity("::"); }
  }

  lemma {:induction false} StripLowerPrefix(p: string, q: string)
    requires !HasCast(p) && !EndsInColon(p)
    ensures StripCasts(Lower(p + q)) == StripFrom(Lower(p), Lower(q))
  {
    hide *;
    HasCastLower(p);
    LowerConcat(p, q);
    StripPrefixBeforeCast(Lower(p), Lower(q));
  }

  lemma CanonicalizeOfScan(s: string, s': string)
    requires StripCasts(Lower(s)) == StripCasts(Lower(s'))
    ensures Canonicalize(s) == Canonicalize(s')
  {
    hide Lower, StripCasts, Collapse, Trim, TightenCommas;
  }

  /**
   Inserting the cast `::t` after `p` is invisible, unless `t` is numeric and `p` ends in a
   quoted number.
   */
  lemma CastIsInvisible(p: string, t: string, q: string)
    requires !HasCast(p) && !EndsInColon(p)
    requires TypeLen(t + q) == |t|
    requires NumericCastType(Lower(t)) ==> Unquoted(Lower(p)) == Lower(p)
    ensures Canonicalize(p + "::" + t + q) == Canonicalize(p + q)
  {
    hide *;
    StripLowerCast(p, t, q);
    StripLowerPrefix(p, q);
    CanonicalizeOfScan(p + "::" + t + q, p + q);
  }

  lemma UnquotedFrom(out: string, start: nat)
    requires |out| >= 2 && out[|out| - 1] == '\'' && LastQuote(out, |out| - 1) == start && NumericLiteral(out[start + 1..|out| - 1])
    ensures Unquoted(out) == out[..start] + out[start + 1..|out| - 1]
  {
    hide NumericLiteral, LastQuote;
  }

  lemma {:induction false} UnquotedLiteral(p: string, n: string)
    requires NumericLiteral(n)
    ensures Unquoted(p + "'" + n + "'") == p + n
  {
    NumericLiteralHasNoColon(n);
    hide NumericLiteral, LastQuote, Unquoted;
    var out := p + "'" + n + "'";
    assert forall j :: |p| < j < |out| - 1 ==> out[j] == n[j - |p| - 1];
    assert out[|p|] == '\'' && out[|out| - 1] == '\'';
    assert LastQuote(out, |out| - 1) == |p|;
    assert out[|p| + 1..|out| - 1] == n && out[..|p|] == p;
    UnquotedFrom(out, |p|);
  }

  lemma NumericLiteralLower(n: string)
    requires NumericLiteral(n)
    ensures Lower(n) == n
  {
    var u := Unsigned(n);
    forall i | 0 <= i < |n| ensures !('A' <= n[i] <= 'Z') {
      if u == n {
        assert IsDigit(u[i]) || u[i] == '.';
      } else if i > 0 {
        assert IsDigit(u[i - 1]) || u[i - 1] == '.';
      }
    }
    LowerIdentity(n);
  }

  lemma {:induction false} QuotedLiteral(p: string, n: string)
    requires !HasCast(p) && NumericLiteral(n)
    ensures !HasCast(p + "'" + n + "'") && !EndsInColon(p + "'" + n + "'")
    ensures !HasCast(p + n) && !EndsInColon(p + n)
    ensures Unquoted(Lower(p + "'" + n + "'")) == Lower(p + n)
  {
    hide NumericLiteral, Unquoted, Lower;
    NumericLiteralHasNoColon(n);
    NumericLiteralLower(n);
    assert !HasCast(n);
    HasCastConcat(p, n);
    HasCastConcat(p + "'" + n, "'");
    HasCastConcat(p + "'", n);
    HasCastConcat(p, "'");
    LowerConcat(p + "'" + n, "'");
    LowerConcat(p + "'", n);
    LowerConcat(p, "'");
    LowerConcat(p, n);
    assert Lower("'") == "'" by { LowerIdentity("'"); }
    UnquotedLiteral(Lower(p), n);
  }

  /** A quoted number cast to a numeric type reads exactly as the bare number. */
  lemma QuotedNumberReadsAsBare(p: string, n: string, t: string, q: string)
    requires !HasCast(p) && NumericLiteral(n)
    requires TypeLen(t + q) == |t| && NumericCastType(Lower(t))
    ensures Canonicalize(p + "'" + n + "'" + "::" + t + q) == Canonicalize(p + n + q)
  {
    hide *;
    QuotedLiteral(p, n);
    StripLowerCast(p + "'" + n + "'", t, q);
    StripLowerPrefix(p + n, q);
    CanonicalizeOfScan(p + "'" + n + "'" + "::" + t + q, p + n + q);
  }

  // ----- which text is a type token --------------------------------------------------

  predicate NameChar(c: char) {
    'a' <= c <= 'z' || 'A' <= c <= 'Z' || '0' <= c <= '9' || c == '_'
  }

  /** The words behind the first in `character varying`, `double precision`, `timestamp with time zone` and the like. */
  predicate TypeWord(w: string) {
    w in {"varying", "precision", "with", "without", "time", "zone"}
  }

  /**
   A type as PostgreSQL renders it: a possibly qualified name, continuation words, an
   optional parenthesized modifier, array markers.
   */
  datatype SqlType = SqlType(qualifier: string, name: string, words: seq<string>, modifier: seq<string>, dims: seq<string>)
  {
    ghost predicate Valid() {
      && name != [] && (forall i :: 0 <= i < |name| ==> NameChar(name[i]))
      && (forall i :: 0 <= i < |qualifier| ==> NameChar(qualifier[i]))
      && (forall i :: 0 <= i < |words| ==> TypeWord(Lower(words[i])))
      && |modifier| <= 1 && (forall i :: 0 <= i < |modifier| ==> Balanced(modifier[i]))
      && (forall i :: 0 <= i < |dims| ==> ']' !in dims[i])
    }

    function Render(): string {
      (if qualifier == [] then name else qualifier + "." + name)
      + RenderWords(words) + RenderGroups(modifier, '(', ')') + RenderGroups(dims, '[', ']')
    }
  }

  function RenderWords(words: seq<string>): string {
    if words == [] then "" else " " + words[0] + RenderWords(words[1..])
  }

  function RenderGroups(groups: seq<string>, open: char, close: char): string {
    if groups == [] then "" else [open] + groups[0] + [close] + RenderGroups(groups[1..], open, close)
  }

  /** From `i` to `j` there is a whole word of a type name, with nothing but blanks in front. */
  predicate ContinuesAt(q: string, i: nat, j: nat) {
    && i < j <= |q| && (forall k :: 0 <= k < i ==> q[k] == ' ' || q[k] == '\t')
    && TypeWord(Lower(q[i..j])) && (j == |q| || !NameChar(q[j]))
  }

  /** Text that cannot extend a type token it follows. */
  ghost predicate CannotExtendType(q: string) {
    && (forall i: nat, j: nat :: i < j <= |q| ==> !ContinuesAt(q, i, j))
    && (q != [] ==> !NameChar(q[0]) && q[0] != '.' && q[0] != '(' && q[0] != '[')
  }

  lemma {:induction false} WordEnds(r: string)
    ensures WordLen(r) == |r| || !NameChar(r[WordLen(r)])
  {
    if r != [] && NameChar(r[0]) {
      WordEnds(r[1..]);
    }
  }

  lemma {:induction false} BlanksOnly(r: string)
    ensures forall k :: 0 <= k < BlankLen(r) ==> r[k] == ' ' || r[k] == '\t'
  {
    if r != [] {
      BlanksOnly(r[1..]);
    }
  }

  lemma NothingContinues(q: string)
    requires CannotExtendType(q)
    ensures ContinuationLen(q) == 0 && (q != [] ==> !WordChar(q[0]) && q[0] != '.' && q[0] != '(' && q[0] != '[')
  {
    var b := BlankLen(q);
    var w := WordLen(q[b..]);
    ContinuationStep(q, b, w);
    assert w > 0 ==> !ContinuesAt(q, b, b + w);
    hide BlankLen, WordLen, Lower, CannotExtendType, ContinuationLen;
    assert q != [] ==> !WordChar(q[0]);
    if w > 0 {
      ContinuationIs(q, b, w);
    }
  }

  lemma ContinuationIs(q: string, b: nat, w: nat)
    requires b <= |q| && w <= |q| - b && b == BlankLen(q) && w == WordLen(q[b..]) && w > 0
    ensures ContinuationWord(Lower(q[b..b + w])) ==> ContinuesAt(q, b, b + w)
  {
    BlanksOnly(q);
    WordEnds(q[b..]);
    assert b + w < |q| ==> q[b..][w] == q[b + w];
    hide BlankLen, WordLen, Lower;
  }

  lemma {:induction false} WordLenConcat(w: string, q: string)
    requires WordLen(w) == |w| && (q != [] ==> !WordChar(q[0]))
    ensures WordLen(w + q) == |w|
  {
    if w == [] {
      assert w + q == q;
    } else {
      assert (w + q)[1..] == w[1..] + q;
      WordLenConcat(w[1..], q);
    }
  }

  lemma NameConsumed(qualifier: string, name: string, q: string)
    requires name != [] && WordLen(name) == |name| && WordLen(qualifier) == |qualifier|
    requires q != [] ==> !WordChar(q[0]) && q[0] != '.'
    ensures var t := if qualifier == [] then name else qualifier + "." + name;
      NameLen(t + q) == |t|
  {
    hide WordLen;
    if qualifier == [] {
      WordLenConcat(name, q);
    } else {
      var r := qualifier + "." + name + q;
      assert r == qualifier + ("." + name + q);
      WordLenConcat(qualifier, "." + name + q);
      assert r[|qualifier| + 1..] == name + q;
      WordLenConcat(name, q);
    }
  }

  lemma {:induction false} WordsConsumed(words: seq<string>, q: string)
    requires forall i :: 0 <= i < |words| ==> ContinuationWord(Lower(words[i]))
    requires ContinuationLen(q) == 0 && (q != [] ==> !WordChar(q[0]))
    ensures ContinuationLen(RenderWords(words) + q) == |RenderWords(words)|
  {
    hide ContinuationLen, ContinuationWord, Lower;
    if words == [] {
      assert RenderWords(words) + q == q;
    } else {
      var rest := RenderWords(words[1..]) + q;
      assert RenderWords(words) + q == " " + words[0] + rest;
      WordsConsumed(words[1..], q);
      assert rest != [] ==> rest[0] == ' ' || rest == q;
      WordConsumed(words[0], rest);
    }
  }

  lemma {:induction false} WordConsumed(w: string, rest: string)
    requires ContinuationWord(Lower(w)) && (rest != [] ==> !WordChar(rest[0]))
    ensures ContinuationLen(" " + w + rest) == 1 + |w| + ContinuationLen(rest)
  {
    hide ContinuationLen, ContinuationWord, Lower, WordLen;
    var r := " " + w + rest;
    ContinuationWordIsWord(w);
    assert r[1..] == w + rest;
    assert BlankLen(r[1..]) == 0;
    WordLenConcat(w, rest);
    assert r[1..1 + |w|] == w;
    assert r[1 + |w|..] == rest;
    ContinuationStep(r, 1, |w|);
  }

  lemma {:induction false} BlankLenOf(g: string, rest: string)
    requires forall i :: 0 <= i < |g| ==> g[i] == ' ' || g[i] == '\t'
    requires rest != [] && rest[0] != ' ' && rest[0] != '\t'
    ensures BlankLen(g + rest) == |g|
  {
    if g == [] {
      assert g + rest == rest;
    } else {
      assert (g + rest)[1..] == g[1..] + rest && (g + rest)[0] == g[0];
      BlankLenOf(g[1..], rest);
    }
  }

  /** A word of a type name continues it behind any number of blanks and tabs. */
  lemma WordBehindBlanks(g: string, w: string, rest: string)
    requires forall i :: 0 <= i < |g| ==> g[i] == ' ' || g[i] == '\t'
    requires TypeWord(Lower(w)) && (rest != [] ==> !NameChar(rest[0]))
    ensures ContinuationLen(g + w + rest) == |g| + |w| + ContinuationLen(rest)
  {
    var r := g + w + rest;
    ContinuationWordIsWord(w);
    hide ContinuationLen, Lower, WordLen, BlankLen;
    assert r == g + (w + rest) && w[0] != ' ' && w[0] != '\t';
    BlankLenOf(g, w + rest);
    assert r[|g|..] == w + rest;
    WordLenConcat(w, rest);
    assert r[|g|..|g| + |w|] == w;
    assert r[|g| + |w|..] == rest;
    ContinuationStep(r, |g|, |w|);
  }

  lemma {:induction false} ContinuationWordIsWord(w: string)
    requires ContinuationWord(Lower(w))
    ensures w != [] && WordLen(w) == |w| && !Blank(w[0])
  {
    WordLenLower(w);
    LowerAt(w, 0);
    hide Lower, WordLen;
    AllWordChars(Lower(w));
    assert WordChar(Lower(w)[0]);
  }

  lemma {:induction false} AllWordChars(w: string)
    requires forall i :: 0 <= i < |w| ==> WordChar(w[i])
    ensures WordLen(w) == |w|
  {
    if w != [] {
      AllWordChars(w[1..]);
    }
  }

  lemma {:induction false} CloseConsumed(m: string, d: nat, q: string)
    requires BalancedFrom(m, d)
    ensures CloseLen(m + ")" + q, d + 1) == |m| + 1
    decreases |m|
  {
    var r := m + ")" + q;
    if m == [] {
    } else {
      assert r[1..] == m[1..] + ")" + q;
      if m[0] == '(' {
        CloseConsumed(m[1..], d + 1, q);
      } else if m[0] == ')' {
        CloseConsumed(m[1..], d - 1, q);
      } else {
        CloseConsumed(m[1..], d, q);
      }
    }
  }

  lemma ModifierConsumed(modifier: seq<string>, q: string)
    requires |modifier| <= 1 && (forall i :: 0 <= i < |modifier| ==> Balanced(modifier[i]))
    requires q != [] ==> q[0] != '('
    ensures ModifierLen(RenderGroups(modifier, '(', ')') + q) == |RenderGroups(modifier, '(', ')')|
  {
    if modifier == [] {
      assert RenderGroups(modifier, '(', ')') + q == q;
    } else {
      assert RenderGroups(modifier[1..], '(', ')') == "";
      var m := modifier[0];
      var r := "(" + m + ")" + q;
      assert RenderGroups(modifier, '(', ')') == "(" + m + ")";
      assert r[1..] == m + ")" + q;
      CloseConsumed(m, 0, q);
    }
  }

  lemma {:induction false} BracketConsumed(d: string, q: string)
    requires ']' !in d
    ensures BracketLen(d + "]" + q) == |d| + 1
  {
    var r := d + "]" + q;
    if d != [] {
      assert r[1..] == d[1..] + "]" + q;
      assert r[0] == d[0];
      BracketConsumed(d[1..], q);
    }
  }

  lemma {:induction false} DimsConsumed(dims: seq<string>, q: string)
    requires forall i :: 0 <= i < |dims| ==> ']' !in dims[i]
    requires q != [] ==> q[0] != '['
    ensures ArrayLen(RenderGroups(dims, '[', ']') + q) == |RenderGroups(dims, '[', ']')|
  {
    if dims == [] {
      assert RenderGroups(dims, '[', ']') + q == q;
    } else {
      var d := dims[0];
      var rest := RenderGroups(dims[1..], '[', ']') + q;
      var r := "[" + d + "]" + rest;
      assert RenderGroups(dims, '[', ']') + q == r;
      DimsConsumed(dims[1..], q);
      hide ArrayLen;
      DimConsumed(d, rest);
    }
  }

  lemma DimConsumed(d: string, rest: string)
    requires ']' !in d
    ensures ArrayLen("[" + d + "]" + rest) == |d| + 2 + ArrayLen(rest)
  {
    var r := "[" + d + "]" + rest;
    assert r[1..] == d + "]" + rest;
    BracketConsumed(d, rest);
    hide BracketLen;
    assert r[1 + BracketLen(r[1..])..] == rest;
  }

  /** A rendered type in front of text that cannot extend it is consumed exactly. */
  lemma RenderedTypeConsumed(t: SqlType, q: string)
    requires t.Valid() && CannotExtendType(q)
    ensures TypeLen(t.Render() + q) == |t.Render()|
  {
    hide *;
    NothingContinues(q);
    var n := if t.qualifier == [] then t.name else t.qualifier + "." + t.name;
    var w, m, d := RenderWords(t.words), RenderGroups(t.modifier, '(', ')'), RenderGroups(t.dims, '[', ']');
    RenderParts(t, n, w, m, d);
    var r1 := m + (d + q);
    FirstChars(t, q);
    NameConsumed(t.qualifier, t.name, w + r1);
    NoContinuation(r1, q);
    WordsConsumed(t.words, r1);
    ModifierConsumed(t.modifier, d + q);
    DimsConsumed(t.dims, q);
    TypeLenSum(n, w, m, d, q);
    FiveParts(n, w, m, d, q);
  }

  lemma FiveParts(n: string, w: string, m: string, d: string, q: string)
    ensures n + (w + (m + (d + q))) == n + w + m + d + q
  {
  }

  lemma RenderParts(t: SqlType, n: string, w: string, m: string, d: string)
    requires n == if t.qualifier == [] then t.name else t.qualifier + "." + t.name
    requires w == RenderWords(t.words) && m == RenderGroups(t.modifier, '(', ')') && d == RenderGroups(t.dims, '[', ']')
    ensures t.Render() == n + w + m + d
    ensures t.Valid() ==>
      && t.name != [] && WordLen(t.name) == |t.name| && WordLen(t.qualifier) == |t.qualifier|
      && (forall i :: 0 <= i < |t.words| ==> ContinuationWord(Lower(t.words[i])))
      && |t.modifier| <= 1 && (forall i :: 0 <= i < |t.modifier| ==> Balanced(t.modifier[i]))
      && (forall i :: 0 <= i < |t.dims| ==> ']' !in t.dims[i])
  {
    hide RenderWords, RenderGroups, WordLen, Lower;
    if t.Valid() {
      AllWordChars(t.name);
      AllWordChars(t.qualifier);
    }
  }

  /** The first character of a group list in front of `q`, if there is any. */
  lemma GroupFirst(groups: seq<string>, open: char, close: char, q: string)
    ensures var r := RenderGroups(groups, open, close) + q; if groups == [] then r == q else r != [] && r[0] == open
  {
    assert groups == [] ==> RenderGroups(groups, open, close) + q == q;
  }

  lemma WordsFirst(words: seq<string>, q: string)
    ensures var r := RenderWords(words) + q; if words == [] then r == q else r != [] && r[0] == ' '
  {
    assert words == [] ==> RenderWords(words) + q == q;
  }

  lemma FirstChars(t: SqlType, q: string)
    requires ContinuationLen(q) == 0 && (q != [] ==> !WordChar(q[0]) && q[0] != '.' && q[0] != '(' && q[0] != '[')
    ensures var w, m, d := RenderWords(t.words), RenderGroups(t.modifier, '(', ')'), RenderGroups(t.dims, '[', ']');
      && ContinuationLen(q) == 0
      && (q != [] ==> q[0] != '[')
      && (d + q != [] ==> (d + q)[0] != '(')
      && (m + (d + q) == q || (m + (d + q) != [] && ((m + (d + q))[0] == '(' || (m + (d + q))[0] == '[')))
      && (m + (d + q) != [] ==> !WordChar((m + (d + q))[0]))
      && (w + (m + (d + q)) != [] ==> !WordChar((w + (m + (d + q)))[0]) && (w + (m + (d + q)))[0] != '.')
  {
    var w, m, d := RenderWords(t.words), RenderGroups(t.modifier, '(', ')'), RenderGroups(t.dims, '[', ']');
    hide ContinuationLen, RenderWords, RenderGroups;
    GroupFirst(t.dims, '[', ']', q);
    GroupFirst(t.modifier, '(', ')', d + q);
    WordsFirst(t.words, m + (d + q));
  }

  lemma {:induction false} TypeLenSum(n: string, w: string, m: string, d: string, q: string)
    requires NameLen(n + (w + (m + (d + q)))) == |n|
    requires ContinuationLen(w + (m + (d + q))) == |w|
    requires ModifierLen(m + (d + q)) == |m| && ArrayLen(d + q) == |d|
    ensures TypeLen(n + (w + (m + (d + q)))) == |n| + |w| + |m| + |d|
  {
    hide NameLen, ContinuationLen, ModifierLen, ArrayLen;
    var z := d + q;
    var y := m + z;
    var x := w + y;
    var r := n + x;
    DropPrefix(n, x);
    DropPrefix(w, y);
    DropPrefix(m, z);
    DropDrop(r, |n|, |n| + |w|);
    DropDrop(r, |n| + |w|, |n| + |w| + |m|);
  }

  lemma NoContinuation(r: string, q: string)
    requires ContinuationLen(q) == 0
    requires r == q || (r != [] && (r[0] == '(' || r[0] == '['))
    ensures ContinuationLen(r) == 0
  {
    if r != q {
      assert BlankLen(r) == 0;
      assert r[0..] == r;
      assert WordLen(r) == 0;
    }
  }
}
