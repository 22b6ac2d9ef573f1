/** Double quotes around an identifier always show in its canonical form. */
module QuoteLaws {
  import opened Text
  import opened Canonical

  // ----- quoting -------------------------------------------------------------------------------

  /** Every double quote written twice. */
  function Doubled(s: string): string {
    if s == [] then [] else (if s[0] == '"' then "\"\"" else [s[0]]) + Doubled(s[1..])
  }

  /** An identifier in double quotes. */
  function Quoted(c: string): string {
    "\"" + Doubled(c) + "\""
  }

  /** The text the scan sees behind the opening quote. */
  function Behind(r: string): string {
    Doubled(r) + "\""
  }

  function Marks(s: string): nat {
    if s == [] then 0 else (if s[0] == '"' then 1 else 0) + Marks(s[1..])
  }

  lemma {:induction false} MarksConcat(a: string, b: string)
    ensures Marks(a + b) == Marks(a) + Marks(b)
  {
    if a == [] {
      assert a + b == b;
    } else {
      assert (a + b)[0] == a[0] && (a + b)[1..] == a[1..] + b;
      MarksConcat(a[1..], b);
    }
  }

  lemma {:induction false} NoMarks(s: string)
    requires '"' !in s
    ensures Marks(s) == 0 && Doubled(s) == s
  {
    if s != [] {
      NoMarks(s[1..]);
    }
  }

  lemma {:induction false} DoubledConcat(a: string, b: string)
    ensures Doubled(a + b) == Doubled(a) + Doubled(b)
  {
    if a == [] {
      assert a + b == b;
    } else {
      assert (a + b)[0] == a[0] && (a + b)[1..] == a[1..] + b;
      DoubledConcat(a[1..], b);
    }
  }

  /** Cutting the doubled text where the text is cut. */
  lemma BehindFrom(r: string, k: nat)
    requires k <= |r|
    ensures |Doubled(r[..k])| <= |Behind(r)|
    ensures Behind(r)[|Doubled(r[..k])|..] == Behind(r[k..]) && Behind(r)[..|Doubled(r[..k])|] == Doubled(r[..k])
  {
    DoubledConcat(r[..k], r[k..]);
    assert r[..k] + r[k..] == r;
    assert Behind(r) == Doubled(r[..k]) + Behind(r[k..]);
  }

  /** Without double quotes in front, the cut is at the same place. */
  lemma BehindPlain(r: string, k: nat)
    requires k <= |r| && '"' !in r[..k]
    ensures k <= |Behind(r)| && Behind(r)[k..] == Behind(r[k..]) && Behind(r)[..k] == r[..k]
  {
    BehindFrom(r, k);
    NoMarks(r[..k]);
  }

  lemma BehindHead(r: string)
    ensures Behind(r) != "" && Behind(r)[0] == if r == "" then '"' else r[0]
  {
    if r != "" {
      assert r == [r[0]] + r[1..];
    }
  }

  // ----- type tokens ------------------------------------------------------------------------------

  lemma {:induction false} WordLenPlain(r: string)
    ensures '"' !in r[..WordLen(r)] && WordLen(Behind(r)) == WordLen(r)
  {
    BehindHead(r);
    if r != [] && WordChar(r[0]) {
      WordLenPlain(r[1..]);
      assert r[..1] == [r[0]];
      BehindPlain(r, 1);
      assert r[..WordLen(r)] == [r[0]] + r[1..][..WordLen(r[1..])];
    }
  }

  lemma {:induction false} BlankLenPlain(r: string)
    ensures '"' !in r[..BlankLen(r)] && BlankLen(Behind(r)) == BlankLen(r)
  {
    BehindHead(r);
    if r != [] && Blank(r[0]) {
      BlankLenPlain(r[1..]);
      assert r[..1] == [r[0]];
      BehindPlain(r, 1);
      assert r[..BlankLen(r)] == [r[0]] + r[1..][..BlankLen(r[1..])];
    }
  }

  lemma NameLenPlain(r: string)
    ensures '"' !in r[..NameLen(r)] && NameLen(Behind(r)) == NameLen(r)
  {
    hide WordLen, Behind;
    WordLenPlain(r);
    var n := WordLen(r);
    BehindPlain(r, n);
    BehindHead(r[n..]);
    if n < |r| && r[n] == '.' {
      assert r[..n + 1] == r[..n] + ['.'];
      BehindPlain(r, n + 1);
      WordLenPlain(r[n + 1..]);
      var m := WordLen(r[n + 1..]);
      assert r[..n + 1 + m] == r[..n + 1] + r[n + 1..][..m];
      assert Behind(r)[n] == Behind(r)[n..][0];
    } else {
      assert n < |Behind(r)| && Behind(r)[n] == Behind(r)[n..][0];
    }
  }

  lemma {:induction false} ContinuationLenPlain(r: string)
    ensures '"' !in r[..ContinuationLen(r)] && ContinuationLen(Behind(r)) == ContinuationLen(r)
    decreases |r|
  {
    hide WordLen, BlankLen, ContinuationWord, Lower, Behind, ContinuationLen;
    BlankLenPlain(r);
    var b := BlankLen(r);
    BehindPlain(r, b);
    WordLenPlain(r[b..]);
    var w := WordLen(r[b..]);
    assert r[..b + w] == r[..b] + r[b..][..w];
    BehindPlain(r, b + w);
    assert Behind(r)[b..b + w] == Behind(r)[..b + w][b..] == r[..b + w][b..] == r[b..b + w];
    ContinuationStep(r, b, w);
    ContinuationStep(Behind(r), b, w);
    if w > 0 {
      ContinuationLenPlain(r[b + w..]);
      var k := ContinuationLen(r[b + w..]);
      assert r[..b + w + k] == r[..b + w] + r[b + w..][..k];
    }
    assert r[..0] == "";
  }

  /** Swallowed text that ends before the text does. */
  lemma {:induction false} CloseLenDoubled(r: string, d: nat)
    requires d > 0
    ensures CloseLen(r, d) < |r| ==> CloseLen(Behind(r), d) == |Doubled(r[..CloseLen(r, d)])|
    decreases |r|
  {
    if r != [] {
      var d' := if r[0] == '(' then d + 1 else if r[0] == ')' then d - 1 else d;
      assert Behind(r) == (if r[0] == '"' then "\"\"" else [r[0]]) + Behind(r[1..]);
      var k := CloseLen(r, d);
      assert r[..k] == [r[0]] + r[1..][..k - 1];
      if d' > 0 {
        CloseLenDoubled(r[1..], d');
        DoubledCons(r[0], r[1..][..k - 1]);
        if r[0] == '"' {
          CloseLenTwice(Behind(r[1..]), d);
        } else {
          assert Behind(r)[1..] == Behind(r[1..]);
        }
      } else {
        assert k == 1 && r[..1] == ")";
        NoMarks(r[..1]);
      }
    }
  }

  lemma DoubledCons(c: char, s: string)
    ensures Doubled([c] + s) == (if c == '"' then "\"\"" else [c]) + Doubled(s)
  {
    assert ([c] + s)[1..] == s;
  }

  lemma CloseLenTwice(x: string, d: nat)
    requires d > 0
    ensures CloseLen("\"\"" + x, d) == 2 + CloseLen(x, d)
  {
    var s := "\"\"" + x;
    assert s[1..] == "\"" + x && s[1..][1..] == x;
    assert CloseLen(s[1..], d) == 1 + CloseLen(x, d);
  }

  lemma ModifierLenDoubled(r: string)
    ensures ModifierLen(r) < |r| ==> ModifierLen(Behind(r)) == |Doubled(r[..ModifierLen(r)])|
  {
    hide CloseLen, Behind;
    BehindHead(r);
    if r != [] && r[0] == '(' {
      assert r[..1] == "(";
      BehindPlain(r, 1);
      CloseLenDoubled(r[1..], 1);
      var k := CloseLen(r[1..], 1);
      assert r[..1 + k] == ['('] + r[1..][..k];
      DoubledCons('(', r[1..][..k]);
    } else {
      assert r[..0] == "";
    }
  }

  lemma {:induction false} BracketLenDoubled(r: string)
    ensures BracketLen(r) < |r| ==> BracketLen(Behind(r)) == |Doubled(r[..BracketLen(r)])|
  {
    if r != [] {
      assert Behind(r) == (if r[0] == '"' then "\"\"" else [r[0]]) + Behind(r[1..]);
      var k := BracketLen(r);
      assert r[..k] == [r[0]] + r[1..][..k - 1];
      DoubledCons(r[0], r[1..][..k - 1]);
      if r[0] == ']' {
        assert Doubled(r[1..][..0]) == "";
      } else {
        BracketLenDoubled(r[1..]);
        if r[0] == '"' {
          BracketLenTwice(Behind(r[1..]));
        } else {
          assert Behind(r)[1..] == Behind(r[1..]);
        }
      }
    }
  }

  lemma BracketLenTwice(x: string)
    ensures BracketLen("\"\"" + x) == 2 + BracketLen(x)
  {
    var s := "\"\"" + x;
    assert s[1..] == "\"" + x && s[1..][1..] == x;
    assert BracketLen(s[1..]) == 1 + BracketLen(x);
  }

  lemma {:induction false} ArrayLenDoubled(r: string)
    ensures ArrayLen(r) < |r| ==> ArrayLen(Behind(r)) == |Doubled(r[..ArrayLen(r)])|
    decreases |r|
  {
    hide BracketLen, Behind;
    BehindHead(r);
    if r != [] && r[0] == '[' {
      assert r[..1] == "[";
      BehindPlain(r, 1);
      BracketLenDoubled(r[1..]);
      var k := 1 + BracketLen(r[1..]);
      if k < |r| {
        assert r[..k] == ['['] + r[1..][..k - 1];
        DoubledCons('[', r[1..][..k - 1]);
        BehindFrom(r, k);
        ArrayLenDoubled(r[k..]);
        var m := ArrayLen(r[k..]);
        assert r[..k + m] == r[..k] + r[k..][..m];
        DoubledConcat(r[..k], r[k..][..m]);
      }
    } else {
      assert r[..0] == "";
    }
  }

  /** A type token that ends before the text does ends at the same place of the doubled text. */
  lemma TypeLenDoubled(r: string)
    ensures TypeLen(r) < |r| ==> TypeLen(Behind(r)) == |Doubled(r[..TypeLen(r)])|
  {
    hide NameLen, ContinuationLen, ModifierLen, ArrayLen, Behind, Doubled;
    NameLenPlain(r);
    var a := NameLen(r);
    BehindPlain(r, a);
    ContinuationLenPlain(r[a..]);
    var b := a + ContinuationLen(r[a..]);
    assert r[..b] == r[..a] + r[a..][..b - a];
    BehindPlain(r, b);
    NoMarks(r[..b]);
    ModifierLenDoubled(r[b..]);
    var c := b + ModifierLen(r[b..]);
    if c < |r| {
      assert r[..c] == r[..b] + r[b..][..c - b];
      DoubledConcat(r[..b], r[b..][..c - b]);
      BehindFrom(r, c);
      ArrayLenDoubled(r[c..]);
      var n := c + ArrayLen(r[c..]);
      assert r[..n] == r[..c] + r[c..][..n - c];
      DoubledConcat(r[..c], r[c..][..n - c]);
    }
  }

  // ----- what the scan keeps -----------------------------------------------------------------------

  /** The double quotes that removing casts leaves in `rest`. */
  function MarksKept(rest: string): nat
    decreases |rest|
  {
    if rest == [] then 0
    else if |rest| >= 2 && rest[0] == ':' && rest[1] == ':' then MarksKept(rest[2 + TypeLen(rest[2..])..])
    else (if rest[0] == '"' then 1 else 0) + MarksKept(rest[1..])
  }

  lemma UnquotedKeepsMarks(out: string)
    ensures Marks(Unquoted(out)) == Marks(out)
  {
    hide Marks, NumericLiteral, LastQuote;
    if Unquoted(out) != out {
      var start := LastQuote(out, |out| - 1);
      var a, content := out[..start], out[start + 1..|out| - 1];
      assert out == a + ("'" + content + "'");
      MarksConcat(a, "'" + content + "'");
      MarksConcat("'" + content, "'");
      MarksConcat("'", content);
      MarksConcat(a, content);
      NoMarks("'");
    }
  }

  lemma {:induction false} StripKeepsMarks(out: string, rest: string)
    ensures Marks(StripFrom(out, rest)) == Marks(out) + MarksKept(rest)
    decreases |rest|
  {
    hide TypeLen, NumericCastType, Unquoted;
    if rest == [] {
    } else if |rest| >= 2 && rest[0] == ':' && rest[1] == ':' {
      var n := TypeLen(rest[2..]);
      UnquotedKeepsMarks(out);
      StripKeepsMarks(if NumericCastType(rest[2..2 + n]) then Unquoted(out) else out, rest[2 + n..]);
    } else {
      MarksConcat(out, [rest[0]]);
      assert [rest[0]][1..] == [];
      StripKeepsMarks(out + [rest[0]], rest[1..]);
    }
  }

  lemma {:induction false} CollapseKeepsMarks(b: string, pending: bool, rest: string)
    ensures Marks(CollapseFrom(b, pending, rest)) == Marks(b) + Marks(rest)
    decreases |rest|
  {
    if rest != [] {
      var gap := if pending && b != [] then " " else "";
      if Paren(rest[0]) {
        CollapseKeepsMarks(b, pending, rest[1..]);
      } else if Gap(rest[0]) {
        CollapseKeepsMarks(b, true, rest[1..]);
      } else {
        CollapseKeepsMarks(b + gap + [rest[0]], false, rest[1..]);
        MarksConcat(b + gap, [rest[0]]);
        MarksConcat(b, gap);
        NoMarks(gap);
        assert [rest[0]][1..] == [];
      }
    }
  }

  lemma TrimKeepsMarks(s: string)
    ensures Marks(Trim(s)) == Marks(s)
  {
    hide Trim;
    var a, b := TrimSplit(s);
    MarksConcat(a + Trim(s), b);
    MarksConcat(a, Trim(s));
    NoMarks(a);
    NoMarks(b);
  }

  lemma {:induction false} ReplacePairKeepsMarks(s: string, x: char, y: char, keep: char)
    requires x != '"' && y != '"' && keep != '"'
    ensures Marks(ReplacePair(s, x, y, keep)) == Marks(s)
    decreases |s|
  {
    if |s| >= 2 {
      if s[0] == x && s[1] == y {
        ReplacePairKeepsMarks(s[2..], x, y, keep);
        assert s == [s[0], s[1]] + s[2..];
        MarksConcat([s[0], s[1]], s[2..]);
        NoMarks([s[0], s[1]]);
        MarksConcat([keep], ReplacePair(s[2..], x, y, keep));
        NoMarks([keep]);
      } else {
        ReplacePairKeepsMarks(s[1..], x, y, keep);
        var r := ReplacePair(s, x, y, keep);
        assert r[1..] == ReplacePair(s[1..], x, y, keep);
      }
    }
  }

  /** The double quotes of a canonical form. */
  lemma CanonicalMarks(s: string)
    ensures Marks(Canonicalize(s)) == MarksKept(Lower(s))
  {
    hide StripFrom, CollapseFrom, Trim, ReplacePair, Lower, MarksKept;
    var a := StripCasts(Lower(s));
    var b := Collapse(a);
    StripKeepsMarks("", Lower(s));
    CollapseKeepsMarks("", false, a);
    TrimKeepsMarks(b);
    ReplacePairKeepsMarks(Trim(b), ',', ' ', ',');
    ReplacePairKeepsMarks(ReplacePair(Trim(b), ',', ' ', ','), ' ', ',', ',');
  }

  /** Doubling the double quotes and adding one behind never loses any. */
  lemma {:induction false} BehindKeepsMore(r: string)
    ensures MarksKept(Behind(r)) >= MarksKept(r)
    decreases |r|
  {
    hide TypeLen;
    if r != [] {
      if |r| >= 2 && r[0] == ':' && r[1] == ':' {
        CastBehind(r);
        var n := TypeLen(r[2..]);
        if n < |r[2..]| {
          BehindKeepsMore(r[2 + n..]);
        }
      } else {
        BehindKeepsMore(r[1..]);
        NoCastBehind(r);
      }
    }
  }

  lemma CastBehind(r: string)
    requires |r| >= 2 && r[0] == ':' && r[1] == ':'
    ensures var n := TypeLen(r[2..]);
      n < |r[2..]| ==> MarksKept(Behind(r)) == MarksKept(Behind(r[2 + n..]))
  {
    hide TypeLen, Behind;
    assert r[..2] == "::";
    BehindPlain(r, 2);
    var x := Behind(r);
    assert x[0] == x[..2][0] && x[1] == x[..2][1];
    var n := TypeLen(r[2..]);
    TypeLenDoubled(r[2..]);
    BehindFrom(r[2..], n);
    if n < |r[2..]| {
      var m := TypeLen(x[2..]);
      assert x[2 + m..] == x[2..][m..];
      assert r[2..][n..] == r[2 + n..];
    }
  }

  lemma NoCastBehind(r: string)
    requires r != [] && !(|r| >= 2 && r[0] == ':' && r[1] == ':')
    ensures MarksKept(Behind(r)) >= (if r[0] == '"' then 1 else 0) + MarksKept(Behind(r[1..]))
  {
    hide TypeLen;
    var x := Behind(r);
    assert x == (if r[0] == '"' then "\"\"" else [r[0]]) + Behind(r[1..]);
    if r[0] == '"' {
      assert x[1..] == "\"" + Behind(r[1..]) && x[1..][1..] == Behind(r[1..]);
      assert MarksKept(x) == 1 + MarksKept(x[1..]);
      assert MarksKept(x[1..]) == 1 + MarksKept(x[1..][1..]);
    } else {
      assert x[1..] == Behind(r[1..]);
      BehindHead(r[1..]);
      assert x[1] == Behind(r[1..])[0];
    }
  }

  lemma {:induction false} LowerDoubled(c: string)
    ensures Lower(Doubled(c)) == Doubled(Lower(c))
  {
    if c != [] {
      var head := if c[0] == '"' then "\"\"" else [c[0]];
      LowerConcat(head, Doubled(c[1..]));
      LowerDoubled(c[1..]);
      LowerIs(head, if c[0] == '"' then "\"\"" else [LowerChar(c[0])]);
      assert Lower(c) == [LowerChar(c[0])] + Lower(c[1..]);
      DoubledCons(LowerChar(c[0]), Lower(c[1..]));
    }
  }

  lemma LowerQuoted(c: string)
    ensures Lower(Quoted(c)) == "\"" + Behind(Lower(c))
  {
    LowerDoubled(c);
    LowerIs("\"", "\"");
    LowerConcat("\"" + Doubled(c), "\"");
    LowerConcat("\"", Doubled(c));
    hide Lower, Doubled;
  }

  /** A quoted identifier never has the canonical form of the bare one. */
  lemma QuotingIsVisible(c: string)
    ensures Canonicalize(Quoted(c)) != Canonicalize(c)
  {
    hide Canonicalize, Lower, Quoted, Behind;
    CanonicalMarks(Quoted(c));
    CanonicalMarks(c);
    LowerQuoted(c);
    BehindKeepsMore(Lower(c));
    FirstMark(Behind(Lower(c)));
  }

  lemma FirstMark(x: string)
    ensures MarksKept("\"" + x) == 1 + MarksKept(x)
  {
    hide TypeLen;
    assert ("\"" + x)[1..] == x;
  }
}
