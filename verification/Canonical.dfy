/**
 The canonical comparison form of a SQL fragment: lower case, no `::type` casts, no
 parentheses, single blanks, no blanks around commas.  Every expression comparator of
 the planner compares these forms.

 The specification half describes a scan over the remaining text; the imperative half
 is the index-driven byte scanner, proved to compute the same result.
 */
module Canonical {
  import opened Text

  // ----- type tokens -----------------------------------------------------------------

  predicate WordChar(c: char) {
    'a' <= c <= 'z' || 'A' <= c <= 'Z' || '0' <= c <= '9' || c == '_'
  }

  predicate Blank(c: char) {
    c == ' ' || c == '\t'
  }

  /** Second and later words that may continue a multi-word type name. */
  predicate ContinuationWord(w: string) {
    w == "varying" || w == "precision" || w == "with" || w == "without" || w == "time" || w == "zone"
  }

  /** Length of the longest prefix made of word characters. */
  function WordLen(r: string): (n: nat)
    ensures n <= |r|
  {
    if r != [] && WordChar(r[0]) then 1 + WordLen(r[1..]) else 0
  }

  function BlankLen(r: string): (n: nat)
    ensures n <= |r|
  {
    if r != [] && Blank(r[0]) then 1 + BlankLen(r[1..]) else 0
  }

  /** A word, optionally continued by a dot and a second word. */
  function NameLen(r: string): (n: nat)
    ensures n <= |r|
  {
    var n := WordLen(r);
    if n < |r| && r[n] == '.' && WordLen(r[n + 1..]) > 0 then n + 1 + WordLen(r[n + 1..]) else n
  }

  /** The run of blank-separated continuation words in front of `r`. */
  function ContinuationLen(r: string): (n: nat)
    ensures n <= |r|
    decreases |r|
  {
    var b := BlankLen(r);
    var w := WordLen(r[b..]);
    if w > 0 && ContinuationWord(Lower(r[b..b + w])) then b + w + ContinuationLen(r[b + w..]) else 0
  }

  /** Characters up to and including the parenthesis that closes depth `d`, or all of them. */
  function CloseLen(r: string, d: nat): (n: nat)
    requires d > 0
    ensures n <= |r|
  {
    if r == [] then 0
    else if r[0] == '(' then 1 + CloseLen(r[1..], d + 1)
    else if r[0] == ')' then if d == 1 then 1 else 1 + CloseLen(r[1..], d - 1)
    else 1 + CloseLen(r[1..], d)
  }

  function ModifierLen(r: string): (n: nat)
    ensures n <= |r|
  {
    if r != [] && r[0] == '(' then 1 + CloseLen(r[1..], 1) else 0
  }

  /** Characters up to and including the next closing bracket, or all of them. */
  function BracketLen(r: string): (n: nat)
    ensures n <= |r|
  {
    if r == [] then 0 else if r[0] == ']' then 1 else 1 + BracketLen(r[1..])
  }

  function ArrayLen(r: string): (n: nat)
    ensures n <= |r|
    decreases |r|
  {
    if r != [] && r[0] == '[' then
      var k := 1 + BracketLen(r[1..]);
      k + ArrayLen(r[k..])
    else 0
  }

  /** Length of the type token at the front of `r`. */
  function TypeLen(r: string): (n: nat)
    ensures n <= |r|
  {
    var a := NameLen(r);
    var b := a + ContinuationLen(r[a..]);
    var c := b + ModifierLen(r[b..]);
    c + ArrayLen(r[c..])
  }

  // ----- numeric literals ------------------------------------------------------------

  function CountChar(s: string, c: char): nat {
    if s == [] then 0 else CountChar(s[..|s| - 1], c) + if s[|s| - 1] == c then 1 else 0
  }

  function Unsigned(b: string): string {
    if b != [] && (b[0] == '+' || b[0] == '-') then b[1..] else b
  }

  /** An optional sign, then digits with at most one dot among them and at least one digit. */
  predicate NumericLiteral(b: string) {
    var u := Unsigned(b);
    && (forall i :: 0 <= i < |u| ==> IsDigit(u[i]) || u[i] == '.')
    && (exists i :: 0 <= i < |u| && IsDigit(u[i]))
    && CountChar(u, '.') <= 1
  }

  predicate NumericTypeName(name: string) {
    || name == "smallint" || name == "integer" || name == "int" || name == "int2" || name == "int4"
    || name == "int8" || name == "bigint" || name == "numeric" || name == "decimal" || name == "real"
    || name == "double precision" || name == "float" || name == "float4" || name == "float8"
  }

  predicate NumericCastType(t: string) {
    var name := Trim(t);
    var p := IndexOfChar(name, '(');
    NumericTypeName(if p >= 0 then Trim(name[..p]) else name)
  }

  /** Position of the last quote strictly before `end`, or -1. */
  function LastQuote(out: string, end: nat): (r: int)
    requires end <= |out|
    ensures -1 <= r < end
    ensures r >= 0 ==> out[r] == '\''
    ensures forall j :: r < j < end ==> out[j] != '\''
  {
    if end == 0 then -1
    else if out[end - 1] == '\'' then end - 1
    else LastQuote(out, end - 1)
  }

  /** Drops the quotes of a numeric literal that ends `out`. */
  function Unquoted(out: string): string {
    if |out| < 2 || out[|out| - 1] != '\'' then out
    else
      var start := LastQuote(out, |out| - 1);
      if start < 0 || !NumericLiteral(out[start + 1..|out| - 1]) then out
      else out[..start] + out[start + 1..|out| - 1]
  }

  // ----- cast removal ----------------------------------------------------------------

  /** The remaining scan: `out` is the text emitted so far, `rest` what is still to read. */
  function StripFrom(out: string, rest: string): string
    decreases |rest|
  {
    if rest == [] then out
    else if |rest| >= 2 && rest[0] == ':' && rest[1] == ':' then
      var n := TypeLen(rest[2..]);
      StripFrom(if NumericCastType(rest[2..2 + n]) then Unquoted(out) else out, rest[2 + n..])
    else StripFrom(out + [rest[0]], rest[1..])
  }

  function StripCasts(s: string): string {
    StripFrom([], s)
  }

  // ----- blanks, parentheses, commas -------------------------------------------------

  predicate Paren(c: char) { c == '(' || c == ')' }

  /** The white space that the scanner collapses. */
  predicate Gap(c: char) { c == ' ' || c == '\t' || c == '\n' || c == '\r' }

  /** The remaining collapse: `b` is the text built so far, `pending` whether a gap was seen. */
  function CollapseFrom(b: string, pending: bool, rest: string): string
    decreases |rest|
  {
    if rest == [] then b
    else if Paren(rest[0]) then CollapseFrom(b, pending, rest[1..])
    else if Gap(rest[0]) then CollapseFrom(b, true, rest[1..])
    else CollapseFrom(b + (if pending && b != [] then " " else "") + [rest[0]], false, rest[1..])
  }

  function Collapse(s: string): string {
    CollapseFrom([], false, s)
  }

  /** `strings.ReplaceAll(s, [x, y], [keep])` for a two-character pattern. */
  function ReplacePair(s: string, x: char, y: char, keep: char): string
    decreases |s|
  {
    if |s| < 2 then s
    else if s[0] == x && s[1] == y then [keep] + ReplacePair(s[2..], x, y, keep)
    else [s[0]] + ReplacePair(s[1..], x, y, keep)
  }

  function TightenCommas(s: string): string {
    ReplacePair(ReplacePair(s, ',', ' ', ','), ' ', ',', ',')
  }

  /** The canonical comparison form. */
  function Canonicalize(s: string): string {
    TightenCommas(Trim(Collapse(StripCasts(Lower(s)))))
  }

  // ----- the scanner -----------------------------------------------------------------

  method ConsumeWord(s: string, from: nat) returns (j: nat)
    requires from <= |s|
    ensures j == from + WordLen(s[from..])
  {
    j := from;
    while j < |s| && WordChar(s[j])
      invariant from <= j <= |s|
      invariant from + WordLen(s[from..]) == j + WordLen(s[j..])
    {
      assert s[j..][1..] == s[j + 1..];
      j := j + 1;
    }
  }

  method SkipTypeToken(s: string, from: nat) returns (i: nat)
    requires from <= |s|
    ensures i == from + TypeLen(s[from..])
    ensures from <= i <= |s|
  {
    var a := SkipName(s, from);
    var b := SkipContinuations(s, a);
    var c := SkipModifier(s, b);
    i := SkipArrayMarkers(s, c);
    TypeLenParts(s, from, a, b, c, i);
  }

  lemma {:induction false} TypeLenParts(s: string, from: nat, a: nat, b: nat, c: nat, d: nat)
    requires from <= a <= b <= c <= d <= |s|
    requires a == from + NameLen(s[from..]) && b == a + ContinuationLen(s[a..])
    requires c == b + ModifierLen(s[b..]) && d == c + ArrayLen(s[c..])
    ensures d == from + TypeLen(s[from..])
  {
    hide NameLen, ContinuationLen, ModifierLen, ArrayLen;
    DropDrop(s, from, a);
    DropDrop(s, from, b);
    DropDrop(s, from, c);
  }

  method SkipName(s: string, from: nat) returns (i: nat)
    requires from <= |s|
    ensures i == from + NameLen(s[from..])
  {
    i := ConsumeWord(s, from);
    if i < |s| && s[i] == '.' {
      var next := ConsumeWord(s, i + 1);
      DropDrop(s, from, i + 1);
      if next > i + 1 {
        i := next;
      }
    }
  }

  method SkipContinuations(s: string, from: nat) returns (i: nat)
    requires from <= |s|
    ensures i == from + ContinuationLen(s[from..])
  {
    i := from;
    while true
      invariant from <= i <= |s|
      invariant i + ContinuationLen(s[i..]) == from + ContinuationLen(s[from..])
      decreases |s| - i
    {
      var j := SkipBlanks(s, i);
      var next := ConsumeWord(s, j);
      ContinuationUnfold(s, i, j, next);
      if next == j {
        break;
      }
      if !ContinuationWord(Lower(s[j..next])) {
        break;
      }
      i := next;
    }
  }

  lemma {:induction false} ContinuationUnfold(s: string, i: nat, j: nat, next: nat)
    requires i <= j <= next <= |s|
    requires j == i + BlankLen(s[i..]) && next == j + WordLen(s[j..])
    ensures ContinuationLen(s[i..]) ==
            if next > j && ContinuationWord(Lower(s[j..next])) then next - i + ContinuationLen(s[next..]) else 0
  {
    hide *;
    var r, b, w := s[i..], j - i, next - j;
    assert r[b..] == s[j..];
    ContinuationStep(r, b, w);
    assert r[b..b + w] == s[j..next];
    assert r[b + w..] == s[next..];
  }

  lemma {:induction false} ContinuationStep(r: string, b: nat, w: nat)
    requires b <= |r| && w <= |r| - b && b == BlankLen(r) && w == WordLen(r[b..])
    ensures ContinuationLen(r) ==
            if w > 0 && ContinuationWord(Lower(r[b..b + w])) then b + w + ContinuationLen(r[b + w..]) else 0
  {
    hide BlankLen, WordLen, ContinuationWord, Lower;
  }

  method SkipBlanks(s: string, from: nat) returns (j: nat)
    requires from <= |s|
    ensures j == from + BlankLen(s[from..])
  {
    j := from;
    while j < |s| && Blank(s[j])
      invariant from <= j <= |s|
      invariant from + BlankLen(s[from..]) == j + BlankLen(s[j..])
    {
      assert s[j..][1..] == s[j + 1..];
      j := j + 1;
    }
  }

  method SkipModifier(s: string, from: nat) returns (i: nat)
    requires from <= |s|
    ensures i == from + ModifierLen(s[from..])
  {
    i := from;
    if i < |s| && s[i] == '(' {
      var depth := 0;
      while i < |s|
        invariant from <= i <= |s|
        invariant depth >= 0
        invariant depth == 0 <==> i == from
        invariant i > from ==> i + CloseLen(s[i..], depth) == from + ModifierLen(s[from..])
      {
        assert s[i..][1..] == s[i + 1..];
        if s[i] == '(' {
          depth := depth + 1;
        } else if s[i] == ')' {
          depth := depth - 1;
          if depth == 0 {
            i := i + 1;
            break;
          }
        }
        i := i + 1;
      }
    }
  }

  method SkipArrayMarkers(s: string, from: nat) returns (i: nat)
    requires from <= |s|
    ensures i == from + ArrayLen(s[from..])
  {
    hide ArrayLen, BracketLen;
    i := from;
    while i < |s| && s[i] == '['
      invariant from <= i <= |s|
      invariant i + ArrayLen(s[i..]) == from + ArrayLen(s[from..])
    {
      ArrayLenAt(s, i);
      i := SkipBracket(s, i + 1);
    }
    NoArrayAt(s, i);
  }

  lemma ArrayLenAt(s: string, i: nat)
    requires i < |s| && s[i] == '['
    ensures var close := i + 1 + BracketLen(s[i + 1..]); close <= |s| && i + ArrayLen(s[i..]) == close + ArrayLen(s[close..])
  {
    hide BracketLen;
    var r := s[i..];
    assert r[1..] == s[i + 1..];
    var k := 1 + BracketLen(r[1..]);
    assert r[k..] == s[i + k..];
  }

  lemma NoArrayAt(s: string, i: nat)
    requires i <= |s| && (i < |s| ==> s[i] != '[')
    ensures ArrayLen(s[i..]) == 0
  {
  }

  method SkipBracket(s: string, from: nat) returns (i: nat)
    requires from <= |s|
    ensures i == from + BracketLen(s[from..])
  {
    i := from;
    while i < |s| && s[i] != ']'
      invariant from <= i <= |s|
      invariant i + BracketLen(s[i..]) == from + BracketLen(s[from..])
    {
      assert s[i..][1..] == s[i + 1..];
      i := i + 1;
    }
    if i < |s| && s[i] == ']' {
      i := i + 1;
    }
  }

  method IsNumericLiteral(b: string) returns (ok: bool)
    ensures ok == NumericLiteral(b)
  {
    hide IsDigit, CountChar;
    if |b| == 0 {
      return false;
    }
    var i := 0;
    if b[0] == '+' || b[0] == '-' {
      i := 1;
    }
    ghost var lo := i;
    ghost var u := Unsigned(b);
    var digits, dots := 0, 0;
    NoDots(u);
    while i < |b|
      invariant lo <= i <= |b| && u == b[lo..]
      invariant forall k :: 0 <= k < i - lo ==> IsDigit(u[k]) || u[k] == '.'
      invariant 0 <= digits
      invariant digits > 0 <==> exists k :: 0 <= k < i - lo && IsDigit(u[k])
      invariant dots == CountChar(u[..i - lo], '.') <= 1
    {
      CountNext(u, i - lo, '.');
      DotIsNoDigit();
      if IsDigit(b[i]) {
        digits := digits + 1;
        assert IsDigit(u[i - lo]);
      } else if b[i] == '.' {
        dots := dots + 1;
        if dots > 1 {
          CountPrefix(u, i + 1 - lo, '.');
          return false;
        }
      } else {
        assert !(IsDigit(u[i - lo]) || u[i - lo] == '.');
        return false;
      }
      i := i + 1;
    }
    assert u[..|u|] == u;
    return digits > 0;
  }

  lemma NoDots(u: string)
    ensures CountChar(u[..0], '.') == 0
  {
  }

  lemma DotIsNoDigit()
    ensures !IsDigit('.')
  {
  }

  lemma CountNext(u: string, n: nat, c: char)
    requires n < |u|
    ensures CountChar(u[..n + 1], c) == CountChar(u[..n], c) + if u[n] == c then 1 else 0
  {
    assert u[..n + 1][..n] == u[..n];
  }

  lemma {:induction false} CountPrefix(s: string, n: nat, c: char)
    requires n <= |s|
    ensures CountChar(s[..n], c) <= CountChar(s, c)
    decreases |s| - n
  {
    if n < |s| {
      assert s[..n + 1][..n] == s[..n];
      CountPrefix(s, n + 1, c);
    } else {
      assert s[..n] == s;
    }
  }

  method UnquoteTrailingNumericLiteral(out: string) returns (r: string)
    ensures r == Unquoted(out)
  {
    hide NumericLiteral;
    var n := |out|;
    if n < 2 || out[n - 1] != '\'' {
      return out;
    }
    var start := FindQuote(out, n - 1);
    if start < 0 {
      return out;
    }
    var content := out[start + 1..n - 1];
    var numeric := IsNumericLiteral(content);
    if !numeric {
      return out;
    }
    return out[..start] + content;
  }

  /** Scans backwards for a quote. */
  method FindQuote(out: string, end: nat) returns (start: int)
    requires end <= |out|
    ensures start == LastQuote(out, end)
  {
    var j := end - 1;
    while j >= 0
      invariant -1 <= j < end
      invariant LastQuote(out, end) == LastQuote(out, j + 1)
    {
      if out[j] == '\'' {
        return j;
      }
      j := j - 1;
    }
    return -1;
  }

  method StripTypeCasts(s: string) returns (out: string)
    ensures out == StripCasts(s)
  {
    out := [];
    var i := 0;
    while i < |s|
      invariant 0 <= i <= |s|
      invariant StripFrom(out, s[i..]) == StripCasts(s)
    {
      if i + 1 < |s| && s[i] == ':' && s[i + 1] == ':' {
        var end := SkipTypeToken(s, i + 2);
        StripUnfold(out, s, i, end);
        if NumericCastType(s[i + 2..end]) {
          out := UnquoteTrailingNumericLiteral(out);
        }
        i := end;
      } else {
        assert s[i..][1..] == s[i + 1..];
        out := out + [s[i]];
        i := i + 1;
      }
    }
  }

  lemma {:induction false} StripUnfold(out: string, s: string, i: nat, end: nat)
    requires i + 2 <= end <= |s| && s[i] == ':' && s[i + 1] == ':'
    requires end == i + 2 + TypeLen(s[i + 2..])
    ensures StripFrom(out, s[i..]) ==
            StripFrom(if NumericCastType(s[i + 2..end]) then Unquoted(out) else out, s[end..])
  {
    hide TypeLen, NumericCastType, Unquoted;
    DropDrop(s, i, i + 2);
    DropDrop(s, i, end);
    assert s[i..][2..end - i] == s[i + 2..end];
  }

  method CanonicalizeSQLExpr(s: string) returns (r: string)
    ensures r == Canonicalize(s)
  {
    var t := StripTypeCasts(Lower(s));
    var b, pendingSpace := [], false;
    var i := 0;
    while i < |t|
      invariant 0 <= i <= |t|
      invariant CollapseFrom(b, pendingSpace, t[i..]) == Collapse(t)
    {
      assert t[i..][1..] == t[i + 1..];
      if Paren(t[i]) {
      } else if Gap(t[i]) {
        pendingSpace := true;
      } else {
        ghost var gap := if pendingSpace && b != [] then " " else "";
        assert b + gap + [t[i]] == (b + gap) + [t[i]];
        if pendingSpace && |b| > 0 {
          b := b + " ";
        } else {
          assert b + "" == b;
        }
        pendingSpace := false;
        b := b + [t[i]];
      }
      i := i + 1;
    }
    var out := Trim(b);
    out := ReplacePair(out, ',', ' ', ',');
    out := ReplacePair(out, ' ', ',', ',');
    return out;
  }
}
