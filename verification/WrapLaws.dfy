/**
 Parentheses and white space around an expression leave its canonical form unchanged, for
 every expression, even one that ends in an unfinished cast.
 */
module WrapLaws {
  import opened Text
  import opened Canonical
  import opened CanonicalLaws
  import opened CastLaws

  // ----- in front ------------------------------------------------------------------------

  lemma {:induction false} LastQuoteShift(a: string, out: string, end: nat)
    requires '\'' !in a && end <= |out|
    ensures LastQuote(a + out, |a| + end) == if LastQuote(out, end) < 0 then -1 else |a| + LastQuote(out, end)
    decreases end
  {
    var s := a + out;
    if end == 0 {
      NoQuote(s, |a|);
    } else if out[end - 1] != '\'' {
      assert s[|a| + end - 1] == out[end - 1];
      LastQuoteShift(a, out, end - 1);
    } else {
      assert s[|a| + end - 1] == out[end - 1];
    }
  }

  lemma {:induction false} NoQuote(s: string, n: nat)
    requires n <= |s| && forall i :: 0 <= i < n ==> s[i] != '\''
    ensures LastQuote(s, n) == -1
  {
    if n > 0 {
      NoQuote(s, n - 1);
    }
  }

  lemma UnquotedPlain(s: string)
    requires |s| < 2 || s[|s| - 1] != '\'' || LastQuote(s, |s| - 1) < 0
    ensures Unquoted(s) == s
  {
  }

  lemma UnquotedBetween(s: string, start: nat)
    requires |s| >= 2 && s[|s| - 1] == '\'' && LastQuote(s, |s| - 1) == start
    ensures var content := s[start + 1..|s| - 1];
      Unquoted(s) == if NumericLiteral(content) then s[..start] + content else s
  {
    hide NumericLiteral, LastQuote;
    assert Unquoted(s) == if NumericLiteral(s[start + 1..|s| - 1]) then s[..start] + s[start + 1..|s| - 1] else s;
  }

  lemma UnquotedShift(a: string, out: string)
    requires '\'' !in a
    ensures Unquoted(a + out) == a + Unquoted(out)
  {
    hide NumericLiteral, LastQuote, Unquoted;
    var s := a + out;
    if out == "" || out[|out| - 1] != '\'' {
      assert s != "" ==> s[|s| - 1] != '\'' by {
        assert out == "" ==> s == a;
      }
      UnquotedPlain(s);
      UnquotedPlain(out);
    } else {
      assert s[|s| - 1] == '\'';
      LastQuoteShift(a, out, |out| - 1);
      var start := LastQuote(out, |out| - 1);
      if start < 0 {
        UnquotedPlain(s);
        UnquotedPlain(out);
      } else {
        UnquotedBetween(s, |a| + start);
        UnquotedBetween(out, start);
        UnquotedAt(a, out, start);
      }
    }
  }

  lemma UnquotedAt(a: string, out: string, start: int)
    requires -1 <= start < |out| - 1
    ensures start >= 0 ==> (a + out)[|a| + start + 1..|a + out| - 1] == out[start + 1..|out| - 1]
    ensures start >= 0 ==> (a + out)[..|a| + start] == a + out[..start]
    ensures start >= 0 ==> a + out[..start] + out[start + 1..|out| - 1] == a + (out[..start] + out[start + 1..|out| - 1])
  {
  }

  /** Quote-free text already emitted does not influence the scan. */
  lemma {:induction false} StripFromShift(a: string, out: string, rest: string)
    requires '\'' !in a
    ensures StripFrom(a + out, rest) == a + StripFrom(out, rest)
    decreases |rest|
  {
    hide TypeLen, NumericCastType, Unquoted;
    if rest == [] {
    } else if |rest| >= 2 && rest[0] == ':' && rest[1] == ':' {
      var n := TypeLen(rest[2..]);
      UnquotedShift(a, out);
      StripFromShift(a, if NumericCastType(rest[2..2 + n]) then Unquoted(out) else out, rest[2 + n..]);
    } else {
      assert a + out + [rest[0]] == a + (out + [rest[0]]);
      StripFromShift(a, out + [rest[0]], rest[1..]);
    }
  }

  // ----- behind --------------------------------------------------------------------------

  /** Characters that cannot continue a type token and vanish when trimmed. */
  predicate InertChar(c: char) {
    IsSpace(c) || c == ')'
  }

  predicate Inert(z: string) {
    forall i :: 0 <= i < |z| ==> InertChar(z[i])
  }

  lemma InertFirst(z: string)
    requires Inert(z)
    ensures z != [] ==> !WordChar(z[0]) && z[0] != '.' && z[0] != '(' && z[0] != '['
    ensures WordLen(z) == 0 && ModifierLen(z) == 0 && ArrayLen(z) == 0
  {
    if z != [] {
      assert InertChar(z[0]);
    }
  }

  lemma {:induction false} WordLenTail(r: string, z: string)
    requires Inert(z)
    ensures WordLen(r + z) == WordLen(r)
  {
    if r == [] {
      assert r + z == z;
      InertFirst(z);
    } else {
      assert (r + z)[1..] == r[1..] + z;
      WordLenTail(r[1..], z);
    }
  }

  lemma NameLenTail(r: string, z: string)
    requires Inert(z)
    ensures NameLen(r + z) == NameLen(r)
  {
    hide WordLen;
    WordLenTail(r, z);
    var n := WordLen(r);
    if n < |r| {
      assert (r + z)[n + 1..] == r[n + 1..] + z;
      WordLenTail(r[n + 1..], z);
    } else if z != [] {
      assert (r + z)[n] == z[0] && InertChar(z[0]);
    }
  }

  lemma {:induction false} BlankLenTail(r: string, z: string)
    requires Inert(z)
    ensures BlankLen(r) < |r| ==> BlankLen(r + z) == BlankLen(r)
    ensures BlankLen(r) == |r| ==> BlankLen(r + z) >= |r|
  {
    if r == [] {
      assert r + z == z;
    } else {
      assert (r + z)[1..] == r[1..] + z;
      BlankLenTail(r[1..], z);
    }
  }

  lemma InertHasNoWord(z: string, k: nat)
    requires Inert(z) && k <= |z|
    ensures WordLen(z[k..]) == 0
  {
    if k < |z| {
      assert InertChar(z[k]);
    }
  }

  lemma {:induction false} ContinuationLenTail(r: string, z: string)
    requires Inert(z)
    ensures ContinuationLen(r + z) == ContinuationLen(r)
    decreases |r|
  {
    hide WordLen, BlankLen, ContinuationWord, Lower, ContinuationLen;
    var b := BlankLen(r);
    BlankLenTail(r, z);
    var w := WordLen(r[b..]);
    ContinuationStep(r, b, w);
    if b < |r| {
      assert (r + z)[b..] == r[b..] + z;
      WordLenTail(r[b..], z);
      assert (r + z)[b..b + w] == r[b..b + w];
      assert (r + z)[b + w..] == r[b + w..] + z;
      ContinuationStep(r + z, b, w);
      if w > 0 {
        ContinuationLenTail(r[b + w..], z);
      }
    } else {
      assert r[b..] == "";
      assert w == 0;
      var b' := BlankLen(r + z);
      assert (r + z)[b'..] == z[b' - |r|..];
      InertHasNoWord(z, b' - |r|);
      ContinuationStep(r + z, b', 0);
    }
  }

  /** `n` is the length of a part of `r`; in front of more text it is `n'`. */
  predicate SameOrSwallowed(r: string, z: string, n: nat, n': nat) {
    n <= |r| && n' <= |r| + |z| && (n' == n || (n == |r| && n' >= |r|))
  }

  lemma {:induction false} CloseLenTail(r: string, d: nat, z: string)
    requires d > 0
    ensures SameOrSwallowed(r, z, CloseLen(r, d), CloseLen(r + z, d))
    decreases |r|
  {
    if r == [] {
      assert r + z == z;
    } else {
      assert (r + z)[1..] == r[1..] + z;
      if r[0] == '(' {
        CloseLenTail(r[1..], d + 1, z);
      } else if r[0] == ')' {
        if d > 1 {
          CloseLenTail(r[1..], d - 1, z);
        }
      } else {
        CloseLenTail(r[1..], d, z);
      }
    }
  }

  lemma ModifierLenTail(r: string, z: string)
    requires Inert(z)
    ensures SameOrSwallowed(r, z, ModifierLen(r), ModifierLen(r + z))
    ensures ModifierLen(r + z) != ModifierLen(r) ==> '(' in r
  {
    hide CloseLen;
    if r == [] {
      assert r + z == z;
      InertFirst(z);
    } else if r[0] == '(' {
      assert (r + z)[1..] == r[1..] + z;
      CloseLenTail(r[1..], 1, z);
    }
  }

  lemma {:induction false} BracketLenTail(r: string, z: string)
    ensures SameOrSwallowed(r, z, BracketLen(r), BracketLen(r + z))
  {
    if r == [] {
      assert r + z == z;
    } else {
      assert (r + z)[1..] == r[1..] + z;
      BracketLenTail(r[1..], z);
    }
  }

  lemma InertHasNoBracket(z: string, k: nat)
    requires Inert(z) && k <= |z|
    ensures ArrayLen(z[k..]) == 0
  {
    if k < |z| {
      assert InertChar(z[k]);
    }
  }

  lemma ArrayLenStep(r: string)
    requires r != [] && r[0] == '['
    ensures 1 + BracketLen(r[1..]) <= |r| && ArrayLen(r) == 1 + BracketLen(r[1..]) + ArrayLen(r[1 + BracketLen(r[1..])..])
  {
    hide BracketLen;
  }

  lemma DropBoth(r: string, z: string, k: nat)
    ensures k <= |r| ==> (r + z)[k..] == r[k..] + z
    ensures |r| <= k <= |r| + |z| ==> (r + z)[k..] == z[k - |r|..]
  {
  }

  lemma {:induction false} ArrayLenTail(r: string, z: string)
    requires Inert(z)
    ensures SameOrSwallowed(r, z, ArrayLen(r), ArrayLen(r + z))
    ensures ArrayLen(r + z) != ArrayLen(r) ==> '[' in r
    decreases |r|
  {
    InertHasNoBracket(z, 0);
    assert z[0..] == z;
    if r == [] {
      assert r + z == z;
    } else if r[0] == '[' {
      ArrayLenStep(r);
      ArrayLenStep(r + z);
      hide ArrayLen, BracketLen, Inert;
      DropBoth(r, z, 1);
      BracketLenTail(r[1..], z);
      var k, k' := 1 + BracketLen(r[1..]), 1 + BracketLen(r[1..] + z);
      DropBoth(r, z, k');
      if k' == k {
        ArrayLenTail(r[k..], z);
      } else {
        EmptyArrayLen(r, k);
        InertHasNoBracket(z, k' - |r|);
      }
    } else {
      assert (r + z)[0] == r[0];
    }
  }

  lemma EmptyArrayLen(r: string, k: nat)
    requires k == |r|
    ensures ArrayLen(r[k..]) == 0
  {
    assert r[k..] == "";
  }

  lemma TypeLenTail(r: string, z: string)
    requires Inert(z)
    ensures SameOrSwallowed(r, z, TypeLen(r), TypeLen(r + z))
    ensures TypeLen(r + z) != TypeLen(r) ==> '(' in r || '[' in r
  {
    hide NameLen, ContinuationLen, ModifierLen, ArrayLen;
    var s := r + z;
    var a := NameLen(r);
    NameLenTail(r, z);
    assert s[a..] == r[a..] + z;
    ContinuationLenTail(r[a..], z);
    var b := a + ContinuationLen(r[a..]);
    assert s[b..] == r[b..] + z;
    ModifierLenTail(r[b..], z);
    var c, c' := b + ModifierLen(r[b..]), b + ModifierLen(s[b..]);
    if c' == c {
      assert s[c..] == r[c..] + z;
      ArrayLenTail(r[c..], z);
    } else {
      assert r[c..] == "";
      NoArray();
      assert s[c'..] == z[c' - |r|..];
      InertHasNoBracket(z, c' - |r|);
    }
  }

  lemma NoArray()
    ensures ArrayLen("") == 0
  {
  }

  // ----- the swallowed characters do not change the kind of type -------------------------

  lemma NumericNamesArePlain(name: string)
    requires NumericTypeName(name)
    ensures '[' !in name
  {
  }

  lemma {:induction false} TrimLeftKeeps(t: string, w: string, k: nat)
    requires k < |t| && !IsSpace(t[k])
    ensures TrimLeft(t + w) == TrimLeft(t) + w
    decreases |t|
  {
    if IsSpace(t[0]) {
      assert (t + w)[1..] == t[1..] + w;
      TrimLeftKeeps(t[1..], w, k - 1);
    }
  }

  /** Trimming keeps the text up to a non-blank character, whatever follows it. */
  lemma {:induction false} TrimHead(t: string, w: string, k: nat) returns (n: nat)
    requires k < |t| && !IsSpace(t[k])
    ensures n <= k && |Trim(t)| > k - n && |Trim(t + w)| > k - n
    ensures Trim(t)[..k - n + 1] == Trim(t + w)[..k - n + 1] == t[n..k + 1]
  {
    hide TrimRight, TrimLeft, IsSpace;
    TrimLeftKeeps(t, w, k);
    var a := TrimLeftSplit(t);
    n := |a|;
    assert n <= k by {
      assert forall i :: 0 <= i < n ==> t[i] == a[i];
      assert forall i :: 0 <= i < n ==> IsSpace(t[i]);
    }
    var u := TrimLeft(t);
    assert u == t[n..];
    TrimRightPrefix(u, k - n + 1);
    TrimRightPrefix(u + w, k - n + 1);
    TrimRightKeepsHead(u);
    TrimRightKeepsHead(u + w);
    PrefixOfPrefix(TrimRight(u), u, k - n + 1);
    PrefixOfPrefix(TrimRight(u + w), u + w, k - n + 1);
    assert (u + w)[..k - n + 1] == u[..k - n + 1];
    assert u[..k - n + 1] == t[n..k + 1];
  }

  lemma PrefixOfPrefix(p: string, s: string, n: nat)
    requires p <= s && n <= |p|
    ensures p[..n] == s[..n]
  {
  }

  lemma NumericCastTypeTail(t: string, w: string)
    requires Inert(w) && ('(' in t || '[' in t)
    ensures NumericCastType(t + w) == NumericCastType(t)
  {
    hide Trim, NumericTypeName, TrimLeft;
    var k := IndexOfChar(t, '(');
    if k >= 0 {
      var n := TrimHead(t, w, k);
      FirstParen(Trim(t), t, n, k);
      FirstParen(Trim(t + w), t, n, k);
      assert Trim(t)[..k - n] == Trim(t)[..k - n + 1][..k - n];
      assert Trim(t + w)[..k - n] == Trim(t + w)[..k - n + 1][..k - n];
    } else {
      NotNumeric(t);
      assert forall i :: 0 <= i < |w| ==> InertChar(w[i]);
      assert '(' !in t + w && '[' in t + w;
      NotNumeric(t + w);
    }
  }

  lemma FirstParen(name: string, t: string, n: nat, k: nat)
    requires n <= k < |t| && |name| > k - n && name[..k - n + 1] == t[n..k + 1]
    requires t[k] == '(' && '(' !in t[..k]
    ensures IndexOfChar(name, '(') == k - n
  {
    forall i | 0 <= i <= k - n ensures name[i] == t[n + i] {
      assert name[..k - n + 1][i] == t[n..k + 1][i];
    }
    forall i | 0 <= i < k - n ensures name[i] != '(' {
      assert t[..k][n + i] == t[n + i];
    }
    IndexOfCharIs(name, '(', k - n);
  }

  lemma NotNumeric(t: string)
    requires '(' !in t && '[' in t
    ensures !NumericCastType(t)
  {
    hide Trim, NumericTypeName;
    var a, b := TrimSplit(t);
    var name := Trim(t);
    var i :| 0 <= i < |t| && t[i] == '[';
    assert |a| <= i < |a| + |name| by {
      assert forall j :: 0 <= j < |a| ==> t[j] == a[j];
      assert forall j :: |a| + |name| <= j < |t| ==> t[j] == b[j - |a| - |name|];
      assert forall j :: 0 <= j < |t| && !(|a| <= j < |a| + |name|) ==> IsSpace(t[j]);
    }
    assert name[i - |a|] == '[';
    assert forall j :: 0 <= j < |name| ==> name[j] == t[|a| + j];
    if NumericTypeName(name) {
      NumericNamesArePlain(name);
    }
  }

  /** An inert tail is copied, except for what an unfinished cast swallows. */
  lemma {:induction false} StripFromTail(out: string, t: string, z: string) returns (k: nat)
    requires Inert(z)
    ensures k <= |z| && StripFrom(out, t + z) == StripFrom(out, t) + z[k..]
    decreases |t|
  {
    hide StripFrom, Inert;
    if t == [] {
      assert t + z == z && z + [] == z && z[0..] == z;
      InertParts(z, 0);
      StripFromCopies(out, z, []);
      StripDone(out);
      StripDone(out + z);
      k := 0;
    } else if |t| >= 2 && t[0] == ':' && t[1] == ':' {
      k := StripCastTail(out, t, z);
    } else {
      assert (t + z)[1..] == t[1..] + z && (t + z)[0] == t[0];
      NoCastHere(t, z);
      StripOne(out, t);
      StripOne(out, t + z);
      k := StripFromTail(out + [t[0]], t[1..], z);
    }
  }

  lemma StripOne(out: string, s: string)
    requires s != [] && !CastAt(s, 0)
    ensures StripFrom(out, s) == StripFrom(out + [s[0]], s[1..])
  {
    hide TypeLen, NumericCastType, Unquoted;
  }

  lemma NoCastHere(t: string, z: string)
    requires Inert(z) && t != [] && !CastAt(t, 0)
    ensures !CastAt(t + z, 0)
  {
    if |t| == 1 && z != [] {
      assert InertChar(z[0]);
    }
  }

  lemma {:induction false} StripCastTail(out: string, t: string, z: string) returns (k: nat)
    requires Inert(z) && |t| >= 2 && t[0] == ':' && t[1] == ':'
    ensures k <= |z| && StripFrom(out, t + z) == StripFrom(out, t) + z[k..]
    decreases |t|, 0
  {
    hide TypeLen, NumericCastType, Unquoted, StripFrom, Inert;
    var r := t[2..];
    TypeLenTail(r, z);
    var n, n' := TypeLen(r), TypeLen(r + z);
    var tok := r[..n];
    CastSlices(t, z, n);
    StripAtCast(out, tok, r[n..]);
    var out' := if NumericCastType(tok) then Unquoted(out) else out;
    if n' == n {
      StripAtCast(out, tok, r[n..] + z);
      k := StripFromTail(out', r[n..], z);
    } else {
      k := n' - n;
      StripAtCast(out, tok + z[..k], z[k..]);
      InertParts(z, k);
      NumericCastTypeTail(tok, z[..k]);
      StripFromCopies(out', z[k..], []);
      assert z[k..] + [] == z[k..];
      StripDone(out');
      StripDone(out' + z[k..]);
    }
  }

  lemma StripDone(out: string)
    ensures StripFrom(out, "") == out
  {
  }

  lemma InertParts(z: string, k: nat)
    requires Inert(z) && k <= |z|
    ensures Inert(z[..k]) && Inert(z[k..]) && !HasCast(z[k..])
  {
    InertNoCast(z[k..]);
  }

  /** The texts around a cast at the front of `t`, alone and followed by `z`. */
  lemma CastSlices(t: string, z: string, n: nat)
    requires |t| >= 2 && t[0] == ':' && t[1] == ':' && n <= |t| - 2
    ensures var r := t[2..];
      && t == "::" + r[..n] + r[n..] && r[..n] + r[n..] == r
      && t + z == "::" + r[..n] + (r[n..] + z) && r[..n] + (r[n..] + z) == r + z
      && (n == |r| ==> r[..n] == r && r[n..] == "" && forall k :: 0 <= k <= |z| ==>
           t + z == "::" + (r + z[..k]) + z[k..] && (r + z[..k]) + z[k..] == r + z)
  {
    var r := t[2..];
    if n == |r| {
      forall k | 0 <= k <= |z| ensures t + z == "::" + (r + z[..k]) + z[k..] && (r + z[..k]) + z[k..] == r + z {
        assert z == z[..k] + z[k..];
      }
    }
  }

  lemma InertNoCast(z: string)
    requires Inert(z)
    ensures !HasCast(z)
  {
    forall i | 0 <= i < |z| ensures !CastAt(z, i) {
      assert InertChar(z[i]);
    }
  }

  // ----- collapsing ------------------------------------------------------------------------

  lemma {:induction false} CollapseTail(b: string, p: bool, x: string, z: string) returns (y: string)
    requires Inert(z)
    ensures AllSpace(y) && CollapseFrom(b, p, x + z) == CollapseFrom(b, p, x) + y
    decreases |x|, |z|
  {
    if x == [] {
      assert x + z == z;
      if z == [] {
        y := "";
      } else {
        assert InertChar(z[0]);
        if Paren(z[0]) {
          y := CollapseTail(b, p, [], z[1..]);
          assert [] + z[1..] == z[1..];
        } else if Gap(z[0]) {
          y := CollapseTail(b, true, [], z[1..]);
          assert [] + z[1..] == z[1..];
        } else {
          var gap := if p && b != [] then " " else "";
          var y' := CollapseTail(b + gap + [z[0]], false, [], z[1..]);
          assert [] + z[1..] == z[1..];
          y := gap + [z[0]] + y';
          assert b + gap + [z[0]] + y' == b + y;
        }
      }
    } else {
      assert (x + z)[1..] == x[1..] + z && (x + z)[0] == x[0];
      if Paren(x[0]) {
        y := CollapseTail(b, p, x[1..], z);
      } else if Gap(x[0]) {
        y := CollapseTail(b, true, x[1..], z);
      } else {
        y := CollapseTail(b + (if p && b != [] then " " else "") + [x[0]], false, x[1..], z);
      }
    }
  }

  lemma {:induction false} CollapsePrefix(y: string, b: string, p: bool, x: string)
    requires b != []
    ensures CollapseFrom(y + b, p, x) == y + CollapseFrom(b, p, x)
    decreases |x|
  {
    if x != [] {
      if Paren(x[0]) {
        CollapsePrefix(y, b, p, x[1..]);
      } else if Gap(x[0]) {
        CollapsePrefix(y, b, true, x[1..]);
      } else {
        var gap := if p then " " else "";
        CollapsePrefix(y, b + gap + [x[0]], false, x[1..]);
        assert y + (b + gap + [x[0]]) == y + b + gap + [x[0]];
      }
    }
  }

  /** White space built so far only adds white space in front. */
  lemma {:induction false} CollapseAfterSpace(b: string, p: bool, x: string) returns (y: string)
    requires AllSpace(b)
    ensures AllSpace(y) && CollapseFrom(b, p, x) == y + CollapseFrom([], false, x)
    decreases |x|
  {
    if x == [] {
      y := b;
    } else if Paren(x[0]) {
      y := CollapseAfterSpace(b, p, x[1..]);
    } else if Gap(x[0]) {
      y := CollapseAfterSpace(b, true, x[1..]);
      var y' := CollapseAfterSpace([], true, x[1..]);
      assert y' == [] by { PendingAtStart(x[1..]); }
    } else {
      y := b + if p && b != [] then " " else "";
      CollapsePrefix(y, [x[0]], false, x[1..]);
      assert [] + "" + [x[0]] == [x[0]];
    }
  }

  lemma {:induction false} PendingAtStart(x: string)
    ensures CollapseFrom([], true, x) == CollapseFrom([], false, x)
    decreases |x|
  {
    if x != [] && Paren(x[0]) {
      PendingAtStart(x[1..]);
    }
  }

  /** White space and opening parentheses. */
  predicate LeadIn(a: string) {
    forall i :: 0 <= i < |a| ==> IsSpace(a[i]) || a[i] == '('
  }

  lemma {:induction false} CollapseLead(b: string, p: bool, a: string, x: string) returns (y: string)
    requires AllSpace(b) && LeadIn(a)
    ensures AllSpace(y) && CollapseFrom(b, p, a + x) == y + CollapseFrom([], false, x)
    decreases |a|
  {
    if a == [] {
      assert a + x == x;
      y := CollapseAfterSpace(b, p, x);
    } else {
      assert (a + x)[1..] == a[1..] + x && (a + x)[0] == a[0];
      if Paren(a[0]) {
        y := CollapseLead(b, p, a[1..], x);
      } else if Gap(a[0]) {
        y := CollapseLead(b, true, a[1..], x);
      } else {
        y := CollapseLead(b + (if p && b != [] then " " else "") + [a[0]], false, a[1..], x);
      }
    }
  }

  lemma CollapseAround(a: string, x: string, z: string)
    requires LeadIn(a) && Inert(z)
    ensures Trim(Collapse(a + x + z)) == Trim(Collapse(x))
  {
    hide Trim;
    var y := CollapseTail([], false, a + x, z);
    TrimPadRight(Collapse(a + x), y);
    var y' := CollapseLead([], false, a, x);
    TrimPadLeft(y', Collapse(x));
  }

  // ----- the law -------------------------------------------------------------------------

  lemma StripAround(a: string, t: string, z: string) returns (k: nat)
    requires LeadIn(a) && Inert(z)
    ensures k <= |z| && StripCasts(a + t + z) == a + StripCasts(t) + z[k..]
  {
    hide StripFrom;
    assert a + t + z == a + (t + z);
    assert !HasCast(a) && !EndsInColon(a) by {
      forall i | 0 <= i < |a| ensures !CastAt(a, i) {
        assert IsSpace(a[i]) || a[i] == '(';
      }
    }
    StripFromCopies([], a, t + z);
    assert [] + a == a && a + [] == a;
    assert forall i :: 0 <= i < |a| ==> a[i] != '\'';
    StripFromShift(a, [], t + z);
    k := StripFromTail([], t, z);
    StripCastsIsScan(a + (t + z));
    StripCastsIsScan(t);
    assert a + (StripFrom([], t) + z[k..]) == a + StripFrom([], t) + z[k..];
  }

  lemma LowerKeeps(a: string)
    requires forall i :: 0 <= i < |a| ==> IsSpace(a[i]) || a[i] == '(' || a[i] == ')'
    ensures Lower(a) == a
  {
    assert UpperFree(a) by {
      forall i | 0 <= i < |a| ensures !('A' <= a[i] <= 'Z') {
        assert IsSpace(a[i]) || a[i] == '(' || a[i] == ')';
      }
    }
    LowerIdentity(a);
  }

  lemma CanonicalAround(a: string, t: string, z: string)
    requires LeadIn(a) && Inert(z)
    ensures Canonicalize(a + t + z) == Canonicalize(t)
  {
    hide Lower, StripCasts, Collapse, Trim, TightenCommas;
    LowerConcat(a + t, z);
    LowerConcat(a, t);
    assert Lower(a) == a by { LowerKeeps(a); }
    assert Lower(z) == z by {
      assert forall i :: 0 <= i < |z| ==> InertChar(z[i]);
      LowerKeeps(z);
    }
    var k := StripAround(a, Lower(t), z);
    assert Inert(z[k..]);
    CollapseAround(a, StripCasts(Lower(t)), z[k..]);
  }

  /** Wrapping a trimmed expression in parentheses does not change its canonical form. */
  lemma WrappingIsInvisible(x: string)
    ensures Canonicalize("(" + Trim(x) + ")") == Canonicalize(x)
  {
    hide Canonicalize, Trim;
    var a, b := TrimSplit(x);
    CanonicalAround("(", Trim(x), ")");
    CanonicalAround(a, Trim(x), b);
  }

  /** Blanks around an expression do not change its canonical form. */
  lemma TrimIsInvisible(x: string)
    ensures Canonicalize(Trim(x)) == Canonicalize(x)
  {
    hide Canonicalize, Trim;
    var a, b := TrimSplit(x);
    CanonicalAround(a, Trim(x), b);
  }
}
