/**
 What the canonical form guarantees: its shape, exactly when canonicalizing again changes
 nothing, and that the casts PostgreSQL adds to a stored expression leave it unchanged.
 */
module CanonicalLaws {
  import opened Text
  import opened Canonical

  // ----- no casts left ---------------------------------------------------------------

  predicate CastAt(s: string, i: nat) {
    i + 1 < |s| && s[i] == ':' && s[i + 1] == ':'
  }

  predicate HasCast(s: string) {
    exists i :: 0 <= i < |s| && CastAt(s, i)
  }

  predicate EndsInColon(s: string) {
    s != [] && s[|s| - 1] == ':'
  }

  predicate StartsWithColon(s: string) {
    s != [] && s[0] == ':'
  }

  lemma HasCastConcat(a: string, b: string)
    ensures HasCast(a + b) <==> HasCast(a) || HasCast(b) || (EndsInColon(a) && StartsWithColon(b))
  {
    var s := a + b;
    if HasCast(s) {
      var i :| 0 <= i < |s| && CastAt(s, i);
      if i + 1 < |a| {
        assert CastAt(a, i);
      } else if i >= |a| {
        assert CastAt(b, i - |a|);
      }
    }
    if HasCast(a) {
      var i :| 0 <= i < |a| && CastAt(a, i);
      assert CastAt(s, i);
    }
    if HasCast(b) {
      var i :| 0 <= i < |b| && CastAt(b, i);
      assert CastAt(s, i + |a|);
    }
    if EndsInColon(a) && StartsWithColon(b) {
      assert CastAt(s, |a| - 1);
    }
  }

  lemma NumericLiteralHasNoColon(b: string)
    requires NumericLiteral(b)
    ensures b != [] && ':' !in b && '\'' !in b
  {
    var u := Unsigned(b);
    forall i | 0 <= i < |b| ensures b[i] != ':' && b[i] != '\'' {
      if u == b {
        assert IsDigit(u[i]) || u[i] == '.';
      } else if i > 0 {
        assert IsDigit(u[i - 1]) || u[i - 1] == '.';
      }
    }
  }

  lemma UnquotedNoCast(out: string)
    requires !HasCast(out) && !EndsInColon(out)
    ensures !HasCast(Unquoted(out)) && !EndsInColon(Unquoted(out))
  {
    hide NumericLiteral;
    if Unquoted(out) != out {
      var start := LastQuote(out, |out| - 1);
      var head, content := out[..start], out[start + 1..|out| - 1];
      NumericLiteralHasNoColon(content);
      assert out == head + out[start..];
      HasCastConcat(head, out[start..]);
      HasCastConcat(head, content);
    }
  }

  lemma {:induction false} StripFromHasNoCast(out: string, rest: string)
    requires !HasCast(out) && !(EndsInColon(out) && StartsWithColon(rest))
    ensures !HasCast(StripFrom(out, rest))
    decreases |rest|
  {
    hide TypeLen, NumericCastType, Unquoted;
    if rest == [] {
    } else if |rest| >= 2 && rest[0] == ':' && rest[1] == ':' {
      var n := TypeLen(rest[2..]);
      UnquotedNoCast(out);
      StripFromHasNoCast(if NumericCastType(rest[2..2 + n]) then Unquoted(out) else out, rest[2 + n..]);
    } else {
      HasCastConcat(out, [rest[0]]);
      StripFromHasNoCast(out + [rest[0]], rest[1..]);
    }
  }

  /** No input leaves a `::` behind. */
  lemma StripCastsRemovesCasts(s: string)
    ensures !HasCast(StripCasts(s))
  {
    StripFromHasNoCast([], s);
  }

  /** A stretch without casts is copied; the scan resumes after it. */
  lemma {:induction false} StripFromCopies(out: string, p: string, rest: string)
    requires !HasCast(p) && !(EndsInColon(p) && StartsWithColon(rest))
    ensures StripFrom(out, p + rest) == StripFrom(out + p, rest)
    decreases |p|
  {
    hide TypeLen, NumericCastType, Unquoted;
    if p == [] {
      assert p + rest == rest && out + p == out;
    } else {
      var s := p + rest;
      assert s[1..] == p[1..] + rest;
      assert p == [p[0]] + p[1..];
      HasCastConcat([p[0]], p[1..]);
      assert !(|s| >= 2 && s[0] == ':' && s[1] == ':') by {
        if |p| >= 2 {
          assert !CastAt(p, 0);
        }
      }
      StripFromCopies(out + [p[0]], p[1..], rest);
      assert out + [p[0]] + p[1..] == out + p;
    }
  }

  lemma StripCastsIdentity(s: string)
    requires !HasCast(s)
    ensures StripCasts(s) == s
  {
    hide HasCast;
    assert s + [] == s && [] + s == s;
    StripFromCopies([], s, []);
    StripNothing(s);
    hide StripFrom;
  }

  lemma StripNothing(out: string)
    ensures StripFrom(out, []) == out
  {
  }

  /** Removing casts twice is removing them once. */
  lemma StripCastsIdempotent(s: string)
    ensures StripCasts(StripCasts(s)) == StripCasts(s)
  {
    StripCastsRemovesCasts(s);
    StripCastsIdentity(StripCasts(s));
  }

  // ----- the shape of a canonical form -----------------------------------------------

  /** Characters that survive canonicalization. */
  predicate PlainChar(c: char) {
    c != '(' && c != ')' && !('A' <= c <= 'Z') && c != '\t' && c != '\n' && c != '\r'
  }

  predicate UpperFree(s: string) {
    forall i :: 0 <= i < |s| ==> !('A' <= s[i] <= 'Z')
  }

  predicate Plain(s: string) {
    forall i :: 0 <= i < |s| ==> PlainChar(s[i])
  }

  /** No occurrence of the two characters next to each other. */
  predicate NoPair(s: string, x: char, y: char) {
    forall i :: 0 < i < |s| ==> !(s[i - 1] == x && s[i] == y)
  }

  predicate CanonicalShape(s: string) {
    && Plain(s) && Trimmed(s)
    && NoPair(s, ' ', ' ') && NoPair(s, ',', ' ') && NoPair(s, ' ', ',')
  }

  lemma LowerUpperFree(s: string)
    ensures UpperFree(Lower(s))
  {
    forall i | 0 <= i < |s| ensures !('A' <= Lower(s)[i] <= 'Z') {
      LowerAt(s, i);
    }
  }

  lemma {:induction false} LowerIdentity(s: string)
    requires UpperFree(s)
    ensures Lower(s) == s
  {
    forall i | 0 <= i < |s| ensures Lower(s)[i] == s[i] {
      LowerAt(s, i);
    }
  }

  lemma {:induction false} StripFromUpperFree(out: string, rest: string)
    requires UpperFree(out) && UpperFree(rest)
    ensures UpperFree(StripFrom(out, rest))
    decreases |rest|
  {
    hide TypeLen, NumericCastType, NumericLiteral;
    if rest == [] {
    } else if |rest| >= 2 && rest[0] == ':' && rest[1] == ':' {
      var n := TypeLen(rest[2..]);
      StripFromUpperFree(if NumericCastType(rest[2..2 + n]) then Unquoted(out) else out, rest[2 + n..]);
    } else {
      StripFromUpperFree(out + [rest[0]], rest[1..]);
    }
  }

  /** Text the collapse may have built: plain, single blanks, a blank at neither end. */
  predicate Collapsed(b: string) {
    && Plain(b) && NoPair(b, ' ', ' ')
    && (b != [] ==> b[0] != ' ' && b[|b| - 1] != ' ')
  }

  lemma {:induction false} CollapseFromCollapsed(b: string, pending: bool, rest: string)
    requires Collapsed(b) && UpperFree(rest)
    ensures Collapsed(CollapseFrom(b, pending, rest))
    decreases |rest|
  {
    if rest == [] {
    } else if Paren(rest[0]) {
      CollapseFromCollapsed(b, pending, rest[1..]);
    } else if Gap(rest[0]) {
      CollapseFromCollapsed(b, true, rest[1..]);
    } else {
      CollapseFromCollapsed(b + (if pending && b != [] then " " else "") + [rest[0]], false, rest[1..]);
    }
  }

  lemma TrimIsFactor(s: string) returns (a: string, b: string)
    ensures s == a + Trim(s) + b
    ensures forall x, y :: NoPair(s, x, y) ==> NoPair(Trim(s), x, y)
    ensures Plain(s) ==> Plain(Trim(s))
    ensures !HasCast(s) ==> !HasCast(Trim(s))
  {
    hide Trim;
    a, b := TrimSplit(s);
    var t := Trim(s);
    HasCastConcat(a + t, b);
    HasCastConcat(a, t);
    assert forall i :: 0 <= i < |t| ==> t[i] == s[|a| + i];
    forall x, y | NoPair(s, x, y) ensures NoPair(t, x, y) {
      forall i | 0 < i < |t| ensures !(t[i - 1] == x && t[i] == y) {
        var j := |a| + i;
        assert !(s[j - 1] == x && s[j] == y);
      }
    }
  }

  /** `", "` becomes `","`. */
  lemma {:induction false} ReplaceCommaBlank(s: string)
    requires Plain(s) && NoPair(s, ' ', ' ') && (s != [] ==> !IsSpace(s[|s| - 1]))
    ensures var r := ReplacePair(s, ',', ' ', ',');
      && Plain(r) && NoPair(r, ' ', ' ') && NoPair(r, ',', ' ')
      && (s == [] <==> r == []) && (s != [] ==> r[0] == s[0] && !IsSpace(r[|r| - 1]))
    decreases |s|
  {
    var r := ReplacePair(s, ',', ' ', ',');
    if |s| < 2 {
    } else if s[0] == ',' && s[1] == ' ' {
      ReplaceCommaBlank(s[2..]);
    } else {
      ReplaceCommaBlank(s[1..]);
    }
  }

  /** `" ,"` becomes `","`. */
  lemma {:induction false} ReplaceBlankComma(s: string)
    requires Plain(s) && NoPair(s, ' ', ' ') && NoPair(s, ',', ' ') && (s != [] ==> !IsSpace(s[|s| - 1]))
    ensures var r := ReplacePair(s, ' ', ',', ',');
      && Plain(r) && NoPair(r, ' ', ' ') && NoPair(r, ',', ' ') && NoPair(r, ' ', ',')
      && (s == [] <==> r == [])
      && (s != [] ==> r[0] == (if |s| >= 2 && s[0] == ' ' && s[1] == ',' then ',' else s[0]) && !IsSpace(r[|r| - 1]))
    decreases |s|
  {
    var r := ReplacePair(s, ' ', ',', ',');
    if |s| < 2 {
    } else if s[0] == ' ' && s[1] == ',' {
      ReplaceBlankComma(s[2..]);
    } else {
      ReplaceBlankComma(s[1..]);
    }
  }

  lemma {:induction false} ReplacePairNoCast(s: string, x: char, y: char)
    requires !HasCast(s) && (x == ',' || y == ',') && x != ':' && y != ':'
    ensures var r := ReplacePair(s, x, y, ',');
      !HasCast(r) && (StartsWithColon(r) ==> StartsWithColon(s))
    decreases |s|
  {
    if |s| >= 2 {
      var k := if s[0] == x && s[1] == y then 2 else 1;
      assert s == s[..k] + s[k..];
      HasCastConcat(s[..k], s[k..]);
      ReplacePairNoCast(s[k..], x, y);
      var c := if k == 2 then ',' else s[0];
      HasCastConcat([c], ReplacePair(s[k..], x, y, ','));
    }
  }

  lemma {:induction false} ReplacePairIdentity(s: string, x: char, y: char)
    requires NoPair(s, x, y)
    ensures ReplacePair(s, x, y, ',') == s
    decreases |s|
  {
    if |s| >= 2 {
      assert !(s[1 - 1] == x && s[1] == y);
      assert forall i :: 0 < i < |s[1..]| ==> s[1..][i - 1] == s[i] && s[1..][i] == s[i + 1];
      ReplacePairIdentity(s[1..], x, y);
    }
  }

  /** Every canonical form is plain, single-blanked, trimmed, with tight commas. */
  lemma CanonicalizeShape(s: string)
    ensures CanonicalShape(Canonicalize(s))
  {
    hide Lower, StripCasts, Collapse, Trim;
    var l := Lower(s);
    LowerUpperFree(s);
    assert UpperFree(StripCasts(l)) by {
      StripFromUpperFree([], l);
      assert StripCasts(l) == StripFrom([], l) by { StripCastsIsScan(l); }
    }
    var c := Collapse(StripCasts(l));
    CollapsedOf(StripCasts(l));
    var a, b := TrimIsFactor(c);
    assert NoPair(c, ' ', ' ');
    var t := Trim(c);
    ReplaceCommaBlank(t);
    ReplaceBlankComma(ReplacePair(t, ',', ' ', ','));
  }

  lemma StripCastsIsScan(s: string)
    ensures StripCasts(s) == StripFrom([], s)
  {
  }

  lemma CollapsedOf(s: string)
    requires UpperFree(s)
    ensures Collapsed(Collapse(s))
  {
    CollapseFromCollapsed([], false, s);
  }

  // ----- canonicalizing again --------------------------------------------------------

  lemma {:induction false} CollapseFromIdentity(b: string, rest: string)
    requires Plain(rest) && NoPair(rest, ' ', ' ')
    requires rest != [] ==> rest[|rest| - 1] != ' ' && (rest[0] == ' ' ==> b != [])
    ensures CollapseFrom(b, false, rest) == b + rest
    decreases |rest|
  {
    if rest == [] {
    } else if rest[0] == ' ' {
      assert rest[1 - 1] == ' ';
      var c := rest[1];
      assert rest[1..][0] == c && c != ' ';
      assert rest[1..][1..] == rest[2..];
      assert PlainChar(c);
      assert !Paren(c) && !Gap(c);
      NoPairTail(rest, 2);
      CollapseFromIdentity(b + " " + [c], rest[2..]);
      assert b + " " + [c] + rest[2..] == b + rest;
    } else {
      assert PlainChar(rest[0]);
      NoPairTail(rest, 1);
      CollapseFromIdentity(b + [rest[0]], rest[1..]);
      assert b + "" + [rest[0]] == b + [rest[0]];
      assert b + [rest[0]] + rest[1..] == b + rest;
    }
  }

  lemma NoPairTail(s: string, k: nat)
    requires k <= |s|
    ensures forall x, y :: NoPair(s, x, y) ==> NoPair(s[k..], x, y)
  {
    forall x, y | NoPair(s, x, y) ensures NoPair(s[k..], x, y) {
      forall i | 0 < i < |s[k..]| ensures !(s[k..][i - 1] == x && s[k..][i] == y) {
        var j := k + i;
        assert !(s[j - 1] == x && s[j] == y);
      }
    }
  }

  lemma CanonicalFixedPoint(c: string)
    requires CanonicalShape(c) && !HasCast(c)
    ensures Canonicalize(c) == c
  {
    hide Lower, StripCasts, Trim;
    LowerIdentity(c);
    StripCastsIdentity(c);
    CollapseFromIdentity([], c);
    assert [] + c == c;
    TrimIdentity(c);
    ReplacePairIdentity(c, ',', ' ');
    ReplacePairIdentity(c, ' ', ',');
  }

  lemma {:induction false} CollapseFromNoCast(b: string, pending: bool, rest: string)
    requires !HasCast(b) && !HasCast(rest) && !(EndsInColon(b) && !pending && StartsWithColon(rest))
    requires forall i :: 0 <= i < |rest| ==> !Paren(rest[i])
    ensures !HasCast(CollapseFrom(b, pending, rest))
    decreases |rest|
  {
    if rest != [] {
      var c := rest[0];
      assert rest == [c] + rest[1..];
      HasCastConcat([c], rest[1..]);
      if Gap(c) {
        CollapseFromNoCast(b, true, rest[1..]);
      } else {
        var gap := if pending && b != [] then " " else "";
        HasCastConcat(b, gap);
        HasCastConcat(b + gap, [c]);
        CollapseFromNoCast(b + gap + [c], false, rest[1..]);
      }
    }
  }

  lemma {:induction false} StripFromParenFree(out: string, rest: string)
    requires forall i :: 0 <= i < |out| ==> !Paren(out[i])
    requires forall i :: 0 <= i < |rest| ==> !Paren(rest[i])
    ensures forall i :: 0 <= i < |StripFrom(out, rest)| ==> !Paren(StripFrom(out, rest)[i])
    decreases |rest|
  {
    hide TypeLen, NumericCastType, NumericLiteral;
    if rest == [] {
    } else if |rest| >= 2 && rest[0] == ':' && rest[1] == ':' {
      var n := TypeLen(rest[2..]);
      StripFromParenFree(if NumericCastType(rest[2..2 + n]) then Unquoted(out) else out, rest[2 + n..]);
    } else {
      StripFromParenFree(out + [rest[0]], rest[1..]);
    }
  }

  /** Without parentheses to drop, canonicalizing cannot bring a `::` back. */
  lemma CanonicalizeParenFreeHasNoCast(c: string)
    requires CanonicalShape(c)
    ensures !HasCast(Canonicalize(c))
  {
    hide Lower, StripCasts, Trim, Collapse, ReplacePair;
    LowerIdentity(c);
    var t := StripCasts(c);
    StripCastsRemovesCasts(c);
    StripCastsIsScan(c);
    assert forall i :: 0 <= i < |c| ==> PlainChar(c[i]);
    StripFromParenFree([], c);
    CollapseNoCast(t);
    var a, b := TrimIsFactor(Collapse(t));
    ReplacePairNoCast(Trim(Collapse(t)), ',', ' ');
    ReplacePairNoCast(ReplacePair(Trim(Collapse(t)), ',', ' ', ','), ' ', ',');
  }

  lemma CollapseNoCast(t: string)
    requires !HasCast(t) && forall i :: 0 <= i < |t| ==> !Paren(t[i])
    ensures !HasCast(Collapse(t))
  {
    CollapseFromNoCast([], false, t);
  }

  /** Canonicalizing twice is canonicalizing once exactly when the form holds no `::`. */
  lemma CanonicalizeIdempotentIff(s: string)
    ensures Canonicalize(Canonicalize(s)) == Canonicalize(s) <==> !HasCast(Canonicalize(s))
  {
    hide Canonicalize;
    CanonicalizeShape(s);
    var c := Canonicalize(s);
    if HasCast(c) {
      CanonicalizeParenFreeHasNoCast(c);
    } else {
      CanonicalFixedPoint(c);
    }
  }

  /** The second round is always final. */
  lemma CanonicalizeSettlesInTwo(s: string)
    ensures Canonicalize(Canonicalize(Canonicalize(s))) == Canonicalize(Canonicalize(s))
  {
    hide Canonicalize;
    var c := Canonicalize(s);
    CanonicalizeShape(s);
    CanonicalizeParenFreeHasNoCast(c);
    CanonicalizeShape(c);
    CanonicalFixedPoint(Canonicalize(c));
  }

  /** Dropping the parenthesis between two colons creates a `::`, which a second round removes. */
  lemma CanonicalizeNotAlwaysIdempotent()
    ensures Canonicalize("a:(:b") == "a::b"
    ensures Canonicalize(Canonicalize("a:(:b")) != Canonicalize("a:(:b")
  {
    var s := "a:(:b";
    assert Lower(s) == s by { LowerIdentity(s); }
    assert StripCasts(s) == s by { StripCastsIdentity(s); }
    assert Collapse(s) == "a::b" by { CollapseExample(); }
    TrimIdentity("a::b");
    ReplacePairIdentity("a::b", ',', ' ');
    ReplacePairIdentity("a::b", ' ', ',');
    assert CastAt("a::b", 1);
    CanonicalizeIdempotentIff(s);
  }

  lemma CollapseExample()
    ensures Collapse("a:(:b") == "a::b"
  {
    var s := "a:(:b";
    assert s[1..] == ":(:b" && ":(:b"[1..] == "(:b" && "(:b"[1..] == ":b" && ":b"[1..] == "b" && "b"[1..] == "";
    calc {
      CollapseFrom("", false, s);
      CollapseFrom("a", false, ":(:b");
      CollapseFrom("a:", false, "(:b");
      CollapseFrom("a:", false, ":b");
      CollapseFrom("a::", false, "b");
      CollapseFrom("a::b", false, "");
    }
  }
}
