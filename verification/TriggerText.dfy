/** How a rendered trigger is compared with the catalog's definition of it. */
module TriggerText {
  import opened Text

  const QUALIFIER := "public."

  predicate IdentStart(c: char) {
    'a' <= c <= 'z' || 'A' <= c <= 'Z' || c == '_'
  }

  /** What may stand in front of a schema qualifier. */
  predicate Boundary(c: char) {
    c == ' ' || c == '('
  }

  /** `s` begins with the default schema's qualifier and an identifier behind it. */
  predicate Qualified(s: string) {
    QUALIFIER <= s && |s| > |QUALIFIER| && IdentStart(s[|QUALIFIER|])
  }

  /** Drops qualifiers at word boundaries; `open` tells whether `s` starts at one. */
  function StripPublic(s: string, open_: bool): string
    decreases |s|
  {
    if s == [] then []
    else if open_ && Qualified(s) then StripPublic(s[|QUALIFIER|..], false)
    else [s[0]] + StripPublic(s[1..], Boundary(s[0]))
  }

  predicate HasQualifierAt(s: string, i: nat)
    requires i <= |s|
  {
    && MatchAt(s, QUALIFIER, i)
    && (i == 0 || Boundary(s[i - 1]))
    && i + |QUALIFIER| < |s| && IdentStart(s[i + |QUALIFIER|])
  }

  lemma QualifierHere(s: string, i: nat)
    requires i <= |s|
    ensures HasQualifierAt(s, i) <==> (i == 0 || Boundary(s[i - 1])) && Qualified(s[i..])
  {
    hide IdentStart, Boundary;
    var r := s[i..];
    if i + |QUALIFIER| < |s| {
      assert r[|QUALIFIER|] == s[i + |QUALIFIER|];
      assert r[..|QUALIFIER|] == s[i..i + |QUALIFIER|];
    }
  }

  method StripRedundantPublicSchema(s: string) returns (r: string)
    ensures r == StripPublic(s, true)
  {
    hide Qualified, Boundary, HasQualifierAt;
    r := "";
    var i := 0;
    assert s[0..] == s;
    while i < |s|
      invariant 0 <= i <= |s|
      invariant r + StripPublic(s[i..], i == 0 || Boundary(s[i - 1])) == StripPublic(s, true)
    {
      QualifierHere(s, i);
      if HasQualifierAt(s, i) {
        SkipQualifier(s, i);
        i := i + |QUALIFIER|;
      } else {
        assert s[i..][1..] == s[i + 1..] && s[i..][0] == s[i];
        r := r + [s[i]];
        i := i + 1;
      }
    }
    assert s[|s|..] == "";
  }

  lemma SkipQualifier(s: string, i: nat)
    requires i < |s| && Qualified(s[i..])
    ensures i + |QUALIFIER| <= |s| && !Boundary(s[i + |QUALIFIER| - 1])
    ensures StripPublic(s[i..], true) == StripPublic(s[i + |QUALIFIER|..], false)
  {
    hide IdentStart;
    var r := s[i..];
    assert r[6] == QUALIFIER[6] == '.';
    assert r[|QUALIFIER|..] == s[i + |QUALIFIER|..];
  }

  /** A qualifier that starts inside `a` ends inside it when `a` ends at a boundary. */
  lemma QualifiedInFront(a: string, x: string, y: string)
    requires a != "" && Boundary(a[|a| - 1]) && Qualified(a + x)
    ensures |a| > |QUALIFIER| && Qualified(a + y)
  {
    var q := QUALIFIER;
    var s := a + x;
    assert forall k :: 0 <= k < |q| ==> s[k] == q[k] && !Boundary(q[k]);
    assert Boundary(s[|a| - 1]);
    assert (a + y)[..|q|] == a[..|q|] == (a + x)[..|q|];
  }

  lemma StripSkips(s: string)
    requires Qualified(s)
    ensures StripPublic(s, true) == StripPublic(s[|QUALIFIER|..], false)
  {
    hide IdentStart;
  }

  lemma StripCopies(s: string, open_: bool)
    requires s != "" && !(open_ && Qualified(s))
    ensures StripPublic(s, open_) == [s[0]] + StripPublic(s[1..], Boundary(s[0]))
  {
    hide Qualified;
  }

  lemma DropFront(a: string, x: string, n: nat)
    requires n <= |a|
    ensures (a + x)[n..] == a[n..] + x
  {
  }

  lemma QualifiedAlone(b: string)
    requires b != "" && IdentStart(b[0])
    ensures Qualified(QUALIFIER + b) && (QUALIFIER + b)[|QUALIFIER|..] == b
  {
  }

  /** Writing the default schema in front of an identifier does not change the comparison form. */
  lemma {:induction false} QualifierIsInvisible(a: string, b: string, open_: bool)
    requires a == "" ==> open_
    requires a != "" ==> Boundary(a[|a| - 1])
    requires b != "" && IdentStart(b[0]) && !Qualified(b)
    ensures StripPublic(a + (QUALIFIER + b), open_) == StripPublic(a + b, open_)
    decreases |a|
  {
    hide StripPublic, Qualified, IdentStart, Boundary;
    var x, n := QUALIFIER + b, |QUALIFIER|;
    if a == "" {
      assert a + x == x && a + b == b;
      QualifiedAlone(b);
      StripSkips(x);
      StripCopies(b, true);
      StripCopies(b, false);
    } else if open_ && Qualified(a + x) {
      QualifiedInFront(a, x, b);
      StripSkips(a + x);
      StripSkips(a + b);
      DropFront(a, x, n);
      DropFront(a, b, n);
      QualifierIsInvisible(a[n..], b, false);
    } else {
      if open_ && Qualified(a + b) {
        QualifiedInFront(a, b, x);
      }
      StripCopies(a + x, open_);
      StripCopies(a + b, open_);
      DropFront(a, x, 1);
      DropFront(a, b, 1);
      QualifierIsInvisible(a[1..], b, Boundary(a[0]));
    }
  }

  // ----- the other cosmetic differences --------------------------------------------------

  function WithoutQuotes(s: string): string {
    if s == [] then [] else (if s[0] == '"' then [] else [s[0]]) + WithoutQuotes(s[1..])
  }

  function TrimSuffix(s: string, suffix: string): string {
    if HasSuffix(s, suffix) then s[..|s| - |suffix|] else s
  }

  /** Replaces every occurrence, left to right. */
  function ReplaceAll(s: string, old_: string, new_: string): string
    requires old_ != ""
    decreases |s|
  {
    if s == [] then []
    else if old_ <= s then new_ + ReplaceAll(s[|old_|..], old_, new_)
    else [s[0]] + ReplaceAll(s[1..], old_, new_)
  }

  const SYNONYM := "execute procedure "
  const CANONICAL := "execute function "

  function NormalizeTriggerDefinition(def: string): string {
    var s := Trim(Join(Fields(WithoutQuotes(Lower(def))), " "));
    StripPublic(ReplaceAll(TrimSuffix(s, ";"), SYNONYM, CANONICAL), true)
  }

  lemma {:induction false} QuotesAndCase(s: string)
    ensures WithoutQuotes(Lower(WithoutQuotes(s))) == WithoutQuotes(Lower(s))
  {
    if s != [] {
      QuotesAndCase(s[1..]);
      var l := Lower(s);
      assert l[0] == LowerChar(s[0]) && l[1..] == Lower(s[1..]);
      if s[0] != '"' {
        var w := WithoutQuotes(s);
        assert w[1..] == WithoutQuotes(s[1..]) && w[0] == s[0];
        assert Lower(w)[1..] == Lower(w[1..]) && Lower(w)[0] == l[0] != '"';
        assert WithoutQuotes(Lower(w)) == [l[0]] + WithoutQuotes(Lower(w[1..]));
      } else {
        assert [] + WithoutQuotes(s[1..]) == WithoutQuotes(s[1..]);
        assert [] + WithoutQuotes(l[1..]) == WithoutQuotes(l[1..]);
      }
    }
  }

  /** Quoting identifiers and the case of letters are invisible to the comparison. */
  lemma QuotesAndCaseAreInvisible(def: string)
    ensures NormalizeTriggerDefinition(WithoutQuotes(def)) == NormalizeTriggerDefinition(def)
    ensures NormalizeTriggerDefinition(Lower(def)) == NormalizeTriggerDefinition(def)
  {
    QuotesAndCase(def);
    LowerTwice(def);
    hide Lower, WithoutQuotes, Trim, Fields, Join, TrimSuffix, ReplaceAll, StripPublic;
  }
}
