/** Qualifying an identifier with the default schema is invisible to the trigger comparison as a whole. */
module TriggerLaws {
  import opened Text
  import opened TriggerText

  // ----- collapsing blanks, character by character -------------------------------------------------

  /** The rest of a scan that owes a blank (`owed`) and has written something (`begun`). */
  function Squeeze(s: string, owed: bool, begun: bool): string
    decreases |s|
  {
    if s == [] then []
    else if IsSpace(s[0]) then Squeeze(s[1..], begun, begun)
    else (if owed then " " else "") + [s[0]] + Squeeze(s[1..], false, true)
  }

  lemma {:induction false} SqueezeBlanks(s: string, begun: bool)
    ensures Squeeze(s, begun, begun) ==
      if TrimLeft(s) == "" then "" else (if begun then " " else "") + Squeeze(TrimLeft(s), false, true)
  {
    if s != [] && IsSpace(s[0]) {
      SqueezeBlanks(s[1..], begun);
    }
  }

  lemma {:induction false} SqueezeField(t: string)
    ensures |FirstField(t)| <= |t|
    ensures Squeeze(t, false, true) == FirstField(t) + Squeeze(t[|FirstField(t)|..], false, true)
  {
    if t == [] || IsSpace(t[0]) {
      assert FirstField(t) == "" && t[0..] == t;
    } else {
      SqueezeField(t[1..]);
      var f := FirstField(t[1..]);
      assert FirstField(t) == [t[0]] + f;
      assert t[|FirstField(t)|..] == t[1..][|f|..];
    }
  }

  lemma {:induction false} FieldEndsAtBlank(t: string)
    ensures |FirstField(t)| <= |t|
    ensures var r := t[|FirstField(t)|..]; r == "" || IsSpace(r[0])
    ensures t != "" && !IsSpace(t[0]) ==> FirstField(t) != ""
  {
    if t != [] && !IsSpace(t[0]) {
      FieldEndsAtBlank(t[1..]);
      assert t[|FirstField(t)|..] == t[1..][|FirstField(t[1..])|..];
    }
  }

  lemma SqueezeBehindField(r: string)
    requires r == "" || IsSpace(r[0])
    ensures Squeeze(r, false, true) == Squeeze(r, true, true)
  {
  }

  /** Joining the fields with single blanks is collapsing the blanks. */
  lemma {:induction false} JoinFieldsIsSqueeze(s: string)
    ensures Join(Fields(s), " ") == Squeeze(s, false, false)
    decreases |s|
  {
    hide Squeeze, Fields, FirstField, TrimLeft;
    var t := TrimLeft(s);
    SqueezeBlanks(s, false);
    TrimLeftShrinks(s);
    TrimLeftHead(s);
    FieldsUnfold(s);
    if t != "" {
      var f := FirstField(t);
      FieldEndsAtBlank(t);
      var r := t[|f|..];
      SqueezeField(t);
      SqueezeBehindField(r);
      SqueezeBlanks(r, true);
      JoinFieldsIsSqueeze(r);
      SqueezeBlanks(r, false);
      NoFields(r);
    }
  }

  lemma FieldsUnfold(s: string)
    ensures var t := TrimLeft(s);
      if t == "" then Fields(s) == []
      else |FirstField(t)| <= |t| && Fields(s) == [FirstField(t)] + Fields(t[|FirstField(t)|..])
  {
    FieldEndsAtBlank(TrimLeft(s));
  }

  lemma NoFields(r: string)
    ensures Fields(r) == [] <==> TrimLeft(r) == ""
  {
    FieldsUnfold(r);
  }

  lemma {:induction false} SqueezeTrimmed(s: string, owed: bool, begun: bool)
    ensures var r := Squeeze(s, owed, begun); r != "" ==> !IsSpace(r[|r| - 1]) && (!owed && !begun ==> !IsSpace(r[0]))
    decreases |s|
  {
    if s != [] {
      SqueezeTrimmed(s[1..], if IsSpace(s[0]) then begun else false, if IsSpace(s[0]) then begun else true);
    }
  }

  // ----- in front of a word ---------------------------------------------------------------------------

  /** What the scan has written once the next character is not a blank. */
  function Lead(u: string, owed: bool, begun: bool): string
    decreases |u|
  {
    if u == [] then (if owed then " " else "")
    else if IsSpace(u[0]) then Lead(u[1..], begun, begun)
    else (if owed then " " else "") + [u[0]] + Lead(u[1..], false, true)
  }

  lemma {:induction false} SqueezeConcat(u: string, x: string, owed: bool, begun: bool)
    requires x != "" && !IsSpace(x[0])
    ensures Squeeze(u + x, owed, begun) == Lead(u, owed, begun) + Squeeze(x, false, true)
    decreases |u|
  {
    if u == [] {
      assert u + x == x;
    } else {
      assert (u + x)[1..] == u[1..] + x && (u + x)[0] == u[0];
      if IsSpace(u[0]) {
        SqueezeConcat(u[1..], x, begun, begun);
      } else {
        SqueezeConcat(u[1..], x, false, true);
      }
    }
  }

  /** `u` is empty or ends where a word may begin. */
  predicate EndsOpen(u: string) {
    u == "" || IsSpace(u[|u| - 1]) || u[|u| - 1] == '('
  }

  lemma {:induction false} LeadEndsOpen(u: string, owed: bool, begun: bool)
    requires EndsOpen(u) && (u == "" ==> owed == begun)
    ensures var l := Lead(u, owed, begun); (l == "" || Boundary(l[|l| - 1])) && (begun ==> l != "")
    decreases |u|
  {
    if u != [] {
      if IsSpace(u[0]) {
        LeadEndsOpen(u[1..], begun, begun);
      } else if |u| > 1 {
        LeadEndsOpen(u[1..], false, true);
      }
    }
  }

  predicate NoSpace(q: string) {
    forall i :: 0 <= i < |q| ==> !IsSpace(q[i])
  }

  lemma {:induction false} SqueezeWord(q: string, y: string)
    requires NoSpace(q)
    ensures Squeeze(q + y, false, true) == q + Squeeze(y, false, true)
  {
    if q == [] {
      assert q + y == y;
    } else {
      assert (q + y)[1..] == q[1..] + y && (q + y)[0] == q[0];
      SqueezeWord(q[1..], y);
    }
  }

  lemma NextIsWord(y: string)
    requires Squeeze(y, false, true) != "" && !IsSpace(Squeeze(y, false, true)[0])
    ensures y != "" && !IsSpace(y[0])
  {
    if y != "" && IsSpace(y[0]) {
      SqueezeBehindField(y);
      SqueezeBlanks(y, true);
    }
  }

  lemma {:induction false} SqueezeStarts(t: string, y: string)
    requires NoSpace(t) && t <= Squeeze(y, false, true) && (y != "" ==> !IsSpace(y[0]))
    ensures t <= y
    decreases |t|
  {
    if t != [] {
      var r := Squeeze(y, false, true);
      assert r[0] == y[0] == t[0];
      var r' := Squeeze(y[1..], false, true);
      assert r == [y[0]] + r';
      assert t[1..] <= r';
      if |t| > 1 {
        assert r'[0] == t[1];
        NextIsWord(y[1..]);
        SqueezeStarts(t[1..], y[1..]);
      }
    }
  }

  // ----- replacing ----------------------------------------------------------------------------------------

  /** A replacement that keeps the first and the last character. */
  predicate KeepsEnds(old_: string, new_: string) {
    old_ != "" && new_ != "" && old_[0] == new_[0] && old_[|old_| - 1] == new_[|new_| - 1]
  }

  /** No occurrence of `p` starts in `a` and ends behind it. */
  ghost predicate NoneAcross(a: string, b: string, p: string) {
    forall i :: 0 <= i < |a| && i + |p| > |a| ==> !(p <= (a + b)[i..])
  }

  lemma StartsSame(a: string, b: string, p: string)
    requires a != "" && p != "" && NoneAcross(a, b, p)
    ensures p <= a + b <==> p <= a
  {
    assert (a + b)[0..] == a + b;
    if |p| <= |a| {
      assert (a + b)[..|p|] == a[..|p|];
    }
  }

  lemma NoneAcrossTail(a: string, b: string, p: string, n: nat)
    requires NoneAcross(a, b, p) && n <= |a|
    ensures NoneAcross(a[n..], b, p) && (a + b)[n..] == a[n..] + b
  {
    var t := a[n..];
    forall i | 0 <= i < |t| && i + |p| > |t| ensures !(p <= (t + b)[i..]) {
      assert (t + b)[i..] == (a + b)[i + n..];
    }
  }

  lemma {:induction false} ReplaceApart(a: string, b: string, old_: string, new_: string)
    requires old_ != "" && NoneAcross(a, b, old_)
    ensures ReplaceAll(a + b, old_, new_) == ReplaceAll(a, old_, new_) + ReplaceAll(b, old_, new_)
    decreases |a|
  {
    hide NoneAcross;
    if a == [] {
      assert a + b == b;
    } else {
      StartsSame(a, b, old_);
      var n := if old_ <= a then |old_| else 1;
      NoneAcrossTail(a, b, old_, n);
      ReplaceApart(a[n..], b, old_, new_);
      assert (a + b)[0] == a[0];
    }
  }

  lemma {:induction false} ReplaceEnds(a: string, old_: string, new_: string)
    requires KeepsEnds(old_, new_) && a != ""
    ensures var r := ReplaceAll(a, old_, new_); r != "" && r[0] == a[0] && r[|r| - 1] == a[|a| - 1]
    decreases |a|
  {
    var n, head := if old_ <= a then |old_| else 1, if old_ <= a then new_ else [a[0]];
    var rest := ReplaceAll(a[n..], old_, new_);
    assert ReplaceAll(a, old_, new_) == head + rest;
    hide ReplaceAll;
    if a[n..] != [] {
      ReplaceEnds(a[n..], old_, new_);
    }
  }

  /** A start without the pattern's first character was there before. */
  lemma {:induction false} ReplaceStarts(t: string, s: string, old_: string, new_: string)
    requires KeepsEnds(old_, new_) && old_[0] !in t && t <= ReplaceAll(s, old_, new_)
    ensures t <= s
    decreases |t|
  {
    if t != [] && s != [] {
      var r := ReplaceAll(s, old_, new_);
      assert t[0] == r[0];
      ReplaceEnds(s, old_, new_);
      assert !(old_ <= s);
      assert r[1..] == ReplaceAll(s[1..], old_, new_);
      ReplaceStarts(t[1..], s[1..], old_, new_);
    }
  }

  lemma {:induction false} ReplaceNothing(q: string, b: string, old_: string, new_: string)
    requires old_ != "" && old_[0] !in q
    ensures ReplaceAll(q + b, old_, new_) == q + ReplaceAll(b, old_, new_)
  {
    if q == [] {
      assert q + b == b;
    } else {
      assert (q + b)[0] == q[0] && (q + b)[1..] == q[1..] + b;
      assert !(old_ <= q + b);
      ReplaceNothing(q[1..], b, old_, new_);
    }
  }

  // ----- the comparison ---------------------------------------------------------------------------------

  lemma SynonymEnds()
    ensures KeepsEnds(SYNONYM, CANONICAL) && 'e' !in QUALIFIER && SYNONYM[0] == 'e' && NoSpace(QUALIFIER) && NoSpace("procedure")
    ensures forall j :: 0 <= j < |SYNONYM| - 1 && (SYNONYM[j] == ' ' || SYNONYM[j] == '(') ==> j == 7
    ensures SYNONYM[8..17] == "procedure" && |SYNONYM| == 18
  {
  }

  lemma DiffersAt(p: string, s: string, j: nat)
    requires j < |p| && j < |s| && p[j] != s[j]
    ensures !(p <= s)
  {
  }

  lemma TailStarts(p: string, s: string, k: nat, m: nat)
    requires k <= m <= |p| && k <= |s|
    ensures p <= s ==> p[k..m] <= s[k..]
  {
    if p <= s {
      assert s[k..][..m - k] == s[k..m] == p[k..m];
    }
  }

  /** Nothing of the synonym lies across a word boundary unless `procedure` follows it. */
  lemma NoneAcrossBoundary(u: string, r: string)
    requires u == "" || Boundary(u[|u| - 1])
    requires !("procedure" <= r)
    ensures NoneAcross(u, r, SYNONYM)
  {
    SynonymEnds();
    var p := SYNONYM;
    forall i | 0 <= i < |u| && i + |p| > |u| ensures !(p <= (u + r)[i..]) {
      var s := (u + r)[i..];
      var j := |u| - 1 - i;
      assert s[j] == u[|u| - 1];
      if j != 7 {
        DiffersAt(p, s, j);
      } else {
        assert s[8..] == r;
        TailStarts(p, s, 8, 17);
      }
    }
  }

  /** The steps behind the collapsing of blanks. */
  function Finished(s: string): string {
    StripPublic(ReplaceAll(TrimSuffix(s, ";"), SYNONYM, CANONICAL), true)
  }

  function Plainly(def: string): string {
    WithoutQuotes(Lower(def))
  }

  lemma NormalizeIs(def: string)
    ensures NormalizeTriggerDefinition(def) == Finished(Squeeze(Plainly(def), false, false))
  {
    JoinFieldsIsSqueeze(Plainly(def));
    SqueezeTrimmed(Plainly(def), false, false);
    TrimIdentity(Squeeze(Plainly(def), false, false));
    hide Trim, Fields, Join, Lower, WithoutQuotes, Squeeze, ReplaceAll, StripPublic, TrimSuffix;
  }

  lemma SuffixBehind(a: string, r: string)
    requires |r| >= 1 && (r == ";" ==> a == "")
    ensures r != ";" ==> TrimSuffix(a + r, ";") == a + TrimSuffix(r, ";") && TrimSuffix(r, ";") != "" && TrimSuffix(r, ";")[0] == r[0]
    ensures TrimSuffix(r, ";") <= r
  {
    var s := a + r;
    assert s[|s| - 1] == r[|r| - 1];
    assert s[|s| - 1..] == [s[|s| - 1]] && r[|r| - 1..] == [r[|r| - 1]];
  }

  lemma ReplacedApart(u: string, cut: string)
    requires u == "" || Boundary(u[|u| - 1])
    requires !("procedure" <= cut)
    ensures var a, b := ReplaceAll(u, SYNONYM, CANONICAL), ReplaceAll(cut, SYNONYM, CANONICAL);
      && ReplaceAll(u + cut, SYNONYM, CANONICAL) == a + b
      && ReplaceAll(u + (QUALIFIER + cut), SYNONYM, CANONICAL) == a + (QUALIFIER + b)
      && (a == "" || Boundary(a[|a| - 1]))
  {
    SynonymEnds();
    var q, p, n := QUALIFIER, SYNONYM, CANONICAL;
    NotProcedure(cut);
    hide ReplaceAll, Boundary, NoneAcross;
    NoneAcrossBoundary(u, q + cut);
    NoneAcrossBoundary(u, cut);
    ReplaceApart(u, q + cut, p, n);
    ReplaceApart(u, cut, p, n);
    ReplaceNothing(q, cut, p, n);
    if u != "" {
      ReplaceEnds(u, p, n);
    } else {
      NothingReplaced(p, n);
    }
  }

  lemma ReplacedStart(cut: string)
    requires cut != "" && IdentStart(cut[0]) && !(QUALIFIER <= cut)
    ensures var b := ReplaceAll(cut, SYNONYM, CANONICAL); b != "" && IdentStart(b[0]) && !(QUALIFIER <= b)
  {
    SynonymEnds();
    hide ReplaceAll, IdentStart;
    ReplaceEnds(cut, SYNONYM, CANONICAL);
    if QUALIFIER <= ReplaceAll(cut, SYNONYM, CANONICAL) {
      ReplaceStarts(QUALIFIER, cut, SYNONYM, CANONICAL);
    }
  }

  /** Behind a word boundary the qualifier drops out of the finished text. */
  lemma FinishedWithoutQualifier(u: string, r: string)
    requires u == "" || Boundary(u[|u| - 1])
    requires r != "" && IdentStart(r[0]) && !(QUALIFIER <= r) && !("procedure" <= r)
    ensures Finished(u + (QUALIFIER + r)) == Finished(u + r)
  {
    var cut := TrimSuffix(r, ";");
    SuffixBehind(u, r);
    SuffixBehind(u + QUALIFIER, r);
    assert u + (QUALIFIER + r) == (u + QUALIFIER) + r && (u + QUALIFIER) + cut == u + (QUALIFIER + cut);
    hide TrimSuffix, ReplaceAll, StripPublic, Boundary, IdentStart;
    ReplacedApart(u, cut);
    ReplacedStart(cut);
    QualifierIsInvisible(ReplaceAll(u, SYNONYM, CANONICAL), ReplaceAll(cut, SYNONYM, CANONICAL), true);
  }

  lemma NothingReplaced(p: string, n: string)
    requires p != ""
    ensures ReplaceAll("", p, n) == ""
  {
  }

  lemma NotProcedure(r: string)
    ensures !("procedure" <= QUALIFIER + r)
  {
    assert "procedure"[1] == 'r' && (QUALIFIER + r)[1] == 'u';
  }

  lemma {:induction false} PlainlyConcat(a: string, b: string)
    ensures Plainly(a + b) == Plainly(a) + Plainly(b)
  {
    LowerConcat(a, b);
    hide Lower;
    WithoutQuotesConcat(Lower(a), Lower(b));
  }

  lemma {:induction false} WithoutQuotesConcat(a: string, b: string)
    ensures WithoutQuotes(a + b) == WithoutQuotes(a) + WithoutQuotes(b)
  {
    if a == [] {
      assert a + b == b;
    } else {
      assert (a + b)[0] == a[0] && (a + b)[1..] == a[1..] + b;
      WithoutQuotesConcat(a[1..], b);
    }
  }

  lemma PlainQualifier()
    ensures Plainly(QUALIFIER) == QUALIFIER
  {
    LowerIs(QUALIFIER, QUALIFIER);
    hide Lower;
    NoQuotes(QUALIFIER);
  }

  lemma {:induction false} NoQuotes(s: string)
    requires '"' !in s
    ensures WithoutQuotes(s) == s
  {
    if s != [] {
      NoQuotes(s[1..]);
    }
  }

  lemma {:induction false} PlainlyEndsOpen(x: string)
    requires EndsOpen(x)
    ensures EndsOpen(Plainly(x)) && (Plainly(x) == "" <==> x == "")
  {
    if x != "" {
      var n := |x| - 1;
      assert x == x[..n] + [x[n]];
      PlainlyConcat(x[..n], [x[n]]);
      assert Plainly([x[n]]) == [x[n]] by {
        LowerIs([x[n]], [x[n]]);
        NoQuotes([x[n]]);
      }
    }
  }

  /**
   Writing the default schema in front of an identifier, at the start of a word, does not change
   what triggers are compared by, unless the identifier is itself qualified with that schema or
   begins with `procedure`.
   */
  lemma QualifiedTriggerIsEqual(x: string, y: string)
    requires EndsOpen(x)
    requires var w := WithoutQuotes(Lower(y)); w != "" && IdentStart(w[0]) && !(QUALIFIER <= w) && !("procedure" <= w)
    ensures NormalizeTriggerDefinition(x + (QUALIFIER + y)) == NormalizeTriggerDefinition(x + y)
  {
    var u, w, q := Plainly(x), Plainly(y), QUALIFIER;
    assert w == WithoutQuotes(Lower(y));
    hide Plainly, Finished, Squeeze, NormalizeTriggerDefinition, WithoutQuotes, Lower, EndsOpen;
    NormalizeIs(x + (q + y));
    NormalizeIs(x + y);
    PlainlyConcat(x, q + y);
    PlainlyConcat(q, y);
    PlainlyConcat(x, y);
    PlainQualifier();
    PlainlyEndsOpen(x);
    QualifiedSqueeze(u, w);
  }

  lemma QualifiedSqueeze(u: string, w: string)
    requires EndsOpen(u) && w != "" && IdentStart(w[0]) && !(QUALIFIER <= w) && !("procedure" <= w)
    ensures Finished(Squeeze(u + (QUALIFIER + w), false, false)) == Finished(Squeeze(u + w, false, false))
  {
    SynonymEnds();
    var q := QUALIFIER;
    var l, r := Lead(u, false, false), Squeeze(w, false, true);
    assert !IsSpace(w[0]) && r[0] == w[0];
    LeadEndsOpen(u, false, false);
    hide Squeeze, Lead, Finished;
    SqueezeConcat(u, q + w, false, false);
    SqueezeConcat(u, w, false, false);
    SqueezeWord(q, w);
    if q <= r {
      SqueezeStarts(q, w);
    }
    if "procedure" <= r {
      SqueezeStarts("procedure", w);
    }
    FinishedWithoutQualifier(l, r);
  }
}
