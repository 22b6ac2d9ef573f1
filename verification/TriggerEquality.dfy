/** Which trigger definitions compare equal: tidy texts only if they are the same, others up to cosmetics. */
module TriggerEquality {
  import opened Text
  import opened TriggerText
  import opened TriggerLaws

  // ----- tidy texts ----------------------------------------------------------------------------

  /** Lower case, no quotes, single blanks between words, no semicolon behind. */
  predicate TidyWords(s: string) {
    && (forall i :: 0 <= i < |s| ==> !('A' <= s[i] <= 'Z') && s[i] != '"' && (IsSpace(s[i]) ==> s[i] == ' '))
    && (forall i :: 0 < i < |s| ==> !(s[i - 1] == ' ' && s[i] == ' '))
    && (s != "" ==> s[0] != ' ' && s[|s| - 1] != ' ' && s[|s| - 1] != ';')
  }

  /** `public.` in front of a lower-case identifier at `i`, the start of a word or behind a parenthesis. */
  predicate PublicAt(s: string, i: nat) {
    && i + 7 < |s| && s[i..i + 7] == "public." && ('a' <= s[i + 7] <= 'z' || s[i + 7] == '_')
    && (i == 0 || s[i - 1] == ' ' || s[i - 1] == '(')
  }

  ghost predicate Tidy(s: string) {
    TidyWords(s) && !Contains(s, "execute procedure ") && forall i :: 0 <= i < |s| ==> !PublicAt(s, i)
  }

  lemma {:induction false} SqueezeTidy(s: string)
    requires forall i :: 0 <= i < |s| ==> IsSpace(s[i]) ==> s[i] == ' '
    requires forall i :: 0 < i < |s| ==> !(s[i - 1] == ' ' && s[i] == ' ')
    requires s != "" ==> s[|s| - 1] != ' '
    ensures Squeeze(s, false, true) == s
    decreases |s|
  {
    if s != "" {
      var k := if s[0] == ' ' then 2 else 1;
      if k == 2 {
        assert s[1 - 1] == ' ' && s[1] != ' ';
        assert s[1..][1..] == s[2..] && s[1..][0] == s[1];
      }
      TidyTail(s, k);
      SqueezeTidy(s[k..]);
    }
  }

  lemma TidyTail(s: string, k: nat)
    requires k <= |s|
    requires forall i :: 0 <= i < |s| ==> IsSpace(s[i]) ==> s[i] == ' '
    requires forall i :: 0 < i < |s| ==> !(s[i - 1] == ' ' && s[i] == ' ')
    requires s != "" ==> s[|s| - 1] != ' '
    ensures var t := s[k..];
      && (forall i :: 0 <= i < |t| ==> IsSpace(t[i]) ==> t[i] == ' ')
      && (forall i :: 0 < i < |t| ==> !(t[i - 1] == ' ' && t[i] == ' '))
      && (t != "" ==> t[|t| - 1] != ' ')
  {
    var t := s[k..];
    forall i | 0 < i < |t| ensures !(t[i - 1] == ' ' && t[i] == ' ') {
      var j := k + i;
      assert !(s[j - 1] == ' ' && s[j] == ' ');
    }
  }

  lemma {:induction false} ReplaceAbsent(s: string, old_: string, new_: string)
    requires old_ != "" && !Contains(s, old_)
    ensures ReplaceAll(s, old_, new_) == s
    decreases |s|
  {
    if s != "" {
      assert !MatchAt(s, old_, 0);
      forall i | 0 <= i <= |s[1..]| ensures !MatchAt(s[1..], old_, i) {
        assert !MatchAt(s, old_, i + 1);
        if i + |old_| <= |s[1..]| {
          assert s[1..][i..i + |old_|] == s[i + 1..i + 1 + |old_|];
        }
      }
      ReplaceAbsent(s[1..], old_, new_);
    }
  }

  lemma QualifiedIsPublic(s: string, i: nat, prev: char)
    requires i < |s| && !PublicAt(s, i) && (i > 0 ==> prev == s[i - 1])
    requires forall k :: 0 <= k < |s| ==> !('A' <= s[k] <= 'Z')
    ensures (i == 0 || Boundary(prev)) ==> !Qualified(s[i..])
  {
    var r := s[i..];
    assert QUALIFIER == "public." && |QUALIFIER| == 7;
    assert |r| >= 7 ==> r[..7] == s[i..i + 7];
    assert |r| > 7 ==> r[7] == s[i + 7];
  }

  lemma {:induction false} StripAbsent(s: string, i: nat)
    requires i <= |s| && (forall k :: 0 <= k < |s| ==> !('A' <= s[k] <= 'Z') && !PublicAt(s, k))
    ensures StripPublic(s[i..], i == 0 || Boundary(s[i - 1])) == s[i..]
    decreases |s| - i
  {
    hide PublicAt, Qualified, Boundary;
    if i < |s| {
      QualifiedIsPublic(s, i, if i > 0 then s[i - 1] else ' ');
      assert s[i..][0] == s[i] && s[i..][1..] == s[i + 1..];
      StripAbsent(s, i + 1);
    }
  }

  /** A tidy text is compared as it is, so two of them compare equal only if they are the same. */
  lemma TidyStays(s: string)
    requires Tidy(s)
    ensures NormalizeTriggerDefinition(s) == s
  {
    hide PublicAt, Contains, NormalizeTriggerDefinition;
    NormalizeIs(s);
    LowerIs(s, s);
    NoQuotes(s);
    assert Plainly(s) == s;
    hide Plainly, Lower;
    if s != "" {
      SqueezeTidy(s);
    }
    assert Squeeze(s, false, false) == s;
    hide Squeeze;
    assert TrimSuffix(s, ";") == s;
    hide TrimSuffix;
    assert SYNONYM == "execute procedure ";
    ReplaceAbsent(s, SYNONYM, CANONICAL);
    hide ReplaceAll;
    StripAbsent(s, 0);
    assert s[0..] == s;
  }

  // ----- a semicolon at the end ------------------------------------------------------------------

  lemma {:induction false} SqueezeAppend(p: string, c: char, owed: bool, begun: bool)
    requires p != "" && !IsSpace(p[|p| - 1]) && !IsSpace(c)
    ensures var r := Squeeze(p, owed, begun);
      Squeeze(p + [c], owed, begun) == r + [c] && r != "" && r[|r| - 1] == p[|p| - 1]
    decreases |p|
  {
    assert (p + [c])[0] == p[0] && (p + [c])[1..] == p[1..] + [c];
    if |p| == 1 {
      assert p[1..] == "" && "" + [c] == [c] && [c][1..] == "";
    } else {
      SqueezeAppend(p[1..], c, if IsSpace(p[0]) then begun else false, if IsSpace(p[0]) then begun else true);
    }
  }

  lemma PlainlyLast(s: string)
    requires s != "" && s[|s| - 1] != '"'
    ensures var p := Plainly(s); p != "" && p[|p| - 1] == LowerChar(s[|s| - 1])
  {
    var n := |s| - 1;
    var c := LowerChar(s[n]);
    assert s == s[..n] + [s[n]];
    LowerIs([s[n]], [c]);
    NoQuotes([c]);
    assert Plainly([s[n]]) == [c];
    hide Plainly;
    PlainlyConcat(s[..n], [s[n]]);
  }

  /** A semicolon behind the last word does not count. */
  lemma SemicolonIsInvisible(s: string)
    requires s != "" ==> !IsSpace(s[|s| - 1]) && s[|s| - 1] != '"' && s[|s| - 1] != ';'
    ensures NormalizeTriggerDefinition(s + ";") == NormalizeTriggerDefinition(s)
  {
    PlainSemicolon();
    hide NormalizeTriggerDefinition, Plainly, Squeeze, Finished;
    NormalizeIs(s + ";");
    NormalizeIs(s);
    PlainlyConcat(s, ";");
    if s == "" {
      NothingPlain();
      NothingFinished();
      assert "" + ";" == ";";
    } else {
      PlainlyLast(s);
      var p := Plainly(s);
      SqueezeAppend(p, ';', false, false);
      FinishedSemicolon(Squeeze(p, false, false));
    }
  }

  lemma PlainSemicolon()
    ensures Plainly(";") == ";"
  {
    LowerIs(";", ";");
    NoQuotes(";");
  }

  lemma NothingPlain()
    ensures Plainly("") == ""
  {
  }

  lemma NothingFinished()
    ensures Finished(Squeeze(";", false, false)) == Finished(Squeeze("", false, false))
  {
    assert ";"[1..] == "";
    assert Squeeze(";", false, false) == ";" && Squeeze("", false, false) == "";
    hide Squeeze, ReplaceAll, StripPublic;
    assert TrimSuffix(";", ";") == "" && TrimSuffix("", ";") == "";
  }

  lemma FinishedSemicolon(r: string)
    requires r != "" && r[|r| - 1] != ';'
    ensures Finished(r + ";") == Finished(r)
  {
    hide ReplaceAll, StripPublic;
    assert (r + ";")[|r|..] == ";" && (r + ";")[..|r|] == r;
  }

  // ----- two words for one thing --------------------------------------------------------------------

  lemma NoBorder(k: nat)
    requires 0 < k < 18
    ensures var p := "execute procedure "; p[k] != 'e' || (k + 1 < 18 && p[k + 1] != 'x')
  {
  }

  /** No occurrence of the synonym overlaps the start of `execute `. */
  lemma NoneIntoExecute(l: string, r: string)
    requires "ex" <= r
    ensures NoneAcross(l, r, SYNONYM)
  {
    assert SYNONYM == "execute procedure " && |SYNONYM| == 18;
    forall i | 0 <= i < |l| && i + 18 > |l| ensures !(SYNONYM <= (l + r)[i..]) {
      var s, k := (l + r)[i..], |l| - i;
      assert s[k] == r[0] == 'e' && s[k + 1] == r[1] == 'x';
      NoBorder(k);
      if SYNONYM[k] != 'e' {
        DiffersAt(SYNONYM, s, k);
      } else {
        DiffersAt(SYNONYM, s, k + 1);
      }
    }
  }

  lemma NoneFromCanonical(cut: string)
    ensures NoneAcross("execute function ", cut, SYNONYM)
  {
    var c := "execute function ";
    assert SYNONYM == "execute procedure " && |SYNONYM| == 18;
    forall i | 0 <= i < |c| && i + 18 > |c| ensures !(SYNONYM <= (c + cut)[i..]) {
      var s := (c + cut)[i..];
      if i == 0 {
        assert s[8] == 'f';
        DiffersAt(SYNONYM, s, 8);
      } else if i == 2 || i == 6 {
        assert s[1] == c[i + 1];
        DiffersAt(SYNONYM, s, 1);
      } else {
        assert s[0] == c[i];
        DiffersAt(SYNONYM, s, 0);
      }
    }
  }

  lemma ReplacedSynonym(l: string, cut: string)
    ensures ReplaceAll(l + ("execute procedure " + cut), SYNONYM, CANONICAL) ==
      ReplaceAll(l + ("execute function " + cut), SYNONYM, CANONICAL)
  {
    var p, c := "execute procedure ", "execute function ";
    assert SYNONYM == p && CANONICAL == c;
    assert ReplaceAll(p + cut, p, c) == c + ReplaceAll(cut, p, c) by { assert (p + cut)[|p|..] == cut; }
    hide ReplaceAll;
    NoneIntoExecute(l, p + cut);
    NoneIntoExecute(l, c + cut);
    ReplaceApart(l, p + cut, p, c);
    ReplaceApart(l, c + cut, p, c);
    NoneFromCanonical(cut);
    ReplaceApart(c, cut, p, c);
    assert !Contains(c, p);
    ReplaceAbsent(c, p, c);
  }

  lemma CutBehind(a: string, r: string)
    requires r != ""
    ensures TrimSuffix(a + r, ";") == a + TrimSuffix(r, ";")
  {
    var s := a + r;
    assert s[|s| - 1..] == [s[|s| - 1]] && r[|r| - 1..] == [r[|r| - 1]] && s[|s| - 1] == r[|r| - 1];
    assert s[..|s| - 1] == a + r[..|r| - 1];
  }

  lemma BlankBefore(x: string)
    requires x != "" && !IsSpace(x[0])
    ensures Squeeze(" " + x, false, true) == " " + Squeeze(x, false, true)
  {
    assert (" " + x)[1..] == x;
  }

  lemma SqueezeTwoWords(v: string, x: string, y: string)
    requires NoSpace(v) && NoSpace(x) && x != "" && y != "" && !IsSpace(y[0])
    ensures Squeeze(v + (" " + (x + (" " + y))), false, true) == v + (" " + (x + (" " + Squeeze(y, false, true))))
  {
    assert !IsSpace((x + (" " + y))[0]);
    hide Squeeze, NoSpace, IsSpace;
    SqueezeWord(v, " " + (x + (" " + y)));
    BlankBefore(x + (" " + y));
    SqueezeWord(x, " " + y);
    BlankBefore(y);
  }

  lemma FourParts(v: string, x: string, y: string)
    ensures v + (" " + (x + (" " + y))) == (v + " " + x + " ") + y
  {
  }

  lemma SqueezedWords(u: string, v: string, x: string, w: string)
    requires NoSpace(v) && NoSpace(x) && v != "" && x != "" && w != "" && !IsSpace(w[0])
    ensures Squeeze(u + ((v + " " + x + " ") + w), false, false) == Lead(u, false, false) + ((v + " " + x + " ") + Squeeze(w, false, true))
  {
    var y := (v + " " + x + " ") + w;
    assert y[0] == v[0] && !IsSpace(v[0]);
    hide Squeeze, Lead, NoSpace, IsSpace;
    SqueezeConcat(u, y, false, false);
    FourParts(v, x, w);
    FourParts(v, x, Squeeze(w, false, true));
    SqueezeTwoWords(v, x, w);
  }

  lemma FinishedSynonym(l: string, r: string)
    requires r != ""
    ensures Finished(l + ("execute procedure " + r)) == Finished(l + ("execute function " + r))
  {
    hide TrimSuffix, StripPublic, ReplaceAll;
    CutParts(l, "execute procedure ", r);
    CutParts(l, "execute function ", r);
    ReplacedSynonym(l, TrimSuffix(r, ";"));
  }

  lemma CutParts(l: string, p: string, r: string)
    requires r != ""
    ensures TrimSuffix(l + (p + r), ";") == l + (p + TrimSuffix(r, ";"))
  {
    hide TrimSuffix;
    CutBehind(l + p, r);
    assert l + (p + r) == (l + p) + r && l + (p + TrimSuffix(r, ";")) == (l + p) + TrimSuffix(r, ";");
  }

  lemma SynonymWords()
    ensures "execute" + " " + "procedure" + " " == "execute procedure " && "execute" + " " + "function" + " " == "execute function "
    ensures NoSpace("execute") && NoSpace("procedure") && NoSpace("function")
  {
  }

  lemma SynonymSqueeze(u: string, w: string)
    requires w != "" && !IsSpace(w[0])
    ensures Finished(Squeeze(u + ("execute procedure " + w), false, false)) ==
      Finished(Squeeze(u + ("execute function " + w), false, false))
  {
    assert Squeeze(w, false, true) != "";
    hide Squeeze, Lead, NoSpace, IsSpace, Finished;
    SynonymWords();
    SqueezedWords(u, "execute", "procedure", w);
    SqueezedWords(u, "execute", "function", w);
    FinishedSynonym(Lead(u, false, false), Squeeze(w, false, true));
  }

  lemma PlainlyBetween(x: string, p: string, y: string)
    requires Lower(p) == p && '"' !in p
    ensures Plainly(x + (p + y)) == Plainly(x) + (p + Plainly(y))
  {
    assert Plainly(p) == p by { NoQuotes(p); }
    hide Plainly;
    PlainlyConcat(x, p + y);
    PlainlyConcat(p, y);
  }

  lemma SynonymIsPlain()
    ensures Lower("execute procedure ") == "execute procedure " && '"' !in "execute procedure "
    ensures Lower("execute function ") == "execute function " && '"' !in "execute function "
  {
    hide Lower;
    LowerIs("execute procedure ", "execute procedure ");
    LowerIs("execute function ", "execute function ");
  }

  /** `execute procedure` in front of a name is compared as `execute function`. */
  lemma SynonymIsInvisible(x: string, y: string)
    requires var w := WithoutQuotes(Lower(y)); w != "" && !IsSpace(w[0])
    ensures NormalizeTriggerDefinition(x + ("execute procedure " + y)) == NormalizeTriggerDefinition(x + ("execute function " + y))
  {
    var p, c := "execute procedure ", "execute function ";
    assert Plainly(y) == WithoutQuotes(Lower(y));
    hide NormalizeTriggerDefinition, Plainly, Lower, WithoutQuotes, Finished, Squeeze;
    SynonymIsPlain();
    NormalizeIs(x + (p + y));
    NormalizeIs(x + (c + y));
    PlainlyBetween(x, p, y);
    PlainlyBetween(x, c, y);
    SynonymSqueeze(Plainly(x), Plainly(y));
  }
}
