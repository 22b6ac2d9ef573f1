/** Which stored functions are taken for the desired one: the same body, the same security, and a language that begins alike. */
module FunctionEquality {
  import opened Text
  import opened FunctionText
  import opened FunctionLaws

  const LANGUAGE := "language "

  /** Everything in front of the language clause. */
  function Front(header: string, body: string): string {
    header + " as\n" + TAG + "\n" + body + "\n" + TAG + "\n"
  }

  lemma BlockIs(header: string, body: string, lang: string)
    ensures Block(header, body, lang) == Front(header, body) + LANGUAGE + lang
  {
    assert "\nlanguage " == "\n" + LANGUAGE;
  }

  lemma {:induction false} NoMatchInside(s: string, t: string, sub: string, i: nat)
    requires t <= s && i + |sub| <= |t| && !MatchAt(t, sub, i)
    ensures !MatchAt(s, sub, i)
  {
    assert s[i..i + |sub|] == t[i..i + |sub|];
  }

  /** Behind a line end the keyword is found only where it is written. */
  lemma OnlyMatch(front: string, lang: string, i: nat)
    requires front != "" && front[|front| - 1] == '\n' && !Contains(front, LANGUAGE) && ' ' !in lang
    requires i != |front| && i <= |front + LANGUAGE + lang|
    ensures !MatchAt(front + LANGUAGE + lang, LANGUAGE, i)
  {
    var s := front + LANGUAGE + lang;
    assert |LANGUAGE| == 9 && LANGUAGE[8] == ' ' && '\n' !in LANGUAGE && forall k :: 0 <= k < 8 ==> LANGUAGE[k] != ' ';
    if i + 9 <= |front| {
      assert !MatchAt(front, LANGUAGE, i);
      NoMatchInside(s, front, LANGUAGE, i);
    } else if i < |front| {
      NoMatchAcross(s, LANGUAGE, i, |front| - 1);
    } else if i + 9 <= |s| {
      assert s[i..i + 9][8] == s[i + 8] == lang[i + 8 - |front| - 9];
    }
  }

  lemma LanguageFoundIff(front: string, lang: string, l: string)
    requires front != "" && front[|front| - 1] == '\n' && !Contains(front, LANGUAGE) && ' ' !in lang
    ensures Contains(front + LANGUAGE + lang, LANGUAGE + l) <==> l <= lang
  {
    var s, sub := front + LANGUAGE + lang, LANGUAGE + l;
    assert s[|front| + 9..] == lang;
    if l <= lang {
      assert s[|front|..|front| + |sub|] == sub by {
        assert s[|front|..|front| + |sub|] == LANGUAGE + lang[..|l|];
      }
      assert MatchAt(s, sub, |front|);
    } else {
      forall i | 0 <= i <= |s| ensures !MatchAt(s, sub, i) {
        PrefixMatch(s, LANGUAGE, l, i);
        if i != |front| {
          OnlyMatch(front, lang, i);
        } else if |l| <= |lang| {
          assert s[i..][..9 + |l|] == LANGUAGE + lang[..|l|];
        }
      }
    }
  }

  lemma PrefixMatch(s: string, a: string, b: string, i: nat)
    ensures MatchAt(s, a + b, i) ==> MatchAt(s, a, i) && s[i + |a|..i + |a| + |b|] == b
  {
    if MatchAt(s, a + b, i) {
      assert s[i..i + |a|] == (a + b)[..|a|] == a;
      assert s[i + |a|..i + |a| + |b|] == (a + b)[|a|..] == b;
    }
  }

  lemma FrontEnds(header: string, body: string)
    ensures var l := Lower(Front(header, body)); l != "" && l[|l| - 1] == '\n'
  {
    var f := Front(header, body);
    LowerAt(f, |f| - 1);
  }

  lemma LowerHasNoBlank(lang: string)
    requires ' ' !in lang
    ensures ' ' !in Lower(lang)
  {
    forall i | 0 <= i < |lang| ensures Lower(lang)[i] != ' ' {
      LowerAt(lang, i);
    }
  }

  lemma LanguageIff(header: string, body: string, lang: string, l: string)
    requires ' ' !in lang && !Contains(Lower(Front(header, body)), LANGUAGE)
    ensures Contains(Lower(Block(header, body, lang)), LANGUAGE + Lower(l)) <==> Lower(l) <= Lower(lang)
  {
    var front := Front(header, body);
    FrontEnds(header, body);
    LowerHasNoBlank(lang);
    hide Lower, Contains, Front;
    BlockIs(header, body, lang);
    LowerConcat(front + LANGUAGE, lang);
    LowerConcat(front, LANGUAGE);
    LowerKeyword();
    LanguageFoundIff(Lower(front), Lower(lang), Lower(l));
  }

  /**
   The text emitted for one function is taken for another exactly if the trimmed bodies agree, the
   desired language is how the other begins, and the text mentions `security definer` as desired.
   */
  lemma AcceptedAsIff(name: string, g: FunctionSchema, f: FunctionSchema)
    requires '$' !in Header(name, g) && !Contains(g.body, TAG) && ' ' !in g.lang
    requires !Contains(Lower(Front(Header(name, g), g.body)), LANGUAGE)
    ensures var def := CreateFunctionStatements(name, g)[0];
      FunctionDefinitionsEqual(def, f) <==>
        Trim(g.body) == Trim(f.body) && Lower(f.lang) <= Lower(g.lang) && (MentionsDefiner(def) <==> f.securityDefiner)
  {
    hide Contains, Header, Lower, Trim, ExtractDollarQuotedBody, MentionsDefiner, Front;
    var h, rest := Header(name, g), "\nlanguage " + g.lang;
    BlockShapes(h, g.body, g.lang);
    ExtractsBody(h + " as\n", g.body, '\n', rest);
    TrimSurrounded('\n', g.body);
    LanguageIff(h, g.body, g.lang, f.lang);
  }

  // ----- a language taken for another ----------------------------------------------------------------

  lemma NoMatchWithout(s: string)
    requires 'g' !in s
    ensures !Contains(s, LANGUAGE)
  {
    assert LANGUAGE[3] == 'g' && |LANGUAGE| == 9;
    forall i | 0 <= i <= |s| ensures !MatchAt(s, LANGUAGE, i) {
      assert i + 9 <= |s| ==> s[i..i + 9][3] == s[i + 3];
    }
  }

  function Untrusted(): FunctionSchema {
    FunctionSchema("", [], "", false, false, "x", "plperlu")
  }

  /** No letter of `language ` or of `security definer` that the text lacks. */
  predicate Lacking(s: string) {
    forall i :: 0 <= i < |s| ==> LowerChar(s[i]) != 'g' && UpperChar(s[i]) != 'Y'
  }

  lemma LackingConcat(a: string, b: string)
    requires Lacking(a) && Lacking(b)
    ensures Lacking(a + b)
  {
    hide LowerChar, UpperChar;
  }

  lemma UntrustedHeader()
    ensures Header("f", Untrusted()) == "create or replace function f()"
    ensures '$' !in "create or replace function f()" && Lacking("create or replace function f()")
  {
    assert SerializeParams([]) == [] && Join([], ", ") == "";
  }

  lemma UntrustedFront()
    ensures '$' !in Header("f", Untrusted()) && Lacking(Front(Header("f", Untrusted()), "x"))
  {
    UntrustedHeader();
    var h := Header("f", Untrusted());
    assert Lacking(" as\n") && Lacking(TAG) && Lacking("\n") && Lacking("x");
    hide Header, Lacking;
    LackingConcat(h, " as\n");
    LackingConcat(h + " as\n", TAG);
    LackingConcat(h + " as\n" + TAG, "\n");
    LackingConcat(h + " as\n" + TAG + "\n", "x");
    LackingConcat(h + " as\n" + TAG + "\n" + "x", "\n");
    LackingConcat(h + " as\n" + TAG + "\n" + "x" + "\n", TAG);
    LackingConcat(h + " as\n" + TAG + "\n" + "x" + "\n" + TAG, "\n");
  }

  lemma LowerWithout(s: string)
    requires forall i :: 0 <= i < |s| ==> LowerChar(s[i]) != 'g'
    ensures 'g' !in Lower(s)
  {
    forall i | 0 <= i < |s| ensures Lower(s)[i] != 'g' {
      LowerAt(s, i);
    }
  }

  lemma LanguageBegins()
    ensures Lower("plperl") <= Lower("plperlu") && ' ' !in "plperlu"
  {
    LowerIs("plperl", "plperl");
    LowerIs("plperlu", "plperlu");
    hide Lower;
    assert "plperlu"[..6] == "plperl";
  }

  lemma NoTag()
    ensures !Contains("x", TAG)
  {
    assert |TAG| > 1;
  }

  lemma UntrustedText()
    ensures var def := CreateFunctionStatements("f", Untrusted())[0]; forall i :: 0 <= i < |def| ==> UpperChar(def[i]) != 'Y'
  {
    var h := Header("f", Untrusted());
    UntrustedFront();
    BlockIs(h, "x", "plperlu");
    var front := Front(h, "x");
    hide Front, Header, Block;
    assert forall i :: 0 <= i < |front| ==> UpperChar(front[i]) != 'Y';
    var def := front + LANGUAGE + "plperlu";
    forall i | 0 <= i < |def| ensures UpperChar(def[i]) != 'Y' {
      if i < |front| {
        assert def[i] == front[i];
      } else {
        assert def[i] == (LANGUAGE + "plperlu")[i - |front|];
      }
    }
  }

  lemma NoDefinerWithout(def: string)
    requires forall i :: 0 <= i < |def| ==> UpperChar(def[i]) != 'Y'
    ensures !MentionsDefiner(def)
  {
    var u, sub := Upper(def), "SECURITY DEFINER";
    assert sub[7] == 'Y' && |sub| == 16;
    forall i | 0 <= i < |def| ensures u[i] != 'Y' {
      UpperAt(def, i);
    }
    hide Upper;
    forall i | 0 <= i <= |u| ensures !MatchAt(u, sub, i) {
      assert i + 16 <= |u| ==> u[i..i + 16][7] == u[i + 7];
    }
  }

  /** A function stored in untrusted Perl is taken for the same function in trusted Perl. */
  lemma UntrustedIsTakenForTrusted()
    ensures FunctionDefinitionsEqual(CreateFunctionStatements("f", Untrusted())[0], Untrusted().(lang := "plperl"))
  {
    UntrustedFront();
    UntrustedText();
    NoTag();
    LanguageBegins();
    hide Contains, Header, Lower, Trim, FunctionDefinitionsEqual, MentionsDefiner, Front, Block;
    var front := Front(Header("f", Untrusted()), "x");
    LowerWithout(front);
    NoMatchWithout(Lower(front));
    NoDefinerWithout(CreateFunctionStatements("f", Untrusted())[0]);
    AcceptedAsIff("f", Untrusted(), Untrusted().(lang := "plperl"));
  }
}
