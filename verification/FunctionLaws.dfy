/**
 When a function definition compares equal to its specification: right after it was
 emitted, and after it has travelled through stored DDL and the statement splitter.
 */
module FunctionLaws {
  import opened Options
  import opened Text
  import opened DdlSplit
  import opened FunctionText
  import opened DdlRoundTrip

  // ----- finding the body ------------------------------------------------------------

  /** The delimiter's first occurrence after a body that does not hold it. */
  lemma FirstOccurrence(body: string, c: char, tag: string, rest: string)
    requires tag != "" && c !in tag && !Contains(body, tag)
    ensures Index([c] + body + [c] + (tag + rest), tag) == |body| + 2
  {
    hide Index;
    var s := [c] + body + [c] + (tag + rest);
    var n := |body| + 1;
    assert s[1..1 + |body|] == body;
    assert s[n + 1..n + 1 + |tag|] == tag;
    forall j | 0 <= j <= n ensures !MatchAt(s, tag, j) {
      if j == 0 {
        NoMatchAcross(s, tag, 0, 0);
      } else if n < j + |tag| {
        NoMatchAcross(s, tag, j, n);
      } else {
        MatchInside(s, body, 1, tag, j);
      }
    }
    IndexIs(s, tag, n + 1);
  }

  lemma QuoteSlices(prefix: string, name: string, tail: string, end: nat)
    requires end <= |tail|
    ensures var tag := "$" + name + "$"; var def := prefix + (tag + tail); var at := |prefix| + |tag|;
      && |def| == at + |tail| && def[|prefix|] == '$' && def[|prefix| + 1..] == name + ("$" + tail)
      && def[|prefix|..at] == tag && def[at..] == tail && def[at..at + end] == tail[..end]
  {
  }

  lemma FirstDollar(prefix: string, rest: string)
    requires '$' !in prefix && rest != "" && rest[0] == '$'
    ensures IndexOfChar(prefix + rest, '$') == |prefix|
  {
    IndexOfCharIs(prefix + rest, '$', |prefix|);
  }

  /** The body extracted from text that quotes it with `$name$`. */
  lemma Extracts(prefix: string, name: string, tail: string, end: nat)
    requires '$' !in prefix && '$' !in name
    requires end <= |tail| && Index(tail, "$" + name + "$") == end
    ensures ExtractDollarQuotedBody(prefix + ("$" + name + "$" + tail)) == Some(tail[..end])
  {
    hide Index, IndexOfChar;
    var tag := "$" + name + "$";
    FirstDollar(prefix, tag + tail);
    FirstDollar(name, "$" + tail);
    QuoteSlices(prefix, name, tail, end);
  }

  lemma TagShape()
    ensures TAG == "$" + "_SCHEMAHERO_" + "$" && TAG != "" && '\n' !in TAG && ' ' !in TAG
  {
  }

  lemma ExtractsBody(prefix: string, body: string, c: char, rest: string)
    requires '$' !in prefix && (c == '\n' || c == ' ') && !Contains(body, TAG)
    ensures ExtractDollarQuotedBody(prefix + (TAG + ([c] + body + [c] + (TAG + rest)))) == Some([c] + body + [c])
  {
    hide Contains, ExtractDollarQuotedBody, Index;
    TagShape();
    FirstOccurrence(body, c, TAG, rest);
    var tail := [c] + body + [c] + (TAG + rest);
    Extracts(prefix, "_SCHEMAHERO_", tail, |body| + 2);
    assert tail[..|body| + 2] == [c] + body + [c];
  }

  lemma TrimSurrounded(c: char, s: string)
    requires IsSpace(c)
    ensures Trim([c] + s + [c]) == Trim(s)
  {
    hide Trim;
    TrimPadRight([c] + s, [c]);
    TrimPadLeft([c], s);
  }

  lemma MentionsLanguage(a: string, lang: string, b: string)
    ensures Contains(Lower(a + "language " + lang + b), "language " + Lower(lang))
  {
    hide Contains, Lower;
    LowerConcat(a + "language " + lang, b);
    LowerConcat(a + "language ", lang);
    LowerConcat(a, "language ");
    assert Lower("language ") == "language " by { LowerKeyword(); }
    assert Lower(a + "language " + lang + b) == Lower(a) + ("language " + Lower(lang)) + Lower(b);
    ContainsPart(Lower(a), "language " + Lower(lang), Lower(b));
  }

  lemma LowerKeyword()
    ensures Lower("language ") == "language "
  {
    LowerIs("language ", "language ");
  }

  lemma HeaderMentionsDefiner(name: string, f: FunctionSchema, rest: string)
    requires f.securityDefiner
    ensures MentionsDefiner(Header(name, f) + rest)
  {
    hide Contains, Upper, QualifiedName;
    var head := Header(name, f.(securityDefiner := false));
    assert Header(name, f) + rest == head + " " + "security definer" + rest;
    UpperConcat(head + " " + "security definer", rest);
    UpperConcat(head + " ", "security definer");
    assert Upper("security definer") == "SECURITY DEFINER" by { UpperKeyword(); }
    ContainsPart(Upper(head + " "), "SECURITY DEFINER", Upper(rest));
  }

  lemma UpperKeyword()
    ensures Upper("security definer") == "SECURITY DEFINER"
  {
    UpperIs("security definer", "SECURITY DEFINER");
  }

  /** A definition around a quoted body is accepted exactly when that body trims to the desired one. */
  lemma AcceptedIff(name: string, f: FunctionSchema, gap: string, quoted: string, tail: string)
    requires var def := Header(name, f) + (" as" + gap + TAG + quoted + TAG + gap + "language " + f.lang + tail);
      ExtractDollarQuotedBody(def) == Some(quoted)
    ensures var def := Header(name, f) + (" as" + gap + TAG + quoted + TAG + gap + "language " + f.lang + tail);
      FunctionDefinitionsEqual(def, f) <==>
        Trim(quoted) == Trim(f.body) && (f.securityDefiner || !MentionsDefiner(def))
  {
    hide Contains, Header, Lower, Upper, Trim, ExtractDollarQuotedBody, MentionsDefiner;
    var h := Header(name, f);
    var rest := " as" + gap + TAG + quoted + TAG + gap + "language " + f.lang + tail;
    var front := h + (" as" + gap + TAG + quoted + TAG + gap);
    assert h + rest == front + "language " + f.lang + tail;
    MentionsLanguage(front, f.lang, tail);
    if f.securityDefiner {
      HeaderMentionsDefiner(name, f, rest);
    }
  }

  // ----- the emitted text ------------------------------------------------------------

  /**
   The comparison accepts the text just emitted for the same specification, except when the
   function is not a definer and its text mentions `security definer` somewhere.
   */
  lemma EmittedTextIsAccepted(name: string, f: FunctionSchema)
    requires '$' !in Header(name, f) && !Contains(f.body, TAG)
    ensures var def := CreateFunctionStatements(name, f)[0];
      FunctionDefinitionsEqual(def, f) <==> (f.securityDefiner || !MentionsDefiner(def))
  {
    hide Contains, Header, Trim, ExtractDollarQuotedBody, MentionsDefiner, FunctionDefinitionsEqual;
    var h, quoted := Header(name, f), "\n" + f.body + "\n";
    var def := Block(h, f.body, f.lang);
    var rest := "\nlanguage " + f.lang;
    BlockShapes(h, f.body, f.lang);
    ExtractsBody(h + " as\n", f.body, '\n', rest);
    TrimSurrounded('\n', f.body);
    AcceptedIff(name, f, "\n", quoted, "");
  }

  lemma BlockShapes(h: string, body: string, lang: string)
    ensures Block(h, body, lang) == (h + " as\n") + (TAG + (['\n'] + body + ['\n'] + (TAG + ("\nlanguage " + lang))))
    ensures Block(h, body, lang) == h + (" as" + "\n" + TAG + ("\n" + body + "\n") + TAG + "\n" + "language " + lang + "")
  {
    var quoted := "\n" + body + "\n";
    assert " as" + "\n" == " as\n" && "\n" + "language " == "\nlanguage ";
    Reassociate(h + " as\n" + TAG, "\n", body, "\n", TAG, "\nlanguage " + lang);
    assert Block(h, body, lang) == h + " as\n" + TAG + "\n" + body + "\n" + TAG + ("\nlanguage " + lang);
    Regroup(h, " as\n", TAG, quoted, TAG, "\nlanguage " + lang);
    Regroup2(" as" + "\n" + TAG + quoted + TAG, "\n", "language ", lang);
  }

  lemma Reassociate(a: string, n: string, b: string, m: string, t: string, r: string)
    ensures a + n + b + m + t + r == a + (n + b + m) + t + r
  {
  }

  lemma Regroup(h: string, a: string, t: string, q: string, u: string, r: string)
    ensures h + a + t + q + u + r == (h + a) + (t + (q + (u + r)))
    ensures h + a + t + q + u + r == h + (a + t + q + u + r)
  {
  }

  lemma Regroup2(a: string, n: string, w: string, l: string)
    ensures a + n + w + l + "" == a + (n + w + l)
    ensures a + n + w + l == a + (n + w + l)
  {
  }

  // ----- after storing, splitting and executing --------------------------------------

  lemma {:induction false} JoinKeepsOut(lines: seq<string>, tag: string)
    requires ' ' !in tag && tag != "" && forall i :: 0 <= i < |lines| ==> !Contains(lines[i], tag)
    ensures !Contains(Join(lines, " "), tag)
    decreases |lines|
  {
    if |lines| > 1 {
      JoinKeepsOut(lines[1..], tag);
      BlankKeepsApart(lines[0], Join(lines[1..], " "), tag);
    }
  }

  lemma BlankKeepsApart(a: string, b: string, tag: string)
    requires ' ' !in tag && tag != "" && !Contains(a, tag) && !Contains(b, tag)
    ensures !Contains(a + " " + b, tag)
  {
    var s := a + " " + b;
    assert s[0..|a|] == a && s[|a| + 1..|a| + 1 + |b|] == b;
    forall i | 0 <= i <= |s| ensures !MatchAt(s, tag, i) {
      if i + |tag| > |s| {
      } else if i + |tag| <= |a| {
        MatchInside(s, a, 0, tag, i);
      } else if i > |a| {
        MatchInside(s, b, |a| + 1, tag, i);
      } else {
        NoMatchAcross(s, tag, i, |a|);
      }
    }
  }

  lemma {:induction false} ContentKeepsOut(lines: seq<string>, tag: string)
    requires forall i :: 0 <= i < |lines| ==> !Contains(Trim(lines[i]), tag)
    ensures forall i :: 0 <= i < |Content(lines)| ==> !Contains(Content(lines)[i], tag)
    decreases |lines|
  {
    hide Contains, Trim;
    if lines != [] {
      ContentKeepsOut(lines[1..], tag);
    }
  }

  lemma FlatBodyKeepsOut(body: string)
    requires !Contains(body, TAG)
    ensures !Contains(Flatten(body), TAG)
  {
    hide Contains, Trim, Join;
    forall k | 0 <= k < |Lines(body)| ensures !Contains(Trim(Lines(body)[k]), TAG) {
      BodyLineSafe(body, k);
    }
    ContentKeepsOut(Lines(body), TAG);
    JoinKeepsOut(Content(Lines(body)), TAG);
    FlattenIsJoin(body);
  }

  /** A quoted body after flattening: between single blanks, or one blank when it is empty. */
  function Middle(flat: string): string {
    if flat == "" then " " else " " + flat + " "
  }

  /** The statement that the splitter recovers for a function block. */
  lemma FlattenedBlock(header: string, body: string, lang: string, tail: string)
    requires OneLine(header) && header != "" && !IsSpace(header[0])
    requires OneLine(lang) && lang != "" && Trimmed(lang) && (tail == "" || tail == ";")
    ensures Flatten(Block(header, body, lang) + tail)
         == header + (" as" + " " + TAG + Middle(Flatten(body)) + TAG + " " + "language " + lang + tail)
  {
    hide Lines, Trim, Contains, NextTag, Content, Flatten, Block, Delimiter, Middle;
    var hs, ls := header + " as", "language " + lang + tail;
    TrimIdentity(hs);
    TrimIdentity(ls);
    TagIsDelimiter();
    BlockLines(header, body, lang, tail);
    BlockContent(header, Lines(body), ls, TAG);
    FlattenIsJoin(Block(header, body, lang) + tail);
    FlattenIsJoin(body);
    FlattenEmpty(body);
    JoinBlock(hs, TAG, Content(Lines(body)), ls);
    ReassociateBlock(header, TAG, Middle(Flatten(body)), lang, tail);
  }

  lemma ReassociateBlock(h: string, tag: string, m: string, lang: string, tail: string)
    ensures (h + " as") + " " + tag + m + tag + " " + ("language " + lang + tail)
         == h + (" as" + " " + tag + m + tag + " " + "language " + lang + tail)
  {
  }

  lemma JoinBlock(h: string, tag: string, c: seq<string>, l: string)
    requires Join(c, " ") == "" <==> c == []
    ensures Join([h, tag] + c + [tag] + [l], " ") == h + " " + tag + Middle(Join(c, " ")) + tag + " " + l
  {
    JoinTwo(h, tag);
    JoinTwo(tag, l);
    assert [h, tag] + c + [tag] + [l] == [h, tag] + c + [tag, l];
    if c == [] {
      assert [h, tag] + c + [tag, l] == [h, tag] + [tag, l];
      JoinAppend([h, tag], [tag, l], " ");
    } else {
      JoinAppend([h, tag] + c, [tag, l], " ");
      JoinAppend([h, tag], c, " ");
    }
  }

  lemma JoinTwo(a: string, b: string)
    ensures Join([a, b], " ") == a + " " + b
  {
    assert [a, b][1..] == [b];
  }

  lemma FlattenEmpty(body: string)
    ensures Flatten(body) == "" <==> Content(Lines(body)) == []
  {
    hide Lines, Content;
    ContentClean(Lines(body));
    FlattenIsJoin(body);
    if Content(Lines(body)) != [] {
      JoinClean(Content(Lines(body)));
    }
  }

  lemma FlattenTrimmed(body: string)
    ensures Trimmed(Flatten(body))
  {
    hide Lines, Content;
    ContentClean(Lines(body));
    FlattenIsJoin(body);
    if Content(Lines(body)) != [] {
      JoinClean(Content(Lines(body)));
    }
  }

  /**
   After the emitted text is stored, split and executed, the next comparison accepts it
   exactly when flattening did not change the trimmed body (and no stray `security definer`
   appears for an invoker function).
   */
  lemma ExecutedTextIsAccepted(name: string, f: FunctionSchema, tail: string)
    requires OneLine(Header(name, f)) && OneLine(f.lang) && f.lang != "" && Trimmed(f.lang)
    requires !Contains(f.body, TAG) && (tail == "" || tail == ";")
    ensures var def := Flatten(CreateFunctionStatements(name, f)[0] + tail);
      FunctionDefinitionsEqual(def, f) <==>
        Flatten(f.body) == Trim(f.body) && (f.securityDefiner || !MentionsDefiner(def))
  {
    HeaderHead(name, f);
    hide Contains, Header, Trim, ExtractDollarQuotedBody, Flatten, Block, Middle, MentionsDefiner, FunctionDefinitionsEqual;
    var h, flat := Header(name, f), Flatten(f.body);
    FlattenedBlock(h, f.body, f.lang, tail);
    FlatBodyKeepsOut(f.body);
    FlattenTrimmed(f.body);
    ExtractsFlat(h, flat, f.lang + tail);
    TrimMiddle(flat);
    var quoted := Middle(flat);
    assert h + (" as" + " " + TAG + quoted + TAG + " " + "language " + f.lang + tail)
        == h + (" as" + " " + TAG + quoted + TAG + " " + "language " + (f.lang + tail));
    AcceptedIff(name, f, " ", quoted, tail);
  }

  lemma HeaderHead(name: string, f: FunctionSchema)
    ensures Header(name, f) != "" && !IsSpace(Header(name, f)[0])
  {
    hide QualifiedName;
  }

  lemma TrimMiddle(flat: string)
    requires Trimmed(flat)
    ensures Trim(Middle(flat)) == flat
  {
    hide Trim;
    if flat == "" {
      assert " " == " " + "" + "";
      TrimPadded(" ", "", "");
    } else {
      TrimPadded(" ", flat, " ");
    }
  }

  lemma ExtractsFlat(h: string, flat: string, lang: string)
    requires '$' !in h && !Contains(flat, TAG)
    ensures ExtractDollarQuotedBody(h + (" as" + " " + TAG + Middle(flat) + TAG + " " + "language " + lang)) == Some(Middle(flat))
  {
    hide Contains, ExtractDollarQuotedBody, Index;
    TagShape();
    var tag, rest := TAG, " " + "language " + lang;
    assert " as" + " " == " as ";
    Regroup(h, " as ", tag, Middle(flat), tag, rest);
    Regroup2(" as " + tag + Middle(flat) + tag, " ", "language ", lang);
    if flat == "" {
      BlankThenTag(tag, rest);
      Extracts(h + " as ", "_SCHEMAHERO_", " " + (tag + rest), 1);
      assert (" " + (tag + rest))[..1] == " ";
    } else {
      ExtractsBody(h + " as ", flat, ' ', rest);
    }
  }

  lemma BlankThenTag(tag: string, rest: string)
    requires tag != "" && ' ' !in tag
    ensures Index(" " + (tag + rest), tag) == 1
  {
    var s := " " + (tag + rest);
    assert s[1..1 + |tag|] == tag;
    NoMatchAcross(s, tag, 0, 0);
    IndexIs(s, tag, 1);
  }

  // ----- which bodies survive --------------------------------------------------------

  lemma {:induction false} FlattenPadLeft(a: string, s: string)
    requires AllSpace(a)
    ensures Flatten(a + s) == Flatten(s)
    decreases |a|
  {
    hide Trim;
    if a == [] {
      assert a + s == s;
    } else {
      var t := a[1..] + s;
      assert (a + s)[1..] == t;
      FlattenPadLeft(a[1..], s);
      var rest := Split(t, '\n');
      if a[0] == '\n' {
        assert Split(a + s, '\n') == [[]] + rest;
        TrimIdentity("");
        assert ([[]] + rest)[1..] == rest;
        ContentStep([], [[]] + rest);
      } else {
        assert Split(a + s, '\n') == [[a[0]] + rest[0]] + rest[1..];
        TrimPadLeft([a[0]], rest[0]);
        assert ([[a[0]] + rest[0]] + rest[1..])[1..] == rest[1..];
      }
    }
  }

  lemma {:induction false} FlattenPadRight(s: string, b: string)
    requires AllSpace(b)
    ensures Flatten(s + b) == Flatten(s)
    decreases |b|
  {
    if b == [] {
      assert s + b == s;
    } else {
      var b', c := b[..|b| - 1], b[|b| - 1];
      assert s + b == (s + b') + [c];
      FlattenPadRight(s, b');
      FlattenPadOne(s + b', c);
    }
  }

  lemma FlattenPadOne(t: string, c: char)
    requires IsSpace(c)
    ensures Flatten(t + [c]) == Flatten(t)
  {
    hide Trim, Split, Join;
    if c == '\n' {
      assert t + [c] == t + "\n" + "";
      SplitAppend(t, "", '\n');
      SplitSingle("", '\n');
      ContentAppend(Lines(t), [""]);
      TrimIdentity("");
      ContentStep([], [""]);
      assert Content(Lines(t)) + [] == Content(Lines(t));
      assert Content([""]) == [] by { assert [""][1..] == []; }
    } else {
      var front, l := SplitLast(t);
      SplitOfLast(t, front, l, [c]);
      TrimPadRight(l, [c]);
      ContentAppend(front, [l]);
      ContentAppend(front, [l + [c]]);
      assert [l][1..] == [] && [l + [c]][1..] == [];
    }
  }

  lemma {:induction false} FlattenHasNoNewline(lines: seq<string>)
    requires forall i :: 0 <= i < |lines| ==> '\n' !in lines[i]
    ensures '\n' !in Join(lines, " ")
  {
    if |lines| > 1 {
      FlattenHasNoNewline(lines[1..]);
    }
  }

  lemma {:induction false} ContentHasNoNewline(lines: seq<string>)
    requires forall i :: 0 <= i < |lines| ==> '\n' !in lines[i]
    ensures forall i :: 0 <= i < |Content(lines)| ==> '\n' !in Content(lines)[i]
  {
    hide Trim;
    if lines != [] {
      TrimKeepsOut(lines[0], '\n');
      ContentHasNoNewline(lines[1..]);
    }
  }

  /** Flattening leaves the trimmed body alone exactly when that body is a single line. */
  lemma FlattenKeepsSingleLines(body: string)
    ensures Flatten(body) == Trim(body) <==> '\n' !in Trim(body)
  {
    hide Trim, Split, Join, Content;
    forall k | 0 <= k < |Lines(body)| ensures '\n' !in Lines(body)[k] {
      SplitPieces(body, '\n', k);
    }
    ContentHasNoNewline(Lines(body));
    FlattenHasNoNewline(Content(Lines(body)));
    FlattenIsJoin(body);
    if '\n' !in Trim(body) {
      var a, b := TrimSplit(body);
      FlattenPadRight(a + Trim(body), b);
      FlattenPadLeft(a, Trim(body));
      var core := Trim(body);
      TrimIdentity(core);
      if core == "" {
        FlattenEmptyText();
      } else {
        FlattenOneLine(core);
      }
    }
  }

  lemma FlattenEmptyText()
    ensures Flatten("") == ""
  {
    TrimIdentity("");
    assert Split("", '\n') == [""];
    assert [""][1..] == [];
  }

  /**
   So a function plan settles after one execution exactly for one-line bodies; a function
   with a longer body is emitted again on every plan.
   */
  lemma FunctionPlanSettlesIff(name: string, f: FunctionSchema, tail: string)
    requires OneLine(Header(name, f)) && OneLine(f.lang) && f.lang != "" && Trimmed(f.lang)
    requires !Contains(f.body, TAG) && (tail == "" || tail == ";")
    requires f.securityDefiner || !MentionsDefiner(Flatten(CreateFunctionStatements(name, f)[0] + tail))
    ensures FunctionDefinitionsEqual(Flatten(CreateFunctionStatements(name, f)[0] + tail), f) <==> '\n' !in Trim(f.body)
  {
    hide FunctionDefinitionsEqual, Flatten, Trim, MentionsDefiner, Header, Contains;
    ExecutedTextIsAccepted(name, f, tail);
    FlattenKeepsSingleLines(f.body);
  }
}
