/** Between two marker lines nothing is split, whatever ends in a semicolon there. */
module DdlMarkers {
  import opened Text
  import opened DdlSplit
  import opened DdlRoundTrip

  /** Behind an opening marker, with `pending` read so far. */
  function Marked(done: seq<string>, pending: seq<string>): Scan {
    Scan(done, Lead(pending), "", true)
  }

  const FUNCTION_MARKER := "-- Function body follows"

  lemma MarkerLine()
    ensures Trim(FUNCTION_MARKER) == FUNCTION_MARKER && FUNCTION_MARKER == MARKER && FUNCTION_MARKER != ""
    ensures NextTag("", FUNCTION_MARKER) == "" && !HasSuffix(FUNCTION_MARKER, ";") && '\n' !in FUNCTION_MARKER
  {
    hide Trim, NextTag;
    assert Trimmed(FUNCTION_MARKER);
    TrimIdentity(FUNCTION_MARKER);
    NoDollarNoTag(FUNCTION_MARKER);
  }

  lemma MarkerOpens(done: seq<string>, pending: seq<string>)
    ensures Feed(Open(done, pending, ""), FUNCTION_MARKER, false) == Marked(done, pending + [FUNCTION_MARKER])
  {
    MarkerLine();
    hide Trim, NextTag, HasSuffix, Lead;
    LeadAppend(pending, FUNCTION_MARKER);
  }

  lemma MarkerCloses(done: seq<string>, pending: seq<string>)
    ensures Feed(Marked(done, pending), FUNCTION_MARKER, false) == Open(done, pending + [FUNCTION_MARKER], "")
  {
    MarkerLine();
    hide Trim, NextTag, HasSuffix, Lead;
    LeadAppend(pending, FUNCTION_MARKER);
  }

  /** Neither a marker nor the start of a dollar quote. */
  predicate PlainLine(line: string) {
    Trim(line) != FUNCTION_MARKER && OpensNothing(line)
  }

  lemma {:induction false} MarkedFeeds(done: seq<string>, pending: seq<string>, lines: seq<string>)
    requires forall i :: 0 <= i < |lines| ==> PlainLine(lines[i])
    ensures Run(Marked(done, pending), lines) == Marked(done, pending + Content(lines))
    decreases |lines|
  {
    hide Trim, OpeningTag, HasSuffix, Lead;
    if lines == [] {
      assert pending + Content(lines) == pending;
    } else {
      var line, r := Trim(lines[0]), lines[1..];
      assert PlainLine(lines[0]);
      MarkerLine();
      if line == "" {
        MarkedFeeds(done, pending, r);
        assert [] + Content(r) == Content(r);
      } else {
        LeadAppend(pending, line);
        MarkedFeeds(done, pending + [line], r);
        assert pending + [line] + Content(r) == pending + ([line] + Content(r));
      }
    }
  }

  function MarkedText(h: string, b: string, l: string): string {
    h + "\n" + (FUNCTION_MARKER + "\n" + (b + "\n" + (FUNCTION_MARKER + "\n" + l)))
  }

  lemma MarkedLines(h: string, b: string, l: string)
    requires SingleLine(h) && SingleLine(l)
    ensures Lines(MarkedText(h, b, l)) == [h] + ([FUNCTION_MARKER] + (Lines(b) + ([FUNCTION_MARKER] + [l])))
  {
    MarkerLine();
    hide Split, Trim, NextTag;
    var m := FUNCTION_MARKER;
    LinesAppend(h, m + "\n" + (b + "\n" + (m + "\n" + l)));
    LinesAppend(m, b + "\n" + (m + "\n" + l));
    LinesAppend(b, m + "\n" + l);
    LinesAppend(m, l);
    SplitSingle(h, '\n');
    SplitSingle(m, '\n');
    SplitSingle(l, '\n');
  }

  lemma MarkedContent(h: string, body: seq<string>, l: string)
    requires Trim(h) != "" && Trim(l) != ""
    ensures Content([h] + ([FUNCTION_MARKER] + (body + ([FUNCTION_MARKER] + [l])))) ==
      [Trim(h)] + [FUNCTION_MARKER] + Content(body) + [FUNCTION_MARKER] + [Trim(l)]
  {
    MarkerLine();
    hide Trim, Content, NextTag;
    ContentAppend([h], [FUNCTION_MARKER] + (body + ([FUNCTION_MARKER] + [l])));
    ContentAppend([FUNCTION_MARKER], body + ([FUNCTION_MARKER] + [l]));
    ContentAppend(body, [FUNCTION_MARKER] + [l]);
    ContentAppend([FUNCTION_MARKER], [l]);
    ContentOne(h);
    ContentOne(FUNCTION_MARKER);
    ContentOne(l);
  }

  lemma MarkedRun(h: string, body: seq<string>)
    requires Trim(h) != "" && PlainLine(h) && !HasSuffix(Trim(h), ";") && forall i :: 0 <= i < |body| ==> PlainLine(body[i])
    ensures Run(Ready([]), [h] + ([FUNCTION_MARKER] + (body + [FUNCTION_MARKER]))) ==
      Open([], [Trim(h)] + [FUNCTION_MARKER] + Content(body) + [FUNCTION_MARKER], "")
  {
    var m := FUNCTION_MARKER;
    MarkerLine();
    assert Trim(h) != MARKER && NextTag("", Trim(h)) == "";
    hide Trim, NextTag, HasSuffix, Lead, Content, Feed, Run, PlainLine, Open, Ready, Marked;
    var p1 := [Trim(h)];
    var p2 := p1 + [m];
    var p3 := p2 + Content(body);
    ReadyIsOpen([]);
    Extends([], [], "", h, "");
    assert [] + p1 == p1;
    MarkerOpens([], p1);
    MarkedFeeds([], p2, body);
    MarkerCloses([], p3);
    RunAppend(Ready([]), [h], [m] + (body + [m]));
    RunOne(Ready([]), h);
    RunAppend(Open([], p1, ""), [m], body + [m]);
    RunOne(Open([], p1, ""), m);
    RunAppend(Marked([], p2), body, [m]);
    RunOne(Marked([], p3), m);
  }

  lemma MarkedIsClean(h: string, body: seq<string>)
    requires Trim(h) != ""
    ensures CleanLines([Trim(h)] + [FUNCTION_MARKER] + Content(body) + [FUNCTION_MARKER])
  {
    MarkerLine();
    hide Trim, NextTag, HasSuffix, Content, CleanLines;
    ContentClean(body);
    ContentClean([h]);
    ContentOne(h);
    ContentClean([FUNCTION_MARKER]);
    ContentOne(FUNCTION_MARKER);
    CleanTogether([Trim(h)], [FUNCTION_MARKER], Content(body));
  }

  lemma MarkedScan(h: string, body: seq<string>, l: string)
    requires Trim(h) != "" && Trim(l) != "" && PlainLine(h) && !HasSuffix(Trim(h), ";")
    requires forall i :: 0 <= i < |body| ==> PlainLine(body[i])
    ensures Finish(FeedAll(Ready([]), [h] + ([FUNCTION_MARKER] + (body + ([FUNCTION_MARKER] + [l]))))) ==
      [Join([Trim(h)] + [FUNCTION_MARKER] + Content(body) + [FUNCTION_MARKER] + [Trim(l)], " ")]
  {
    hide *;
    var m := FUNCTION_MARKER;
    var p := [Trim(h)] + [m] + Content(body) + [m];
    MarkedRun(h, body);
    MarkedIsClean(h, body);
    SameLines([h], [m], body, [l]);
    FeedAllAppend(Ready([]), [h] + ([m] + (body + [m])), [l]);
    LastFed(Open([], p, ""), l);
    LastCompletes([], p, l);
    assert [] + [Join(p + [Trim(l)], " ")] == [Join(p + [Trim(l)], " ")];
  }

  lemma SameLines<T>(h: seq<T>, m: seq<T>, body: seq<T>, l: seq<T>)
    ensures h + (m + (body + (m + l))) == h + (m + (body + m)) + l
  {
  }

  lemma CleanTogether(a: seq<string>, m: seq<string>, b: seq<string>)
    requires CleanLines(a) && CleanLines(m) && CleanLines(b)
    ensures CleanLines(a + m + b + m)
  {
    hide CleanLine;
  }

  lemma LastFed(st: Scan, l: string)
    ensures FeedAll(st, [l]) == Feed(st, l, true)
  {
    hide Feed;
    assert [l][1..] == [];
  }

  /** A statement with a marked block inside comes back as one, its lines flattened. */
  lemma MarkedStaysTogether(h: string, b: string, l: string)
    requires SingleLine(h) && SingleLine(l) && Trim(h) != "" && Trim(l) != ""
    requires PlainLine(h) && !HasSuffix(Trim(h), ";") && forall i :: 0 <= i < |Lines(b)| ==> PlainLine(Lines(b)[i])
    ensures Statements(MarkedText(h, b, l)) == [Flatten(MarkedText(h, b, l))]
  {
    hide Trim, Content, FeedAll, Finish, PlainLine, Join, HasSuffix, Statements, Flatten, Split, MarkedText;
    var text := MarkedText(h, b, l);
    StatementsIsScan(text);
    FlattenIsJoin(text);
    MarkedLines(h, b, l);
    MarkedContent(h, Lines(b), l);
    MarkedScan(h, Lines(b), l);
  }
}
