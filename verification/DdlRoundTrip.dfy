/** Joining a plan with `";\n"` and splitting it again gives the plan back. */
module DdlRoundTrip {
  import opened Text
  import opened DdlSplit
  import opened FunctionText

  /** What a plan holds: statements on one line, and function definitions. */
  datatype Piece = Line(text: string) | Function(header: string, body: string, lang: string)

  predicate SingleLine(s: string) {
    '\n' !in s
  }

  predicate OneLine(s: string) {
    SingleLine(s) && '$' !in s
  }

  /** The line opens no dollar-quote delimiter that it does not close again. */
  predicate OpensNothing(line: string) {
    OpeningTag(Trim(line)) == ""
  }

  function Lines(s: string): seq<string> {
    Split(s, '\n')
  }

  /** A statement on one line, or a function whose own lines open nothing but the body's delimiter. */
  ghost predicate ValidPiece(p: Piece) {
    match p
    case Line(t) => SingleLine(t) && Trim(t) != ""
    case Function(header, body, lang) =>
      && SingleLine(header) && OpensNothing(header + " as")
      && SingleLine(lang) && OpensNothing("language " + lang + ";")
      && !Contains(body, TAG)
      && forall i :: 0 <= i < |Lines(body)| ==> Trim(Lines(body)[i]) != MARKER
  }

  /** A line in front of another statement that opens nothing. */
  predicate Quiet(p: Piece) {
    p.Line? ==> OpensNothing(p.text + ";")
  }

  function RenderPiece(p: Piece): string {
    match p
    case Line(t) => t
    case Function(header, body, lang) => Block(header, body, lang)
  }

  function Rendered(ps: seq<Piece>): seq<string> {
    if ps == [] then [] else [RenderPiece(ps[0])] + Rendered(ps[1..])
  }

  /** The text stored in the migration. */
  function Stored(ps: seq<Piece>): string {
    Join(Rendered(ps), ";\n")
  }

  /** The pieces with their lines flattened, a semicolon on all but the last. */
  function Expected(ps: seq<Piece>): seq<string> {
    if ps == [] then []
    else if |ps| == 1 then [Flatten(RenderPiece(ps[0]))]
    else [Flatten(RenderPiece(ps[0]) + ";")] + Expected(ps[1..])
  }

  // ----- feeding lines ---------------------------------------------------------------

  /** Feeding lines none of which is the last of the text. */
  function Run(st: Scan, lines: seq<string>): Scan
    decreases |lines|
  {
    if lines == [] then st else Run(Feed(st, lines[0], false), lines[1..])
  }

  lemma {:induction false} FeedAllAppend(st: Scan, a: seq<string>, b: seq<string>)
    requires b != []
    ensures FeedAll(st, a + b) == FeedAll(Run(st, a), b)
    decreases |a|
  {
    hide Feed;
    if a == [] {
      assert a + b == b;
    } else {
      assert (a + b)[1..] == a[1..] + b;
      FeedAllAppend(Feed(st, a[0], false), a[1..], b);
    }
  }

  lemma {:induction false} RunAppend(st: Scan, a: seq<string>, b: seq<string>)
    ensures Run(st, a + b) == Run(Run(st, a), b)
    decreases |a|
  {
    hide Feed;
    if a == [] {
      assert a + b == b;
    } else {
      assert (a + b)[1..] == a[1..] + b;
      RunAppend(Feed(st, a[0], false), a[1..], b);
    }
  }

  /** Between statements. */
  function Ready(done: seq<string>): Scan {
    Scan(done, "", "", false)
  }

  /** Inside a statement that holds `pending`, with `tag` open. */
  function Open(done: seq<string>, pending: seq<string>, tag: string): Scan {
    Scan(done, Lead(pending), tag, false)
  }

  lemma ReadyIsOpen(done: seq<string>)
    ensures Ready(done) == Open(done, [], "")
    ensures CleanLines([])
  {
  }

  lemma Extends(done: seq<string>, pending: seq<string>, tag: string, raw: string, tag': string)
    requires Trim(raw) != "" && Trim(raw) != MARKER && NextTag(tag, Trim(raw)) == tag'
    requires tag' != "" || !HasSuffix(Trim(raw), ";")
    ensures Feed(Open(done, pending, tag), raw, false) == Open(done, pending + [Trim(raw)], tag')
  {
    hide Trim, NextTag, HasSuffix, Lead;
    LeadAppend(pending, Trim(raw));
  }

  lemma Completes(done: seq<string>, pending: seq<string>, raw: string, last: bool)
    requires CleanLines(pending)
    requires Trim(raw) != "" && Trim(raw) != MARKER && NextTag("", Trim(raw)) == ""
    requires last || HasSuffix(Trim(raw), ";")
    ensures Feed(Open(done, pending, ""), raw, last) == Ready(done + [Join(pending + [Trim(raw)], " ")])
  {
    hide Trim, NextTag, HasSuffix, Lead, CleanLines;
    LeadAppend(pending, Trim(raw));
    CleanAppend(pending, Trim(raw));
    TrimLead(pending + [Trim(raw)]);
  }

  lemma NoDollarNoTag(line: string)
    requires '$' !in line
    ensures NextTag("", line) == ""
  {
    hide Contains;
  }

  lemma {:induction false} TrimKeepsOut(s: string, c: char)
    requires c !in s
    ensures c !in Trim(s)
  {
    hide Trim;
    var a, b := TrimSplit(s);
    assert forall i :: 0 <= i < |Trim(s)| ==> Trim(s)[i] == s[|a| + i];
  }

  // ----- one-line statements ---------------------------------------------------------

  /** Appending text that ends in a non-blank leaves the right end alone when trimming. */
  lemma {:induction false} TrimTail(s: string, tail: string)
    requires tail != "" && Trimmed(tail)
    ensures HasSuffix(Trim(s + tail), tail) && Trim(s + tail) != ""
  {
    var a := TrimLeftSplit(s);
    var core := TrimLeft(s);
    TrimLeftHead(s);
    hide Trim, TrimLeft, TrimRight;
    assert s + tail == a + (core + tail) + "";
    TrimPadded(a, core + tail, "");
  }

  lemma LineFeeds(done: seq<string>, t: string)
    requires SingleLine(t) && OpensNothing(t + ";")
    ensures Run(Ready(done), Lines(t + ";")) == Ready(done + [Flatten(t + ";")])
  {
    hide Trim, OpeningTag, Feed, Join;
    var raw := t + ";";
    SplitSingle(raw, '\n');
    TrimTail(t, ";");
    ReadyIsOpen(done);
    assert !HasSuffix(MARKER, ";");
    Completes(done, [], raw, false);
    FlattenOneLine(raw);
    assert Run(Ready(done), [raw]) == Run(Feed(Ready(done), raw, false), [raw][1..]);
  }

  lemma FlattenOneLine(raw: string)
    requires '\n' !in raw && Trim(raw) != ""
    ensures Flatten(raw) == Trim(raw) == Join([] + [Trim(raw)], " ")
  {
    hide Trim;
    SplitSingle(raw, '\n');
    assert Content([raw]) == [Trim(raw)];
    assert [] + [Trim(raw)] == [Trim(raw)];
  }

  /** At the end of the text the open statement is taken, whatever is open. */
  lemma LastCompletes(done: seq<string>, pending: seq<string>, raw: string)
    requires CleanLines(pending) && Trim(raw) != ""
    ensures Finish(Feed(Open(done, pending, ""), raw, true)) == done + [Join(pending + [Trim(raw)], " ")]
  {
    hide Trim, NextTag, HasSuffix, Lead, CleanLines;
    LeadAppend(pending, Trim(raw));
    CleanAppend(pending, Trim(raw));
    TrimLead(pending + [Trim(raw)]);
    assert Lead(pending) + " " + Trim(raw) != "";
  }

  lemma LastLineFeeds(done: seq<string>, t: string)
    requires SingleLine(t) && Trim(t) != ""
    ensures Finish(FeedAll(Ready(done), Lines(t))) == done + [Flatten(t)]
  {
    hide Trim, Feed, Join, Finish;
    SplitSingle(t, '\n');
    FlattenOneLine(t);
    ReadyIsOpen(done);
    LastCompletes(done, [], t);
    assert FeedAll(Ready(done), [t]) == Feed(Ready(done), t, true) by {
      assert [t][1..] == [];
    }
  }

  // ----- function definitions --------------------------------------------------------

  /** The lines of a block, the last one with `tail` appended. */
  lemma {:induction false} BlockLines(header: string, body: string, lang: string, tail: string)
    requires SingleLine(header) && SingleLine(lang) && SingleLine(tail)
    ensures Lines(Block(header, body, lang) + tail)
         == [header + " as", TAG] + Lines(body) + [TAG, "language " + lang + tail]
  {
    hide Split, Contains;
    var h, l := header + " as", "language " + lang + tail;
    var rest := body + "\n" + (TAG + "\n" + l);
    assert Block(header, body, lang) + tail == h + "\n" + (TAG + "\n" + rest);
    SplitAppend(h, TAG + "\n" + rest, '\n');
    SplitAppend(TAG, rest, '\n');
    SplitAppend(body, TAG + "\n" + l, '\n');
    SplitAppend(TAG, l, '\n');
    SplitSingle(h, '\n');
    SplitSingle(TAG, '\n');
    SplitSingle(l, '\n');
    assert [h] + ([TAG] + (Lines(body) + ([TAG] + [l]))) == [h, TAG] + Lines(body) + [TAG, l];
  }

  /** A line that opens and closes a dollar-quoted body. */
  ghost predicate Delimiter(tag: string) {
    && CleanLine(tag) && Trim(tag) == tag && tag != MARKER && !HasSuffix(tag, ";")
    && NextTag("", tag) == tag && NextTag(tag, tag) == ""
  }

  lemma DelimiterOf(name: string)
    requires '$' !in name
    ensures Delimiter("$" + name + "$")
  {
    hide Contains, Trim, OpeningTag;
    var tag := "$" + name + "$";
    TrimIdentity(tag);
    ContainsSelf(tag);
    OpeningTagOf(name);
    SuffixChar(tag);
    assert tag[0] != MARKER[0];
  }

  lemma TagIsDelimiter()
    ensures Delimiter(TAG)
  {
    hide Delimiter;
    DelimiterOf("_SCHEMAHERO_");
    assert TAG == "$" + "_SCHEMAHERO_" + "$";
  }

  lemma ContainsSelf(s: string)
    ensures Contains(s, s)
  {
    assert MatchAt(s, s, 0);
  }

  lemma OpeningTagOf(name: string)
    requires '$' !in name
    ensures OpeningTag("$" + name + "$") == "$" + name + "$"
  {
    hide Contains, IndexOfChar;
    var line := "$" + name + "$";
    IndexOfCharIs(line, '$', 0);
    assert line[1..] == name + "$";
    IndexOfCharIs(name + "$", '$', |name|);
    assert line[0..|name| + 2] == line;
    assert line[|name| + 2..] == "";
    assert !Contains("", line) by { ContainsShort(line); }
  }

  lemma ContainsShort(s: string)
    requires s != ""
    ensures !Contains("", s)
  {
  }

  lemma {:induction false} BodyLineSafe(body: string, k: nat)
    requires !Contains(body, TAG) && k < |Lines(body)|
    ensures !Contains(Trim(Lines(body)[k]), TAG)
  {
    hide Trim, Contains, Split;
    SplitPieces(body, '\n', k);
    var l := Lines(body)[k];
    var a, b := TrimSplit(l);
    ContainsPart(a, Trim(l), b);
    if Contains(Trim(l), TAG) {
      ContainsTransitive(l, Trim(l), TAG);
      ContainsTransitive(body, l, TAG);
    }
  }

  ghost predicate BodySafe(lines: seq<string>, tag: string) {
    forall i :: 0 <= i < |lines| ==> !Contains(Trim(lines[i]), tag) && Trim(lines[i]) != MARKER
  }

  lemma {:induction false} BodyFeeds(done: seq<string>, pending: seq<string>, lines: seq<string>, tag: string)
    requires tag != "" && BodySafe(lines, tag)
    ensures Run(Open(done, pending, tag), lines) == Open(done, pending + Content(lines), tag)
    decreases |lines|
  {
    hide Trim, Contains, Open;
    if lines == [] {
      assert pending + Content(lines) == pending;
    } else {
      var line := Trim(lines[0]);
      ContentStep(pending, lines);
      if line == "" {
        BlankFeeds(Open(done, pending, tag), lines[0]);
        BodyFeeds(done, pending, lines[1..], tag);
      } else {
        assert NextTag(tag, line) == tag;
        Extends(done, pending, tag, lines[0], tag);
        BodyFeeds(done, pending + [line], lines[1..], tag);
      }
    }
  }

  lemma BlankFeeds(st: Scan, raw: string)
    requires Trim(raw) == ""
    ensures Feed(st, raw, false) == st
  {
  }

  lemma HeaderLine(header: string)
    ensures var l := Trim(header + " as"); l != "" && l != MARKER && !HasSuffix(l, ";")
  {
    hide Trim;
    assert header + " as" == header + " " + "as";
    TrimTail(header + " ", "as");
    assert !HasSuffix(MARKER, "as");
    var l := Trim(header + " as");
    assert l[|l| - 2..] == "as";
    assert l[|l| - 1] == 's';
    SuffixChar(l);
  }

  lemma LanguageLine(lang: string, tail: string)
    requires tail == "" || tail == ";"
    ensures var l := Trim("language " + lang + tail);
      l != "" && l != MARKER && (tail == ";" ==> HasSuffix(l, ";"))
  {
    var raw := "language " + lang + tail;
    if tail == ";" {
      TrimTail("language " + lang, ";");
    }
    assert TrimLeft(raw) == raw;
    TrimRightKeepsHead(raw);
    TrimRightPrefix(raw, 1);
    assert raw[0] == 'l';
    assert MARKER[0] == '-';
  }

  /** The block is one open statement until its language line. */
  lemma BlockFeeds(done: seq<string>, header: string, body: seq<string>, tag: string)
    requires OpensNothing(header + " as") && Delimiter(tag) && BodySafe(body, tag)
    ensures Run(Ready(done), [header + " as", tag] + body + [tag])
         == Open(done, [Trim(header + " as"), tag] + Content(body) + [tag], "")
  {
    hide Trim, Open, Feed, Content, BodySafe, OpeningTag;
    var hs := header + " as";
    var h := Trim(hs);
    HeaderLine(header);
    ReadyIsOpen(done);
    Extends(done, [], "", hs, "");
    Extends(done, [h], "", tag, tag);
    assert [] + [h] == [h] && [h] + [tag] == [h, tag];
    RunTwo(Ready(done), hs, tag);
    BodyFeeds(done, [h, tag], body, tag);
    var pending := [h, tag] + Content(body);
    Extends(done, pending, tag, tag, "");
    RunOne(Open(done, pending, tag), tag);
    RunAppend(Ready(done), [hs, tag] + body, [tag]);
    RunAppend(Ready(done), [hs, tag], body);
  }

  lemma RunOne(st: Scan, a: string)
    ensures Run(st, [a]) == Feed(st, a, false)
  {
    hide Feed;
    assert [a][1..] == [];
  }

  lemma RunTwo(st: Scan, a: string, b: string)
    ensures Run(st, [a, b]) == Feed(Feed(st, a, false), b, false)
  {
    hide Feed;
    assert [a, b][1..] == [b];
    RunOne(Feed(st, a, false), b);
  }

  lemma BlockContent(header: string, body: seq<string>, ls: string, tag: string)
    requires Delimiter(tag) && Trim(ls) != ""
    ensures var pending := [Trim(header + " as"), tag] + Content(body) + [tag];
      && CleanLines(pending)
      && Content([header + " as", tag] + body + [tag, ls]) == pending + [Trim(ls)]
  {
    hide Trim, NextTag, Content;
    var hs := header + " as";
    HeaderLine(header);
    ContentAppend([hs, tag] + body, [tag, ls]);
    ContentAppend([hs, tag], body);
    ContentTwo(hs, tag);
    ContentTwo(tag, ls);
    ContentClean(body);
    ContentClean([hs]);
    ContentOne(hs);
    var pending := [Trim(hs), tag] + Content(body) + [tag];
    assert [Trim(hs), tag] + Content(body) + [tag, Trim(ls)] == pending + [Trim(ls)];
    assert CleanLine(Trim(hs)) by { assert [Trim(hs)][0] == Trim(hs); }
  }

  lemma ContentOne(a: string)
    requires Trim(a) != ""
    ensures Content([a]) == [Trim(a)]
  {
    hide Trim;
    assert [a][1..] == [];
  }

  lemma ContentTwo(a: string, b: string)
    requires Trim(a) != "" && Trim(b) != ""
    ensures Content([a, b]) == [Trim(a), Trim(b)]
  {
    hide Trim;
    assert [a, b][1..] == [b];
    ContentOne(b);
  }

  lemma FlattenIsJoin(s: string)
    ensures Flatten(s) == Join(Content(Lines(s)), " ")
  {
  }

  lemma FunctionFeeds(done: seq<string>, p: Piece, last: bool)
    requires p.Function? && ValidPiece(p)
    ensures var text := RenderPiece(p) + (if last then "" else ";");
      && (!last ==> Run(Ready(done), Lines(text)) == Ready(done + [Flatten(text)]))
      && (last ==> Finish(FeedAll(Ready(done), Lines(text))) == done + [Flatten(text)])
  {
    hide Trim, Contains, Flatten, Run, FeedAll, Finish, Delimiter, Block, OpensNothing;
    var Function(header, body, lang) := p;
    var tag, tail := TAG, if last then "" else ";";
    var text := RenderPiece(p) + tail;
    TagIsDelimiter();
    forall k | 0 <= k < |Lines(body)| ensures !Contains(Trim(Lines(body)[k]), tag) {
      BodyLineSafe(body, k);
    }
    BlockLines(header, body, lang, tail);
    FlattenIsJoin(text);
    StatementFeeds(done, header, Lines(body), lang, tag, last);
  }

  lemma StatementFeeds(done: seq<string>, header: string, body: seq<string>, lang: string, tag: string, last: bool)
    requires OpensNothing(header + " as") && OpensNothing("language " + lang + ";") && Delimiter(tag) && BodySafe(body, tag)
    ensures var ls := "language " + lang + (if last then "" else ";");
      var lines := [header + " as", tag] + body + [tag, ls];
      && (!last ==> Run(Ready(done), lines) == Ready(done + [Join(Content(lines), " ")]))
      && (last ==> Finish(FeedAll(Ready(done), lines)) == done + [Join(Content(lines), " ")])
  {
    hide Trim, Open, Feed, Content, BodySafe, Delimiter, OpeningTag, HasSuffix, CleanLines, Join, Finish;
    var ls := "language " + lang + (if last then "" else ";");
    LanguageLine(lang, if last then "" else ";");
    var front := [header + " as", tag] + body + [tag];
    var pending := [Trim(header + " as"), tag] + Content(body) + [tag];
    assert [header + " as", tag] + body + [tag, ls] == front + [ls];
    BlockFeeds(done, header, body, tag);
    BlockContent(header, body, ls, tag);
    if last {
      LastCompletes(done, pending, ls);
      FeedAllAppend(Ready(done), front, [ls]);
      assert [ls][1..] == [];
    } else {
      Completes(done, pending, ls, false);
      RunAppend(Ready(done), front, [ls]);
      RunOne(Open(done, pending, ""), ls);
    }
  }

  // ----- the round trip --------------------------------------------------------------

  /** Every piece but the last is quiet. */
  ghost predicate QuietFront(ps: seq<Piece>) {
    forall i :: 0 <= i < |ps| - 1 ==> Quiet(ps[i])
  }

  lemma {:induction false} FeedStored(done: seq<string>, ps: seq<Piece>)
    requires ps != [] && forall i :: 0 <= i < |ps| ==> ValidPiece(ps[i])
    ensures Finish(FeedAll(Ready(done), Lines(Stored(ps)))) == done + Expected(ps) <==> QuietFront(ps)
    decreases |ps|
  {
    hide ValidPiece, Lines, Flatten, FeedAll, Run, Feed, Quiet, Finish, Stored;
    var p, text := ps[0], RenderPiece(ps[0]);
    if |ps| == 1 {
      StoredOne(ps);
      LastPiece(done, p);
    } else {
      var rest := ps[1..];
      StoredMore(ps);
      LinesAppend(text + ";", Stored(rest));
      LinesNonEmpty(Stored(rest));
      FeedAllAppend(Ready(done), Lines(text + ";"), Lines(Stored(rest)));
      FeedStored(done + [Flatten(text + ";")], rest);
      if Quiet(p) {
        NextPiece(done, p);
        Shift(done, Flatten(text + ";"), Expected(rest));
        assert QuietFront(ps) <==> QuietFront(rest) by {
          assert forall i :: 0 <= i < |rest| ==> rest[i] == ps[i + 1];
          assert forall i :: 1 <= i < |ps| ==> ps[i] == rest[i - 1];
        }
      } else {
        LoudPiece(done, p, rest);
      }
    }
  }

  lemma StoredOne(ps: seq<Piece>)
    requires |ps| == 1
    ensures Stored(ps) == RenderPiece(ps[0])
  {
    assert Rendered(ps) == [RenderPiece(ps[0])] by { assert Rendered(ps[1..]) == []; }
  }

  lemma StoredMore(ps: seq<Piece>)
    requires |ps| > 1
    ensures Stored(ps) == (RenderPiece(ps[0]) + ";") + "\n" + Stored(ps[1..])
  {
    assert Rendered(ps)[1..] == Rendered(ps[1..]);
    assert Rendered(ps[1..]) != [];
  }

  lemma Shift<T>(done: seq<T>, x: T, rest: seq<T>)
    ensures done + [x] + rest == done + ([x] + rest)
  {
  }

  // ----- a delimiter left open --------------------------------------------------------

  lemma {:induction false} DoneStays(st: Scan, lines: seq<string>)
    ensures st.done <= Finish(FeedAll(st, lines))
    decreases |lines|
  {
    hide Trim, NextTag, HasSuffix;
    if lines != [] {
      DoneStays(Feed(st, lines[0], |lines| == 1), lines[1..]);
    }
  }

  lemma {:induction false} BlanksFeed(st: Scan, lines: seq<string>)
    requires Content(lines) == []
    ensures FeedAll(st, lines) == st
    decreases |lines|
  {
    if lines != [] {
      assert Trim(lines[0]) == "";
      BlanksFeed(st, lines[1..]);
    }
  }

  /** An open statement that takes in another line ends up longer than it was. */
  lemma {:induction false} Grows(st: Scan, pending: seq<string>, lines: seq<string>)
    requires st.statement == Lead(pending) && pending != [] && CleanLines(pending) && Content(lines) != []
    ensures var r := Finish(FeedAll(st, lines)); |r| > |st.done| && |r[|st.done|]| > |Join(pending, " ")|
    decreases |lines|
  {
    hide Trim, NextTag, HasSuffix, Lead, Join, CleanLines;
    var raw, rest := lines[0], lines[1..];
    var next := Feed(st, raw, |lines| == 1);
    if Trim(raw) == "" {
      assert [] + Content(rest) == Content(rest);
      Grows(st, pending, rest);
    } else {
      var longer := pending + [Trim(raw)];
      LeadAppend(pending, Trim(raw));
      CleanAppend(pending, Trim(raw));
      TrimLead(longer);
      LeadNotEmpty(longer);
      JoinAppend(pending, [Trim(raw)], " ");
      if next.statement == "" {
        DoneStays(next, rest);
        assert next.done == st.done + [Join(longer, " ")];
      } else if Content(rest) == [] {
        BlanksFeed(next, rest);
      } else {
        Grows(next, longer, rest);
      }
    }
  }

  lemma LeadNotEmpty(lines: seq<string>)
    requires lines != []
    ensures Lead(lines) != ""
  {
  }

  lemma {:induction false} StoredHasContent(ps: seq<Piece>)
    requires ps != [] && ValidPiece(ps[0])
    ensures Content(Lines(Stored(ps))) != []
  {
    var text := RenderPiece(ps[0]);
    var tail := if |ps| == 1 then "" else ";";
    assert Content(Lines(text + tail)) != [] by { PieceHasContent(ps[0], tail); }
    hide ValidPiece, Lines, Stored, Content;
    assert text + "" == text;
    if |ps| == 1 {
      StoredOne(ps);
    } else {
      StoredMore(ps);
      LinesAppend(text + ";", Stored(ps[1..]));
      ContentAppend(Lines(text + ";"), Lines(Stored(ps[1..])));
    }
  }

  lemma PieceHasContent(p: Piece, tail: string)
    requires ValidPiece(p) && (tail == "" || tail == ";")
    ensures Content(Lines(RenderPiece(p) + tail)) != []
  {
    hide Trim, OpensNothing, Contains, Block;
    match p
    case Line(t) =>
      SplitSingle(t + tail, '\n');
      if tail == ";" {
        TrimTail(t, ";");
      } else {
        assert t + "" == t;
      }
      ContentOne(t + tail);
    case Function(header, body, lang) =>
      BlockLines(header, body, lang, tail);
      HeaderLine(header);
      ContentOne(header + " as");
      var lines := Lines(RenderPiece(p) + tail);
      assert lines[0] == header + " as";
  }

  /** A line that leaves a delimiter open takes the next statement in. */
  lemma LoudPiece(done: seq<string>, p: Piece, rest: seq<Piece>)
    requires ValidPiece(p) && !Quiet(p) && rest != [] && ValidPiece(rest[0])
    ensures Finish(FeedAll(Run(Ready(done), Lines(RenderPiece(p) + ";")), Lines(Stored(rest))))
         != done + ([Flatten(RenderPiece(p) + ";")] + Expected(rest))
  {
    hide Trim, OpeningTag, Stored, Expected, Join, Lead, Content, FeedAll, Finish;
    var raw := p.text + ";";
    SplitSingle(raw, '\n');
    TrimTail(p.text, ";");
    FlattenOneLine(raw);
    var line := Trim(raw);
    assert !HasSuffix(MARKER, ";");
    ReadyIsOpen(done);
    Extends(done, [], "", raw, OpeningTag(line));
    RunOne(Ready(done), raw);
    assert [] + [line] == [line];
    var st := Open(done, [line], OpeningTag(line));
    StoredHasContent(rest);
    assert CleanLines([line]);
    Grows(st, [line], Lines(Stored(rest)));
    var r, e := Finish(FeedAll(st, Lines(Stored(rest)))), done + ([Flatten(raw)] + Expected(rest));
    assert e[|done|] == Flatten(raw) == Join([line], " ");
    assert |r[|done|]| > |e[|done|]|;
  }

  lemma LinesAppend(a: string, b: string)
    ensures Lines(a + "\n" + b) == Lines(a) + Lines(b)
  {
    SplitAppend(a, b, '\n');
  }

  lemma LinesNonEmpty(s: string)
    ensures Lines(s) != []
  {
  }

  lemma LastPiece(done: seq<string>, p: Piece)
    requires ValidPiece(p)
    ensures Finish(FeedAll(Ready(done), Lines(RenderPiece(p)))) == done + [Flatten(RenderPiece(p))]
  {
    hide Lines, Flatten, FeedAll, Finish;
    match p
    case Line(t) => LastLineFeeds(done, t);
    case Function(_, _, _) =>
      FunctionFeeds(done, p, true);
      assert RenderPiece(p) + "" == RenderPiece(p);
  }

  lemma NextPiece(done: seq<string>, p: Piece)
    requires ValidPiece(p) && Quiet(p)
    ensures Run(Ready(done), Lines(RenderPiece(p) + ";")) == Ready(done + [Flatten(RenderPiece(p) + ";")])
  {
    hide Lines, Flatten, Run;
    match p
    case Line(t) => LineFeeds(done, t);
    case Function(_, _, _) => FunctionFeeds(done, p, false);
  }

  /**
   A list of one-line statements and function blocks, stored as one text, is split back into
   the same statements in the same order exactly if no one-line statement but the last leaves a
   dollar-quote delimiter open.
   */
  lemma SplitInvertsJoinIff(ps: seq<Piece>)
    requires ps != [] && forall i :: 0 <= i < |ps| ==> ValidPiece(ps[i])
    ensures Statements(Stored(ps)) == Expected(ps) <==> QuietFront(ps)
    ensures |Expected(ps)| == |ps|
  {
    hide FeedAll, ValidPiece, Stored, Expected, Finish, QuietFront;
    FeedStored([], ps);
    assert [] + Expected(ps) == Expected(ps);
    ExpectedLength(ps);
    StatementsIsScan(Stored(ps));
  }

  lemma NoDollarIsQuiet(line: string)
    requires '$' !in line
    ensures OpensNothing(line)
  {
    hide Trim;
    TrimKeepsOut(line, '$');
    NoDollarNoTag(Trim(line));
  }

  /** One dollar opens nothing either. */
  lemma OneDollarIsQuiet(a: string, b: string)
    requires '$' !in a && '$' !in b && Trimmed(a + "$" + b)
    ensures OpensNothing(a + "$" + b)
  {
    hide Trim, Contains, IndexOfChar;
    var s := a + "$" + b;
    TrimIdentity(s);
    IndexOfCharIs(s, '$', |a|);
    assert s[|a| + 1..] == b;
    NoCharNoIndex(b, '$');
  }

  lemma {:induction false} NoCharNoIndex(s: string, c: char)
    requires c !in s
    ensures IndexOfChar(s, c) < 0
  {
  }

  /** Two dollars open what lies between them. */
  lemma TwoDollarsOpen(a: string, b: string, c: string)
    requires '$' !in a && '$' !in b && '$' !in c && Trimmed(a + "$" + b + "$" + c)
    ensures OpeningTag(Trim(a + "$" + b + "$" + c)) == "$" + b + "$"
  {
    hide Trim, Contains, IndexOfChar;
    var s, tag := a + "$" + b + "$" + c, "$" + b + "$";
    TrimIdentity(s);
    assert s == a + ("$" + b + "$" + c);
    IndexOfCharIs(s, '$', |a|);
    assert s[|a| + 1..] == b + ("$" + c);
    IndexOfCharIs(b + ("$" + c), '$', |b|);
    assert s[|a|..|a| + |b| + 2] == tag;
    assert s[|a| + |b| + 2..] == c;
    NoTagWithoutDollar(c, tag);
  }

  /** A delimiter that the line closes again opens nothing. */
  lemma ClosedAgainIsQuiet(a: string, b: string, rest: string)
    requires '$' !in a && '$' !in b && Contains(rest, "$" + b + "$") && Trimmed(a + "$" + b + "$" + rest)
    ensures OpensNothing(a + "$" + b + "$" + rest)
  {
    hide Trim, Contains, IndexOfChar;
    var s, tag := a + "$" + b + "$" + rest, "$" + b + "$";
    TrimIdentity(s);
    assert s == a + ("$" + b + "$" + rest);
    IndexOfCharIs(s, '$', |a|);
    assert s[|a| + 1..] == b + ("$" + rest);
    IndexOfCharIs(b + ("$" + rest), '$', |b|);
    assert s[|a|..|a| + |b| + 2] == tag;
    assert s[|a| + |b| + 2..] == rest;
  }

  lemma NoTagWithoutDollar(c: string, tag: string)
    requires '$' !in c && tag != "" && tag[0] == '$'
    ensures !Contains(c, tag)
  {
    forall i | 0 <= i <= |c| ensures !MatchAt(c, tag, i) {
      if i + |tag| <= |c| {
        assert c[i..i + |tag|][0] == c[i];
      }
    }
  }

  lemma StatementsIsScan(s: string)
    ensures Statements(s) == Finish(FeedAll(Ready([]), Lines(s)))
  {
    hide FeedAll;
  }

  lemma {:induction false} ExpectedLength(ps: seq<Piece>)
    ensures |Expected(ps)| == |ps|
  {
    hide Flatten;
    if ps != [] {
      ExpectedLength(ps[1..]);
    }
  }

  /** Trimming the last line keeps its end, with or without a semicolon behind it. */
  lemma TrimLast(l: string) returns (core: string)
    requires l != "" && !IsSpace(l[|l| - 1])
    ensures core != "" && Trim(l) == core && Trim(l + ";") == core + ";"
  {
    var a := TrimLeftSplit(l);
    TrimLeftHead(l);
    core := TrimLeft(l);
    TrimPadded(a, core, "");
    TrimPadded(a, core + ";", "");
    assert l == a + core + "";
    assert l + ";" == a + (core + ";") + "";
  }

  lemma JoinLast(front: seq<string>, x: string)
    ensures Join(front + [x], " ") == (if front == [] then "" else Join(front, " ") + " ") + x
  {
    if front == [] {
      assert front + [x] == [x];
    } else {
      JoinAppend(front, [x], " ");
    }
  }

  /** On text that ends in a non-blank the semicolon simply follows the flattened text. */
  lemma FlattenSemicolon(t: string)
    requires t != "" && !IsSpace(t[|t| - 1])
    ensures Flatten(t + ";") == Flatten(t) + ";"
  {
    hide Trim, Split, Join, Content;
    var front, l := SplitLast(t);
    SplitOfLast(t, front, l, ";");
    SplitOfLast(t, front, l, "");
    assert t + "" == t && l + "" == l;
    var core := TrimLast(l);
    ContentAppend(front, [l]);
    ContentAppend(front, [l + ";"]);
    ContentOne(l);
    ContentOne(l + ";");
    JoinLast(Content(front), core);
    JoinLast(Content(front), core + ";");
  }

  /** The last line of a text. */
  lemma {:induction false} SplitLast(t: string) returns (front: seq<string>, l: string)
    ensures Lines(t) == front + [l]
    ensures '\n' !in l && HasSuffix(t, l)
    ensures t != "" && !IsSpace(t[|t| - 1]) ==> l != "" && !IsSpace(l[|l| - 1])
    ensures t == l || (|t| > |l| && t[|t| - |l| - 1] == '\n' && Lines(t[..|t| - |l| - 1]) == front)
    decreases |t|
  {
    if '\n' !in t {
      SplitSingle(t, '\n');
      return [], t;
    }
    var k := |t| - 1;
    while t[k] != '\n'
      invariant 0 <= k < |t|
      invariant exists j :: 0 <= j <= k && t[j] == '\n'
      invariant forall j :: k < j < |t| ==> t[j] != '\n'
      decreases k
    {
      k := k - 1;
    }
    l := t[k + 1..];
    front := Lines(t[..k]);
    assert t == t[..k] + "\n" + l;
    SplitAppend(t[..k], l, '\n');
    SplitSingle(l, '\n');
  }

  lemma SplitOfLast(t: string, front: seq<string>, l: string, tail: string)
    requires '\n' !in l && '\n' !in tail && HasSuffix(t, l)
    requires Lines(t) == front + [l]
    requires t == l || (|t| > |l| && t[|t| - |l| - 1] == '\n' && Lines(t[..|t| - |l| - 1]) == front)
    ensures Lines(t + tail) == front + [l + tail]
  {
    hide Split;
    SplitSingle(l + tail, '\n');
    if t == l {
      SplitSingle(l, '\n');
      assert front == [] by { assert |front + [l]| == 1; }
    } else {
      var k := |t| - |l| - 1;
      assert t + tail == t[..k] + "\n" + (l + tail);
      SplitAppend(t[..k], l + tail, '\n');
    }
  }
}
