/**
 Recovering statements from stored DDL text.  A plan is stored as one string, its
 statements joined by `";\n"`; before it is applied, a line-driven scanner cuts it back
 into statements, keeping dollar-quoted bodies together.
 */
module DdlSplit {
  import opened Text

  const MARKER := "-- Function body follows"

  /** The delimiter a line opens and does not close again, or the empty string. */
  function OpeningTag(line: string): string {
    var open := IndexOfChar(line, '$');
    if open < 0 then "" else
    var len := IndexOfChar(line[open + 1..], '$');
    if len < 0 then "" else
    var tag := line[open..open + len + 2];
    if Contains(line[open + len + 2..], tag) then "" else tag
  }

  /** The open delimiter after reading a line, given the one open before it. */
  function NextTag(tag: string, line: string): string {
    if tag == "" then OpeningTag(line) else if Contains(line, tag) then "" else tag
  }

  /** Scanner state: finished statements, text of the open one, open delimiter, marker flag. */
  datatype Scan = Scan(done: seq<string>, statement: string, tag: string, markerOpen: bool)

  function Feed(st: Scan, raw: string, last: bool): Scan {
    var line := Trim(raw);
    if line == "" then st else
    var tag := NextTag(st.tag, line);
    var markerOpen := if line == MARKER then !st.markerOpen else st.markerOpen;
    var statement := st.statement + " " + line;
    if !markerOpen && tag == "" && (last || HasSuffix(line, ";"))
    then Scan(st.done + [Trim(statement)], "", tag, markerOpen)
    else Scan(st.done, statement, tag, markerOpen)
  }

  function FeedAll(st: Scan, lines: seq<string>): Scan
    decreases |lines|
  {
    if lines == [] then st else FeedAll(Feed(st, lines[0], |lines| == 1), lines[1..])
  }

  function Finish(st: Scan): seq<string> {
    if st.statement != "" then st.done + [Trim(st.statement)] else st.done
  }

  const START := Scan([], "", "", false)

  function Statements(ddl: string): seq<string> {
    Finish(FeedAll(START, Split(ddl, '\n')))
  }

  method ScanDelimiter(dollarQuoteTag: string, line: string) returns (tag: string)
    ensures tag == NextTag(dollarQuoteTag, line)
  {
    hide Contains, IndexOfChar;
    tag := dollarQuoteTag;
    if dollarQuoteTag == "" {
      var open := IndexOfChar(line, '$');
      if open >= 0 {
        var len := IndexOfChar(line[open + 1..], '$');
        if len >= 0 {
          var candidate := line[open..open + len + 2];
          if !Contains(line[open + len + 2..], candidate) {
            tag := candidate;
          }
        }
      }
    } else if Contains(line, dollarQuoteTag) {
      tag := "";
    }
  }

  method GetStatementsFromDDL(ddl: string) returns (statements: seq<string>)
    ensures statements == Statements(ddl)
  {
    hide Trim, NextTag, HasSuffix, Split;
    var lines := Split(ddl, '\n');
    statements := [];
    var functionTagOpen, dollarQuoteTag, statement := false, "", "";
    var i := 0;
    while i < |lines|
      invariant 0 <= i <= |lines|
      invariant FeedAll(Scan(statements, statement, dollarQuoteTag, functionTagOpen), lines[i..])
             == FeedAll(START, lines)
    {
      FeedNext(Scan(statements, statement, dollarQuoteTag, functionTagOpen), lines, i);
      var line := Trim(lines[i]);
      if line != "" {
        dollarQuoteTag := ScanDelimiter(dollarQuoteTag, line);
        if line == MARKER {
          functionTagOpen := !functionTagOpen;
        }
        statement := statement + " " + line;
        if !functionTagOpen && dollarQuoteTag == "" && (i == |lines| - 1 || HasSuffix(line, ";")) {
          statements := statements + [Trim(statement)];
          statement := "";
        }
      }
      i := i + 1;
    }
    if statement != "" {
      statements := statements + [Trim(statement)];
    }
  }

  lemma FeedNext(st: Scan, lines: seq<string>, i: nat)
    requires i < |lines|
    ensures FeedAll(st, lines[i..]) == FeedAll(Feed(st, lines[i], i == |lines| - 1), lines[i + 1..])
  {
    hide Feed;
    assert lines[i..][1..] == lines[i + 1..] && lines[i..][0] == lines[i];
  }

  // ----- content lines ---------------------------------------------------------------

  /** The trimmed, non-blank lines. */
  function Content(lines: seq<string>): seq<string> {
    if lines == [] then []
    else (if Trim(lines[0]) == "" then [] else [Trim(lines[0])]) + Content(lines[1..])
  }

  lemma {:induction false} ContentAppend(a: seq<string>, b: seq<string>)
    ensures Content(a + b) == Content(a) + Content(b)
  {
    if a == [] {
      assert a + b == b;
    } else {
      assert (a + b)[1..] == a[1..] + b;
      ContentAppend(a[1..], b);
    }
  }

  /** A text with its line structure flattened to single blanks. */
  function Flatten(text: string): string {
    Join(Content(Split(text, '\n')), " ")
  }

  predicate CleanLine(l: string) {
    l != "" && Trimmed(l)
  }

  ghost predicate CleanLines(ls: seq<string>) {
    forall i :: 0 <= i < |ls| ==> CleanLine(ls[i])
  }

  lemma {:induction false} ContentClean(lines: seq<string>)
    ensures CleanLines(Content(lines))
  {
    hide Trim;
    if lines != [] {
      ContentClean(lines[1..]);
    }
  }

  /** The open statement as the scanner holds it: every line preceded by a blank. */
  function Lead(lines: seq<string>): string {
    if lines == [] then "" else " " + Join(lines, " ")
  }

  lemma LeadAppend(lines: seq<string>, l: string)
    ensures Lead(lines + [l]) == Lead(lines) + " " + l
  {
    if lines == [] {
      assert lines + [l] == [l];
    } else {
      JoinAppend(lines, [l], " ");
    }
  }

  lemma {:induction false} JoinClean(lines: seq<string>)
    requires lines != [] && CleanLines(lines)
    ensures CleanLine(Join(lines, " "))
    ensures Join(lines, " ")[|Join(lines, " ")| - 1] == lines[|lines| - 1][|lines[|lines| - 1]| - 1]
  {
    if |lines| > 1 {
      assert lines[1..][|lines| - 2] == lines[|lines| - 1];
      JoinClean(lines[1..]);
    }
  }

  lemma TrimLead(lines: seq<string>)
    requires lines != [] && CleanLines(lines)
    ensures Trim(Lead(lines)) == Join(lines, " ")
  {
    hide Trim;
    JoinClean(lines);
    assert " " + Join(lines, " ") + "" == Lead(lines);
    TrimPadded(" ", Join(lines, " "), "");
  }

  // ----- every text is cut at line ends ------------------------------------------------

  function Flat(groups: seq<seq<string>>): seq<string> {
    if groups == [] then [] else groups[0] + Flat(groups[1..])
  }

  function JoinEach(groups: seq<seq<string>>): seq<string> {
    if groups == [] then [] else [Join(groups[0], " ")] + JoinEach(groups[1..])
  }

  lemma {:induction false} FlatAppend(gs: seq<seq<string>>, g: seq<string>)
    ensures Flat(gs + [g]) == Flat(gs) + g
    ensures JoinEach(gs + [g]) == JoinEach(gs) + [Join(g, " ")]
  {
    if gs == [] {
      assert gs + [g] == [g];
    } else {
      assert (gs + [g])[1..] == gs[1..] + [g];
      FlatAppend(gs[1..], g);
    }
  }

  predicate EndsInSemicolon(g: seq<string>) {
    g != [] && HasSuffix(g[|g| - 1], ";")
  }

  ghost predicate Groups(gs: seq<seq<string>>) {
    forall i :: 0 <= i < |gs| ==> gs[i] != [] && CleanLines(gs[i]) && (i < |gs| - 1 ==> EndsInSemicolon(gs[i]))
  }

  lemma {:induction false} FeedGroups(
    gs: seq<seq<string>>, pending: seq<string>, seen: seq<string>, st: Scan, lines: seq<string>)
    returns (out: seq<seq<string>>)
    requires st.done == JoinEach(gs) && st.statement == Lead(pending) && seen == Flat(gs) + pending
    requires Groups(gs) && CleanLines(pending)
    requires gs != [] && (lines != [] || pending != []) ==> EndsInSemicolon(gs[|gs| - 1])
    ensures Groups(out)
    ensures Finish(FeedAll(st, lines)) == JoinEach(out)
    ensures Flat(out) == seen + Content(lines)
    decreases |lines|
  {
    hide Feed, Trim, Join, Groups, CleanLines, JoinEach, Flat, Lead, Content, EndsInSemicolon;
    LeadEmpty(pending);
    if lines == [] {
      out := CloseGroups(gs, pending);
      assert seen + Content(lines) == seen by { ContentStep(seen, lines); }
    } else {
      var next := Feed(st, lines[0], |lines| == 1);
      FeedCases(pending, st, lines[0], |lines| == 1);
      ContentStep(seen, lines);
      var line := Trim(lines[0]);
      var grown := pending + [line];
      if line == "" {
        out := FeedGroups(gs, pending, seen, next, lines[1..]);
      } else if next.statement == "" {
        ExtendGroups(gs, pending, line, seen);
        LeadEmpty([]);
        out := FeedGroups(gs + [grown], [], seen + [line], next, lines[1..]);
      } else {
        ExtendGroups(gs, pending, line, seen);
        out := FeedGroups(gs, grown, seen + [line], next, lines[1..]);
      }
    }
  }

  lemma CloseGroups(gs: seq<seq<string>>, pending: seq<string>) returns (out: seq<seq<string>>)
    requires Groups(gs) && CleanLines(pending)
    requires gs != [] && pending != [] ==> EndsInSemicolon(gs[|gs| - 1])
    ensures Groups(out) && Flat(out) == Flat(gs) + pending
    ensures JoinEach(out) == if pending == [] then JoinEach(gs) else JoinEach(gs) + [Trim(Lead(pending))]
  {
    hide Trim, Join, Groups, CleanLines, EndsInSemicolon;
    if pending == [] {
      out := gs;
    } else {
      GroupsAppend(gs, pending);
      FlatAppend(gs, pending);
      TrimLead(pending);
      out := gs + [pending];
    }
  }

  lemma ContentStep(seen: seq<string>, lines: seq<string>)
    ensures lines == [] ==> seen + Content(lines) == seen
    ensures lines != [] && Trim(lines[0]) == "" ==> Content(lines) == Content(lines[1..])
    ensures lines != [] && Trim(lines[0]) != "" ==>
      seen + Content(lines) == seen + [Trim(lines[0])] + Content(lines[1..])
  {
    hide Trim;
  }

  /** Adding a line to the open group, and closing that group. */
  lemma ExtendGroups(gs: seq<seq<string>>, pending: seq<string>, line: string, seen: seq<string>)
    requires Groups(gs) && CleanLines(pending) && CleanLine(line) && seen == Flat(gs) + pending
    requires gs != [] ==> EndsInSemicolon(gs[|gs| - 1])
    ensures var grown := pending + [line];
      && CleanLines(grown) && Groups(gs + [grown])
      && JoinEach(gs + [grown]) == JoinEach(gs) + [Join(grown, " ")]
      && Flat(gs + [grown]) + [] == seen + [line] == Flat(gs) + grown
      && (HasSuffix(line, ";") ==> EndsInSemicolon((gs + [grown])[|gs|]))
  {
    hide Join, Groups, Flat, JoinEach, HasSuffix;
    var grown := pending + [line];
    GroupsAppend(gs, grown);
    FlatAppend(gs, grown);
  }

  lemma LeadEmpty(pending: seq<string>)
    ensures Lead(pending) == "" <==> pending == []
    ensures CleanLines([]) && Lead([]) == ""
  {
  }

  lemma CleanAppend(pending: seq<string>, line: string)
    requires CleanLines(pending) && CleanLine(line)
    ensures CleanLines(pending + [line])
  {
  }

  lemma GroupsAppend(gs: seq<seq<string>>, g: seq<string>)
    requires Groups(gs) && g != [] && CleanLines(g)
    requires gs != [] ==> EndsInSemicolon(gs[|gs| - 1])
    ensures Groups(gs + [g])
  {
    hide EndsInSemicolon, CleanLines;
  }

  /** A line is skipped, finishes the open statement, or extends it. */
  lemma FeedCases(pending: seq<string>, st: Scan, raw: string, last: bool)
    requires st.statement == Lead(pending) && CleanLines(pending)
    ensures var line, next := Trim(raw), Feed(st, raw, last);
      if line == "" then next == st
      else
        && CleanLine(line)
        && (|| (next.statement == "" && next.done == st.done + [Join(pending + [line], " ")] && (last || HasSuffix(line, ";")))
            || (next.statement == Lead(pending + [line]) && next.statement != "" && next.done == st.done))
  {
    hide Trim, NextTag, HasSuffix, Join;
    var line := Trim(raw);
    if line != "" {
      LeadAppend(pending, line);
      TrimLead(pending + [line]);
    }
  }

  /**
   Every text: the statements are consecutive groups of its trimmed non-blank lines, each
   group joined by blanks, and only the last group may not end in a semicolon.
   */
  lemma StatementsPartitionLines(ddl: string) returns (groups: seq<seq<string>>)
    ensures Groups(groups) && Statements(ddl) == JoinEach(groups)
    ensures Flat(groups) == Content(Split(ddl, '\n'))
  {
    groups := FeedGroups([], [], [], START, Split(ddl, '\n'));
  }

  lemma {:induction false} JoinOfGroups(gs: seq<seq<string>>)
    requires Groups(gs)
    ensures |JoinEach(gs)| == |gs|
    ensures forall i :: 0 <= i < |gs| ==> JoinEach(gs)[i] == Join(gs[i], " ")
    ensures Join(JoinEach(gs), " ") == Join(Flat(gs), " ")
  {
    if gs != [] {
      var rest := gs[1..];
      assert Groups(rest) by {
        assert forall i :: 0 <= i < |rest| ==> rest[i] == gs[i + 1];
      }
      JoinOfGroups(rest);
      if rest == [] {
        assert Flat(gs) == gs[0];
      } else {
        assert Flat(rest) != [] by { assert rest[0] != []; }
        JoinAppend(gs[0], Flat(rest), " ");
      }
    }
  }

  /** Nothing but line structure is lost, no statement is empty, all but the last end in `;`. */
  lemma StatementsPreserveText(ddl: string)
    ensures Join(Statements(ddl), " ") == Flatten(ddl)
    ensures forall i :: 0 <= i < |Statements(ddl)| ==> Statements(ddl)[i] != ""
    ensures forall i :: 0 <= i < |Statements(ddl)| - 1 ==> HasSuffix(Statements(ddl)[i], ";")
  {
    hide Statements;
    var gs := StatementsPartitionLines(ddl);
    JoinOfGroups(gs);
    forall i | 0 <= i < |gs|
      ensures Join(gs[i], " ") != "" && (i < |gs| - 1 ==> HasSuffix(Join(gs[i], " "), ";"))
    {
      JoinClean(gs[i]);
      if i < |gs| - 1 {
        assert EndsInSemicolon(gs[i]);
        SuffixChar(gs[i][|gs[i]| - 1]);
        SuffixChar(Join(gs[i], " "));
      }
    }
  }

  lemma SuffixChar(s: string)
    requires s != ""
    ensures HasSuffix(s, ";") <==> s[|s| - 1] == ';'
  {
    assert s[|s| - 1..] == [s[|s| - 1]];
  }
}
