/** The canonical form, character by character: which characters survive and where a blank stands between them. */
module CanonicalInk {
  import opened Text
  import opened Canonical

  // ----- the surviving characters --------------------------------------------------------------

  predicate Bracket(c: char) {
    c == '(' || c == ')'
  }

  predicate Gapped(c: char) {
    c == ' ' || c == '\t' || c == '\n' || c == '\r'
  }

  /** A surviving character, and whether white space stands in front of it. */
  datatype Mark = Mark(c: char, gap: bool)

  function Marks(t: string, gap: bool): seq<Mark> {
    if t == "" then []
    else if Bracket(t[0]) then Marks(t[1..], gap)
    else if Gapped(t[0]) then Marks(t[1..], true)
    else [Mark(t[0], gap)] + Marks(t[1..], false)
  }

  function Chars(ms: seq<Mark>): string {
    if ms == [] then "" else [ms[0].c] + Chars(ms[1..])
  }

  /** The text without parentheses and without white space. */
  function Ink(t: string): string {
    if t == "" then "" else (if Bracket(t[0]) || Gapped(t[0]) then "" else [t[0]]) + Ink(t[1..])
  }

  /** Vertical tabs and form feeds, which only count inside. */
  predicate Feed(c: char) {
    c == '\U{B}' || c == '\U{C}'
  }

  function CoreLeft(ms: seq<Mark>): seq<Mark> {
    if ms != [] && Feed(ms[0].c) then CoreLeft(ms[1..]) else ms
  }

  function CoreRight(ms: seq<Mark>): seq<Mark> {
    if ms != [] && Feed(ms[|ms| - 1].c) then CoreRight(ms[..|ms| - 1]) else ms
  }

  function Core(ms: seq<Mark>): seq<Mark> {
    CoreRight(CoreLeft(ms))
  }

  /** The marks behind `prev`: a blank in a gap, except next to a comma. */
  function WrittenBehind(prev: char, ms: seq<Mark>): string
    decreases |ms|
  {
    if ms == [] then ""
    else (if ms[0].gap && prev != ',' && ms[0].c != ',' then " " else "") + [ms[0].c] + WrittenBehind(ms[0].c, ms[1..])
  }

  function Written(ms: seq<Mark>): string {
    if ms == [] then "" else [ms[0].c] + WrittenBehind(ms[0].c, ms[1..])
  }

  // ----- collapsing ----------------------------------------------------------------------------

  /** The marks with a blank in every gap. */
  function Spaced(ms: seq<Mark>): string {
    if ms == [] then "" else (if ms[0].gap then " " else "") + [ms[0].c] + Spaced(ms[1..])
  }

  function SpacedFirst(ms: seq<Mark>): string {
    if ms == [] then "" else [ms[0].c] + Spaced(ms[1..])
  }

  /** What is still to be written behind `b`. */
  function Rest(b: string, ms: seq<Mark>): string {
    if b == "" then SpacedFirst(ms) else Spaced(ms)
  }

  lemma RestStep(b: string, c: char, gap: bool, ms: seq<Mark>)
    ensures var b' := b + (if gap && b != "" then " " else "") + [c]; b + Rest(b, [Mark(c, gap)] + ms) == b' + Spaced(ms)
  {
    var all := [Mark(c, gap)] + ms;
    assert all[0] == Mark(c, gap) && all[1..] == ms;
    var x := Spaced(ms);
    assert Spaced(all) == (if gap then " " else "") + [c] + x && SpacedFirst(all) == [c] + x;
    hide Spaced, SpacedFirst;
    FourParts(b, if gap && b != "" then " " else "", [c], x);
    assert b == "" ==> "" + ([c] + x) == b + ("" + [c] + x);
  }

  lemma FourParts(a: string, b: string, c: string, d: string)
    ensures a + b + c + d == a + (b + c + d)
  {
  }

  lemma {:induction false} CollapseIsSpaced(b: string, pending: bool, rest: string)
    ensures CollapseFrom(b, pending, rest) == b + Rest(b, Marks(rest, pending))
    decreases |rest|
  {
    if rest == "" {
      assert b + "" == b;
    } else if Bracket(rest[0]) {
      CollapseIsSpaced(b, pending, rest[1..]);
    } else if Gapped(rest[0]) {
      CollapseIsSpaced(b, true, rest[1..]);
    } else {
      var b' := b + (if pending && b != "" then " " else "") + [rest[0]];
      CollapseIsSpaced(b', false, rest[1..]);
      RestStep(b, rest[0], pending, Marks(rest[1..], false));
    }
  }

  /** Marks are never parentheses or white space. */
  predicate Clean(ms: seq<Mark>) {
    forall i :: 0 <= i < |ms| ==> !Bracket(ms[i].c) && !Gapped(ms[i].c)
  }

  lemma {:induction false} MarksClean(t: string, gap: bool)
    ensures Clean(Marks(t, gap)) && Chars(Marks(t, gap)) == Ink(t)
  {
    if t != "" {
      MarksClean(t[1..], gap);
      MarksClean(t[1..], true);
      MarksClean(t[1..], false);
    }
  }

  // ----- trimming ------------------------------------------------------------------------------

  lemma TrimLeftOne(c: char, s: string)
    ensures TrimLeft([c] + s) == if IsSpace(c) then TrimLeft(s) else [c] + s
  {
    assert ([c] + s)[1..] == s;
  }

  lemma {:induction false} TrimLeftSpaced(ms: seq<Mark>)
    requires Clean(ms)
    ensures TrimLeft(SpacedFirst(ms)) == SpacedFirst(CoreLeft(ms)) && TrimLeft(Spaced(ms)) == SpacedFirst(CoreLeft(ms))
    decreases |ms|
  {
    if ms != [] {
      hide TrimLeft;
      TrimLeftSpaced(ms[1..]);
      assert IsSpace(ms[0].c) <==> Feed(ms[0].c);
      TrimLeftOne(ms[0].c, Spaced(ms[1..]));
      TrimLeftOne(' ', SpacedFirst(ms));
      assert Spaced(ms) == (if ms[0].gap then " " else "") + SpacedFirst(ms);
    } else {
      assert TrimLeft("") == "";
    }
  }

  lemma {:induction false} SpacedSnoc(ms: seq<Mark>, m: Mark)
    ensures Spaced(ms + [m]) == Spaced(ms) + (if m.gap then " " else "") + [m.c]
  {
    if ms == [] {
      assert ms + [m] == [m] && [m][1..] == [];
    } else {
      assert (ms + [m])[0] == ms[0] && (ms + [m])[1..] == ms[1..] + [m];
      SpacedSnoc(ms[1..], m);
    }
  }

  lemma SpacedFirstSnoc(ms: seq<Mark>, m: Mark)
    ensures SpacedFirst(ms + [m]) == SpacedFirst(ms) + (if m.gap && ms != [] then " " else "") + [m.c]
  {
    if ms == [] {
      assert ms + [m] == [m] && [m][1..] == [];
    } else {
      assert (ms + [m])[0] == ms[0] && (ms + [m])[1..] == ms[1..] + [m];
      SpacedSnoc(ms[1..], m);
    }
  }

  lemma {:induction false} TrimRightSpaced(ms: seq<Mark>)
    requires Clean(ms)
    ensures TrimRight(SpacedFirst(ms)) == SpacedFirst(CoreRight(ms))
    decreases |ms|
  {
    if ms != [] {
      var n := |ms| - 1;
      var front, m := ms[..n], ms[n];
      assert ms == front + [m];
      SpacedFirstSnoc(front, m);
      var s, f := SpacedFirst(ms), SpacedFirst(front);
      assert IsSpace(m.c) <==> Feed(m.c);
      if Feed(m.c) {
        TrimRightSpaced(front);
        if m.gap && front != [] {
          assert s[..|s| - 1] == f + " " && (f + " ")[..|f|] == f;
        } else {
          assert s[..|s| - 1] == f;
        }
      }
    }
  }

  lemma {:induction false} CleanLeft(ms: seq<Mark>)
    requires Clean(ms)
    ensures Clean(CoreLeft(ms))
  {
    if ms != [] {
      CleanLeft(ms[1..]);
    }
  }

  lemma {:induction false} CleanRight(ms: seq<Mark>)
    requires Clean(ms)
    ensures Clean(CoreRight(ms))
  {
    if ms != [] {
      CleanRight(ms[..|ms| - 1]);
    }
  }

  lemma TrimSpaced(ms: seq<Mark>)
    requires Clean(ms)
    ensures Trim(SpacedFirst(ms)) == SpacedFirst(Core(ms)) && Clean(Core(ms))
  {
    TrimLeftSpaced(ms);
    CleanLeft(ms);
    TrimRightSpaced(CoreLeft(ms));
    CleanRight(CoreLeft(ms));
    hide SpacedFirst, CoreLeft, CoreRight, TrimLeft, TrimRight, Clean;
  }

  // ----- commas ----------------------------------------------------------------------------------

  /** No blank behind a comma. */
  function Behind(prev: char, ms: seq<Mark>): string
    decreases |ms|
  {
    if ms == [] then "" else (if ms[0].gap && prev != ',' then " " else "") + [ms[0].c] + Behind(ms[0].c, ms[1..])
  }

  lemma ReplaceMiss(p: char, rest: string, x: char, y: char)
    requires rest == "" || !(p == x && rest[0] == y)
    ensures ReplacePair([p] + rest, x, y, ',') == [p] + ReplacePair(rest, x, y, ',')
  {
    assert ([p] + rest)[1..] == rest;
  }

  lemma ReplaceHit(rest: string, x: char, y: char)
    ensures ReplacePair([x] + ([y] + rest), x, y, ',') == "," + ReplacePair(rest, x, y, ',')
  {
    assert ([x] + ([y] + rest))[2..] == rest;
  }

  lemma {:induction false} NoneBehindCommas(p: char, ms: seq<Mark>)
    requires Clean(ms) && p != ' '
    ensures ReplacePair([p] + Spaced(ms), ',', ' ', ',') == [p] + Behind(p, ms)
    decreases |ms|
  {
    if ms != [] {
      hide ReplacePair;
      var c, r := ms[0].c, ms[1..];
      NoneBehindCommas(c, r);
      var tail := [c] + Spaced(r);
      if ms[0].gap {
        assert Spaced(ms) == " " + tail;
        if p == ',' {
          ReplaceHit(tail, ',', ' ');
        } else {
          ReplaceMiss(p, " " + tail, ',', ' ');
          ReplaceMiss(' ', tail, ',', ' ');
        }
      } else {
        assert Spaced(ms) == tail;
        ReplaceMiss(p, tail, ',', ' ');
      }
    }
  }

  lemma ThreeParts(a: string, b: string, c: string)
    ensures a + b + c == a + (b + c) && "" + b + c == b + c
  {
  }

  lemma BehindStep(p: char, ms: seq<Mark>)
    requires ms != []
    ensures var c, r := ms[0].c, ms[1..]; var tail, rest := [c] + Behind(c, r), [c] + WrittenBehind(c, r);
      && (ms[0].gap && p != ',' ==> Behind(p, ms) == " " + tail)
      && (!(ms[0].gap && p != ',') ==> Behind(p, ms) == tail && WrittenBehind(p, ms) == rest)
      && (ms[0].gap && p != ',' ==> WrittenBehind(p, ms) == if c == ',' then rest else " " + rest)
  {
    var c, r := ms[0].c, ms[1..];
    var x, y := Behind(c, r), WrittenBehind(c, r);
    assert Behind(p, ms) == (if ms[0].gap && p != ',' then " " else "") + [c] + x;
    assert WrittenBehind(p, ms) == (if ms[0].gap && p != ',' && c != ',' then " " else "") + [c] + y;
    hide Behind, WrittenBehind;
    ThreeParts(" ", [c], x);
    ThreeParts(" ", [c], y);
  }

  lemma {:induction false} NoneBeforeCommas(p: char, ms: seq<Mark>)
    requires Clean(ms) && p != ' '
    ensures ReplacePair([p] + Behind(p, ms), ' ', ',', ',') == [p] + WrittenBehind(p, ms)
    decreases |ms|, 1
  {
    if ms == [] {
      assert [p] + "" == [p];
    } else {
      var c, r := ms[0].c, ms[1..];
      assert Clean(r) && c != ' ';
      BehindStep(p, ms);
      hide ReplacePair, Behind, WrittenBehind, Clean;
      var tail := [c] + Behind(c, r);
      NoneBeforeCommas(c, r);
      if !(ms[0].gap && p != ',') {
        ReplaceMiss(p, tail, ' ', ',');
      } else {
        ReplaceMiss(p, " " + tail, ' ', ',');
        if c == ',' {
          ReplaceHit(Behind(c, r), ' ', ',');
          NoneBehindComma(r);
        } else {
          ReplaceMiss(' ', tail, ' ', ',');
        }
      }
    }
  }

  lemma {:induction false} NoneBehindComma(ms: seq<Mark>)
    requires Clean(ms)
    ensures ReplacePair(Behind(',', ms), ' ', ',', ',') == WrittenBehind(',', ms)
    decreases |ms|, 0
  {
    if ms != [] {
      hide ReplacePair, Behind, WrittenBehind;
      BehindStep(',', ms);
      NoneBeforeCommas(ms[0].c, ms[1..]);
    }
  }

  lemma TightenSpaced(ms: seq<Mark>)
    requires Clean(ms)
    ensures TightenCommas(SpacedFirst(ms)) == Written(ms)
  {
    if ms != [] {
      var r := ms[1..];
      assert Clean(r);
      hide ReplacePair, Clean;
      NoneBehindCommas(ms[0].c, r);
      NoneBeforeCommas(ms[0].c, r);
    }
  }

  // ----- the whole form ----------------------------------------------------------------------------

  /**
   Of the text without casts, in lower case, exactly the parentheses and the white space are
   dropped, and a single blank is left in every gap that is not next to a comma.
   */
  lemma CanonicalIsWritten(s: string)
    ensures Canonicalize(s) == Written(Core(Marks(StripCasts(Lower(s)), false)))
  {
    hide Lower, StripCasts, Trim, TightenCommas, Written, Core, Marks, SpacedFirst, Clean, CollapseFrom;
    var t := StripCasts(Lower(s));
    CollapseIsSpaced("", false, t);
    assert "" + SpacedFirst(Marks(t, false)) == SpacedFirst(Marks(t, false));
    MarksClean(t, false);
    TrimSpaced(Marks(t, false));
    TightenSpaced(Core(Marks(t, false)));
  }

  lemma InkCons(c: char, s: string)
    ensures Ink([c] + s) == (if Bracket(c) || Gapped(c) then "" else [c]) + Ink(s)
  {
    assert ([c] + s)[1..] == s;
  }

  lemma {:induction false} WrittenInk(prev: char, ms: seq<Mark>)
    requires Clean(ms)
    ensures Ink(WrittenBehind(prev, ms)) == Chars(ms)
    decreases |ms|
  {
    if ms != [] {
      var c, r := ms[0].c, ms[1..];
      assert Clean(r) && !Bracket(c) && !Gapped(c);
      WrittenInk(c, r);
      BehindStep(prev, ms);
      var rest := [c] + WrittenBehind(c, r);
      hide Ink, WrittenBehind, Behind, Clean;
      InkCons(c, WrittenBehind(c, r));
      InkCons(' ', rest);
      assert "" + Ink(rest) == Ink(rest);
    }
  }

  lemma {:induction false} CoreLeftInk(ms: seq<Mark>)
    requires Clean(ms)
    ensures Chars(CoreLeft(ms)) == TrimLeft(Chars(ms))
  {
    if ms != [] {
      assert Chars(ms)[1..] == Chars(ms[1..]) && Chars(ms)[0] == ms[0].c;
      assert IsSpace(ms[0].c) <==> Feed(ms[0].c);
      CoreLeftInk(ms[1..]);
    }
  }

  lemma {:induction false} CharsSnoc(ms: seq<Mark>, m: Mark)
    ensures Chars(ms + [m]) == Chars(ms) + [m.c]
  {
    if ms == [] {
      assert ms + [m] == [m] && [m][1..] == [];
    } else {
      assert (ms + [m])[0] == ms[0] && (ms + [m])[1..] == ms[1..] + [m];
      CharsSnoc(ms[1..], m);
    }
  }

  lemma {:induction false} CoreRightInk(ms: seq<Mark>)
    requires Clean(ms)
    ensures Chars(CoreRight(ms)) == TrimRight(Chars(ms))
    decreases |ms|
  {
    if ms != [] {
      var n := |ms| - 1;
      assert ms == ms[..n] + [ms[n]];
      CharsSnoc(ms[..n], ms[n]);
      assert Chars(ms)[..|Chars(ms)| - 1] == Chars(ms[..n]);
      assert IsSpace(ms[n].c) <==> Feed(ms[n].c);
      CoreRightInk(ms[..n]);
    }
  }

  lemma CoreInk(ms: seq<Mark>)
    requires Clean(ms)
    ensures Chars(Core(ms)) == Trim(Chars(ms)) && Clean(Core(ms))
  {
    CoreLeftInk(ms);
    CleanLeft(ms);
    CoreRightInk(CoreLeft(ms));
    CleanRight(CoreLeft(ms));
    hide Chars, CoreLeft, CoreRight, TrimLeft, TrimRight, Clean;
  }

  lemma WrittenAllInk(ms: seq<Mark>)
    requires Clean(ms)
    ensures Ink(Written(ms)) == Chars(ms)
  {
    if ms != [] {
      var r := ms[1..];
      assert Clean(r);
      WrittenInk(ms[0].c, r);
      var tail := WrittenBehind(ms[0].c, r);
      hide WrittenBehind;
      assert ([ms[0].c] + tail)[1..] == tail;
    }
  }

  /**
   Everything else survives: the form without its blanks is the cast-free lower-case text without
   parentheses and white space, feeds at its ends aside.
   */
  lemma InkSurvives(s: string)
    ensures Ink(Canonicalize(s)) == Trim(Ink(StripCasts(Lower(s))))
  {
    hide Canonicalize, Lower, StripCasts, Trim, Written, Core, Marks, Chars, Ink, Clean;
    CanonicalIsWritten(s);
    var t := StripCasts(Lower(s));
    MarksClean(t, false);
    CoreInk(Marks(t, false));
    WrittenAllInk(Core(Marks(t, false)));
  }
}
