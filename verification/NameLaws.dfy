/** Generated names, spelt out. */
module NameLaws {
  import opened Text
  import opened IndexElements
  import opened Names
  import opened IndexPlan

  // ----- fragments of names ----------------------------------------------------------------------

  predicate Alphanumeric(c: char) {
    'a' <= c <= 'z' || '0' <= c <= '9'
  }

  /** A letter or digit, and whether anything else stands in front of it. */
  datatype Mark = Mark(c: char, gap: bool)

  function Marks(s: string, gap: bool): seq<Mark> {
    if s == "" then [] else if Alphanumeric(s[0]) then [Mark(s[0], gap)] + Marks(s[1..], false) else Marks(s[1..], true)
  }

  /** One underscore for every gap. */
  function Spelt(ms: seq<Mark>): string {
    if ms == [] then "" else (if ms[0].gap then "_" else "") + [ms[0].c] + Spelt(ms[1..])
  }

  /** None in front of the first. */
  function SpeltFirst(ms: seq<Mark>): string {
    if ms == [] then "" else [ms[0].c] + Spelt(ms[1..])
  }

  lemma {:induction false} GapFirst(s: string)
    ensures Marks(s, true) != [] ==> Marks(s, true)[0].gap
  {
    if s != "" {
      GapFirst(s[1..]);
    }
  }

  predicate EndsElse(s: string) {
    s != "" && !Alphanumeric(s[|s| - 1])
  }

  lemma {:induction false} NothingLeft(s: string, gap: bool)
    ensures Marks(s, gap) == [] && s != "" ==> EndsElse(s)
  {
    if |s| > 1 {
      NothingLeft(s[1..], true);
    }
  }

  lemma SqueezedStep(s: string)
    requires s != ""
    ensures Alphanumeric(s[0]) ==> Squeezed(s, false) == Squeezed(s, true) == [s[0]] + Squeezed(s[1..], false)
    ensures !Alphanumeric(s[0]) ==> Squeezed(s, false) == "_" + Squeezed(s[1..], true) && Squeezed(s, true) == Squeezed(s[1..], true)
    ensures EndsElse(s) <==> if s[1..] == "" then !Alphanumeric(s[0]) else EndsElse(s[1..])
  {
    assert [] + Squeezed(s[1..], true) == Squeezed(s[1..], true);
  }

  lemma MarksStep(s: string, gap: bool)
    requires s != ""
    ensures Alphanumeric(s[0]) ==> Spelt(Marks(s, gap)) == (if gap then "_" else "") + [s[0]] + Spelt(Marks(s[1..], false))
    ensures Alphanumeric(s[0]) ==> SpeltFirst(Marks(s, gap)) == [s[0]] + Spelt(Marks(s[1..], false)) && Marks(s, gap) != []
    ensures !Alphanumeric(s[0]) ==> Marks(s, gap) == Marks(s[1..], true)
  {
    var ms := Marks(s, gap);
    assert Alphanumeric(s[0]) ==> ms[0] == Mark(s[0], gap) && ms[1..] == Marks(s[1..], false);
  }

  lemma SpeltOfGap(ms: seq<Mark>)
    ensures ms != [] && ms[0].gap ==> Spelt(ms) == "_" + SpeltFirst(ms)
    ensures ms == [] ==> Spelt(ms) == "" && SpeltFirst(ms) == ""
  {
  }

  /** What squeezing leaves, with and without an underscore written just before. */
  predicate SqueezedTo(s: string) {
    && Squeezed(s, false) == Spelt(Marks(s, false)) + (if EndsElse(s) then "_" else "")
    && Squeezed(s, true) == SpeltFirst(Marks(s, true)) + (if EndsElse(s) && Marks(s, true) != [] then "_" else "")
  }

  lemma SqueezedLetter(s: string)
    requires s != "" && Alphanumeric(s[0]) && SqueezedTo(s[1..])
    ensures SqueezedTo(s)
  {
    SqueezedStep(s);
    MarksStep(s, false);
    MarksStep(s, true);
    var r := s[1..];
    assert r == "" ==> !EndsElse(r);
    hide Squeezed, Marks, Spelt, SpeltFirst, EndsElse;
    var x, y := Spelt(Marks(r, false)), if EndsElse(r) then "_" else "";
    assert [s[0]] + (x + y) == [s[0]] + x + y && "" + [s[0]] + x == [s[0]] + x;
  }

  lemma SqueezedElse(s: string)
    requires s != "" && !Alphanumeric(s[0]) && SqueezedTo(s[1..])
    ensures SqueezedTo(s)
  {
    SqueezedStep(s);
    MarksStep(s, false);
    MarksStep(s, true);
    var r := s[1..];
    var m := Marks(r, true);
    GapFirst(r);
    NothingLeft(r, true);
    SpeltOfGap(m);
    assert r == "" ==> m == [];
    hide Squeezed, Marks, Spelt, SpeltFirst, EndsElse;
    if m == [] {
      assert "" + "" == "" && "_" + "" == "_" && "" + "_" == "_";
    } else {
      var y := if EndsElse(r) then "_" else "";
      assert "_" + (SpeltFirst(m) + y) == "_" + SpeltFirst(m) + y;
    }
  }

  lemma {:induction false} SqueezedIs(s: string)
    ensures SqueezedTo(s)
    decreases |s|
  {
    if s != "" {
      hide SqueezedTo;
      SqueezedIs(s[1..]);
      if Alphanumeric(s[0]) {
        SqueezedLetter(s);
      } else {
        SqueezedElse(s);
      }
    }
  }

  lemma {:induction false} SpeltEnds(ms: seq<Mark>)
    requires ms != [] && forall i :: 0 <= i < |ms| ==> ms[i].c != '_'
    ensures var r := Spelt(ms); r != "" && r[|r| - 1] != '_'
    decreases |ms|
  {
    if |ms| > 1 {
      SpeltEnds(ms[1..]);
    }
  }

  lemma {:induction false} MarksAreLetters(s: string, gap: bool)
    ensures forall i :: 0 <= i < |Marks(s, gap)| ==> Marks(s, gap)[i].c != '_'
  {
    if s != "" {
      MarksAreLetters(s[1..], false);
      MarksAreLetters(s[1..], true);
    }
  }

  lemma TrimOne(core: string)
    requires core != "" ==> core[0] != '_' && core[|core| - 1] != '_'
    ensures TrimUnderscores(core) == core
    ensures TrimUnderscores(core + "_") == core && TrimUnderscores("_" + core) == core && TrimUnderscores("_" + core + "_") == core
  {
    var back := core + "_";
    assert back[..|core|] == core && ("_" + core)[1..] == core && ("_" + core + "_")[1..] == back;
    assert core == "" ==> back[1..] == "";
  }

  lemma TrimmedTo(a: string, core: string, b: string)
    requires (a == "" || a == "_") && (b == "" || b == "_") && (core != "" ==> core[0] != '_' && core[|core| - 1] != '_')
    ensures TrimUnderscores(a + core + b) == core
  {
    TrimOne(core);
    assert "" + core == core && core + "" == core && "_" + core + "" == "_" + core;
  }

  lemma SpeltUnfold(ms: seq<Mark>)
    requires ms != []
    ensures SpeltFirst(ms) == [ms[0].c] + Spelt(ms[1..])
    ensures Spelt(ms) == (if ms[0].gap then "_" else "") + SpeltFirst(ms)
  {
    var c, rest := ms[0].c, Spelt(ms[1..]);
    assert Spelt(ms) == (if ms[0].gap then "_" else "") + [c] + rest && SpeltFirst(ms) == [c] + rest;
    hide Spelt, SpeltFirst;
    Regroup(if ms[0].gap then "_" else "", [c], rest);
  }

  lemma Regroup(a: string, b: string, c: string)
    ensures a + b + c == a + (b + c)
  {
  }

  lemma SpeltFirstEnds(ms: seq<Mark>)
    requires ms != [] && forall i :: 0 <= i < |ms| ==> ms[i].c != '_'
    ensures var r := SpeltFirst(ms); r != "" && r[0] != '_' && r[|r| - 1] != '_'
    ensures Spelt(ms) == (if ms[0].gap then "_" else "") + SpeltFirst(ms)
  {
    SpeltUnfold(ms);
    var rest := Spelt(ms[1..]);
    if |ms| == 1 {
      assert rest == "";
    } else {
      SpeltEnds(ms[1..]);
    }
    hide Spelt, SpeltFirst;
    var r := [ms[0].c] + rest;
    assert rest != "" ==> r[|r| - 1] == rest[|rest| - 1];
  }

  /** A fragment is the letters and digits of the text in lower case, one underscore for everything in between. */
  lemma FragmentIsSpelt(s: string)
    ensures SanitizedFragment(s) == SpeltFirst(Marks(Lower(s), false))
  {
    hide Lower, Marks, Squeezed, TrimUnderscores, Spelt, SpeltFirst, EndsElse;
    var l := Lower(s);
    var ms := Marks(l, false);
    SqueezedIs(l);
    MarksAreLetters(l, false);
    var tail := if EndsElse(l) then "_" else "";
    if ms == [] {
      SpeltOfGap(ms);
      TrimmedTo("", "", tail);
      assert "" + "" + tail == "" + tail;
    } else {
      SpeltFirstEnds(ms);
      TrimmedTo(if ms[0].gap then "_" else "", SpeltFirst(ms), tail);
    }
  }

  // ----- whole names -------------------------------------------------------------------------------

  lemma {:induction false} BareBehindDot(a: string, b: string)
    requires '.' !in b
    ensures BareTableName(a + "." + b) == b && BareTableName(b) == b
  {
    LastDot(a + ".", b);
    LastDot("", b);
    assert (a + "." + b)[|a| + 1..] == b && "" + b == b;
  }

  lemma {:induction false} LastDot(a: string, b: string)
    requires '.' !in b && (a == "" || a[|a| - 1] == '.')
    ensures LastIndexOf(a + b, '.') == |a| - 1
    decreases |b|
  {
    var s := a + b;
    if b == "" {
      assert s == a;
    } else {
      assert s[|s| - 1] == b[|b| - 1] && s[..|s| - 1] == a + b[..|b| - 1];
      LastDot(a, b[..|b| - 1]);
    }
  }

  /** Short names as they are; of a long one the first 54 characters and 8 of its digest. */
  lemma CappedIs(hash: string -> string, name: string)
    requires |hash(name)| == 64
    ensures CapIdentifier(hash, name) == if |name| <= 63 then name else name[..54] + "_" + hash(name)[..8]
  {
  }

  function Capped(hash: string -> string, name: string): string
    requires HexDigest(hash)
  {
    CapIdentifier(hash, name)
  }

  /** A table name with or without a schema in front. */
  function Qualified(schema: string, table: string): string {
    if schema == "" then table else schema + "." + table
  }

  lemma BareOfQualified(schema: string, table: string)
    requires '.' !in table
    ensures BareTableName(Qualified(schema, table)) == table
  {
    BareBehindDot(schema, table);
  }

  /** The name an index gets if it has none, on a table in any schema. */
  lemma GeneratedIndexName(hash: string -> string, schema: string, table: string, columns: seq<string>)
    requires HexDigest(hash) && '.' !in table
    ensures GenerateIndexName(hash, Qualified(schema, table), columns) == Capped(hash, "idx_" + table + "_" + Join(columns, "_"))
  {
    hide CapIdentifier, Join, BareTableName, Qualified, HexDigest;
    BareOfQualified(schema, table);
  }

  /** And a check. */
  lemma GeneratedNameOfCheck(hash: string -> string, schema: string, table: string, expression: string)
    requires HexDigest(hash) && '.' !in table
    ensures GenerateCheckName(hash, Qualified(schema, table), "", expression) ==
      Capped(hash, table + "_" + SpeltFirst(Marks(Lower(expression), false)) + "_check")
  {
    hide CapIdentifier, BareTableName, Qualified, HexDigest, SanitizedFragment, Marks, SpeltFirst, Lower;
    BareOfQualified(schema, table);
    FragmentIsSpelt(expression);
  }

  /** And an exclusion constraint. */
  lemma GeneratedNameOfExclusion(hash: string -> string, schema: string, table: string, elements: seq<string>)
    requires HexDigest(hash) && '.' !in table
    ensures GenerateExclusionName(hash, Qualified(schema, table), "", elements) ==
      Capped(hash, table + "_" + Join(Fragments(elements), "_") + "_excl")
  {
    hide CapIdentifier, Join, Fragments, BareTableName, Qualified, HexDigest;
    BareOfQualified(schema, table);
  }

  /** The declared indexes keep their names; those without get the generated one, and nothing else changes. */
  lemma {:induction false} NamedAsDeclared(hash: string -> string, table: string, specs: seq<IndexSpec>, i: nat)
    requires HexDigest(hash) && i < |specs|
    ensures NameAll(hash, table, true, specs)[i] ==
      if specs[i].name == "" then specs[i].(name := GenerateIndexName(hash, table, specs[i].columns)) else specs[i]
  {
    hide GenerateIndexName, InlineFoldable, HexDigest;
    if i > 0 {
      NamedAsDeclared(hash, table, specs[1..], i - 1);
    }
  }

  lemma {:induction false} FragmentsAt(elements: seq<string>, i: nat)
    requires i < |elements|
    ensures |Fragments(elements)| == |elements| && Fragments(elements)[i] == SpeltFirst(Marks(Lower(elements[i]), false))
  {
    hide SanitizedFragment, Marks, SpeltFirst, Lower;
    FragmentIsSpelt(elements[0]);
    if |elements| > 1 {
      FragmentsAt(elements[1..], if i > 0 then i - 1 else 0);
    }
  }
}
