/** The names PostgreSQL objects get when the schema leaves them out, and what the server makes of a name. */
module Names {
  import opened Text

  /** PostgreSQL keeps at most this many bytes of an identifier (section 4.1.1). */
  const MAX_IDENTIFIER: nat := 63

  const HASH_SUFFIX: nat := 8

  /** A quoted identifier as the server files it: longer ones are cut off. */
  function Truncated(n: string): (r: string)
    ensures |r| <= MAX_IDENTIFIER
    ensures r == n <==> |n| <= MAX_IDENTIFIER
  {
    if |n| <= MAX_IDENTIFIER then n else n[..MAX_IDENTIFIER]
  }

  /** An unquoted identifier is folded to lower case first. */
  function Folded(n: string): string {
    Truncated(Lower(n))
  }

  lemma {:induction false} LowerPrefix(s: string, k: nat)
    requires k <= |s|
    ensures Lower(s[..k]) == Lower(s)[..k]
  {
    LowerConcat(s[..k], s[k..]);
    assert s[..k] + s[k..] == s;
  }

  /** Filing what is already filed changes nothing. */
  lemma FilingTwice(n: string)
    ensures Truncated(Truncated(n)) == Truncated(n) && Folded(Folded(n)) == Folded(n)
  {
    hide Lower;
    LowerTwice(n);
    if |n| > MAX_IDENTIFIER {
      LowerPrefix(Lower(n), MAX_IDENTIFIER);
    }
  }

  /** An unquoted name is filed verbatim exactly if it is short and in lower case. */
  lemma FoldedVerbatimIff(n: string)
    ensures Folded(n) == n <==> |n| <= MAX_IDENTIFIER && Lower(n) == n
  {
    hide Lower;
  }

  // ----- generated names -----------------------------------------------------------------

  /** The hash of a name, as 64 hexadecimal digits. */
  ghost predicate HexDigest(hash: string -> string) {
    forall s :: |hash(s)| == 64
  }

  function CapIdentifier(hash: string -> string, name: string): (r: string)
    requires |hash(name)| == 64
    ensures |r| <= MAX_IDENTIFIER
  {
    if |name| <= MAX_IDENTIFIER then name else
    var suffix := hash(name)[..HASH_SUFFIX];
    name[..MAX_IDENTIFIER - |suffix| - 1] + "_" + suffix
  }

  /** A capped name reaches the catalog as generated; two long names share one only if their digests agree. */
  lemma CappedNames(hash: string -> string, a: string, b: string)
    requires |hash(a)| == 64 && |hash(b)| == 64
    ensures Truncated(CapIdentifier(hash, a)) == CapIdentifier(hash, a)
    ensures |a| > MAX_IDENTIFIER && |b| > MAX_IDENTIFIER && CapIdentifier(hash, a) == CapIdentifier(hash, b) ==>
      hash(a)[..HASH_SUFFIX] == hash(b)[..HASH_SUFFIX] && a[..54] == b[..54]
  {
    if |a| > MAX_IDENTIFIER && |b| > MAX_IDENTIFIER {
      var x, y := CapIdentifier(hash, a), CapIdentifier(hash, b);
      assert x[55..] == hash(a)[..HASH_SUFFIX] && y[55..] == hash(b)[..HASH_SUFFIX];
      assert x[..54] == a[..54] && y[..54] == b[..54];
    }
  }

  function LastIndexOf(s: string, c: char): (r: int)
    ensures -1 <= r < |s|
  {
    if s == [] then -1
    else if s[|s| - 1] == c then |s| - 1
    else LastIndexOf(s[..|s| - 1], c)
  }

  function BareTableName(table: string): string {
    table[LastIndexOf(table, '.') + 1..]
  }

  lemma {:induction false} BareHasNoDot(table: string)
    ensures '.' !in BareTableName(table)
  {
    if table != [] && table[|table| - 1] != '.' {
      var t := table[..|table| - 1];
      BareHasNoDot(t);
      var k := LastIndexOf(t, '.') + 1;
      assert table[k..] == t[k..] + [table[|table| - 1]];
    }
  }

  predicate IdentChar(c: char) {
    'a' <= c <= 'z' || '0' <= c <= '9'
  }

  /** The fragment's alphabet: no dot, no quote, nothing that needs quoting. */
  predicate FragmentChar(c: char) {
    IdentChar(c) || c == '_'
  }

  predicate NoDoubleUnderscore(s: string) {
    forall i :: 0 <= i < |s| - 1 ==> !(s[i] == '_' && s[i + 1] == '_')
  }

  function TrimUnderscores(s: string): string {
    if s == [] then s
    else if s[0] == '_' then TrimUnderscores(s[1..])
    else if s[|s| - 1] == '_' then TrimUnderscores(s[..|s| - 1])
    else s
  }

  lemma {:induction false} TrimmedFragment(s: string)
    requires NoDoubleUnderscore(s) && forall i :: 0 <= i < |s| ==> FragmentChar(s[i])
    ensures var r := TrimUnderscores(s);
      && NoDoubleUnderscore(r) && (forall i :: 0 <= i < |r| ==> FragmentChar(r[i]))
      && (r != [] ==> r[0] != '_' && r[|r| - 1] != '_')
    decreases |s|
  {
    if s != [] {
      if s[0] == '_' {
        TrimmedFragment(s[1..]);
      } else if s[|s| - 1] == '_' {
        TrimmedFragment(s[..|s| - 1]);
      }
    }
  }

  /** Words of lower-case letters and digits with single underscores between them. */
  predicate Fragment(s: string) {
    && NoDoubleUnderscore(s)
    && (forall i :: 0 <= i < |s| ==> FragmentChar(s[i]))
    && (s != [] ==> s[0] != '_' && s[|s| - 1] != '_')
  }

  /** Keeps identifier characters, one underscore for every run of others. */
  function Squeezed(s: string, afterUnderscore: bool): string {
    if s == [] then []
    else if IdentChar(s[0]) then [s[0]] + Squeezed(s[1..], false)
    else (if afterUnderscore then [] else "_") + Squeezed(s[1..], true)
  }

  lemma {:induction false} SqueezedShape(s: string, u: bool)
    ensures var r := Squeezed(s, u);
      NoDoubleUnderscore(r) && (forall i :: 0 <= i < |r| ==> FragmentChar(r[i])) && (u && r != [] ==> r[0] != '_')
  {
    if s != [] {
      SqueezedShape(s[1..], !IdentChar(s[0]));
      var rest := Squeezed(s[1..], !IdentChar(s[0]));
      if IdentChar(s[0]) || !u {
        var r := Squeezed(s, u);
        assert r[1..] == rest;
        forall i | 0 <= i < |r| ensures i > 0 ==> r[i] == rest[i - 1] {
        }
      }
    }
  }

  function SanitizedFragment(s: string): (r: string) {
    TrimUnderscores(Squeezed(Lower(s), false))
  }

  lemma SanitizedIsFragment(s: string)
    ensures Fragment(SanitizedFragment(s))
  {
    SqueezedShape(Lower(s), false);
    TrimmedFragment(Squeezed(Lower(s), false));
  }

  lemma SqueezeStep(b: string, t: string, i: nat, u: bool)
    requires i < |t|
    ensures b + Squeezed(t[i..], u) ==
      if IdentChar(t[i]) then (b + [t[i]]) + Squeezed(t[i + 1..], false)
      else (if u then b else b + "_") + Squeezed(t[i + 1..], true)
  {
    assert t[i..][1..] == t[i + 1..] && t[i..][0] == t[i];
  }

  method SanitizeIdentFragment(s: string) returns (r: string)
    ensures r == SanitizedFragment(s) && Fragment(r)
  {
    hide Fragment, IdentChar, Squeezed, TrimUnderscores, Lower;
    var b := "";
    var prevUnderscore := false;
    var t := Lower(s);
    assert t[0..] == t && "" + Squeezed(t, false) == Squeezed(t, false);
    for i := 0 to |t|
      invariant b + Squeezed(t[i..], prevUnderscore) == Squeezed(t, false)
    {
      SqueezeStep(b, t, i, prevUnderscore);
      if IdentChar(t[i]) {
        b := b + [t[i]];
        prevUnderscore := false;
        continue;
      }
      if !prevUnderscore {
        b := b + "_";
        prevUnderscore := true;
      }
    }
    SqueezedEmpty(b, t, prevUnderscore);
    SanitizedIsFragment(s);
    r := TrimUnderscores(b);
  }

  lemma SqueezedEmpty(b: string, t: string, u: bool)
    ensures b + Squeezed(t[|t|..], u) == b
  {
    assert t[|t|..] == [];
  }

  lemma FragmentHasNoDot(s: string)
    requires Fragment(s)
    ensures '.' !in s
  {
    forall i | 0 <= i < |s| ensures s[i] != '.' {
      assert FragmentChar(s[i]);
    }
  }

  function GenerateCheckName(hash: string -> string, table: string, name: string, expression: string): string
    requires HexDigest(hash)
  {
    if name != "" then name
    else CapIdentifier(hash, BareTableName(table) + "_" + SanitizedFragment(expression) + "_check")
  }

  /** A generated check name is never cut off by the server and never holds a dot. */
  lemma GeneratedCheckName(hash: string -> string, table: string, expression: string)
    requires HexDigest(hash) && forall s :: '.' !in hash(s)
    ensures var n := GenerateCheckName(hash, table, "", expression); Truncated(n) == n && '.' !in n && n != ""
  {
    hide SanitizedFragment, BareTableName, Fragment;
    BareHasNoDot(table);
    SanitizedIsFragment(expression);
    FragmentHasNoDot(SanitizedFragment(expression));
    var long := BareTableName(table) + "_" + SanitizedFragment(expression) + "_check";
    assert '.' !in long;
    assert '.' !in hash(long);
  }

  function Fragments(elements: seq<string>): seq<string> {
    if elements == [] then [] else [SanitizedFragment(elements[0])] + Fragments(elements[1..])
  }

  function GenerateExclusionName(hash: string -> string, table: string, name: string, elements: seq<string>): string
    requires HexDigest(hash)
  {
    if name != "" then name
    else CapIdentifier(hash, BareTableName(table) + "_" + Join(Fragments(elements), "_") + "_excl")
  }

  function GenerateIndexName(hash: string -> string, table: string, columns: seq<string>): string
    requires HexDigest(hash)
  {
    CapIdentifier(hash, "idx_" + BareTableName(table) + "_" + Join(columns, "_"))
  }
}
