/**
 The string operations the planner leans on, over sequences of ASCII characters:
 trimming, case mapping, first occurrence, replacement, splitting and joining.
 */
module Text {

  /** White space as `strings.TrimSpace` and `strings.Fields` see it, within ASCII. */
  predicate IsSpace(c: char) {
    c == ' ' || c == '\t' || c == '\n' || c == '\r' || c == '\U{B}' || c == '\U{C}'
  }

  ghost predicate AllSpace(s: string) {
    forall i :: 0 <= i < |s| ==> IsSpace(s[i])
  }

  /** Neither end is white space; the empty string qualifies. */
  predicate Trimmed(s: string) {
    s == [] || (!IsSpace(s[0]) && !IsSpace(s[|s| - 1]))
  }

  function TrimLeft(s: string): string {
    if s != [] && IsSpace(s[0]) then TrimLeft(s[1..]) else s
  }

  function TrimRight(s: string): string {
    if s != [] && IsSpace(s[|s| - 1]) then TrimRight(s[..|s| - 1]) else s
  }

  function Trim(s: string): (r: string)
    ensures Trimmed(r)
  {
    TrimRightKeepsHead(TrimLeft(s));
    TrimLeftHead(s);
    TrimRight(TrimLeft(s))
  }

  lemma TrimLeftHead(s: string)
    ensures TrimLeft(s) != [] ==> !IsSpace(TrimLeft(s)[0])
  {
  }

  lemma TrimRightKeepsHead(s: string)
    ensures TrimRight(s) <= s
    ensures TrimRight(s) != [] ==> !IsSpace(TrimRight(s)[|TrimRight(s)| - 1])
  {
  }

  lemma {:induction false} TrimRightPrefix(s: string, k: nat)
    requires 0 < k <= |s| && !IsSpace(s[k - 1])
    ensures |TrimRight(s)| >= k
  {
    if IsSpace(s[|s| - 1]) {
      TrimRightPrefix(s[..|s| - 1], k);
    }
  }

  lemma TrimLeftPad(a: string, s: string)
    requires AllSpace(a)
    ensures TrimLeft(a + s) == TrimLeft(s)
  {
    if a == [] {
      assert a + s == s;
    } else {
      assert (a + s)[1..] == a[1..] + s;
      TrimLeftPad(a[1..], s);
    }
  }

  lemma TrimRightPad(s: string, b: string)
    requires AllSpace(b)
    ensures TrimRight(s + b) == TrimRight(s)
  {
    if b == [] {
      assert s + b == s;
    } else {
      assert (s + b)[..|s + b| - 1] == s + b[..|b| - 1];
      TrimRightPad(s, b[..|b| - 1]);
    }
  }

  /** Padding a trimmed string with white space and trimming gives it back. */
  lemma TrimPadded(a: string, s: string, b: string)
    requires AllSpace(a) && AllSpace(b) && Trimmed(s)
    ensures Trim(a + s + b) == s
  {
    assert a + s + b == a + (s + b);
    TrimLeftPad(a, s + b);
    if s == [] {
      assert s + b == b + [];
      TrimLeftPad(b, []);
    } else {
      TrimRightPad(s, b);
    }
  }

  lemma TrimPadRight(s: string, b: string)
    requires AllSpace(b)
    ensures Trim(s + b) == Trim(s)
  {
    var a', b' := TrimSplit(s);
    hide Trim;
    assert s + b == a' + Trim(s) + (b' + b);
    TrimPadded(a', Trim(s), b' + b);
  }

  lemma TrimPadLeft(a: string, s: string)
    requires AllSpace(a)
    ensures Trim(a + s) == Trim(s)
  {
    var a', b' := TrimSplit(s);
    hide Trim;
    assert a + s == (a + a') + Trim(s) + b';
    TrimPadded(a + a', Trim(s), b');
  }

  lemma TrimIdentity(s: string)
    requires Trimmed(s)
    ensures Trim(s) == s
  {
    assert [] + s + [] == s;
    TrimPadded([], s, []);
  }

  lemma {:induction false} TrimLeftSplit(s: string) returns (a: string)
    ensures AllSpace(a) && s == a + TrimLeft(s)
  {
    if s != [] && IsSpace(s[0]) {
      var a' := TrimLeftSplit(s[1..]);
      a := [s[0]] + a';
    } else {
      a := [];
    }
  }

  lemma {:induction false} TrimRightSplit(s: string) returns (b: string)
    ensures AllSpace(b) && s == TrimRight(s) + b
  {
    if s != [] && IsSpace(s[|s| - 1]) {
      var b' := TrimRightSplit(s[..|s| - 1]);
      b := b' + [s[|s| - 1]];
    } else {
      b := [];
    }
  }

  /** Every string is its trimmed core between two runs of white space. */
  lemma TrimSplit(s: string) returns (a: string, b: string)
    ensures AllSpace(a) && AllSpace(b) && s == a + Trim(s) + b
  {
    a := TrimLeftSplit(s);
    b := TrimRightSplit(TrimLeft(s));
  }

  function LowerChar(c: char): char {
    if 'A' <= c <= 'Z' then c + 32 as char else c
  }

  function UpperChar(c: char): char {
    if 'a' <= c <= 'z' then c - 32 as char else c
  }

  function Lower(s: string): (r: string)
    ensures |r| == |s|
  {
    if s == [] then [] else [LowerChar(s[0])] + Lower(s[1..])
  }

  function Upper(s: string): (r: string)
    ensures |r| == |s|
  {
    if s == [] then [] else [UpperChar(s[0])] + Upper(s[1..])
  }

  lemma {:induction false} LowerAt(s: string, i: nat)
    requires i < |s|
    ensures Lower(s)[i] == LowerChar(s[i])
  {
    if i > 0 {
      LowerAt(s[1..], i - 1);
    }
  }

  lemma {:induction false} UpperAt(s: string, i: nat)
    requires i < |s|
    ensures Upper(s)[i] == UpperChar(s[i])
  {
    if i > 0 {
      UpperAt(s[1..], i - 1);
    }
  }

  lemma {:induction false} LowerConcat(a: string, b: string)
    ensures Lower(a + b) == Lower(a) + Lower(b)
  {
    if a == [] {
      assert a + b == b;
    } else {
      assert (a + b)[1..] == a[1..] + b;
      LowerConcat(a[1..], b);
    }
  }

  lemma {:induction false} UpperConcat(a: string, b: string)
    ensures Upper(a + b) == Upper(a) + Upper(b)
  {
    if a == [] {
      assert a + b == b;
    } else {
      assert (a + b)[1..] == a[1..] + b;
      UpperConcat(a[1..], b);
    }
  }

  lemma {:induction false} LowerIs(s: string, l: string)
    requires |s| == |l| && forall i :: 0 <= i < |s| ==> LowerChar(s[i]) == l[i]
    ensures Lower(s) == l
  {
    if s != [] {
      LowerIs(s[1..], l[1..]);
    }
  }

  lemma {:induction false} UpperIs(s: string, u: string)
    requires |s| == |u| && forall i :: 0 <= i < |s| ==> UpperChar(s[i]) == u[i]
    ensures Upper(s) == u
  {
    if s != [] {
      UpperIs(s[1..], u[1..]);
    }
  }

  lemma {:induction false} LowerTwice(s: string)
    ensures Lower(Lower(s)) == Lower(s)
  {
    if s != [] {
      LowerTwice(s[1..]);
    }
  }

  predicate IsDigit(c: char) {
    '0' <= c <= '9'
  }

  predicate MatchAt(s: string, sub: string, i: nat) {
    i + |sub| <= |s| && s[i..i + |sub|] == sub
  }

  predicate Contains(s: string, sub: string) {
    exists i :: 0 <= i <= |s| && MatchAt(s, sub, i)
  }

  predicate HasSuffix(s: string, suffix: string) {
    |suffix| <= |s| && s[|s| - |suffix|..] == suffix
  }

  /** Index of the first occurrence of `c`, or -1. */
  function IndexOfChar(s: string, c: char): (r: int)
    ensures -1 <= r < |s|
    ensures r >= 0 ==> s[r] == c && c !in s[..r]
    ensures r < 0 ==> c !in s
  {
    if s == [] then -1
    else if s[0] == c then 0
    else
      var k := IndexOfChar(s[1..], c);
      assert k >= 0 ==> s[..k + 1] == [s[0]] + s[1..][..k];
      assert s == [s[0]] + s[1..];
      if k < 0 then -1 else k + 1
  }

  lemma {:induction false} IndexOfCharIs(s: string, c: char, k: nat)
    requires k < |s| && s[k] == c && forall i :: 0 <= i < k ==> s[i] != c
    ensures IndexOfChar(s, c) == k
  {
    if k > 0 {
      IndexOfCharIs(s[1..], c, k - 1);
    }
  }

  /** Index of the first occurrence of `sub` at or after `from`, or -1. */
  function IndexFrom(s: string, sub: string, from: nat): (r: int)
    requires from <= |s|
    ensures r >= 0 ==> from <= r && MatchAt(s, sub, r) && forall j :: from <= j < r ==> !MatchAt(s, sub, j)
    ensures r < 0 ==> r == -1 && forall j :: from <= j <= |s| ==> !MatchAt(s, sub, j)
    decreases |s| - from
  {
    if MatchAt(s, sub, from) then from
    else if from == |s| then -1
    else IndexFrom(s, sub, from + 1)
  }

  function Index(s: string, sub: string): (r: int)
    ensures r >= 0 ==> MatchAt(s, sub, r) && forall j :: 0 <= j < r ==> !MatchAt(s, sub, j)
    ensures r < 0 ==> r == -1 && !Contains(s, sub)
  {
    IndexFrom(s, sub, 0)
  }

  function Join(parts: seq<string>, sep: string): string {
    if parts == [] then []
    else if |parts| == 1 then parts[0]
    else parts[0] + sep + Join(parts[1..], sep)
  }

  lemma {:induction false} JoinAppend(a: seq<string>, b: seq<string>, sep: string)
    requires a != [] && b != []
    ensures Join(a + b, sep) == Join(a, sep) + sep + Join(b, sep)
  {
    if |a| == 1 {
      assert (a + b)[1..] == b;
    } else {
      assert (a + b)[1..] == a[1..] + b;
      JoinAppend(a[1..], b, sep);
    }
  }

  /** The first white-space delimited field of text that does not start with white space. */
  function FirstField(s: string): string {
    if s == "" || IsSpace(s[0]) then "" else [s[0]] + FirstField(s[1..])
  }

  function Fields(s: string): seq<string>
    decreases |s|
  {
    var t := TrimLeft(s);
    TrimLeftShrinks(s);
    if t == "" then [] else
    var f := FirstField(t);
    FirstFieldBounds(t);
    TrimLeftHead(s);
    [f] + Fields(t[|f|..])
  }

  lemma {:induction false} FirstFieldOf(t: string, rest: string)
    requires forall i :: 0 <= i < |t| ==> !IsSpace(t[i])
    requires rest == "" || IsSpace(rest[0])
    ensures FirstField(t + rest) == t
  {
    if t == "" {
      assert t + rest == rest;
    } else {
      assert (t + rest)[1..] == t[1..] + rest;
      FirstFieldOf(t[1..], rest);
    }
  }

  lemma TrimLeftShrinks(s: string)
    ensures |TrimLeft(s)| <= |s|
  {
  }

  lemma {:induction false} FirstFieldBounds(t: string)
    ensures |FirstField(t)| <= |t|
    ensures t != "" && !IsSpace(t[0]) ==> FirstField(t) != ""
  {
    if t != "" && !IsSpace(t[0]) {
      FirstFieldBounds(t[1..]);
    }
  }

  /** The pieces of `s` between occurrences of `c`; never empty. */
  function Split(s: string, c: char): (r: seq<string>)
    ensures r != []
  {
    if s == [] then [[]]
    else
      var rest := Split(s[1..], c);
      if s[0] == c then [[]] + rest else [[s[0]] + rest[0]] + rest[1..]
  }

  lemma {:induction false} SplitSingle(s: string, c: char)
    requires c !in s
    ensures Split(s, c) == [s]
  {
    if s != [] {
      SplitSingle(s[1..], c);
      assert [s[0]] + s[1..] == s;
    }
  }

  /** Splitting distributes over text joined by the separator. */
  lemma {:induction false} SplitAppend(a: string, b: string, c: char)
    ensures Split(a + [c] + b, c) == Split(a, c) + Split(b, c)
  {
    var t := a + [c] + b;
    if a == [] {
      assert t[1..] == b;
    } else {
      assert t[1..] == a[1..] + [c] + b;
      assert t[0] == a[0];
      SplitAppend(a[1..], b, c);
    }
  }

  /** No piece of a split contains the separator, and each piece is a factor of the text. */
  lemma {:induction false} SplitPieces(s: string, c: char, k: nat)
    requires k < |Split(s, c)|
    ensures c !in Split(s, c)[k]
    ensures Contains(s, Split(s, c)[k])
  {
    if s == [] {
      assert MatchAt(s, [], 0);
    } else {
      var rest := Split(s[1..], c);
      if s[0] == c {
        if k == 0 {
          assert MatchAt(s, [], 0);
        } else {
          SplitPieces(s[1..], c, k - 1);
          ContainsShift(s, Split(s, c)[k]);
        }
      } else if k == 0 {
        SplitHeadIsPrefix(s, c);
        assert MatchAt(s, Split(s, c)[0], 0);
        SplitPieces(s[1..], c, 0);
      } else {
        SplitPieces(s[1..], c, k);
        ContainsShift(s, Split(s, c)[k]);
      }
    }
  }

  lemma ContainsShift(s: string, sub: string)
    requires s != [] && Contains(s[1..], sub)
    ensures Contains(s, sub)
  {
    var i :| 0 <= i <= |s[1..]| && MatchAt(s[1..], sub, i);
    assert s[i + 1..i + 1 + |sub|] == s[1..][i..i + |sub|];
    assert MatchAt(s, sub, i + 1);
  }

  lemma {:induction false} SplitHeadIsPrefix(s: string, c: char)
    ensures Split(s, c)[0] <= s
  {
    if s != [] && s[0] != c {
      SplitHeadIsPrefix(s[1..], c);
    }
  }

  lemma {:induction false} SliceOfSlice(s: string, a: nat, b: nat, c: nat, d: nat)
    requires a <= b <= |s| && c <= d <= b - a
    ensures s[a..b][c..d] == s[a + c..a + d]
  {
    assert forall k :: 0 <= k < d - c ==> s[a..b][c..d][k] == s[a..b][c + k] == s[a + c + k];
  }

  lemma {:induction false} DropDrop(s: string, a: nat, b: nat)
    requires a <= b <= |s|
    ensures s[a..][b - a..] == s[b..]
  {
  }

  lemma DropPrefix(a: string, b: string)
    ensures (a + b)[|a|..] == b
  {
  }

  /** A factor of a factor is a factor. */
  lemma ContainsTransitive(s: string, t: string, u: string)
    requires Contains(s, t) && Contains(t, u)
    ensures Contains(s, u)
  {
    var i :| 0 <= i <= |s| && MatchAt(s, t, i);
    var j :| 0 <= j <= |t| && MatchAt(t, u, j);
    SliceOfSlice(s, i, i + |t|, j, j + |u|);
    assert MatchAt(s, u, i + j);
  }

  /** A character outside `sub` cannot be covered by an occurrence of `sub`. */
  lemma NoMatchAcross(s: string, sub: string, i: nat, k: nat)
    requires i <= k < i + |sub| && k < |s| && s[k] !in sub
    ensures !MatchAt(s, sub, i)
  {
    assert i + |sub| <= |s| ==> s[i..i + |sub|][k - i] == s[k];
  }

  /** Occurrences inside a factor. */
  lemma MatchInside(s: string, t: string, at: nat, sub: string, i: nat)
    requires at + |t| <= |s| && s[at..at + |t|] == t
    requires at <= i && i + |sub| <= at + |t|
    ensures MatchAt(s, sub, i) <==> MatchAt(t, sub, i - at)
  {
    SliceOfSlice(s, at, at + |t|, i - at, i - at + |sub|);
  }

  lemma IndexIs(s: string, sub: string, k: nat)
    requires MatchAt(s, sub, k) && forall j :: 0 <= j < k ==> !MatchAt(s, sub, j)
    ensures Index(s, sub) == k
  {
    assert Contains(s, sub);
  }

  lemma ContainsPart(a: string, b: string, c: string)
    ensures Contains(a + b + c, b)
  {
    assert (a + b + c)[|a|..|a| + |b|] == b;
    assert MatchAt(a + b + c, b, |a|);
  }
}
