/** Parenthesis depth over text. */
module Parens {
  /** Reading `s` at depth `d` never closes more than is open and ends at depth zero. */
  predicate BalancedFrom(s: string, d: nat)
    decreases |s|
  {
    if s == [] then d == 0
    else if s[0] == '(' then BalancedFrom(s[1..], d + 1)
    else if s[0] == ')' then d > 0 && BalancedFrom(s[1..], d - 1)
    else BalancedFrom(s[1..], d)
  }

  predicate Balanced(s: string) {
    BalancedFrom(s, 0)
  }

  /** Balanced text can be appended at any depth without changing what follows. */
  lemma {:induction false} BalancedConcat(a: string, d: nat, b: string, e: nat)
    requires BalancedFrom(a, d)
    ensures BalancedFrom(a + b, d + e) <==> BalancedFrom(b, e)
    decreases |a|
  {
    if a == [] {
      assert a + b == b;
    } else {
      assert (a + b)[1..] == a[1..] + b;
      if a[0] == '(' {
        BalancedConcat(a[1..], d + 1, b, e);
      } else if a[0] == ')' {
        BalancedConcat(a[1..], d - 1, b, e);
      } else {
        BalancedConcat(a[1..], d, b, e);
      }
    }
  }

  /** How a character changes the nesting depth. */
  function Step(c: char): int {
    if c == '(' then 1 else if c == ')' then -1 else 0
  }

  /** Net change of depth over a text. */
  function Depth(s: string): int {
    if s == [] then 0 else Step(s[0]) + Depth(s[1..])
  }

  lemma {:induction false} BalancedDepth(s: string, d: nat)
    requires BalancedFrom(s, d)
    ensures d + Depth(s) == 0
    decreases |s|
  {
    if s != [] {
      BalancedDepth(s[1..], d + Step(s[0]));
    }
  }

  /** Index of the parenthesis that closes depth `d`, or -1. */
  function ClosePos(r: string, d: nat): (k: int)
    requires d > 0
    ensures -1 <= k < |r|
    ensures k >= 0 ==> r[k] == ')'
    decreases |r|
  {
    if r == [] then -1
    else if r[0] == ')' && d == 1 then 0
    else
      var k := ClosePos(r[1..], d + Step(r[0]));
      if k < 0 then -1 else k + 1
  }

  /** After balanced text the next closing parenthesis is the one looked for. */
  lemma {:induction false} ClosePosAfterBalanced(m: string, d: nat, z: string)
    requires BalancedFrom(m, d)
    ensures ClosePos(m + ")" + z, d + 1) == |m|
    decreases |m|
  {
    var r := m + ")" + z;
    if m != [] {
      assert r[1..] == m[1..] + ")" + z;
      assert r[0] == m[0];
      ClosePosAfterBalanced(m[1..], d + Step(m[0]), z);
    }
  }

  /** And only after balanced text. */
  lemma {:induction false} ClosePosOnlyBalanced(m: string, d: nat, z: string)
    requires ClosePos(m + ")" + z, d + 1) == |m|
    ensures BalancedFrom(m, d)
    decreases |m|
  {
    var r := m + ")" + z;
    if m != [] {
      assert r[1..] == m[1..] + ")" + z;
      assert r[0] == m[0];
      ClosePosOnlyBalanced(m[1..], d + Step(m[0]), z);
    }
  }
}
