/** Facts about concatenations and slices that the solver wants to be told in large contexts. */
module Sequences {

  lemma Regroup<T>(a: seq<T>, b: seq<T>, c: seq<T>)
    ensures (a + b) + c == a + (b + c)
  {
  }

  lemma Adjacent<T>(s: seq<T>, a: nat, b: nat, c: nat)
    requires a <= b <= c <= |s|
    ensures s[a..b] + s[b..c] == s[a..c]
  {
  }

  /** What is moved from the front of one sequence to the end of another. */
  lemma MovedOver<T>(a: seq<T>, s: seq<T>, n: nat)
    requires n <= |s|
    ensures a + s[..n] + s[n..] == a + s
  {
  }

  lemma Whole<T>(s: seq<T>)
    ensures s[..|s|] == s
  {
  }

  lemma NextPrefix<T>(s: seq<T>, i: nat)
    requires i < |s|
    ensures s[..i + 1] == s[..i] + [s[i]]
  {
  }

  lemma PrefixOfSum<T>(a: seq<T>, b: seq<T>, n: nat)
    requires n <= |a|
    ensures (a + b)[..n] == a[..n]
  {
  }

  lemma InitAndLast<T>(s: seq<T>)
    requires |s| > 0
    ensures s[..|s| - 1] + [s[|s| - 1]] == s
  {
  }
}
