/** Equations on sequences that proofs by recursion use. */
module Sequences {
  lemma Assoc<T>(a: seq<T>, b: seq<T>, c: seq<T>)
    ensures (a + b) + c == a + (b + c)
  {
  }

  lemma NoneThen<T>(a: seq<T>)
    ensures [] + a == a && a + [] == a
  {
  }

  lemma FirstOfConcat<T>(a: seq<T>, b: seq<T>)
    requires a != []
    ensures (a + b)[0] == a[0] && (a + b)[1..] == a[1..] + b
  {
  }

  lemma FirstThenRest<T>(a: seq<T>)
    requires a != []
    ensures a == [a[0]] + a[1..]
  {
  }

  lemma One<T>(x: T)
    ensures [x][1..] == [] && [x][0] == x
  {
  }

  // A loop over a from the front: what is done and what is left.
  lemma Next<T>(a: seq<T>, i: nat)
    requires i < |a|
    ensures a[..i + 1] == a[..i] + [a[i]] && a[i..] == [a[i]] + a[i + 1..] && a[i..][1..] == a[i + 1..] && a[i..][0] == a[i]
  {
  }

  lemma Ends<T>(a: seq<T>)
    ensures a[..0] == [] && a[0..] == a && a[..|a|] == a && a[|a|..] == []
  {
  }

  lemma MultisetHolds<T>(a: seq<T>)
    ensures |multiset(a)| == |a|
    ensures forall x :: x in a <==> x in multiset(a)
    ensures a != [] ==> multiset(a) == multiset{a[0]} + multiset(a[1..]) && multiset(a[1..]) == multiset(a) - multiset{a[0]}
  {
    if a != [] {
      FirstThenRest(a);
    }
  }

  lemma SamePrefix<T>(a: seq<T>, b: seq<T>, c: seq<T>)
    requires a + b == a + c
    ensures b == c
  {
    assert b == (a + b)[|a|..] && c == (a + c)[|a|..];
  }

  lemma LastOfConcat<T>(a: seq<T>, b: seq<T>)
    requires b != []
    ensures (a + b)[|a + b| - 1] == b[|b| - 1] && (a + b)[..|a + b| - 1] == a + b[..|b| - 1]
  {
  }

  lemma PrefixOfPrefix<T>(a: seq<T>, n: nat, m: nat)
    requires m <= n <= |a|
    ensures a[..n][..m] == a[..m]
  {
  }

  lemma FirstsThenLast<T>(a: seq<T>, b: seq<T>)
    requires b != []
    ensures a + b == (a + b[..|b| - 1]) + [b[|b| - 1]]
  {
  }

  lemma Grow<T>(a: T, b: T, c: T, d: T)
    ensures [] + [a] == [a] && [a] + [b] == [a, b] && [a, b] + [c] == [a, b, c] && [a, b, c] + [d] == [a, b, c, d]
  {
  }

  lemma SplitConcat<T>(a: seq<T>, b: seq<T>, n: nat)
    requires n <= |a|
    ensures (a + b)[n..] == a[n..] + b && (a + b)[..n] == a[..n]
  {
  }

  // Dropping one element and then n - 1 is dropping n.
  lemma DropFirst<T>(a: seq<T>, n: nat)
    requires 0 < n <= |a|
    ensures a[1..][n - 1..] == a[n..] && a[..n] == [a[0]] + a[1..][..n - 1]
  {
  }

  lemma DropTwice<T>(a: seq<T>, m: nat, n: nat)
    requires m <= n <= |a|
    ensures a[m..][n - m..] == a[n..]
  {
  }

  lemma Slice<T>(a: seq<T>, m: nat, n: nat)
    requires m <= n <= |a|
    ensures a[m..][..n - m] == a[m..n] && (n < |a| ==> a[m..][n - m] == a[n])
  {
  }
}
