/** Facts about sequences of any type that the solver finds only when asked. */
module Sequences {
  lemma Assoc<T>(a: seq<T>, b: seq<T>, c: seq<T>)
    ensures (a + b) + c == a + (b + c)
  {
  }

  lemma Uncons<T>(s: seq<T>)
    requires s != []
    ensures s == [s[0]] + s[1..]
  {
  }

  lemma TakeBehind<T>(a: seq<T>, b: seq<T>)
    ensures (a + b)[..|a|] == a && (a + b)[|a|..] == b
  {
  }

  lemma Parts<T>(a: seq<T>, b: seq<T>, c: seq<T>)
    ensures (a + (b + c))[|a|..|a| + |b|] == b && (a + (b + c))[|a| + |b|..] == c
  {
  }

  lemma DropFront<T>(a: seq<T>, b: seq<T>, k: nat)
    requires k <= |a| + |b|
    ensures k <= |a| ==> (a + b)[k..] == a[k..] + b
    ensures k >= |a| ==> (a + b)[k..] == b[k - |a|..]
  {
  }

  lemma AtBack<T>(a: seq<T>, b: seq<T>, k: nat)
    requires k < |b|
    ensures (a + b)[|a| + k] == b[k]
  {
  }

  lemma TakeFront<T>(s: seq<T>, i: nat)
    requires i < |s|
    ensures s[..i + 1][..i] == s[..i] && s[..i + 1][i] == s[i]
  {
  }

  /** Some element of a permutation is the last one of the other. */
  lemma FindLast<T>(a: seq<T>, b: seq<T>) returns (k: nat)
    requires a != [] && multiset(a) == multiset(b)
    ensures k < |b| && b[k] == a[|a| - 1]
    ensures multiset(a[..|a| - 1]) == multiset(b[..k] + b[k + 1..])
  {
    assert a[|a| - 1] in multiset(b);
    k :| 0 <= k < |b| && b[k] == a[|a| - 1];
    BagWithout(a, |a| - 1);
    BagWithout(b, k);
    assert a[..|a| - 1] + a[|a|..] == a[..|a| - 1];
  }

  /** Taking out one element takes it out of the bag. */
  lemma BagWithout<T>(s: seq<T>, k: nat)
    requires k < |s|
    ensures multiset(s[..k] + s[k + 1..]) == multiset(s) - multiset{s[k]}
  {
    BagOfThree(s[..k], [s[k]], s[k + 1..]);
    assert s == s[..k] + [s[k]] + s[k + 1..];
  }

  lemma BagOfThree<T>(a: seq<T>, b: seq<T>, c: seq<T>)
    ensures multiset(a + b + c) == multiset(a) + multiset(b) + multiset(c)
  {
  }

  /** `w` is the end of `s`. */
  predicate EndOf<T(==)>(w: seq<T>, s: seq<T>) {
    |w| <= |s| && forall i :: 0 <= i < |w| ==> w[i] == s[|s| - |w| + i]
  }

  lemma EndFrom<T>(s: seq<T>, i: nat)
    requires i <= |s|
    ensures EndOf(s[i..] + [], s)
  {
  }

  lemma EndSelf<T>(s: seq<T>)
    ensures EndOf(s, s)
  {
  }

  lemma EndTail<T>(w: seq<T>, s: seq<T>)
    requires EndOf(w, s) && w != []
    ensures EndOf(w[1..], s) && |w[1..]| < |s|
  {
  }

  lemma EndLast<T>(w: seq<T>, s: seq<T>)
    requires EndOf(w, s) && w != []
    ensures w[|w| - 1] == s[|s| - 1]
    ensures |s| == 1 ==> w == s
  {
  }

  lemma DropNone<T>(s: seq<T>)
    ensures s[0..] == s
  {
  }

  lemma DropDrop<T>(s: seq<T>, i: nat, j: nat)
    requires i + j <= |s|
    ensures s[i..][j..] == s[i + j..]
  {
  }
}
