/** Subsequences: what is left of a sequence when some elements are taken out. */
module Sequences {

  ghost predicate Subsequence<T>(sub: seq<T>, s: seq<T>) {
    if sub == [] then true
    else
      && s != []
      && (Subsequence(sub, s[..|s| - 1])
          || (sub[|sub| - 1] == s[|s| - 1] && Subsequence(sub[..|sub| - 1], s[..|s| - 1])))
  }

  /** The same element at the end of both. */
  lemma BothGrow<T>(sub: seq<T>, s: seq<T>, x: T)
    requires Subsequence(sub, s)
    ensures Subsequence(sub + [x], s + [x])
  {
    assert (sub + [x])[..|sub|] == sub && (s + [x])[..|s|] == s;
  }

  /** An element more, and it may be left out of the subsequence. */
  lemma {:induction false} OneLess<T>(sub: seq<T>, s: seq<T>, at: nat)
    requires Subsequence(sub, s) && at < |sub|
    ensures Subsequence(sub[..at] + sub[at + 1..], s)
    decreases |s|
  {
    var last := |sub| - 1;
    var less := sub[..at] + sub[at + 1..];
    var front := s[..|s| - 1];
    if Subsequence(sub, front) {
      OneLess(sub, front, at);
    } else if at == last {
      assert less == sub[..last];
      assert Subsequence(less, front);
    } else {
      OneLess(sub[..last], front, at);
      var fewer := sub[..last][..at] + sub[..last][at + 1..];
      BothGrow(fewer, front, sub[last]);
      assert less == fewer + [sub[last]] && s == front + [sub[last]];
    }
  }

  /** What begins a subsequence is one. */
  lemma {:induction false} PrefixOfSubsequence<T>(a: seq<T>, b: seq<T>, s: seq<T>)
    requires Subsequence(a + b, s)
    ensures Subsequence(a, s)
    decreases |b|
  {
    if b == [] {
      assert a + b == a;
    } else {
      OneLess(a + b, s, |a + b| - 1);
      assert (a + b)[..|a + b| - 1] + (a + b)[|a + b|..] == a + b[..|b| - 1];
      PrefixOfSubsequence(a, b[..|b| - 1], s);
    }
  }

  lemma Assoc<T>(a: seq<T>, b: seq<T>, c: seq<T>)
    ensures a + (b + c) == (a + b) + c
  {
  }

  /** An element between two parts may count for either. */
  lemma Regroup<T>(a: seq<T>, x: T, b: seq<T>, c: seq<T>)
    ensures a + (([x] + b) + c) == (a + [x]) + (b + c)
  {
  }

  /** Every element replaced by a sequence, in order. */
  function FlatMap<T, U>(f: T -> seq<U>, s: seq<T>): seq<U> {
    if s == [] then [] else FlatMap(f, s[..|s| - 1]) + f(s[|s| - 1])
  }

  lemma {:induction false} FlatMapConcat<T, U>(f: T -> seq<U>, a: seq<T>, b: seq<T>)
    ensures FlatMap(f, a + b) == FlatMap(f, a) + FlatMap(f, b)
    decreases |b|
  {
    if b == [] {
      assert a + b == a;
    } else {
      var front, last := b[..|b| - 1], b[|b| - 1];
      FlatMapConcat(f, a, front);
      assert (a + b)[..|a + b| - 1] == a + front;
    }
  }

  lemma FlatMapOne<T, U>(f: T -> seq<U>, x: T)
    ensures FlatMap(f, [x]) == f(x)
  {
    assert [x][..0] == [];
    assert FlatMap(f, []) == [];
  }
}
