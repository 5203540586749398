/** Facts about sequences and the multisets of their elements. */
module Sequences {
  lemma Reassociate<T>(a: seq<T>, b: seq<T>, c: seq<T>)
    ensures a + (b + c) == a + b + c
  {
  }

  lemma MiddleCounts<T>(a: seq<T>, e: T, b: seq<T>)
    ensures multiset(a + [e] + b) == multiset(a + b) + multiset{e}
  {
  }

  /** The last element of a list with one in the middle, and what stands in front of it. */
  lemma LastOfMiddle<T>(a: seq<T>, e: T, b: seq<T>)
    ensures b == [] ==> (a + [e] + b)[|a + b|] == e && (a + [e] + b)[..|a + b|] == a + b == a
    ensures b != [] ==> (a + [e] + b)[|a + b|] == b[|b| - 1] == (a + b)[|a + b| - 1]
    ensures b != [] ==> (a + [e] + b)[..|a + b|] == a + [e] + b[..|b| - 1]
    ensures b != [] ==> (a + b)[..|a + b| - 1] == a + b[..|b| - 1]
  {
  }

  lemma CancelOne<T>(m: multiset<T>, n: multiset<T>, e: T)
    ensures m + multiset{e} == n + multiset{e} ==> m == n
  {
    assert m == m + multiset{e} - multiset{e};
    assert n == n + multiset{e} - multiset{e};
  }

  /** Takes one occurrence of an element out of a reordered list. */
  lemma Without<T>(e: T, rest: seq<T>, t: seq<T>) returns (a: seq<T>, b: seq<T>)
    requires multiset(t) == multiset([e] + rest)
    ensures t == a + [e] + b && multiset(a + b) == multiset(rest)
  {
    assert ([e] + rest)[0] == e;
    assert e in multiset(t);
    var k :| 0 <= k < |t| && t[k] == e;
    a, b := t[..k], t[k + 1..];
    assert t == a + [e] + b;
    MiddleCounts(a, e, b);
    MiddleCounts([], e, rest);
    assert [] + [e] + rest == [e] + rest && [] + rest == rest;
    CancelOne(multiset(a + b), multiset(rest), e);
  }
}
