/** Python's stable sort by a byte-string key compared length first, and why its result is unique. */
module KeyedSort {
  import opened Hashing
  import opened ByteOrder

  /** Puts an element before the first one whose key is not smaller. */
  function Insert<E(!new)>(key: E -> Bytes, e: E, s: seq<E>): seq<E> {
    if s != [] && LengthFirst(key(s[0]), key(e)) then [s[0]] + Insert(key, e, s[1..]) else [e] + s
  }

  function Sort<E(!new)>(key: E -> Bytes, s: seq<E>): seq<E> {
    if s == [] then [] else Insert(key, s[0], Sort(key, s[1..]))
  }

  ghost predicate Ordered<E(!new)>(key: E -> Bytes, s: seq<E>) {
    forall i, j :: 0 <= i < j < |s| ==> LengthFirst(key(s[i]), key(s[j]))
  }

  ghost predicate DistinctKeys<E(!new)>(key: E -> Bytes, s: seq<E>) {
    forall i, j :: 0 <= i < j < |s| ==> key(s[i]) != key(s[j])
  }

  ghost predicate SameElements<E(!new)>(s: seq<E>, t: seq<E>) {
    forall e :: e in s <==> e in t
  }

  lemma {:induction false} InsertElements<E(!new)>(key: E -> Bytes, e: E, s: seq<E>)
    ensures |Insert(key, e, s)| == |s| + 1
    ensures forall x :: x in Insert(key, e, s) <==> x == e || x in s
  {
    if s != [] && LengthFirst(key(s[0]), key(e)) {
      InsertElements(key, e, s[1..]);
      assert s == [s[0]] + s[1..];
    }
  }

  lemma {:induction false} SortElements<E(!new)>(key: E -> Bytes, s: seq<E>)
    ensures |Sort(key, s)| == |s| && SameElements(Sort(key, s), s)
  {
    if s != [] {
      SortElements(key, s[1..]);
      InsertElements(key, s[0], Sort(key, s[1..]));
      assert s == [s[0]] + s[1..];
    }
  }

  lemma {:induction false} InsertOrdered<E(!new)>(key: E -> Bytes, e: E, s: seq<E>)
    requires Ordered(key, s) && forall x :: x in s ==> key(x) != key(e)
    ensures Ordered(key, Insert(key, e, s))
  {
    if s == [] {
    } else if LengthFirst(key(s[0]), key(e)) {
      InsertOrdered(key, e, s[1..]);
      InsertElements(key, e, s[1..]);
      var t := Insert(key, e, s[1..]);
      forall j | 0 <= j < |t| ensures LengthFirst(key(s[0]), key(t[j])) {
        assert t[j] in t;
      }
    } else {
      LengthFirstTotal(key(s[0]), key(e));
      assert s[0] in s;
      forall j | 0 <= j < |s| ensures LengthFirst(key(e), key(s[j])) {
        if j > 0 {
          LengthFirstTransitive(key(e), key(s[0]), key(s[j]));
        }
      }
    }
  }

  lemma {:induction false} SortOrdered<E(!new)>(key: E -> Bytes, s: seq<E>)
    requires DistinctKeys(key, s)
    ensures Ordered(key, Sort(key, s))
  {
    if s != [] {
      SortOrdered(key, s[1..]);
      SortElements(key, s[1..]);
      var t := Sort(key, s[1..]);
      forall x | x in t ensures key(x) != key(s[0]) {
        assert x in s[1..];
      }
      InsertOrdered(key, s[0], t);
    }
  }

  lemma HeadOfOrdered<E(!new)>(key: E -> Bytes, s: seq<E>, t: seq<E>)
    requires Ordered(key, s) && Ordered(key, t) && SameElements(s, t) && s != [] && t != []
    ensures s[0] == t[0]
  {
    assert s[0] in t && t[0] in s;
    LengthFirstTotal(key(s[0]), key(t[0]));
  }

  lemma TailOfOrdered<E(!new)>(key: E -> Bytes, s: seq<E>, t: seq<E>)
    requires Ordered(key, s) && Ordered(key, t) && SameElements(s, t) && s != [] && t != [] && s[0] == t[0]
    ensures SameElements(s[1..], t[1..])
  {
    LengthFirstTotal(key(s[0]), key(s[0]));
    forall e ensures e in s[1..] <==> e in t[1..] {
      assert e in s <==> e in t;
    }
  }

  /** An ordered list is determined by its elements. */
  lemma {:induction false} OrderedUnique<E(!new)>(key: E -> Bytes, s: seq<E>, t: seq<E>)
    requires Ordered(key, s) && Ordered(key, t) && SameElements(s, t)
    ensures s == t
  {
    assert t != [] ==> t[0] in s;
    if s != [] {
      assert s[0] in t;
      HeadOfOrdered(key, s, t);
      TailOfOrdered(key, s, t);
      OrderedUnique(key, s[1..], t[1..]);
      assert s == [s[0]] + s[1..] && t == [t[0]] + t[1..];
    }
  }

  /** Sorting does not depend on the order in which elements with distinct keys arrive. */
  lemma SortIgnoresOrder<E(!new)>(key: E -> Bytes, s: seq<E>, t: seq<E>)
    requires DistinctKeys(key, s) && DistinctKeys(key, t) && SameElements(s, t)
    ensures Sort(key, s) == Sort(key, t)
  {
    SortOrdered(key, s);
    SortOrdered(key, t);
    SortElements(key, s);
    SortElements(key, t);
    OrderedUnique(key, Sort(key, s), Sort(key, t));
  }
}
