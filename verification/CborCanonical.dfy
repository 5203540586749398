/** The laws of the encoding: round trip, injectivity, order independence, and the order of map keys. */
module CborCanonical {
  import opened Hashing
  import opened ByteOrder
  import opened KeyedSort
  import opened Cbor
  import opened CborTheorems

  /** What the encoder accepts: a Python value whose numbers and lengths fit 64 bits. */
  ghost predicate Encodes(v: Value) {
    IsPython(v) && IsEncodable(v)
  }

  ghost predicate EntriesEncode(entries: seq<Entry>) {
    forall i :: 0 <= i < |entries| ==>
      ScalarIsPython(entries[i].key) && ScalarIsEncodable(entries[i].key) && Encodes(entries[i].value)
  }

  /* ----- The sorted form of a value is a value ----- */

  lemma ScalarEncodingInjective(s: Scalar, t: Scalar)
    requires ScalarIsPython(s) && ScalarIsEncodable(s) && ScalarIsPython(t) && ScalarIsEncodable(t)
    requires EncodeScalar(s) == EncodeScalar(t)
    ensures s == t
  {
    var data := EncodeScalar(s);
    assert data[0..|data|] == data;
    ScalarReads(data, 0, s);
    ScalarReads(data, 0, t);
  }

  lemma DistinctEncodings(entries: seq<Entry>)
    requires KeysAreDistinct(entries) && EntriesEncode(entries)
    ensures DistinctKeys(ENTRY_KEY, entries)
  {
    forall i, j | 0 <= i < j < |entries| ensures ENTRY_KEY(entries[i]) != ENTRY_KEY(entries[j]) {
      if ENTRY_KEY(entries[i]) == ENTRY_KEY(entries[j]) {
        ScalarEncodingInjective(entries[i].key, entries[j].key);
      }
    }
  }

  lemma SortKeepsDistinct(entries: seq<Entry>)
    requires KeysAreDistinct(entries) && EntriesEncode(entries)
    ensures KeysAreDistinct(Sort(ENTRY_KEY, entries)) && EntriesEncode(Sort(ENTRY_KEY, entries))
  {
    var s := Sort(ENTRY_KEY, entries);
    SortElements(ENTRY_KEY, entries);
    DistinctEncodings(entries);
    SortOrdered(ENTRY_KEY, entries);
    forall i | 0 <= i < |s|
      ensures ScalarIsPython(s[i].key) && ScalarIsEncodable(s[i].key) && Encodes(s[i].value)
    {
      assert s[i] in entries;
    }
    forall i, j | 0 <= i < j < |s| ensures !SameKey(s[i].key, s[j].key) {
      assert s[i] in entries && s[j] in entries;
      LengthFirstTotal(ENTRY_KEY(s[i]), ENTRY_KEY(s[j]));
      var a :| 0 <= a < |entries| && entries[a] == s[i];
      var b :| 0 <= b < |entries| && entries[b] == s[j];
      assert a != b;
      assert if a < b then !SameKey(entries[a].key, entries[b].key) else !SameKey(entries[b].key, entries[a].key);
    }
  }

  lemma {:induction false} SortedEncodes(v: Value)
    requires Encodes(v)
    ensures Encodes(Sorted(v))
    decreases v
  {
    match v
    case Leaf(_) =>
    case Array(items) =>
      forall i | 0 <= i < |items| ensures Encodes(SortedItems(items)[i]) {
        SortedEncodes(items[i]);
      }
    case Map(entries) =>
      forall i | 0 <= i < |entries| ensures Encodes(SortedEntries(entries)[i].value) {
        SortedEncodes(entries[i].value);
      }
      SortKeepsDistinct(SortedEntries(entries));
      SortElements(ENTRY_KEY, SortedEntries(entries));
  }

  /* ----- Being the same is having the same sorted form ----- */

  lemma {:induction false} SameHaveSameSorted(v: Value, w: Value)
    requires Encodes(v) && Encodes(w) && Same(v, w)
    ensures Sorted(v) == Sorted(w)
    decreases v, 1
  {
    if v.Array? {
      SameItemsHaveSameSorted(v.items, w.items);
    } else if v.Map? {
      SameMapsHaveSameSorted(v, w);
    }
  }

  lemma {:induction false} SameMapsHaveSameSorted(v: Value, w: Value)
    requires Encodes(v) && Encodes(w) && Same(v, w) && v.Map?
    ensures Sorted(v) == Sorted(w)
    decreases v, 0
  {
    MapEntriesEncode(v);
    MapEntriesEncode(w);
    SameEntriesIn(v.entries, w.entries);
    SameEntriesOf(v.entries, w.entries);
    SameElementsSortAlike(v, w);
  }

  lemma MapEntriesEncode(v: Value)
    requires Encodes(v) && v.Map?
    ensures EntriesEncode(v.entries)
  {
  }

  lemma {:induction false} SameItemsHaveSameSorted(a: seq<Value>, b: seq<Value>)
    requires |a| == |b| && SameItems(a, b) && forall i :: 0 <= i < |a| ==> Encodes(a[i]) && Encodes(b[i])
    ensures SortedItems(a) == SortedItems(b)
    decreases a
  {
    forall i | 0 <= i < |a| ensures Sorted(a[i]) == Sorted(b[i]) {
      SameHaveSameSorted(a[i], b[i]);
    }
  }

  lemma {:induction false} SameEntryHasSameSorted(e: Entry, f: Entry)
    requires Encodes(e.value) && Encodes(f.value) && SameEntry(e, f)
    ensures SortedEntry(e) == SortedEntry(f)
    decreases e
  {
    SameHaveSameSorted(e.value, f.value);
  }

  lemma {:induction false} SameEntriesIn(a: seq<Entry>, b: seq<Entry>)
    requires EntriesEncode(a) && EntriesEncode(b) && EntriesIn(a, b)
    ensures forall e :: e in SortedEntries(a) ==> e in SortedEntries(b)
    decreases a, 0
  {
    forall i | 0 <= i < |a| ensures SortedEntry(a[i]) in SortedEntries(b) {
      var j :| 0 <= j < |b| && SameEntry(a[i], b[j]);
      SameEntryHasSameSorted(a[i], b[j]);
      assert SortedEntries(b)[j] == SortedEntry(b[j]);
    }
  }

  lemma {:induction false} SameEntriesOf(a: seq<Entry>, b: seq<Entry>)
    requires EntriesEncode(a) && EntriesEncode(b) && EntriesOf(a, b)
    ensures forall e :: e in SortedEntries(b) ==> e in SortedEntries(a)
    decreases a, 0
  {
    forall j | 0 <= j < |b| ensures SortedEntry(b[j]) in SortedEntries(a) {
      var i :| 0 <= i < |a| && SameEntry(a[i], b[j]);
      SameEntryHasSameSorted(a[i], b[j]);
      assert SortedEntries(a)[i] == SortedEntry(a[i]);
    }
  }

  lemma SameElementsSortAlike(v: Value, w: Value)
    requires Encodes(v) && Encodes(w) && v.Map? && w.Map?
    requires SameElements(SortedEntries(v.entries), SortedEntries(w.entries))
    ensures Sort(ENTRY_KEY, SortedEntries(v.entries)) == Sort(ENTRY_KEY, SortedEntries(w.entries))
  {
    SortedEntriesEncode(v.entries);
    SortedEntriesEncode(w.entries);
    DistinctEncodings(SortedEntries(v.entries));
    DistinctEncodings(SortedEntries(w.entries));
    SortIgnoresOrder(ENTRY_KEY, SortedEntries(v.entries), SortedEntries(w.entries));
  }

  lemma SortedEntriesEncode(entries: seq<Entry>)
    requires KeysAreDistinct(entries) && EntriesEncode(entries)
    ensures KeysAreDistinct(SortedEntries(entries)) && EntriesEncode(SortedEntries(entries))
  {
    forall i | 0 <= i < |entries| ensures Encodes(SortedEntries(entries)[i].value) {
      SortedEncodes(entries[i].value);
    }
  }

  lemma {:induction false} SameSortedAreSame(v: Value, w: Value)
    requires Sorted(v) == Sorted(w)
    ensures Same(v, w)
    decreases v
  {
    if v.Array? {
      SameSortedItems(v.items, w.items);
    } else if v.Map? {
      SortElements(ENTRY_KEY, SortedEntries(v.entries));
      SortElements(ENTRY_KEY, SortedEntries(w.entries));
      SameSortedEntries(v.entries, w.entries);
    }
  }

  lemma {:induction false} SameSortedItems(a: seq<Value>, b: seq<Value>)
    requires SortedItems(a) == SortedItems(b)
    ensures |a| == |b| && SameItems(a, b)
    decreases a
  {
    forall i | 0 <= i < |a| ensures Same(a[i], b[i]) {
      assert SortedItems(a)[i] == SortedItems(b)[i];
      SameSortedAreSame(a[i], b[i]);
    }
  }

  lemma {:induction false} SameSortedEntry(e: Entry, f: Entry)
    requires SortedEntry(e) == SortedEntry(f)
    ensures SameEntry(e, f)
    decreases e
  {
    SameSortedAreSame(e.value, f.value);
  }

  lemma {:induction false} SameSortedEntries(a: seq<Entry>, b: seq<Entry>)
    requires SameElements(SortedEntries(a), SortedEntries(b))
    ensures EntriesIn(a, b) && EntriesOf(a, b)
    decreases a
  {
    var s, t := SortedEntries(a), SortedEntries(b);
    forall i | 0 <= i < |a| ensures exists j :: 0 <= j < |b| && SameEntry(a[i], b[j]) {
      assert s[i] in t;
      var j :| 0 <= j < |t| && t[j] == s[i];
      SameSortedEntry(a[i], b[j]);
    }
    forall j | 0 <= j < |b| ensures exists i :: 0 <= i < |a| && SameEntry(a[i], b[j]) {
      assert t[j] in s;
      var i :| 0 <= i < |s| && s[i] == t[j];
      SameSortedEntry(a[i], b[j]);
    }
  }

  lemma {:induction false} SortedTwice(v: Value)
    requires Encodes(v)
    ensures Sorted(Sorted(v)) == Sorted(v)
    decreases v
  {
    match v
    case Leaf(_) =>
    case Array(items) =>
      forall i | 0 <= i < |items| ensures SortedItems(SortedItems(items))[i] == SortedItems(items)[i] {
        SortedTwice(items[i]);
      }
    case Map(entries) =>
      var s := SortedEntries(entries);
      var t := Sort(ENTRY_KEY, s);
      SortedEntriesEncode(entries);
      SortKeepsDistinct(s);
      SortElements(ENTRY_KEY, s);
      forall i | 0 <= i < |t| ensures SortedEntries(t)[i] == t[i] {
        assert t[i] in s;
        var j :| 0 <= j < |s| && s[j] == t[i];
        SortedTwice(entries[j].value);
      }
      assert SortedEntries(t) == t;
      DistinctEncodings(s);
      DistinctEncodings(t);
      SortIgnoresOrder(ENTRY_KEY, t, s);
  }

  /* ----- Main results ----- */

  lemma HasBetween(p: Bytes, e: Bytes, s: Bytes)
    ensures HasAt(p + e + s, |p|, e)
  {
  }

  /**
   Decoding at any place in any data where the encoding of v stands gives v, up to the order of
   dictionary entries, and stops behind it.
   */
  lemma RoundTrip(v: Value, p: Bytes, s: Bytes)
    requires Encodes(v)
    ensures Reads(p + Encode(v) + s, |p|, Sorted(v), |p| + |Encode(v)|)
    ensures Same(v, Sorted(v))
  {
    EncodeIsPlain(v);
    SortedEncodes(v);
    HasBetween(p, Encode(v), s);
    PlainReads(p + Encode(v) + s, |p|, Sorted(v));
    SortedTwice(v);
    SameSortedAreSame(v, Sorted(v));
  }

  /**
   Prefix-free and injective: if two encodings begin the same data, the values are the same and
   so is what follows.
   */
  lemma PrefixFree(v: Value, s: Bytes, w: Value, t: Bytes)
    requires Encodes(v) && Encodes(w) && Encode(v) + s == Encode(w) + t
    ensures Same(v, w) && Encode(v) == Encode(w) && s == t
  {
    DecodeAtStart(v, s);
    DecodeAtStart(w, t);
    SameSortedAreSame(v, w);
    SplitAtLength(Encode(v), s, Encode(w), t);
  }

  lemma DecodeAtStart(v: Value, s: Bytes)
    requires Encodes(v)
    ensures Reads(Encode(v) + s, 0, Sorted(v), |Encode(v)|)
  {
    hide Decode, Encode, Sorted;
    RoundTrip(v, [], s);
    assert [] + Encode(v) + s == Encode(v) + s;
  }

  lemma SplitAtLength(a: Bytes, s: Bytes, b: Bytes, t: Bytes)
    requires a + s == b + t && |a| == |b|
    ensures a == b && s == t
  {
    assert (a + s)[..|a|] == a && (b + t)[..|a|] == b;
    assert (a + s)[|a|..] == s && (b + t)[|a|..] == t;
  }

  /**
   Two values have the same encoding exactly when they are the same: nothing but the insertion
   order of dictionaries, at any depth, is lost.
   */
  lemma EncodingIsCanonical(v: Value, w: Value)
    requires Encodes(v) && Encodes(w)
    ensures Encode(v) == Encode(w) <==> Same(v, w)
  {
    if Encode(v) == Encode(w) {
      PrefixFree(v, [], w, []);
    }
    if Same(v, w) {
      SameHaveSameSorted(v, w);
      EncodeIsPlain(v);
      EncodeIsPlain(w);
    }
  }
}
