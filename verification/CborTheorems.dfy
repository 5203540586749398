/**
 Round trip, injectivity, independence of insertion order, and the order of map keys.

 The sorted form of a value has every dictionary in the order of the encoder's sort.  The
 encoding of a value is the plain concatenation of its sorted form, and decoding gives the
 sorted form back.
 */
module CborTheorems {
  import opened Hashing
  import opened Wrappers
  import opened ByteOrder
  import opened KeyedSort
  import opened Cbor

  /* ----- The sorted form ----- */

  const ENTRY_KEY: Entry -> Bytes := (e: Entry) => EncodeScalar(e.key)

  function Sorted(v: Value): Value {
    match v
    case Leaf(_) => v
    case Array(items) => Array(SortedItems(items))
    case Map(entries) => Map(Sort(ENTRY_KEY, SortedEntries(entries)))
  }

  function SortedItems(items: seq<Value>): (r: seq<Value>)
    ensures |r| == |items|
    ensures forall i :: 0 <= i < |items| ==> r[i] == Sorted(items[i])
  {
    if items == [] then [] else [Sorted(items[0])] + SortedItems(items[1..])
  }

  function SortedEntries(entries: seq<Entry>): (r: seq<Entry>)
    ensures |r| == |entries|
    ensures forall i :: 0 <= i < |entries| ==> r[i] == SortedEntry(entries[i])
  {
    if entries == [] then [] else [SortedEntry(entries[0])] + SortedEntries(entries[1..])
  }

  function SortedEntry(e: Entry): Entry {
    Entry(e.key, Sorted(e.value))
  }

  /** Two values are the same when they differ at most in the insertion order of dictionaries. */
  ghost predicate Same(v: Value, w: Value) {
    match (v, w)
    case (Leaf(s), Leaf(t)) => s == t
    case (Array(a), Array(b)) => |a| == |b| && SameItems(a, b)
    case (Map(a), Map(b)) => |a| == |b| && EntriesIn(a, b) && EntriesOf(a, b)
    case _ => false
  }

  ghost predicate SameItems(a: seq<Value>, b: seq<Value>)
    requires |a| == |b|
  {
    forall i :: 0 <= i < |a| ==> Same(a[i], b[i])
  }

  /** Every entry of a has its like in b. */
  ghost predicate EntriesIn(a: seq<Entry>, b: seq<Entry>) {
    forall i :: 0 <= i < |a| ==> exists j :: 0 <= j < |b| && SameEntry(a[i], b[j])
  }

  /** Every entry of b has its like in a. */
  ghost predicate EntriesOf(a: seq<Entry>, b: seq<Entry>) {
    forall j :: 0 <= j < |b| ==> exists i :: 0 <= i < |a| && SameEntry(a[i], b[j])
  }

  ghost predicate SameEntry(a: Entry, b: Entry) {
    a.key == b.key && Same(a.value, b.value)
  }

  /* ----- Encoding is concatenating the sorted form ----- */

  function Plain(v: Value): Bytes {
    match v
    case Leaf(s) => EncodeScalar(s)
    case Array(items) => Head(MT_ARRAY, |items|) + PlainItems(items)
    case Map(entries) => Head(MT_MAP, |entries|) + Join(PlainPairs(entries))
  }

  function PlainItems(items: seq<Value>): Bytes {
    if items == [] then [] else Plain(items[0]) + PlainItems(items[1..])
  }

  function PlainPairs(entries: seq<Entry>): seq<Pair> {
    if entries == [] then [] else [PlainPair(entries[0])] + PlainPairs(entries[1..])
  }

  function PlainPair(e: Entry): Pair {
    (EncodeScalar(e.key), Plain(e.value))
  }

  lemma {:induction false} InsertCommutes(e: Entry, s: seq<Entry>)
    ensures PlainPairs(Insert(ENTRY_KEY, e, s)) == Insert(PAIR_KEY, PlainPair(e), PlainPairs(s))
    decreases |s|
  {
    if s != [] {
      var rest := s[1..];
      assert PlainPairs(s)[1..] == PlainPairs(rest);
      if LengthFirst(ENTRY_KEY(s[0]), ENTRY_KEY(e)) {
        InsertCommutes(e, rest);
        assert ([s[0]] + Insert(ENTRY_KEY, e, rest))[1..] == Insert(ENTRY_KEY, e, rest);
      } else {
        assert ([e] + s)[1..] == s;
      }
    }
  }

  lemma {:induction false} SortCommutes(s: seq<Entry>)
    ensures PlainPairs(Sort(ENTRY_KEY, s)) == Sort(PAIR_KEY, PlainPairs(s))
    decreases |s|
  {
    if s != [] {
      SortCommutes(s[1..]);
      InsertCommutes(s[0], Sort(ENTRY_KEY, s[1..]));
      assert PlainPairs(s)[1..] == PlainPairs(s[1..]);
    }
  }

  lemma {:induction false} EncodeIsPlain(v: Value)
    ensures Encode(v) == Plain(Sorted(v))
    decreases v
  {
    match v
    case Leaf(_) =>
    case Array(items) => EncodeItemsIsPlain(items);
    case Map(entries) =>
      EncodeEntriesIsPlain(entries);
      SortCommutes(SortedEntries(entries));
      SortElements(ENTRY_KEY, SortedEntries(entries));
  }

  lemma {:induction false} EncodeItemsIsPlain(items: seq<Value>)
    ensures EncodeItems(items) == PlainItems(SortedItems(items))
    decreases items
  {
    if items != [] {
      EncodeIsPlain(items[0]);
      EncodeItemsIsPlain(items[1..]);
      assert SortedItems(items)[1..] == SortedItems(items[1..]);
    }
  }

  lemma {:induction false} EncodeEntriesIsPlain(entries: seq<Entry>)
    ensures EncodeEntries(entries) == PlainPairs(SortedEntries(entries))
    decreases entries
  {
    if entries != [] {
      EncodeEntryIsPlain(entries[0]);
      EncodeEntriesIsPlain(entries[1..]);
      assert SortedEntries(entries)[1..] == SortedEntries(entries[1..]);
    }
  }

  lemma {:induction false} EncodeEntryIsPlain(e: Entry)
    ensures EncodeEntry(e) == PlainPair(SortedEntry(e))
    decreases e
  {
    EncodeIsPlain(e.value);
  }

  /* ----- Reading back what stands at an offset ----- */

  ghost predicate HasAt(data: Bytes, offset: nat, s: Bytes) {
    offset + |s| <= |data| && data[offset..offset + |s|] == s
  }

  lemma HasAtSplit(data: Bytes, offset: nat, a: Bytes, b: Bytes)
    requires HasAt(data, offset, a + b)
    ensures HasAt(data, offset, a) && HasAt(data, offset + |a|, b)
  {
    assert data[offset..offset + |a|] == (a + b)[..|a|];
    assert data[offset + |a|..offset + |a| + |b|] == (a + b)[|a|..];
  }

  lemma PowersOf256()
    ensures Pow256(1) == 0x100 && Pow256(2) == 0x1_0000 && Pow256(4) == 0x1_0000_0000 && Pow256(8) == LIMIT
  {
    assert Pow256(3) == 0x100_0000;
    assert Pow256(5) == 0x100_0000_0000;
    assert Pow256(6) == 0x1_0000_0000_0000;
    assert Pow256(7) == 0x100_0000_0000_0000;
  }

  /** The width of the number behind the first byte of a header. */
  function HeadWidth(val: nat): (w: nat)
    ensures w in {0, 1, 2, 4, 8}
  {
    if val < 24 then 0 else if val <= 0xFF then 1 else if val <= 0xFFFF then 2 else if val <= 0xFFFF_FFFF then 4 else 8
  }

  lemma HeadShape(major: nat, val: nat)
    requires major < 8 && val < LIMIT
    ensures var w := HeadWidth(val);
            var low := if w == 0 then val else if w == 1 then 24 else if w == 2 then 25 else if w == 4 then 26 else 27;
            && Head(major, val) == [(32 * major + low) as byte] + (if w == 0 then [] else BigEndian(val, w))
            && val < Pow256(if w == 0 then 1 else w)
  {
    PowersOf256();
  }

  lemma HeadReads(data: Bytes, offset: nat, major: nat, val: nat)
    requires major < 8 && val < LIMIT && HasAt(data, offset, Head(major, val))
    ensures offset < |data| && data[offset] as nat / 32 == major
    ensures ReadLength(data, offset + 1, data[offset] as nat % 32) == Ok((val, offset + |Head(major, val)|))
  {
    HeadShape(major, val);
    var w := HeadWidth(val);
    assert data[offset] == data[offset..offset + |Head(major, val)|][0];
    if w > 0 {
      assert data[offset + 1..offset + 1 + w] == data[offset..offset + |Head(major, val)|][1..];
      BigEndianValue(val, w);
      if w == 1 {
        assert BigEndian(val, 1) == [data[offset + 1]];
        assert FromBigEndian([data[offset + 1]]) == data[offset + 1] as nat by {
          assert [data[offset + 1]][..0] == [];
        }
      }
    }
  }

  /** The decoder reads v at an offset and stops at end. */
  ghost predicate Reads(data: Bytes, offset: nat, v: Value, end: nat) {
    var r := Decode(data, offset);
    r.Ok? && r.value.0 == v && r.value.1 == end
  }

  /** A string header followed by its bytes, as Decode meets them. */
  lemma StringParts(data: Bytes, offset: nat, major: nat, bytes: Bytes)
    requires major < 8 && |bytes| < LIMIT && HasAt(data, offset, Head(major, |bytes|) + bytes)
    ensures offset < |data| && data[offset] as nat / 32 == major
    ensures var at := offset + |Head(major, |bytes|)|;
            && ReadLength(data, offset + 1, data[offset] as nat % 32) == Ok((|bytes|, at))
            && at <= |data| && Slice(data, at, |bytes|) == bytes
  {
    HasAtSplit(data, offset, Head(major, |bytes|), bytes);
    HeadReads(data, offset, major, |bytes|);
  }

  lemma ByteStringReads(data: Bytes, offset: nat, bytes: Bytes)
    requires |bytes| < LIMIT && HasAt(data, offset, Head(MT_BSTR, |bytes|) + bytes)
    ensures Reads(data, offset, Leaf(ByteString(bytes)), offset + |Head(MT_BSTR, |bytes|)| + |bytes|)
  {
    StringParts(data, offset, MT_BSTR, bytes);
  }

  lemma TextReads(data: Bytes, offset: nat, utf8: Bytes)
    requires ValidUtf8(utf8) && |utf8| < LIMIT && HasAt(data, offset, Head(MT_TSTR, |utf8|) + utf8)
    ensures Reads(data, offset, Leaf(Text(utf8)), offset + |Head(MT_TSTR, |utf8|)| + |utf8|)
  {
    StringParts(data, offset, MT_TSTR, utf8);
  }

  lemma ScalarReads(data: Bytes, offset: nat, s: Scalar)
    requires ScalarIsPython(s) && ScalarIsEncodable(s) && HasAt(data, offset, EncodeScalar(s))
    ensures Reads(data, offset, Leaf(s), offset + |EncodeScalar(s)|)
  {
    match s
    case Null => assert data[offset] == data[offset..offset + 1][0] == 0xF6;
    case Bool(b) => assert data[offset] == data[offset..offset + 1][0];
    case Int(i) => HeadReads(data, offset, if i >= 0 then MT_UINT else MT_NINT, if i >= 0 then i else -1 - i);
    case ByteString(bytes) => ByteStringReads(data, offset, bytes);
    case Text(utf8) => TextReads(data, offset, utf8);
  }

  ghost predicate ReadsItems(data: Bytes, offset: nat, before: seq<Value>, items: seq<Value>, end: nat) {
    var r := DecodeItems(data, offset, |items|, before);
    r.Ok? && r.value.0 == before + items && r.value.1 == end
  }

  ghost predicate ReadsEntries(data: Bytes, offset: nat, before: seq<Entry>, entries: seq<Entry>, end: nat) {
    var r := DecodeEntries(data, offset, |entries|, before);
    r.Ok? && r.value.0 == before + entries && r.value.1 == end
  }

  lemma ReadsOneMore(data: Bytes, offset: nat, before: seq<Value>, items: seq<Value>, at: nat, end: nat)
    requires items != [] && Reads(data, offset, items[0], at)
    requires ReadsItems(data, at, before + [items[0]], items[1..], end)
    ensures ReadsItems(data, offset, before, items, end)
  {
    assert before + [items[0]] + items[1..] == before + items;
  }

  lemma {:induction false} AssignAppends(mapping: seq<Entry>, e: Entry)
    requires forall i :: 0 <= i < |mapping| ==> !SameKey(mapping[i].key, e.key)
    ensures Assign(mapping, e.key, e.value) == mapping + [e]
  {
    if mapping != [] {
      AssignAppends(mapping[1..], e);
    }
  }

  lemma ReadsOneEntryMore(data: Bytes, offset: nat, before: seq<Entry>, entries: seq<Entry>, mid: nat, at: nat, end: nat)
    requires entries != [] && KeysAreDistinct(before + entries)
    requires Reads(data, offset, Leaf(entries[0].key), mid) && Reads(data, mid, entries[0].value, at)
    requires ReadsEntries(data, at, before + [entries[0]], entries[1..], end)
    ensures ReadsEntries(data, offset, before, entries, end)
  {
    var e := entries[0];
    forall i | 0 <= i < |before| ensures !SameKey(before[i].key, e.key) {
      assert (before + entries)[i] == before[i] && (before + entries)[|before|] == e;
    }
    AssignAppends(before, e);
    assert before + [e] + entries[1..] == before + entries;
  }

  lemma ArrayReads(data: Bytes, offset: nat, items: seq<Value>, end: nat)
    requires |items| < LIMIT && HasAt(data, offset, Head(MT_ARRAY, |items|))
    requires ReadsItems(data, offset + |Head(MT_ARRAY, |items|)|, [], items, end)
    ensures Reads(data, offset, Array(items), end)
  {
    HeadReads(data, offset, MT_ARRAY, |items|);
    assert [] + items == items;
  }

  lemma MapReads(data: Bytes, offset: nat, entries: seq<Entry>, end: nat)
    requires |entries| < LIMIT && HasAt(data, offset, Head(MT_MAP, |entries|))
    requires ReadsEntries(data, offset + |Head(MT_MAP, |entries|)|, [], entries, end)
    ensures Reads(data, offset, Map(entries), end)
  {
    HeadReads(data, offset, MT_MAP, |entries|);
    assert [] + entries == entries;
  }

  /** Wherever the plain encoding of a value stands, decoding there gives the value and its end. */
  lemma {:induction false} PlainReads(data: Bytes, offset: nat, v: Value)
    requires IsPython(v) && IsEncodable(v) && HasAt(data, offset, Plain(v))
    ensures Reads(data, offset, v, offset + |Plain(v)|)
    decreases v
  {
    match v
    case Leaf(s) => ScalarReads(data, offset, s);
    case Array(items) => PlainArrayReads(data, offset, items);
    case Map(entries) => PlainMapReads(data, offset, entries);
  }

  lemma {:induction false} PlainArrayReads(data: Bytes, offset: nat, items: seq<Value>)
    requires |items| < LIMIT && forall i :: 0 <= i < |items| ==> IsPython(items[i]) && IsEncodable(items[i])
    requires HasAt(data, offset, Head(MT_ARRAY, |items|) + PlainItems(items))
    ensures Reads(data, offset, Array(items), offset + |Head(MT_ARRAY, |items|)| + |PlainItems(items)|)
    decreases items, 1
  {
    hide Decode, DecodeItems, Plain;
    var head := Head(MT_ARRAY, |items|);
    HasAtSplit(data, offset, head, PlainItems(items));
    PlainItemsRead(data, offset + |head|, items, []);
    ArrayReads(data, offset, items, offset + |head| + |PlainItems(items)|);
  }

  lemma {:induction false} PlainMapReads(data: Bytes, offset: nat, entries: seq<Entry>)
    requires |entries| < LIMIT && KeysAreDistinct(entries)
    requires forall i :: 0 <= i < |entries| ==> ScalarIsPython(entries[i].key) && IsPython(entries[i].value)
    requires forall i :: 0 <= i < |entries| ==> ScalarIsEncodable(entries[i].key) && IsEncodable(entries[i].value)
    requires HasAt(data, offset, Head(MT_MAP, |entries|) + Join(PlainPairs(entries)))
    ensures Reads(data, offset, Map(entries), offset + |Head(MT_MAP, |entries|)| + |Join(PlainPairs(entries))|)
    decreases entries, 1
  {
    hide Decode, DecodeEntries, Join, Plain, EncodeScalar;
    var head := Head(MT_MAP, |entries|);
    HasAtSplit(data, offset, head, Join(PlainPairs(entries)));
    assert KeysAreDistinct([] + entries) by {
      assert [] + entries == entries;
    }
    PlainEntriesRead(data, offset + |head|, entries, []);
    MapReads(data, offset, entries, offset + |head| + |Join(PlainPairs(entries))|);
  }

  lemma {:induction false} PlainItemsRead(data: Bytes, offset: nat, items: seq<Value>, before: seq<Value>)
    requires forall i :: 0 <= i < |items| ==> IsPython(items[i]) && IsEncodable(items[i])
    requires HasAt(data, offset, PlainItems(items))
    ensures ReadsItems(data, offset, before, items, offset + |PlainItems(items)|)
    decreases items, 0
  {
    if items != [] {
      var at := offset + |Plain(items[0])|;
      HasAtSplit(data, offset, Plain(items[0]), PlainItems(items[1..]));
      PlainReads(data, offset, items[0]);
      PlainItemsRead(data, at, items[1..], before + [items[0]]);
      ReadsOneMore(data, offset, before, items, at, offset + |PlainItems(items)|);
    }
  }

  lemma {:induction false} PlainEntryReads(data: Bytes, offset: nat, e: Entry, mid: nat)
    requires ScalarIsPython(e.key) && IsPython(e.value) && ScalarIsEncodable(e.key) && IsEncodable(e.value)
    requires HasAt(data, offset, EncodeScalar(e.key)) && HasAt(data, mid, Plain(e.value))
    requires mid == offset + |EncodeScalar(e.key)|
    ensures Reads(data, offset, Leaf(e.key), mid)
    ensures Reads(data, mid, e.value, mid + |Plain(e.value)|)
    decreases e
  {
    ScalarReads(data, offset, e.key);
    PlainReads(data, mid, e.value);
  }

  lemma JoinUnfolds(entries: seq<Entry>)
    requires entries != []
    ensures Join(PlainPairs(entries)) ==
            EncodeScalar(entries[0].key) + Plain(entries[0].value) + Join(PlainPairs(entries[1..]))
  {
    assert PlainPairs(entries)[1..] == PlainPairs(entries[1..]);
  }

  lemma HasAtThree(data: Bytes, offset: nat, whole: Bytes, k: Bytes, v: Bytes, rest: Bytes)
    requires HasAt(data, offset, whole) && whole == k + v + rest
    ensures HasAt(data, offset, k) && HasAt(data, offset + |k|, v) && HasAt(data, offset + |k| + |v|, rest)
    ensures |whole| == |k| + |v| + |rest|
  {
    HasAtSplit(data, offset, k + v, rest);
    HasAtSplit(data, offset, k, v);
  }

  lemma {:induction false} PlainEntriesRead(data: Bytes, offset: nat, entries: seq<Entry>, before: seq<Entry>)
    requires forall i :: 0 <= i < |entries| ==> ScalarIsPython(entries[i].key) && IsPython(entries[i].value)
    requires forall i :: 0 <= i < |entries| ==> ScalarIsEncodable(entries[i].key) && IsEncodable(entries[i].value)
    requires KeysAreDistinct(before + entries)
    requires HasAt(data, offset, Join(PlainPairs(entries)))
    ensures ReadsEntries(data, offset, before, entries, offset + |Join(PlainPairs(entries))|)
    decreases entries, 0
  {
    hide Decode, Plain, EncodeScalar;
    if entries != [] {
      var e, rest := entries[0], entries[1..];
      var k, v, tail := EncodeScalar(e.key), Plain(e.value), Join(PlainPairs(rest));
      var mid, at := offset + |k|, offset + |k| + |v|;
      JoinUnfolds(entries);
      HasAtThree(data, offset, Join(PlainPairs(entries)), k, v, tail);
      PlainEntryReads(data, offset, e, mid);
      assert KeysAreDistinct(before + [e] + rest) by {
        assert before + [e] + rest == before + entries;
      }
      PlainEntriesRead(data, at, rest, before + [e]);
      ReadsOneEntryMore(data, offset, before, entries, mid, at, at + |tail|);
    }
  }
}
