/**
 The order in which map keys are written: length first (section 4.2.3 of RFC 8949), and exactly
 when that is also the bytewise order of section 4.2.1.
 */
module CborKeyOrder {
  import opened Hashing
  import opened ByteOrder
  import opened KeyedSort
  import opened Cbor
  import opened CborTheorems
  import opened CborCanonical

  function MajorType(s: Scalar): nat {
    match s
    case Int(i) => if i >= 0 then MT_UINT else MT_NINT
    case ByteString(_) => MT_BSTR
    case Text(_) => MT_TSTR
    case _ => MT_SIMPLE
  }

  /** The entries of a map in the order in which they are written. */
  function Written(entries: seq<Entry>): seq<Entry> {
    Sort(ENTRY_KEY, SortedEntries(entries))
  }

  ghost predicate Bytewise(s: seq<Entry>) {
    forall i, j :: 0 <= i < j < |s| ==> LexLess(ENTRY_KEY(s[i]), ENTRY_KEY(s[j]))
  }

  /** No key of a smaller major type is longer than a key of a larger one. */
  predicate MajorsAgreeWithLengths(entries: seq<Entry>) {
    forall i, j :: 0 <= i < |entries| && 0 <= j < |entries| && MajorType(entries[i].key) < MajorType(entries[j].key) ==>
      |EncodeScalar(entries[i].key)| <= |EncodeScalar(entries[j].key)|
  }

  /** Shorter forms of a header are bytewise smaller: headers of one type are ordered as their numbers. */
  lemma HeadOrder(major: nat, m: nat, n: nat)
    requires major < 8 && m < n < LIMIT
    ensures DiffersBelow(Head(major, m), Head(major, n)) && |Head(major, m)| <= |Head(major, n)|
  {
    HeadShape(major, m);
    HeadShape(major, n);
    var w := HeadWidth(n);
    if w > 0 && HeadWidth(m) == w {
      BigEndianOrder(m, n, w);
      DiffersAfter([Head(major, n)[0]], BigEndian(m, w), BigEndian(n, w));
    }
  }

  /** The number in a scalar's header and the bytes behind it. */
  function HeadNumber(s: Scalar): nat {
    match s
    case Int(i) => if i >= 0 then i else -1 - i
    case ByteString(bytes) => |bytes|
    case Text(utf8) => |utf8|
    case _ => 0
  }

  function Behind(s: Scalar): Bytes {
    match s
    case ByteString(bytes) => bytes
    case Text(utf8) => utf8
    case _ => []
  }

  lemma ScalarShape(s: Scalar)
    requires MajorType(s) != MT_SIMPLE
    ensures EncodeScalar(s) == Head(MajorType(s), HeadNumber(s)) + Behind(s)
  {
  }

  /** Within one major type a shorter key is bytewise smaller. */
  lemma SameMajorShorterIsLess(s: Scalar, t: Scalar)
    requires ScalarIsEncodable(s) && ScalarIsEncodable(t) && MajorType(s) == MajorType(t)
    requires |EncodeScalar(s)| < |EncodeScalar(t)|
    ensures LexLess(EncodeScalar(s), EncodeScalar(t))
  {
    ScalarShape(s);
    ScalarShape(t);
    var m, x, y := MajorType(s), HeadNumber(s), HeadNumber(t);
    if y < x {
      HeadOrder(m, y, x);
    }
    HeadOrder(m, x, y);
    DifferenceDecides(Head(m, x), Head(m, y), Behind(s), Behind(t));
  }

  lemma FirstByte(s: Scalar)
    requires ScalarIsEncodable(s)
    ensures EncodeScalar(s) != [] && EncodeScalar(s)[0] as nat / 32 == MajorType(s)
  {
    if MajorType(s) != MT_SIMPLE {
      ScalarShape(s);
      HeadShape(MajorType(s), HeadNumber(s));
    }
  }

  /** Across major types the smaller type is bytewise smaller. */
  lemma SmallerMajorIsLess(s: Scalar, t: Scalar)
    requires ScalarIsEncodable(s) && ScalarIsEncodable(t) && MajorType(s) < MajorType(t)
    ensures LexLess(EncodeScalar(s), EncodeScalar(t))
  {
    FirstByte(s);
    FirstByte(t);
  }

  lemma WrittenInBytewiseOrder(s: Scalar, t: Scalar)
    requires ScalarIsEncodable(s) && ScalarIsEncodable(t) && LengthFirst(EncodeScalar(s), EncodeScalar(t))
    requires MajorType(t) < MajorType(s) ==> |EncodeScalar(t)| <= |EncodeScalar(s)|
    ensures LexLess(EncodeScalar(s), EncodeScalar(t))
  {
    if MajorType(s) < MajorType(t) {
      SmallerMajorIsLess(s, t);
    } else if MajorType(s) == MajorType(t) && |EncodeScalar(s)| < |EncodeScalar(t)| {
      SameMajorShorterIsLess(s, t);
    }
  }

  lemma WrittenElements(entries: seq<Entry>)
    requires Encodes(Map(entries))
    ensures Ordered(ENTRY_KEY, Written(entries)) && SameElements(Written(entries), SortedEntries(entries))
  {
    MapEntriesEncode(Map(entries));
    SortedEntriesEncode(entries);
    DistinctEncodings(SortedEntries(entries));
    SortElements(ENTRY_KEY, SortedEntries(entries));
    SortOrdered(ENTRY_KEY, SortedEntries(entries));
  }

  lemma WrittenFrom(entries: seq<Entry>, i: nat) returns (k: nat)
    requires Encodes(Map(entries)) && i < |Written(entries)|
    ensures k < |entries| && Written(entries)[i].key == entries[k].key
  {
    WrittenElements(entries);
    assert Written(entries)[i] in SortedEntries(entries);
    k :| 0 <= k < |entries| && SortedEntries(entries)[k] == Written(entries)[i];
  }

  lemma WrittenAt(entries: seq<Entry>, k: nat) returns (i: nat)
    requires Encodes(Map(entries)) && k < |entries|
    ensures i < |Written(entries)| && Written(entries)[i].key == entries[k].key
  {
    WrittenElements(entries);
    assert SortedEntries(entries)[k] in Written(entries);
    i :| 0 <= i < |Written(entries)| && Written(entries)[i] == SortedEntries(entries)[k];
  }

  lemma AgreeingMajorsGiveBytewise(entries: seq<Entry>)
    requires Encodes(Map(entries))
    ensures MajorsAgreeWithLengths(entries) ==> Bytewise(Written(entries))
  {
    var w := Written(entries);
    WrittenElements(entries);
    if MajorsAgreeWithLengths(entries) {
      forall i, j | 0 <= i < j < |w| ensures LexLess(ENTRY_KEY(w[i]), ENTRY_KEY(w[j])) {
        var a := WrittenFrom(entries, i);
        var b := WrittenFrom(entries, j);
        WrittenInBytewiseOrder(entries[a].key, entries[b].key);
      }
    }
  }

  lemma BytewiseGivesAgreeingMajors(entries: seq<Entry>)
    requires Encodes(Map(entries)) && Bytewise(Written(entries))
    ensures MajorsAgreeWithLengths(entries)
  {
    var w := Written(entries);
    WrittenElements(entries);
    forall a, b | 0 <= a < |entries| && 0 <= b < |entries| && MajorType(entries[a].key) < MajorType(entries[b].key)
      ensures |EncodeScalar(entries[a].key)| <= |EncodeScalar(entries[b].key)|
    {
      var i := WrittenAt(entries, a);
      var j := WrittenAt(entries, b);
      SmallerMajorIsLess(entries[a].key, entries[b].key);
      LexTotal(ENTRY_KEY(w[i]), ENTRY_KEY(w[j]));
    }
  }

  /**
   Map entries are always written length first.  That is the bytewise order of section 4.2.1 of
   RFC 8949 exactly when no key of a smaller major type is longer than one of a larger type; in
   particular it is whenever all keys have one major type.
   */
  lemma WhenOrderIsBytewise(entries: seq<Entry>)
    requires Encodes(Map(entries))
    ensures Ordered(ENTRY_KEY, Written(entries))
    ensures Bytewise(Written(entries)) <==> MajorsAgreeWithLengths(entries)
  {
    WrittenElements(entries);
    AgreeingMajorsGiveBytewise(entries);
    if Bytewise(Written(entries)) {
      BytewiseGivesAgreeingMajors(entries);
    }
  }

  /** The keys -1 and 24, written in that order, although 0x18 0x18 is bytewise below 0x20. */
  lemma MixedMajorsAreNotBytewise()
    ensures var entries := [Entry(Int(24), Leaf(Null)), Entry(Int(-1), Leaf(Null))];
            Encodes(Map(entries)) && !Bytewise(Written(entries))
  {
    var entries := [Entry(Int(24), Leaf(Null)), Entry(Int(-1), Leaf(Null))];
    assert EncodeScalar(entries[0].key) == [0x18] + BigEndian(24, 1);
    assert EncodeScalar(entries[1].key) == [0x20];
    assert MajorType(entries[0].key) < MajorType(entries[1].key);
    WhenOrderIsBytewise(entries);
  }
}
