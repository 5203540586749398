/** What the decoder returns, for any data whatever: values that the encoder takes back. */
module CborDecoded {
  import opened Hashing
  import opened Wrappers
  import opened ByteOrder
  import opened Cbor
  import opened CborTheorems
  import opened CborCanonical

  /* ----- Numbers ----- */

  lemma {:induction false} FromBigEndianBound(s: Bytes)
    ensures FromBigEndian(s) < Pow256(|s|)
    decreases |s|
  {
    if s != [] {
      FromBigEndianBound(s[..|s| - 1]);
    }
  }

  /** A number in a header is below 2^64. */
  lemma LengthBound(data: Bytes, offset: nat, val: nat)
    requires offset <= |data| && val < 32
    ensures ReadLength(data, offset, val).Ok? ==> ReadLength(data, offset, val).value.0 < LIMIT
  {
    PowersOf256();
    if 25 <= val <= 27 {
      var size := if val == 25 then 2 else if val == 26 then 4 else 8;
      if offset + size <= |data| {
        FromBigEndianBound(data[offset..offset + size]);
      }
    }
  }

  /* ----- Dictionaries ----- */

  ghost predicate Dictionary(entries: seq<Entry>) {
    KeysAreDistinct(entries) && EntriesEncode(entries)
  }

  lemma {:induction false} AssignKeys(mapping: seq<Entry>, key: Scalar, value: Value)
    ensures |mapping| <= |Assign(mapping, key, value)| <= |mapping| + 1
    ensures forall i :: 0 <= i < |mapping| ==> Assign(mapping, key, value)[i].key == mapping[i].key
    ensures |Assign(mapping, key, value)| > |mapping| ==>
              && Assign(mapping, key, value)[|mapping|].key == key
              && forall i :: 0 <= i < |mapping| ==> !SameKey(mapping[i].key, key)
    decreases |mapping|
  {
    if mapping != [] && !SameKey(mapping[0].key, key) {
      AssignKeys(mapping[1..], key, value);
      forall i | 0 < i < |mapping|
        ensures Assign(mapping, key, value)[i].key == mapping[i].key
      {
        assert Assign(mapping, key, value)[i] == Assign(mapping[1..], key, value)[i - 1];
      }
    }
  }

  lemma {:induction false} AssignValues(mapping: seq<Entry>, key: Scalar, value: Value)
    requires EntriesEncode(mapping) && ScalarIsPython(key) && ScalarIsEncodable(key) && Encodes(value)
    ensures EntriesEncode(Assign(mapping, key, value))
    decreases |mapping|
  {
    if mapping != [] && !SameKey(mapping[0].key, key) {
      AssignValues(mapping[1..], key, value);
    }
  }

  lemma AssignKeepsDictionary(mapping: seq<Entry>, key: Scalar, value: Value)
    requires Dictionary(mapping) && ScalarIsPython(key) && ScalarIsEncodable(key) && Encodes(value)
    ensures Dictionary(Assign(mapping, key, value))
  {
    AssignValues(mapping, key, value);
    AssignKeys(mapping, key, value);
  }

  /* ----- Every decoded value can be encoded ----- */

  ghost predicate DecodesWell(r: Decoded<Value>) {
    r.Ok? ==> Encodes(r.value.0)
  }

  predicate IsAscii(s: Bytes) {
    forall i :: 0 <= i < |s| ==> s[i] < 0x80
  }

  lemma {:induction false} AsciiIsValid(s: Bytes)
    requires IsAscii(s)
    ensures ValidUtf8(s)
    decreases |s|
  {
    if s != [] {
      AsciiIsValid(s[1..]);
    }
  }

  lemma TwoEntriesEncode(a: Entry, b: Entry)
    requires !SameKey(a.key, b.key) && EntriesEncode([a, b])
    ensures Encodes(Map([a, b]))
  {
  }

  lemma TwoTextsEncode(a: Bytes, b: Bytes, tag: nat, inner: Value)
    requires IsAscii(a) && IsAscii(b) && |a| < |b| < LIMIT && tag < LIMIT && Encodes(inner)
    ensures Encodes(Map([Entry(Text(b), Leaf(Int(tag))), Entry(Text(a), inner)]))
  {
    AsciiIsValid(a);
    AsciiIsValid(b);
    TwoEntriesEncode(Entry(Text(b), Leaf(Int(tag))), Entry(Text(a), inner));
  }

  lemma TaggedEncodes(tag: nat, inner: Value)
    requires tag < LIMIT && Encodes(inner)
    ensures Encodes(Tagged(tag, inner))
  {
    var a, b := TAG_VALUE_KEY.utf8, TAG_KEY.utf8;
    assert IsAscii(a) && IsAscii(b) && |a| == 5 && |b| == 12;
    TwoTextsEncode(a, b, tag, inner);
  }

  lemma {:induction false} DecodedEncodes(data: Bytes, offset: nat)
    ensures DecodesWell(Decode(data, offset))
    decreases if offset <= |data| then |data| - offset else 0, 0
  {
    if offset < |data| {
      var first := data[offset] as nat;
      var major, val := first / 32, first % 32;
      LengthBound(data, offset + 1, val);
      var header := ReadLength(data, offset + 1, val);
      if header.Ok? {
        var length, at := header.value.0, header.value.1;
        if major == MT_ARRAY {
          DecodedItemsEncode(data, at, length, []);
        } else if major == MT_MAP {
          DecodedEntriesEncode(data, at, length, []);
        } else if major == MT_TAG {
          DecodedEncodes(data, at);
          if Decode(data, at).Ok? {
            TaggedEncodes(length, Decode(data, at).value.0);
          }
        }
      }
    }
  }

  lemma {:induction false} DecodedItemsEncode(data: Bytes, offset: nat, n: nat, items: seq<Value>)
    requires forall i :: 0 <= i < |items| ==> Encodes(items[i])
    ensures var r := DecodeItems(data, offset, n, items);
            r.Ok? ==> |r.value.0| == |items| + n && forall i :: 0 <= i < |r.value.0| ==> Encodes(r.value.0[i])
    decreases if offset <= |data| then |data| - offset else 0, n + 1
  {
    if n > 0 {
      DecodedEncodes(data, offset);
      var item := Decode(data, offset);
      if item.Ok? {
        DecodedItemsEncode(data, item.value.1, n - 1, items + [item.value.0]);
      }
    }
  }

  lemma {:induction false} DecodedEntriesEncode(data: Bytes, offset: nat, n: nat, mapping: seq<Entry>)
    requires Dictionary(mapping)
    ensures var r := DecodeEntries(data, offset, n, mapping);
            r.Ok? ==> |r.value.0| <= |mapping| + n && Dictionary(r.value.0)
    decreases if offset <= |data| then |data| - offset else 0, n + 1
  {
    if n > 0 {
      DecodedEncodes(data, offset);
      var k := Decode(data, offset);
      if k.Ok? && k.value.0.Leaf? {
        DecodedEncodes(data, k.value.1);
        var v := Decode(data, k.value.1);
        if v.Ok? {
          AssignKeepsDictionary(mapping, k.value.0.s, v.value.0);
          AssignKeys(mapping, k.value.0.s, v.value.0);
          DecodedEntriesEncode(data, v.value.1, n - 1, Assign(mapping, k.value.0.s, v.value.0));
        }
      }
    }
  }

  /**
   Whatever data decodes, at whatever offset and however badly formed, is a value that the
   encoder takes back; what it writes decodes to the same value, and writing that again changes
   nothing.
   */
  lemma DecodedReencodes(data: Bytes, offset: nat)
    requires Decode(data, offset).Ok?
    ensures var v := Decode(data, offset).value.0;
            && Encodes(v) && CborEncode(v) == Ok(Encode(v))
            && Reads(Encode(v), 0, Sorted(v), |Encode(v)|) && Same(v, Sorted(v))
            && Encode(Sorted(v)) == Encode(v)
  {
    hide Decode, Encode, Sorted, IsPython, IsEncodable;
    var v := Decode(data, offset).value.0;
    DecodedEncodes(data, offset);
    RoundTrip(v, [], []);
    assert [] + Encode(v) + [] == Encode(v);
    SortedEncodes(v);
    EncodingIsCanonical(v, Sorted(v));
  }
}
