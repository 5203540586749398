/** The bytes themselves: initial bytes and shortest heads as RFC 8949 has them, and what malformed data decodes to. */
module CborBytes {
  import opened Hashing
  import opened Wrappers
  import opened ByteOrder
  import opened Cbor
  import opened CborTheorems
  import opened CborDecoded

  /* ----- Heads ----- */

  /** The head of section 3 of RFC 8949: type and number in the first byte, longer numbers behind it. */
  lemma HeadLayout(major: nat, val: nat)
    requires major < 8 && val < 0x1_0000_0000_0000_0000
    ensures var head := Head(major, val);
            && |head| == (if val < 24 then 1 else if val < 0x100 then 2 else if val < 0x1_0000 then 3
                          else if val < 0x1_0000_0000 then 5 else 9)
            && head[0] as int == 32 * major + (if |head| == 1 then val else if |head| == 2 then 24
                                               else if |head| == 3 then 25 else if |head| == 5 then 26 else 27)
            && (|head| > 1 ==> FromBigEndian(head[1..]) == val)
  {
    var w := HeadWidth(val);
    HeadShape(major, val);
    PowersOf256();
    if w > 0 {
      BigEndianValue(val, w);
      assert Head(major, val)[1..] == BigEndian(val, w);
    }
  }

  /** No head of the same number is shorter: the preferred serialization of section 4.1 of RFC 8949. */
  lemma HeadIsShortest(major: nat, val: nat, data: Bytes)
    requires major < 8 && data != []
    requires ReadLength(data, 1, data[0] as nat % 32).Ok? && ReadLength(data, 1, data[0] as nat % 32).value.0 == val
    ensures |Head(major, val)| <= ReadLength(data, 1, data[0] as nat % 32).value.1
  {
    var low := data[0] as nat % 32;
    LengthBound(data, 1, low);
    HeadLayout(major, val);
    PowersOf256();
    if 25 <= low <= 27 {
      var size := if low == 25 then 2 else if low == 26 then 4 else 8;
      FromBigEndianBound(data[1..1 + size]);
    }
  }

  /** The initial bytes of the types, section 3.1 of RFC 8949. */
  lemma InitialByte(v: Value)
    requires IsEncodable(v)
    ensures Encode(v) != []
    ensures var b := Encode(v)[0];
            && (v.Array? ==> 0x80 <= b <= 0x9B) && (v.Map? ==> 0xA0 <= b <= 0xBB)
            && (v.Leaf? ==>
                match v.s
                case Null => Encode(v) == [0xF6]
                case Bool(value) => Encode(v) == if value then [0xF5] else [0xF4]
                case Int(i) => if i >= 0 then b <= 0x1B else 0x20 <= b <= 0x3B
                case ByteString(_) => 0x40 <= b <= 0x5B
                case Text(_) => 0x60 <= b <= 0x7B)
  {
    match v
    case Array(items) => HeadLayout(4, |items|);
    case Map(entries) => HeadLayout(5, |entries|);
    case Leaf(s) =>
      match s
      case Int(i) => if i >= 0 { HeadLayout(0, i); } else { HeadLayout(1, -1 - i); }
      case ByteString(bytes) => HeadLayout(2, |bytes|);
      case Text(utf8) => HeadLayout(3, |utf8|);
      case _ =>
  }

  /** Exactly what raises for being too large: integers beyond 64 bits either way, at any depth. */
  lemma TooLargeExactly(v: Value)
    ensures v.Leaf? && v.s.Int? ==>
              (CborEncode(v).Ok? <==> -0x1_0000_0000_0000_0000 <= v.s.i < 0x1_0000_0000_0000_0000)
    ensures v.Array? && |v.items| < LIMIT ==>
              (CborEncode(v).Err? <==> exists i :: 0 <= i < |v.items| && CborEncode(v.items[i]).Err?)
    ensures v.Map? && |v.entries| < LIMIT ==>
              (CborEncode(v).Err? <==>
               exists i :: 0 <= i < |v.entries| &&
                 (CborEncode(Leaf(v.entries[i].key)).Err? || CborEncode(v.entries[i].value).Err?))
  {
  }

  /* ----- Dictionaries that the decoder builds ----- */

  /** Python compares True with 1 and False with 0 as equal keys, and no other two different keys. */
  lemma SameKeyExactly(a: Scalar, b: Scalar)
    ensures SameKey(a, b) <==>
            || a == b || (a == Int(1) && b == Bool(true)) || (a == Bool(true) && b == Int(1))
            || (a == Int(0) && b == Bool(false)) || (a == Bool(false) && b == Int(0))
  {
  }

  /** The value under a key, comparing keys as Python does. */
  function ValueAt(entries: seq<Entry>, key: Scalar): Option<Value> {
    if entries == [] then None
    else if SameKey(entries[0].key, key) then Some(entries[0].value)
    else ValueAt(entries[1..], key)
  }

  /** A repeated key takes the later value and keeps its place; other keys keep theirs. */
  lemma {:induction false} AssignWrites(mapping: seq<Entry>, key: Scalar, value: Value, other: Scalar)
    ensures ValueAt(Assign(mapping, key, value), key) == Some(value)
    ensures !SameKey(key, other) ==> ValueAt(Assign(mapping, key, value), other) == ValueAt(mapping, other)
    ensures ValueAt(mapping, key).Some? ==> |Assign(mapping, key, value)| == |mapping|
    ensures ValueAt(mapping, key).None? ==> Assign(mapping, key, value) == mapping + [Entry(key, value)]
    decreases |mapping|
  {
    if mapping != [] && !SameKey(mapping[0].key, key) {
      AssignWrites(mapping[1..], key, value, other);
    }
  }

  /** The two keys of a tagged item's dictionary, spelled out. */
  lemma TagKeysSpell(tag: nat, inner: Value)
    ensures Tagged(tag, inner).Map? && |Tagged(tag, inner).entries| == 2
    ensures var a, b := Tagged(tag, inner).entries[0], Tagged(tag, inner).entries[1];
            && a.value == Leaf(Int(tag)) && b.value == inner && a.key.Text? && b.key.Text?
            && |a.key.utf8| == 12 && (forall i :: 0 <= i < 12 ==> a.key.utf8[i] as int == "__cbor_tag__"[i] as int)
            && |b.key.utf8| == 5 && (forall i :: 0 <= i < 5 ==> b.key.utf8[i] as int == "value"[i] as int)
  {
  }

  /* ----- Data that no encoder writes ----- */

  /** Simple values and floats: only false, true and null have a meaning, everything else reads as null. */
  lemma SimpleValuesRead(data: Bytes, offset: nat)
    requires offset < |data| && data[offset] >= 0xE0
    ensures var b, d := data[offset], Decode(data, offset);
            && (b == 0xF4 ==> d == Ok((Leaf(Bool(false)), offset + 1)))
            && (b == 0xF5 ==> d == Ok((Leaf(Bool(true)), offset + 1)))
            && (b < 0xF8 && b != 0xF4 && b != 0xF5 ==> d == Ok((Leaf(Null), offset + 1)))
            && (b == 0xF8 && offset + 2 <= |data| ==> d == Ok((Leaf(Null), offset + 2)))
            && (b == 0xF9 && offset + 3 <= |data| ==> d == Ok((Leaf(Null), offset + 3)))
            && (b == 0xFA && offset + 5 <= |data| ==> d == Ok((Leaf(Null), offset + 5)))
            && (b == 0xFB && offset + 9 <= |data| ==> d == Ok((Leaf(Null), offset + 9)))
  {
  }

  /** A string that the data cuts short is read as far as it goes, and the cursor moves behind the data. */
  lemma ShortStringsRead(data: Bytes, offset: nat, n: nat, at: nat)
    requires offset < |data| && 0x40 <= data[offset] < 0x80 && at <= |data|
    requires ReadLength(data, offset + 1, data[offset] as nat % 32) == Ok((n, at))
    ensures var part := data[at..if at + n <= |data| then at + n else |data|];
            && (data[offset] < 0x60 ==> Decode(data, offset) == Ok((Leaf(ByteString(part)), at + n)))
            && (data[offset] >= 0x60 ==>
                Decode(data, offset) == if ValidUtf8(part) then Ok((Leaf(Text(part)), at + n)) else Err(BadUtf8))
  {
    assert data[at..|data|] == data[at..];
    assert data[offset] as nat / 32 == if data[offset] < 0x60 then 2 else 3;
  }

  /** Which first bytes raise at once, and how. */
  lemma RefusedAtOnce(data: Bytes, offset: nat)
    ensures offset >= |data| ==> Decode(data, offset) == Err(UnexpectedEnd)
    ensures offset < |data| ==>
              var low, rest := data[offset] as int % 32, |data| - offset - 1;
              && (low >= 28 ==> Decode(data, offset) == Err(ReservedLength))
              && (low == 24 && rest < 1 ==> Decode(data, offset) == Err(IndexError))
              && ((low == 25 && rest < 2) || (low == 26 && rest < 4) || (low == 27 && rest < 8) ==>
                  Decode(data, offset) == Err(StructError))
  {
  }

  /** A fault inside an array, a dictionary or a tagged item is the fault of the whole. */
  lemma InnerFaultsRaise(data: Bytes, offset: nat, n: nat, at: nat)
    requires offset < |data| && ReadLength(data, offset + 1, data[offset] as nat % 32) == Ok((n, at))
    ensures 0x80 <= data[offset] < 0xA0 && n > 0 && Decode(data, at).Err? ==>
              Decode(data, offset) == Err(Decode(data, at).error)
    ensures 0xA0 <= data[offset] < 0xC0 && n > 0 && Decode(data, at).Err? ==>
              Decode(data, offset) == Err(Decode(data, at).error)
    ensures 0xC0 <= data[offset] < 0xE0 && Decode(data, at).Err? ==> Decode(data, offset) == Err(Decode(data, at).error)
    ensures 0xA0 <= data[offset] < 0xC0 && n > 0 && Decode(data, at).Ok? ==>
              var k, mid := Decode(data, at).value.0, Decode(data, at).value.1;
              && (Decode(data, mid).Err? ==> Decode(data, offset) == Err(Decode(data, mid).error))
              && (Decode(data, mid).Ok? && !k.Leaf? ==> Decode(data, offset) == Err(UnhashableKey))
  {
    var b := data[offset];
    assert 0x80 <= b ==> b as nat / 32 == if b < 0xA0 then 4 else if b < 0xC0 then 5 else if b < 0xE0 then 6 else 7;
  }

  /** Items are read one behind the other, and the first fault ends the array. */
  lemma ItemsOneByOne(data: Bytes, offset: nat, n: nat, items: seq<Value>)
    requires n > 0
    ensures Decode(data, offset).Err? ==> DecodeItems(data, offset, n, items) == Err(Decode(data, offset).error)
    ensures Decode(data, offset).Ok? ==>
              var (item, at) := Decode(data, offset).value;
              DecodeItems(data, offset, n, items) == DecodeItems(data, at, n - 1, items + [item])
  {
  }
}
