/** CBOR values, their deterministic encoding and the streaming decoder (RFC 8949). */
module Cbor {
  import opened Hashing
  import opened Wrappers
  import opened ByteOrder
  import opened KeyedSort

  const MT_UINT := 0
  const MT_NINT := 1
  const MT_BSTR := 2
  const MT_TSTR := 3
  const MT_ARRAY := 4
  const MT_MAP := 5
  const MT_TAG := 6
  const MT_SIMPLE := 7

  const LIMIT: int := 0x1_0000_0000_0000_0000

  /** Values without parts, which are also the dictionary keys; text is kept as its UTF-8 bytes. */
  datatype Scalar = Null | Bool(b: bool) | Int(i: int) | ByteString(bytes: Bytes) | Text(utf8: Bytes)

  /** A dictionary is the list of its entries in insertion order. */
  datatype Value = Leaf(s: Scalar) | Array(items: seq<Value>) | Map(entries: seq<Entry>)

  datatype Entry = Entry(key: Scalar, value: Value)

  /* ----- Python values ----- */

  /** Keys that one dictionary cannot hold side by side: Python compares True and 1 as equal. */
  predicate SameKey(a: Scalar, b: Scalar) {
    a == b || (NumberOf(a).Some? && NumberOf(a) == NumberOf(b))
  }

  function NumberOf(s: Scalar): Option<int> {
    match s
    case Int(i) => Some(i)
    case Bool(b) => Some(if b then 1 else 0)
    case _ => None
  }

  /** What a strict UTF-8 decoder expects next: section 4 of RFC 3629, which bars surrogates and overlong forms. */
  datatype Utf8State = Start | Tails(n: nat) | AfterE0 | AfterED | AfterF0 | AfterF4 | Rejected

  function Utf8Next(state: Utf8State, c: byte): Utf8State {
    match state
    case Start =>
      if c < 0x80 then Start
      else if 0xC2 <= c <= 0xDF then Tails(1)
      else if c == 0xE0 then AfterE0
      else if c == 0xED then AfterED
      else if 0xE1 <= c <= 0xEF then Tails(2)
      else if c == 0xF0 then AfterF0
      else if 0xF1 <= c <= 0xF3 then Tails(3)
      else if c == 0xF4 then AfterF4
      else Rejected
    case Tails(n) => if 0x80 <= c <= 0xBF then (if n <= 1 then Start else Tails(n - 1)) else Rejected
    case AfterE0 => if 0xA0 <= c <= 0xBF then Tails(1) else Rejected
    case AfterED => if 0x80 <= c <= 0x9F then Tails(1) else Rejected
    case AfterF0 => if 0x90 <= c <= 0xBF then Tails(2) else Rejected
    case AfterF4 => if 0x80 <= c <= 0x8F then Tails(2) else Rejected
    case Rejected => Rejected
  }

  function Utf8Run(state: Utf8State, s: Bytes): Utf8State
    decreases |s|
  {
    if s == [] then state else Utf8Run(Utf8Next(state, s[0]), s[1..])
  }

  /** What bytes.decode("utf-8") accepts. */
  predicate ValidUtf8(s: Bytes) {
    Utf8Run(Start, s) == Start
  }

  predicate ScalarIsPython(s: Scalar) {
    s.Text? ==> ValidUtf8(s.utf8)
  }

  predicate KeysAreDistinct(entries: seq<Entry>) {
    forall i, j :: 0 <= i < j < |entries| ==> !SameKey(entries[i].key, entries[j].key)
  }

  /** Values that Python can hold: strings are text and the keys of a dictionary are distinct. */
  predicate IsPython(v: Value) {
    match v
    case Leaf(s) => ScalarIsPython(s)
    case Array(items) => forall i :: 0 <= i < |items| ==> IsPython(items[i])
    case Map(entries) =>
      && KeysAreDistinct(entries)
      && forall i :: 0 <= i < |entries| ==> ScalarIsPython(entries[i].key) && IsPython(entries[i].value)
  }

  /* ----- Encoding ----- */

  datatype EncodeError = ValueTooLarge

  /** Header bytes for values below 2^64; larger ones raise, which CborEncode accounts for. */
  function Head(major: nat, val: nat): Bytes
    requires major < 8
  {
    var m := 32 * major;
    if val < 24 then [(m + val) as byte]
    else if val <= 0xFF then [(m + 24) as byte] + BigEndian(val, 1)
    else if val <= 0xFFFF then [(m + 25) as byte] + BigEndian(val, 2)
    else if val <= 0xFFFF_FFFF then [(m + 26) as byte] + BigEndian(val, 4)
    else [(m + 27) as byte] + BigEndian(val, 8)
  }

  function EncodeScalar(s: Scalar): Bytes {
    match s
    case Null => [0xF6]
    case Bool(b) => if b then [0xF5] else [0xF4]
    case Int(i) => if i >= 0 then Head(MT_UINT, i) else Head(MT_NINT, -1 - i)
    case ByteString(bytes) => Head(MT_BSTR, |bytes|) + bytes
    case Text(utf8) => Head(MT_TSTR, |utf8|) + utf8
  }

  type Pair = (Bytes, Bytes)

  const PAIR_KEY: Pair -> Bytes := (p: Pair) => p.0

  function Encode(v: Value): Bytes {
    match v
    case Leaf(s) => EncodeScalar(s)
    case Array(items) => Head(MT_ARRAY, |items|) + EncodeItems(items)
    case Map(entries) => Head(MT_MAP, |entries|) + Join(Sort(PAIR_KEY, EncodeEntries(entries)))
  }

  function EncodeItems(items: seq<Value>): Bytes {
    if items == [] then [] else Encode(items[0]) + EncodeItems(items[1..])
  }

  function EncodeEntries(entries: seq<Entry>): (pairs: seq<Pair>) {
    if entries == [] then []
    else [EncodeEntry(entries[0])] + EncodeEntries(entries[1..])
  }

  function EncodeEntry(e: Entry): Pair {
    (EncodeScalar(e.key), Encode(e.value))
  }

  function Join(pairs: seq<Pair>): Bytes {
    if pairs == [] then [] else pairs[0].0 + pairs[0].1 + Join(pairs[1..])
  }

  predicate ScalarIsEncodable(s: Scalar) {
    match s
    case Int(i) => -LIMIT <= i < LIMIT
    case ByteString(bytes) => |bytes| < LIMIT
    case Text(utf8) => |utf8| < LIMIT
    case _ => true
  }

  /** No number or length anywhere in the value needs more than 64 bits. */
  predicate IsEncodable(v: Value) {
    match v
    case Leaf(s) => ScalarIsEncodable(s)
    case Array(items) => |items| < LIMIT && forall i :: 0 <= i < |items| ==> IsEncodable(items[i])
    case Map(entries) =>
      && |entries| < LIMIT
      && forall i :: 0 <= i < |entries| ==> ScalarIsEncodable(entries[i].key) && IsEncodable(entries[i].value)
  }

  function CborEncode(v: Value): Result<Bytes, EncodeError> {
    if IsEncodable(v) then Ok(Encode(v)) else Err(ValueTooLarge)
  }

  /* ----- Decoding ----- */

  datatype DecodeError = UnexpectedEnd | IndexError | StructError | ReservedLength | BadUtf8 | UnhashableKey

  type Decoded<+T> = Result<(T, nat), DecodeError>

  /** The number in a header whose low five bits are val; offset is behind the first byte. */
  function ReadLength(data: Bytes, offset: nat, val: nat): (r: Decoded<nat>)
    requires offset <= |data|
    ensures r.Ok? ==> offset <= r.value.1 <= |data|
  {
    if val < 24 then Ok((val, offset))
    else if val == 24 then
      if offset < |data| then Ok((data[offset] as nat, offset + 1)) else Err(IndexError)
    else if val <= 27 then
      var size := if val == 25 then 2 else if val == 26 then 4 else 8;
      if offset + size <= |data| then Ok((FromBigEndian(data[offset..offset + size]), offset + size))
      else Err(StructError)
    else Err(ReservedLength)
  }

  /** data[lo:lo + length] of Python, which stops at the end of the data. */
  function Slice(data: Bytes, lo: nat, length: nat): Bytes
    requires lo <= |data|
  {
    if lo + length <= |data| then data[lo..lo + length] else data[lo..]
  }

  /** mapping[key] = value: an equal key keeps its place and its first spelling. */
  function Assign(mapping: seq<Entry>, key: Scalar, value: Value): seq<Entry> {
    if mapping == [] then [Entry(key, value)]
    else if SameKey(mapping[0].key, key) then [Entry(mapping[0].key, value)] + mapping[1..]
    else [mapping[0]] + Assign(mapping[1..], key, value)
  }

  const TAG_KEY: Scalar := Text([95, 95, 99, 98, 111, 114, 95, 116, 97, 103, 95, 95])  // __cbor_tag__
  const TAG_VALUE_KEY: Scalar := Text([118, 97, 108, 117, 101])  // value

  /** The dictionary that the decoder makes of a tagged item. */
  function Tagged(tag: nat, inner: Value): Value {
    Map([Entry(TAG_KEY, Leaf(Int(tag))), Entry(TAG_VALUE_KEY, inner)])
  }

  /** The item at an offset and the offset behind it. */
  function Decode(data: Bytes, offset: nat): (r: Decoded<Value>)
    ensures r.Ok? ==> offset < r.value.1 && offset < |data|
    decreases if offset <= |data| then |data| - offset else 0, 0
  {
    if offset >= |data| then Err(UnexpectedEnd)
    else
      var first := data[offset] as nat;
      var major, val := first / 32, first % 32;
      match ReadLength(data, offset + 1, val)
      case Err(e) => Err(e)
      case Ok((length, at)) =>
        if major == MT_UINT then Ok((Leaf(Int(length)), at))
        else if major == MT_NINT then Ok((Leaf(Int(-1 - length)), at))
        else if major == MT_BSTR then Ok((Leaf(ByteString(Slice(data, at, length))), at + length))
        else if major == MT_TSTR then
          var text := Slice(data, at, length);
          if ValidUtf8(text) then Ok((Leaf(Text(text)), at + length)) else Err(BadUtf8)
        else if major == MT_ARRAY then
          match DecodeItems(data, at, length, [])
          case Err(e) => Err(e)
          case Ok((items, end)) => Ok((Array(items), end))
        else if major == MT_MAP then
          match DecodeEntries(data, at, length, [])
          case Err(e) => Err(e)
          case Ok((entries, end)) => Ok((Map(entries), end))
        else if major == MT_TAG then
          match Decode(data, at)
          case Err(e) => Err(e)
          case Ok((inner, end)) => Ok((Tagged(length, inner), end))
        else if val == 20 then Ok((Leaf(Bool(false)), at))
        else if val == 21 then Ok((Leaf(Bool(true)), at))
        else Ok((Leaf(Null), at))
  }

  /** n further items, appended to those already read. */
  function DecodeItems(data: Bytes, offset: nat, n: nat, items: seq<Value>): (r: Decoded<seq<Value>>)
    ensures r.Ok? ==> offset <= r.value.1
    decreases if offset <= |data| then |data| - offset else 0, n + 1
  {
    if n == 0 then Ok((items, offset))
    else
      match Decode(data, offset)
      case Err(e) => Err(e)
      case Ok((item, at)) => DecodeItems(data, at, n - 1, items + [item])
  }

  /** n further entries, assigned into the dictionary built so far. */
  function DecodeEntries(data: Bytes, offset: nat, n: nat, mapping: seq<Entry>): (r: Decoded<seq<Entry>>)
    ensures r.Ok? ==> offset <= r.value.1
    decreases if offset <= |data| then |data| - offset else 0, n + 1
  {
    if n == 0 then Ok((mapping, offset))
    else
      match Decode(data, offset)
      case Err(e) => Err(e)
      case Ok((k, at)) =>
        match Decode(data, at)
        case Err(e) => Err(e)
        case Ok((v, end)) =>
          if k.Leaf? then DecodeEntries(data, end, n - 1, Assign(mapping, k.s, v)) else Err(UnhashableKey)
  }

  /** The decoder as the source runs it, with its cursor and its loops. */
  method CborDecodeStream(data: Bytes, start: nat) returns (r: Decoded<Value>)
    ensures r == Decode(data, start)
    decreases if start <= |data| then |data| - start else 0, 0
  {
    var offset := start;
    if offset >= |data| {
      return Err(UnexpectedEnd);
    }
    var first := data[offset] as nat;
    var major, val := first / 32, first % 32;
    offset := offset + 1;
    var header := ReadLength(data, offset, val);
    if header.Err? {
      return Err(header.error);
    }
    var length: nat := header.value.0;
    offset := header.value.1;

    if major == MT_UINT {
      return Ok((Leaf(Int(length)), offset));
    } else if major == MT_NINT {
      return Ok((Leaf(Int(-1 - length)), offset));
    } else if major == MT_BSTR {
      return Ok((Leaf(ByteString(Slice(data, offset, length))), offset + length));
    } else if major == MT_TSTR {
      var text := Slice(data, offset, length);
      if !ValidUtf8(text) {
        return Err(BadUtf8);
      }
      return Ok((Leaf(Text(text)), offset + length));
    } else if major == MT_ARRAY {
      var items := ReadItems(data, offset, length);
      return match items case Err(e) => Err(e) case Ok((list, end)) => Ok((Array(list), end));
    } else if major == MT_MAP {
      var mapping := ReadEntries(data, offset, length);
      return match mapping case Err(e) => Err(e) case Ok((dict, end)) => Ok((Map(dict), end));
    } else if major == MT_TAG {
      var inner := CborDecodeStream(data, offset);
      return match inner case Err(e) => Err(e) case Ok((v, end)) => Ok((Tagged(length, v), end));
    } else if val == 20 {
      return Ok((Leaf(Bool(false)), offset));
    } else if val == 21 {
      return Ok((Leaf(Bool(true)), offset));
    }
    return Ok((Leaf(Null), offset));
  }

  /** The array loop of CborDecodeStream. */
  method ReadItems(data: Bytes, start: nat, length: nat) returns (r: Decoded<seq<Value>>)
    ensures r == DecodeItems(data, start, length, [])
    decreases if start <= |data| then |data| - start else 0, length + 1
  {
    var items, offset, i := [], start, 0;
    while i < length
      invariant 0 <= i <= length && start <= offset && (i > 0 ==> start < offset && start < |data|)
      invariant DecodeItems(data, start, length, []) == DecodeItems(data, offset, length - i, items)
    {
      var item := CborDecodeStream(data, offset);
      if item.Err? {
        return Err(item.error);
      }
      items := items + [item.value.0];
      offset := item.value.1;
      i := i + 1;
    }
    return Ok((items, offset));
  }

  /** The map loop of CborDecodeStream. */
  method ReadEntries(data: Bytes, start: nat, length: nat) returns (r: Decoded<seq<Entry>>)
    ensures r == DecodeEntries(data, start, length, [])
    decreases if start <= |data| then |data| - start else 0, length + 1
  {
    var mapping, offset, i := [], start, 0;
    while i < length
      invariant 0 <= i <= length && start <= offset && (i > 0 ==> start < offset && start < |data|)
      invariant DecodeEntries(data, start, length, []) == DecodeEntries(data, offset, length - i, mapping)
    {
      var k := CborDecodeStream(data, offset);
      if k.Err? {
        return Err(k.error);
      }
      var v := CborDecodeStream(data, k.value.1);
      if v.Err? {
        return Err(v.error);
      }
      if !k.value.0.Leaf? {
        return Err(UnhashableKey);
      }
      mapping := Assign(mapping, k.value.0.s, v.value.0);
      offset := v.value.1;
      i := i + 1;
    }
    return Ok((mapping, offset));
  }

  method CborDecode(data: Bytes) returns (r: Result<Value, DecodeError>)
    ensures r == match Decode(data, 0) case Err(e) => Err(e) case Ok((v, _)) => Ok(v)
  {
    var item := CborDecodeStream(data, 0);
    return match item case Err(e) => Err(e) case Ok((v, _)) => Ok(v);
  }
}
