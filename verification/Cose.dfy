/** COSE_Sign1 messages and the structure that is signed (RFC 9052). */
module Cose {
  import opened Hashing
  import opened Wrappers
  import opened Cbor
  import opened CborTheorems
  import opened CborCanonical

  const COSE_SIGN1_TAG := 18

  /** The protected headers as a byte string: empty headers are the empty string, not an empty map. */
  function ProtectedBytes(headers: seq<Entry>): Result<Bytes, EncodeError> {
    if headers == [] then Ok([]) else CborEncode(Map(headers))
  }

  function Bytestring(bytes: Bytes): Value {
    Leaf(ByteString(bytes))
  }

  function Sign1Array(protectedBytes: Bytes, unprotected: seq<Entry>, payload: Bytes, signature: Bytes): Value {
    Array([Bytestring(protectedBytes), Map(unprotected), Bytestring(payload), Bytestring(signature)])
  }

  function CreateCoseSign1(headers: seq<Entry>, unprotected: seq<Entry>, payload: Bytes, signature: Bytes, tag: bool)
    : Result<Bytes, EncodeError>
  {
    match ProtectedBytes(headers)
    case Err(e) => Err(e)
    case Ok(p) =>
      match CborEncode(Sign1Array(p, unprotected, payload, signature))
      case Err(e) => Err(e)
      case Ok(encoded) => Ok(if tag then Head(MT_TAG, COSE_SIGN1_TAG) + encoded else encoded)
  }

  function SigArray(context: Bytes, protectedBytes: Bytes, externalAad: Bytes, payload: Bytes): Value {
    Array([Leaf(Text(context)), Bytestring(protectedBytes), Bytestring(externalAad), Bytestring(payload)])
  }

  function CreateSigStructure(context: Bytes, headers: seq<Entry>, externalAad: Bytes, payload: Bytes)
    : Result<Bytes, EncodeError>
  {
    match ProtectedBytes(headers)
    case Err(e) => Err(e)
    case Ok(p) => CborEncode(SigArray(context, p, externalAad, payload))
  }

  lemma EncodingNotEmpty(v: Value)
    ensures Encode(v) != []
  {
    assert v.Leaf? ==> EncodeScalar(v.s) != [];
  }

  /** Protected bytes determine the headers, and empty headers differ from every other. */
  lemma ProtectedBytesBind(headers: seq<Entry>, headers': seq<Entry>)
    requires IsPython(Map(headers)) && IsPython(Map(headers'))
    requires ProtectedBytes(headers).Ok? && ProtectedBytes(headers').Ok?
    ensures ProtectedBytes(headers) == ProtectedBytes(headers') <==> Same(Map(headers), Map(headers'))
  {
    EncodingNotEmpty(Map(headers));
    EncodingNotEmpty(Map(headers'));
    if headers != [] && headers' != [] {
      EncodingIsCanonical(Map(headers), Map(headers'));
    }
  }

  lemma LeavesSame(s: Scalar, t: Scalar)
    ensures Same(Leaf(s), Leaf(t)) <==> s == t
  {
  }

  lemma SigArrayItems(c: Bytes, p: Bytes, a: Bytes, m: Bytes, c': Bytes, p': Bytes, a': Bytes, m': Bytes)
    ensures Same(SigArray(c, p, a, m), SigArray(c', p', a', m')) <==> c == c' && p == p' && a == a' && m == m'
  {
    var v, w := SigArray(c, p, a, m).items, SigArray(c', p', a', m').items;
    LeavesSame(Text(c), Text(c'));
    LeavesSame(ByteString(p), ByteString(p'));
    LeavesSame(ByteString(a), ByteString(a'));
    LeavesSame(ByteString(m), ByteString(m'));
    assert Same(SigArray(c, p, a, m), SigArray(c', p', a', m')) <==> SameItems(v, w);
    assert SameItems(v, w) <==> Same(v[0], w[0]) && Same(v[1], w[1]) && Same(v[2], w[2]) && Same(v[3], w[3]);
  }

  /**
   The signed bytes are equal exactly when the context, the protected headers (up to their
   order), the external data and the payload are.
   */
  lemma SigStructureBinds(context: Bytes, headers: seq<Entry>, externalAad: Bytes, payload: Bytes,
                          context': Bytes, headers': seq<Entry>, externalAad': Bytes, payload': Bytes)
    requires ValidUtf8(context) && ValidUtf8(context') && IsPython(Map(headers)) && IsPython(Map(headers'))
    requires CreateSigStructure(context, headers, externalAad, payload).Ok?
    requires CreateSigStructure(context', headers', externalAad', payload').Ok?
    ensures CreateSigStructure(context, headers, externalAad, payload) ==
            CreateSigStructure(context', headers', externalAad', payload') <==>
            context == context' && Same(Map(headers), Map(headers')) && externalAad == externalAad' && payload == payload'
  {
    var p, p' := ProtectedBytes(headers).value, ProtectedBytes(headers').value;
    ProtectedBytesBind(headers, headers');
    EncodingIsCanonical(SigArray(context, p, externalAad, payload), SigArray(context', p', externalAad', payload'));
    SigArrayItems(context, p, externalAad, payload, context', p', externalAad', payload');
  }

  /** The signed bytes decode to context, protected headers, external data and payload, in this order. */
  lemma SigStructureDecodes(context: Bytes, headers: seq<Entry>, externalAad: Bytes, payload: Bytes)
    requires ValidUtf8(context) && IsPython(Map(headers))
    requires CreateSigStructure(context, headers, externalAad, payload).Ok?
    ensures var d := CreateSigStructure(context, headers, externalAad, payload).value;
            var parts := [Leaf(Text(context)), Leaf(ByteString(ProtectedBytes(headers).value)),
                          Leaf(ByteString(externalAad)), Leaf(ByteString(payload))];
            Reads(d, 0, Array(parts), |d|)
  {
    var p := ProtectedBytes(headers).value;
    var v := SigArray(context, p, externalAad, payload);
    SigArraySorted(context, p, externalAad, payload);
    SigArrayEncodes(context, p, externalAad, payload);
    DecodeAtStart(v, []);
    assert Encode(v) + [] == Encode(v);
  }

  lemma SigArraySorted(context: Bytes, p: Bytes, externalAad: Bytes, payload: Bytes)
    ensures Sorted(SigArray(context, p, externalAad, payload)) == SigArray(context, p, externalAad, payload)
  {
    var v := SigArray(context, p, externalAad, payload).items;
    assert SortedItems(v) == v;
  }

  lemma SigArrayEncodes(context: Bytes, p: Bytes, externalAad: Bytes, payload: Bytes)
    requires ValidUtf8(context) && IsEncodable(SigArray(context, p, externalAad, payload))
    ensures Encodes(SigArray(context, p, externalAad, payload))
  {
  }

  /** A tag followed by an item decodes to the dictionary of the tag and the item. */
  lemma TagReads(data: Bytes, inner: Value, end: nat)
    requires HasAt(data, 0, Head(MT_TAG, COSE_SIGN1_TAG)) && Reads(data, |Head(MT_TAG, COSE_SIGN1_TAG)|, inner, end)
    ensures Reads(data, 0, Tagged(COSE_SIGN1_TAG, inner), end)
  {
    HeadReads(data, 0, MT_TAG, COSE_SIGN1_TAG);
  }

  lemma Sign1ArraySorted(p: Bytes, unprotected: seq<Entry>, payload: Bytes, signature: Bytes)
    ensures Sorted(Sign1Array(p, unprotected, payload, signature)) ==
            Array([Bytestring(p), Sorted(Map(unprotected)), Bytestring(payload), Bytestring(signature)])
  {
    var v := Sign1Array(p, unprotected, payload, signature).items;
    assert SortedItems(v) == [Bytestring(p), Sorted(Map(unprotected)), Bytestring(payload), Bytestring(signature)];
  }

  /** A message decodes to tag 18, when it is tagged, and its four parts, and nothing is left over. */
  lemma Sign1Decodes(headers: seq<Entry>, unprotected: seq<Entry>, payload: Bytes, signature: Bytes, tag: bool)
    requires IsPython(Map(headers)) && IsPython(Map(unprotected))
    requires CreateCoseSign1(headers, unprotected, payload, signature, tag).Ok?
    ensures var message := CreateCoseSign1(headers, unprotected, payload, signature, tag).value;
            var p := ProtectedBytes(headers).value;
            var parts := Array([Bytestring(p), Sorted(Map(unprotected)), Bytestring(payload), Bytestring(signature)]);
            Reads(message, 0, if tag then Tagged(18, parts) else parts, |message|) && (tag ==> message[0] == 0xD2)
  {
    var p := ProtectedBytes(headers).value;
    var v := Sign1Array(p, unprotected, payload, signature);
    var head := if tag then Head(MT_TAG, COSE_SIGN1_TAG) else [];
    RoundTrip(v, head, []);
    Sign1ArraySorted(p, unprotected, payload, signature);
    assert head + Encode(v) + [] == head + Encode(v);
    if tag {
      TagReads(head + Encode(v), Sorted(v), |head + Encode(v)|);
    } else {
      assert head + Encode(v) == Encode(v);
    }
  }

  /** The protected part of a message decodes to the headers; only empty headers leave no item. */
  lemma ProtectedDecodes(headers: seq<Entry>)
    requires IsPython(Map(headers)) && ProtectedBytes(headers).Ok?
    ensures var p := ProtectedBytes(headers).value;
            (headers == [] <==> p == []) && (headers != [] ==> Reads(p, 0, Sorted(Map(headers)), |p|))
  {
    if headers != [] {
      EncodingNotEmpty(Map(headers));
      DecodeAtStart(Map(headers), []);
      assert Encode(Map(headers)) + [] == Encode(Map(headers));
    }
  }
}
