/** The string that an idempotency key is derived from, and what it binds. */
module Idempotency {
  import opened Decimal

  /** A SHA-256 digest in lower-case hexadecimal. */
  ghost predicate IsHexDigest(s: string) {
    |s| == 64 && forall i :: 0 <= i < |s| ==> IsDigit(s[i]) || 'a' <= s[i] <= 'f'
  }

  function BindingString(sessionId: string, sequenceNumber: int, payloadHash: string): string {
    sessionId + ":" + PrintInt(sequenceNumber) + ":" + payloadHash
  }

  /**
   The binding string determines its three parts, even when the session id contains colons or
   ends like a sequence number.
   */
  lemma BindingStringInjective(sessionId: string, sequenceNumber: int, payloadHash: string,
                               sessionId': string, sequenceNumber': int, payloadHash': string)
    requires IsHexDigest(payloadHash) && IsHexDigest(payloadHash')
    requires BindingString(sessionId, sequenceNumber, payloadHash) ==
             BindingString(sessionId', sequenceNumber', payloadHash')
    ensures sessionId == sessionId' && sequenceNumber == sequenceNumber' && payloadHash == payloadHash'
  {
    SplitAtLast(':', sessionId + ":" + PrintInt(sequenceNumber), payloadHash,
                sessionId' + ":" + PrintInt(sequenceNumber'), payloadHash');
    SplitAtLast(':', sessionId, PrintInt(sequenceNumber), sessionId', PrintInt(sequenceNumber'));
    PrintIntInjective(sequenceNumber, sequenceNumber');
  }

  /** The payload digest and the name-based UUID are functions that the caller supplies. */
  function GenerateKey<Payload>(digest: Payload -> string, uuid5: string -> string,
                                sessionId: string, sequenceNumber: int, payload: Payload): string
  {
    uuid5(BindingString(sessionId, sequenceNumber, digest(payload)))
  }

  /**
   Two calls share a key exactly when session, number and payload digest agree, or the UUID
   function maps two different binding strings to one value.
   */
  lemma KeysAgree<Payload>(digest: Payload -> string, uuid5: string -> string,
                           s: string, n: int, p: Payload, s': string, n': int, p': Payload)
    requires IsHexDigest(digest(p)) && IsHexDigest(digest(p'))
    ensures var b, b' := BindingString(s, n, digest(p)), BindingString(s', n', digest(p'));
            GenerateKey(digest, uuid5, s, n, p) == GenerateKey(digest, uuid5, s', n', p') <==>
            (s == s' && n == n' && digest(p) == digest(p')) || (b != b' && uuid5(b) == uuid5(b'))
  {
    var b, b' := BindingString(s, n, digest(p)), BindingString(s', n', digest(p'));
    if b == b' {
      BindingStringInjective(s, n, digest(p), s', n', digest(p'));
    }
  }

  const KEY_HEADER := "Idempotency-Key"

  /** A dictionary of headers, which callers may share. */
  class Headers {
    var entries: map<string, string>

    constructor (entries: map<string, string>)
      ensures this.entries == entries
    {
      this.entries := entries;
    }
  }

  /** Writes the key into the caller's dictionary and returns that dictionary. */
  method BindHeaders<Payload>(headers: Headers, digest: Payload -> string, uuid5: string -> string,
                              sessionId: string, sequenceNumber: int, payload: Payload)
    returns (bound: Headers)
    modifies headers
    ensures bound == headers
    ensures headers.entries ==
            old(headers.entries)[KEY_HEADER := GenerateKey(digest, uuid5, sessionId, sequenceNumber, payload)]
  {
    var key := GenerateKey(digest, uuid5, sessionId, sequenceNumber, payload);
    headers.entries := headers.entries[KEY_HEADER := key];
    bound := headers;
  }
}
