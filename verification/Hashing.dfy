/**
 Bytes, digests and the hash function as a parameter.

 The hash is any total function from byte strings to 32-byte strings.  Nothing is assumed
 about it; in particular it is not injective, which no function with a 32-byte range can be.
 */
module Hashing {

  newtype byte = x: int | 0 <= x < 256
  type Bytes = seq<byte>

  const DIGEST_LENGTH := 32

  type Digest = d: Bytes | |d| == DIGEST_LENGTH witness seq(DIGEST_LENGTH, _ => 0)
  type HashFn = Bytes -> Digest

  /** Two different inputs with the same hash. */
  predicate Collide(h: HashFn, x: Bytes, y: Bytes) {
    x != y && h(x) == h(y)
  }
}
