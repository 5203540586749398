/** Big-endian numbers and the two orders on byte strings: bytewise, and length first. */
module ByteOrder {
  import opened Hashing

  ghost function Pow256(k: nat): nat {
    if k == 0 then 1 else 256 * Pow256(k - 1)
  }

  /** The k low bytes of n, most significant first. */
  function BigEndian(n: nat, k: nat): (r: Bytes)
    ensures |r| == k
  {
    if k == 0 then [] else BigEndian(n / 256, k - 1) + [(n % 256) as byte]
  }

  function FromBigEndian(s: Bytes): nat {
    if s == [] then 0 else 256 * FromBigEndian(s[..|s| - 1]) + s[|s| - 1] as nat
  }

  lemma {:induction false} BigEndianValue(n: nat, k: nat)
    requires n < Pow256(k)
    ensures FromBigEndian(BigEndian(n, k)) == n
  {
    if k > 0 {
      BigEndianValue(n / 256, k - 1);
      assert BigEndian(n, k)[..k - 1] == BigEndian(n / 256, k - 1);
    }
  }

  /** Python's order on bytes: the first difference decides, a proper prefix comes first. */
  predicate LexLess(a: Bytes, b: Bytes) {
    b != [] && (a == [] || a[0] < b[0] || (a[0] == b[0] && LexLess(a[1..], b[1..])))
  }

  /** The order of the encoder's sort key: shorter first, then bytewise. */
  predicate LengthFirst(a: Bytes, b: Bytes) {
    |a| < |b| || (|a| == |b| && LexLess(a, b))
  }

  /** a and b differ before either ends, and a has the smaller byte there. */
  predicate DiffersBelow(a: Bytes, b: Bytes) {
    a != [] && b != [] && (a[0] < b[0] || (a[0] == b[0] && DiffersBelow(a[1..], b[1..])))
  }

  lemma {:induction false} DifferenceDecides(a: Bytes, b: Bytes, u: Bytes, v: Bytes)
    requires DiffersBelow(a, b)
    ensures LexLess(a + u, b + v)
    decreases |a|
  {
    if a[0] == b[0] {
      DifferenceDecides(a[1..], b[1..], u, v);
      assert (a + u)[1..] == a[1..] + u && (b + v)[1..] == b[1..] + v;
    }
  }

  lemma {:induction false} DiffersAfter(p: Bytes, a: Bytes, b: Bytes)
    requires DiffersBelow(a, b)
    ensures DiffersBelow(p + a, p + b)
    decreases |p|
  {
    if p == [] {
      assert p + a == a && p + b == b;
    } else {
      DiffersAfter(p[1..], a, b);
      assert (p + a)[1..] == p[1..] + a && (p + b)[1..] == p[1..] + b;
    }
  }

  lemma {:induction false} DiffersBefore(a: Bytes, b: Bytes, u: Bytes, v: Bytes)
    requires DiffersBelow(a, b)
    ensures DiffersBelow(a + u, b + v)
    decreases |a|
  {
    if a[0] == b[0] {
      DiffersBefore(a[1..], b[1..], u, v);
      assert (a + u)[1..] == a[1..] + u && (b + v)[1..] == b[1..] + v;
    }
  }

  /** Big-endian numbers of one width are ordered as the numbers are. */
  lemma {:induction false} BigEndianOrder(m: nat, n: nat, k: nat)
    requires m < n < Pow256(k)
    ensures DiffersBelow(BigEndian(m, k), BigEndian(n, k))
  {
    if k > 0 {
      if m / 256 < n / 256 {
        BigEndianOrder(m / 256, n / 256, k - 1);
        DiffersBefore(BigEndian(m / 256, k - 1), BigEndian(n / 256, k - 1),
                      [(m % 256) as byte], [(n % 256) as byte]);
      } else {
        DiffersAfter(BigEndian(m / 256, k - 1), [(m % 256) as byte], [(n % 256) as byte]);
      }
    }
  }

  lemma {:induction false} LexTransitive(a: Bytes, b: Bytes, c: Bytes)
    requires LexLess(a, b) && LexLess(b, c)
    ensures LexLess(a, c)
    decreases |a|
  {
    if a != [] && a[0] == b[0] == c[0] {
      LexTransitive(a[1..], b[1..], c[1..]);
    }
  }

  lemma {:induction false} LexTotal(a: Bytes, b: Bytes)
    ensures a != b ==> LexLess(a, b) || LexLess(b, a)
    ensures !(LexLess(a, b) && LexLess(b, a))
    ensures !LexLess(a, a)
    decreases |a|
  {
    if a != [] && b != [] && a[0] == b[0] {
      LexTotal(a[1..], b[1..]);
      assert a == [a[0]] + a[1..] && b == [b[0]] + b[1..];
    }
    if a != [] {
      LexTotal(a[1..], a[1..]);
    }
  }

  lemma LengthFirstTransitive(a: Bytes, b: Bytes, c: Bytes)
    requires LengthFirst(a, b) && LengthFirst(b, c)
    ensures LengthFirst(a, c)
  {
    if |a| == |b| == |c| {
      LexTransitive(a, b, c);
    }
  }

  lemma LengthFirstTotal(a: Bytes, b: Bytes)
    ensures a != b ==> LengthFirst(a, b) || LengthFirst(b, a)
    ensures !(LengthFirst(a, b) && LengthFirst(b, a))
    ensures !LengthFirst(a, a)
  {
    LexTotal(a, b);
  }
}
