/** Octets, fixed-width integer fields, and concatenation of octet strings. */
module Bytes {
  type byte = x: int | 0 <= x < 256
  type bytes = seq<byte>

  /** `int.from_bytes(b, "big")` on two octets. */
  function Big16(hi: byte, lo: byte): (n: nat)
    ensures n < 0x1_0000
  {
    256 * hi + lo
  }

  /** A number in two octets, the high one first. */
  function TwoOctets(n: nat): (b: bytes)
    requires n < 0x1_0000
    ensures |b| == 2
  {
    [n / 256, n % 256]
  }

  lemma TwoOctetsReadBack(n: nat)
    requires n < 0x1_0000
    ensures Big16(TwoOctets(n)[0], TwoOctets(n)[1]) == n
  {
  }

  /** `int.from_bytes(b, "little")` on two octets. */
  function Little16(lo: byte, hi: byte): (n: nat)
    ensures n < 0x1_0000
  {
    Big16(hi, lo)
  }

  /** `int.from_bytes(b, "little")` on the four octets starting at `at`. */
  function Little32(s: bytes, at: nat): (n: nat)
    requires at + 4 <= |s|
    ensures n < 0x1_0000_0000
  {
    Little16(s[at], s[at + 1]) + 0x1_0000 * Little16(s[at + 2], s[at + 3])
  }

  function Flatten<T>(parts: seq<seq<T>>): (s: seq<T>)
  {
    if parts == [] then [] else parts[0] + Flatten(parts[1..])
  }

  lemma Associative<T>(a: seq<T>, b: seq<T>, c: seq<T>)
    ensures (a + b) + c == a + (b + c)
  {
  }

  lemma {:induction false} FlattenAppend<T>(a: seq<seq<T>>, b: seq<seq<T>>)
    ensures Flatten(a + b) == Flatten(a) + Flatten(b)
  {
    if a == [] {
      assert a + b == b;
    } else {
      assert (a + b)[0] == a[0] && (a + b)[1..] == a[1..] + b;
      FlattenAppend(a[1..], b);
      Associative(a[0], Flatten(a[1..]), Flatten(b));
    }
  }

  lemma FlattenCons<T>(a: seq<T>, parts: seq<seq<T>>)
    ensures Flatten([a] + parts) == a + Flatten(parts)
  {
    assert ([a] + parts)[1..] == parts;
  }

}
