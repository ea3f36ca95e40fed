/**
  The eight bits of an octet, between the integers of the framing code and the sixteen-bit register
  of the CRC.
 */
module Octets {
  import opened Bytes

  datatype Bits = Bits(b0: bool, b1: bool, b2: bool, b3: bool, b4: bool, b5: bool, b6: bool, b7: bool)

  predicate Odd(n: int) {
    n % 2 == 1
  }

  function Half(n: int): int {
    n / 2
  }

  function Put(bit: bool, rest: int): int {
    (if bit then 1 else 0) + 2 * rest
  }

  /** The bits of an octet, the least significant first. */
  function ToBits(b: byte): Bits {
    var h1 := Half(b);
    var h2 := Half(h1);
    var h3 := Half(h2);
    var h4 := Half(h3);
    var h5 := Half(h4);
    var h6 := Half(h5);
    var h7 := Half(h6);
    Bits(Odd(b), Odd(h1), Odd(h2), Odd(h3), Odd(h4), Odd(h5), Odd(h6), Odd(h7))
  }

  function FromBits(x: Bits): byte {
    Put(x.b0, Put(x.b1, Put(x.b2, Put(x.b3, Put(x.b4, Put(x.b5, Put(x.b6, Put(x.b7, 0))))))))
  }

  lemma PutOddHalf(bit: bool, rest: int)
    ensures Odd(Put(bit, rest)) == bit && Half(Put(bit, rest)) == rest
  {
  }

  lemma OddHalfPut(n: int)
    ensures Put(Odd(n), Half(n)) == n
  {
  }

  lemma BitsOfOctet(b: byte)
    ensures FromBits(ToBits(b)) == b
  {
    var h1 := Half(b);
    var h2 := Half(h1);
    var h3 := Half(h2);
    var h4 := Half(h3);
    var h5 := Half(h4);
    var h6 := Half(h5);
    var h7 := Half(h6);
    assert 0 <= h7 <= 1 && Half(h7) == 0;
    hide Put, Odd, Half;
    OddHalfPut(b);
    OddHalfPut(h1);
    OddHalfPut(h2);
    OddHalfPut(h3);
    OddHalfPut(h4);
    OddHalfPut(h5);
    OddHalfPut(h6);
    OddHalfPut(h7);
  }

  lemma OctetOfBits(x: Bits)
    ensures ToBits(FromBits(x)) == x
  {
    hide Put, Odd, Half;
    var r7 := Put(x.b7, 0);
    var r6 := Put(x.b6, r7);
    var r5 := Put(x.b5, r6);
    var r4 := Put(x.b4, r5);
    var r3 := Put(x.b3, r4);
    var r2 := Put(x.b2, r3);
    var r1 := Put(x.b1, r2);
    PutOddHalf(x.b0, r1);
    PutOddHalf(x.b1, r2);
    PutOddHalf(x.b2, r3);
    PutOddHalf(x.b3, r4);
    PutOddHalf(x.b4, r5);
    PutOddHalf(x.b5, r6);
    PutOddHalf(x.b6, r7);
    PutOddHalf(x.b7, 0);
  }

  function Pick(bit: bool, weight: bv16): bv16 {
    if bit then weight else 0
  }

  /** The bits in the low half of a register. */
  function Pack(x: Bits): bv16 {
    Pick(x.b0, 1) | Pick(x.b1, 2) | Pick(x.b2, 4) | Pick(x.b3, 8) | Pick(x.b4, 16) | Pick(x.b5, 32) | Pick(x.b6, 64) |
    Pick(x.b7, 128)
  }

  function Unpack(w: bv16): Bits {
    Bits(w & 1 != 0, w & 2 != 0, w & 4 != 0, w & 8 != 0, w & 16 != 0, w & 32 != 0, w & 64 != 0, w & 128 != 0)
  }

  lemma UnpackPack(x: Bits)
    ensures Unpack(Pack(x)) == x && Pack(x) <= 0xFF
  {
  }

  lemma PackUnpack(w: bv16)
    requires w <= 0xFF
    ensures Pack(Unpack(w)) == w
  {
  }
}
