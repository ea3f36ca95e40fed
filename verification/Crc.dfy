/**
  The DNP3 link-layer CRC: sixteen bits, reflected, polynomial 0xA6BC, complemented, sent low octet
  first. The register step is a linear bijection, so no burst of sixteen bits or fewer goes unseen.
 */
module Crc {
  import opened Bytes
  import opened Octets

  /** A sixteen-bit register. The algebra below works on words and leaves the bits alone. */
  datatype Word = Word(bits: bv16)

  const ZERO := Word(0)

  function Xor(a: Word, b: Word): Word {
    Word(XorOf(a.bits, b.bits))
  }

  function XorOf(a: bv16, b: bv16): bv16 {
    a ^ b
  }

  function Step(r: Word): Word {
    Word(StepBits(r.bits))
  }

  function StepBits(r: bv16): bv16 {
    if r & 1 == 1 then (r >> 1) ^ 0xA6BC else r >> 1
  }

  function Octet(b: byte): Word {
    Word(Pack(ToBits(b)))
  }

  function Complement(r: Word): Word {
    Word(!r.bits)
  }

  /** The word sent as the octets `lo`, `hi`. */
  function FromLittle(lo: byte, hi: byte): Word {
    Word(Joined(Pack(ToBits(lo)), Pack(ToBits(hi))))
  }

  function Joined(lo: bv16, hi: bv16): bv16 {
    lo | (hi << 8)
  }

  function LowHalf(b: bv16): bv16 {
    b & 0xFF
  }

  function HighHalf(b: bv16): bv16 {
    b >> 8
  }

  function Low(r: Word): byte {
    FromBits(Unpack(LowHalf(r.bits)))
  }

  function High(r: Word): byte {
    FromBits(Unpack(HighHalf(r.bits)))
  }

  function Steps(n: nat, r: Word): Word {
    if n == 0 then r else Steps(n - 1, Step(r))
  }

  /** The register after the octets `data`, starting from `r`. */
  function Register(r: Word, data: bytes): Word
    decreases |data|
  {
    if data == [] then r else Register(Steps(8, Xor(r, Octet(data[0]))), data[1..])
  }

  function Checksum(data: bytes): Word {
    Complement(Register(ZERO, data))
  }

  lemma StepUnfolds(r: Word)
    ensures Step(r) == Word(if r.bits & 1 == 1 then (r.bits >> 1) ^ 0xA6BC else r.bits >> 1)
  {
  }

  method Dnp3Crc(data: bytes) returns (checksum: Word)
    ensures checksum == Checksum(data)
  {
    hide Step, Xor, Octet, Complement;
    var crc := ZERO;
    assert data[0..] == data;
    for i := 0 to |data|
      invariant Register(crc, data[i..]) == Register(ZERO, data)
    {
      assert data[i..][1..] == data[i + 1..];
      crc := Xor(crc, Octet(data[i]));
      ghost var start := crc;
      for k := 0 to 8
        invariant Steps(8 - k, crc) == Steps(8, start)
      {
        StepUnfolds(crc);
        crc := Word(if crc.bits & 1 == 1 then (crc.bits >> 1) ^ 0xA6BC else crc.bits >> 1);
      }
    }
    checksum := Complement(crc);
  }

  // ---- The algebra of words ----

  lemma XorRaw(a: bv16, b: bv16)
    ensures a ^ b == 0 <==> a == b
    ensures a ^ 0 == a && 0 ^ a == a && a ^ b == b ^ a
  {
  }

  lemma XorBits(a: bv16, b: bv16)
    ensures XorOf(a, b) == 0 <==> a == b
    ensures XorOf(a, 0) == a && XorOf(0, a) == a && XorOf(a, b) == XorOf(b, a)
  {
    XorRaw(a, b);
  }

  lemma XorBitsThree(a: bv16, b: bv16, c: bv16)
    ensures XorOf(XorOf(a, b), c) == XorOf(a, XorOf(b, c))
    ensures XorOf(a, c) == XorOf(b, c) ==> a == b
  {
  }

  lemma XorLaws(a: Word, b: Word, c: Word)
    ensures Xor(a, b) == ZERO <==> a == b
    ensures Xor(a, ZERO) == a && Xor(ZERO, a) == a && Xor(a, b) == Xor(b, a)
    ensures Xor(Xor(a, b), c) == Xor(a, Xor(b, c))
    ensures Xor(a, c) == Xor(b, c) ==> a == b
  {
    hide XorOf;
    XorBits(a.bits, b.bits);
    XorBits(a.bits, 0);
    XorBitsThree(a.bits, b.bits, c.bits);
  }

  lemma XorParts(x: bv16, y: bv16)
    ensures (x ^ y) & 1 == 1 <==> (x & 1 == 1) != (y & 1 == 1)
    ensures (x ^ y) >> 1 == (x >> 1) ^ (y >> 1)
  {
  }

  lemma XorShuffle(p: bv16, q: bv16, c: bv16)
    ensures (p ^ q) ^ c == p ^ (q ^ c) == (p ^ c) ^ q
    ensures p ^ q == (p ^ c) ^ (q ^ c)
  {
  }

  lemma StepBitsLinear(x: bv16, y: bv16)
    ensures StepBits(XorOf(x, y)) == XorOf(StepBits(x), StepBits(y))
  {
    XorParts(x, y);
    XorShuffle(x >> 1, y >> 1, 0xA6BC);
  }

  lemma StepLinear(x: Word, y: Word)
    ensures Step(Xor(x, y)) == Xor(Step(x), Step(y))
  {
    hide StepBits, XorOf;
    StepBitsLinear(x.bits, y.bits);
  }

  lemma StepInjective(x: Word, y: Word)
    requires Step(x) == Step(y)
    ensures x == y
  {
  }

  lemma {:induction false} StepsLinear(n: nat, x: Word, y: Word)
    ensures Steps(n, Xor(x, y)) == Xor(Steps(n, x), Steps(n, y))
  {
    hide Step, Xor;
    if n != 0 {
      StepLinear(x, y);
      StepsLinear(n - 1, Step(x), Step(y));
    }
  }

  lemma {:induction false} StepsInjective(n: nat, x: Word, y: Word)
    requires Steps(n, x) == Steps(n, y)
    ensures x == y
  {
    hide Step;
    if n != 0 {
      StepsInjective(n - 1, Step(x), Step(y));
      StepInjective(x, y);
    }
  }

  lemma StepOfZero()
    ensures Step(ZERO) == ZERO
  {
  }

  lemma {:induction false} StepsOfZero(n: nat)
    ensures Steps(n, ZERO) == ZERO
  {
    hide Step;
    if n != 0 {
      StepOfZero();
      StepsOfZero(n - 1);
    }
  }

  lemma {:induction false} StepsAdd(m: nat, n: nat, x: Word)
    ensures Steps(m + n, x) == Steps(n, Steps(m, x))
  {
    hide Step;
    if m != 0 {
      StepsAdd(m - 1, n, Step(x));
    }
  }

  lemma {:induction false} RegisterAppend(r: Word, a: bytes, b: bytes)
    ensures Register(r, a + b) == Register(Register(r, a), b)
    decreases |a|
  {
    hide Step, Xor, Octet;
    if a == [] {
      assert a + b == b;
    } else {
      assert (a + b)[0] == a[0] && (a + b)[1..] == a[1..] + b;
      RegisterAppend(Steps(8, Xor(r, Octet(a[0]))), a[1..], b);
    }
  }

  /** Equal octets keep two registers apart, or together, just as they were. */
  lemma {:induction false} RegisterInjective(r: Word, s: Word, data: bytes)
    requires Register(r, data) == Register(s, data)
    ensures r == s
    decreases |data|
  {
    hide Step, Xor, Octet;
    if data != [] {
      var c := Octet(data[0]);
      RegisterInjective(Steps(8, Xor(r, c)), Steps(8, Xor(s, c)), data[1..]);
      StepsInjective(8, Xor(r, c), Xor(s, c));
      XorLaws(r, s, c);
    }
  }

  // ---- Octets and bits ----

  lemma HalvesOf(b: bv16)
    ensures Joined(LowHalf(b), HighHalf(b)) == b
    ensures LowHalf(b) <= 0xFF && HighHalf(b) <= 0xFF
  {
  }

  lemma HalvesJoined(lo: bv16, hi: bv16)
    requires lo <= 0xFF && hi <= 0xFF
    ensures LowHalf(Joined(lo, hi)) == lo && HighHalf(Joined(lo, hi)) == hi
  {
  }

  lemma LittleRoundTrip(w: Word)
    ensures FromLittle(Low(w), High(w)) == w
  {
    hide Joined, LowHalf, HighHalf, Pack, Unpack, ToBits, FromBits;
    HalvesOf(w.bits);
    OctetOfBits(Unpack(LowHalf(w.bits)));
    OctetOfBits(Unpack(HighHalf(w.bits)));
    PackUnpack(LowHalf(w.bits));
    PackUnpack(HighHalf(w.bits));
  }

  lemma LittleOctets(lo: byte, hi: byte)
    ensures Low(FromLittle(lo, hi)) == lo && High(FromLittle(lo, hi)) == hi
  {
    hide Joined, LowHalf, HighHalf, Pack, Unpack, ToBits, FromBits;
    UnpackPack(ToBits(lo));
    UnpackPack(ToBits(hi));
    BitsOfOctet(lo);
    BitsOfOctet(hi);
    HalvesJoined(Pack(ToBits(lo)), Pack(ToBits(hi)));
  }

  // ---- The check value ----

  function EightSteps(r: bv16): bv16 {
    StepBits(StepBits(StepBits(StepBits(StepBits(StepBits(StepBits(StepBits(r))))))))
  }

  lemma EightStepsAre(r: Word)
    ensures Steps(8, r) == Word(EightSteps(r.bits))
  {
    hide StepBits;
    var r2 := Step(Step(r));
    var r4 := Step(Step(r2));
    var r6 := Step(Step(r4));
    assert Steps(8, r) == Steps(6, r2) && Steps(6, r2) == Steps(4, r4) && Steps(4, r4) == Steps(2, r6);
    assert Steps(2, r6) == Steps(1, Step(r6)) == Steps(0, Step(Step(r6)));
    assert Step(r).bits == StepBits(r.bits) && r2.bits == StepBits(StepBits(r.bits)) && r4.bits == StepBits(StepBits(r2.bits));
    assert r6.bits == StepBits(StepBits(r4.bits));
  }

  lemma OneOctet(r: bv16, data: bytes, i: nat, next: bv16)
    requires i < |data| && EightSteps(XorOf(r, Octet(data[i]).bits)) == next
    ensures Register(Word(r), data[i..]) == Register(Word(next), data[i + 1..])
  {
    hide EightSteps, Octet, XorOf, Steps;
    EightStepsAre(Xor(Word(r), Octet(data[i])));
    assert data[i..][1..] == data[i + 1..];
  }

  lemma NothingLeft(r: Word)
    ensures Register(r, []) == r
  {
  }

  lemma OctetIs(b: byte, x: Bits, bits: bv16)
    requires FromBits(x) == b && Pack(x) == bits
    ensures Octet(b) == Word(bits)
  {
    OctetOfBits(x);
    hide ToBits, FromBits, Pack;
  }

  lemma DigitOctets()
    ensures Octet(0x31) == Word(0x31) && Octet(0x32) == Word(0x32) && Octet(0x33) == Word(0x33)
    ensures Octet(0x34) == Word(0x34) && Octet(0x35) == Word(0x35) && Octet(0x36) == Word(0x36)
    ensures Octet(0x37) == Word(0x37) && Octet(0x38) == Word(0x38) && Octet(0x39) == Word(0x39)
  {
    hide Octet;
    OctetIs(0x31, Bits(true, false, false, false, true, true, false, false), 0x31);
    OctetIs(0x32, Bits(false, true, false, false, true, true, false, false), 0x32);
    OctetIs(0x33, Bits(true, true, false, false, true, true, false, false), 0x33);
    OctetIs(0x34, Bits(false, false, true, false, true, true, false, false), 0x34);
    OctetIs(0x35, Bits(true, false, true, false, true, true, false, false), 0x35);
    OctetIs(0x36, Bits(false, true, true, false, true, true, false, false), 0x36);
    OctetIs(0x37, Bits(true, true, true, false, true, true, false, false), 0x37);
    OctetIs(0x38, Bits(false, false, false, true, true, true, false, false), 0x38);
    OctetIs(0x39, Bits(true, false, false, true, true, true, false, false), 0x39);
  }

  lemma DigitClocks()
    ensures EightSteps(XorOf(0x0000, 0x31)) == 0xAD9A
    ensures EightSteps(XorOf(0xAD9A, 0x32)) == 0x7037
    ensures EightSteps(XorOf(0x7037, 0x33)) == 0xD908
    ensures EightSteps(XorOf(0xD908, 0x34)) == 0xBDEC
    ensures EightSteps(XorOf(0xBDEC, 0x35)) == 0x8EE3
    ensures EightSteps(XorOf(0x8EE3, 0x36)) == 0xA821
    ensures EightSteps(XorOf(0xA821, 0x37)) == 0x0707
    ensures EightSteps(XorOf(0x0707, 0x38)) == 0xE7D0
    ensures EightSteps(XorOf(0xE7D0, 0x39)) == 0x157D
  {
  }

  /** The check value published for this checksum: that of the nine octets "123456789". */
  lemma CheckValue()
    ensures Checksum([0x31, 0x32, 0x33, 0x34, 0x35, 0x36, 0x37, 0x38, 0x39]) == Word(0xEA82)
  {
    DigitOctets();
    DigitClocks();
    hide Octet, EightSteps, XorOf, Register;
    var d: bytes := [0x31, 0x32, 0x33, 0x34, 0x35, 0x36, 0x37, 0x38, 0x39];
    OneOctet(0x0000, d, 0, 0xAD9A);
    OneOctet(0xAD9A, d, 1, 0x7037);
    OneOctet(0x7037, d, 2, 0xD908);
    OneOctet(0xD908, d, 3, 0xBDEC);
    OneOctet(0xBDEC, d, 4, 0x8EE3);
    OneOctet(0x8EE3, d, 5, 0xA821);
    OneOctet(0xA821, d, 6, 0x0707);
    OneOctet(0x0707, d, 7, 0xE7D0);
    OneOctet(0xE7D0, d, 8, 0x157D);
    assert d[0..] == d && d[9..] == [];
    NothingLeft(Word(0x157D));
  }
}
