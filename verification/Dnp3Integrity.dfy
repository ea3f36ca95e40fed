/** What an alteration in transit can do to an accepted DNP3 frame: be rejected. */
module Dnp3Integrity {
  import opened Wrappers
  import opened Bytes
  import opened Octets
  import opened Crc
  import opened Burst
  import opened Framing
  import opened FrameRules
  import opened Dnp3

  // ---- A checksummed block leaves one fixed register behind ----

  lemma DoubledEight(b: bv16)
    requires b <= 0xFF
    ensures b << 8 == Doubled(Doubled(Doubled(Doubled(Doubled(Doubled(Doubled(Doubled(b))))))))
    ensures Doubled(b) <= 0x7FFF && Doubled(Doubled(b)) <= 0x7FFF && Doubled(Doubled(Doubled(b))) <= 0x7FFF
    ensures Doubled(Doubled(Doubled(Doubled(b)))) <= 0x7FFF && Doubled(Doubled(Doubled(Doubled(Doubled(b))))) <= 0x7FFF
    ensures Doubled(Doubled(Doubled(Doubled(Doubled(Doubled(b)))))) <= 0x7FFF
    ensures Doubled(Doubled(Doubled(Doubled(Doubled(Doubled(Doubled(b))))))) <= 0x7FFF
  {
  }

  lemma StepDoubled(w: Word)
    requires w.bits <= 0x7FFF
    ensures Step(Word(Doubled(w.bits))) == w
  {
    hide Doubled, StepBits;
    HalfOfDouble(w.bits);
  }

  /** A word whose low half is empty is shifted down without feedback. */
  lemma StepsShift(n: nat, w: Word)
    requires n != 0 && w.bits <= 0x7FFF
    ensures Steps(n, Word(Doubled(w.bits))) == Steps(n - 1, w)
  {
    hide Step, Doubled;
    StepDoubled(w);
  }

  function Upper(b: bv16): bv16 {
    b << 8
  }

  lemma StepsUpper(w: Word)
    requires w.bits <= 0xFF
    ensures Steps(8, Word(Upper(w.bits))) == w
  {
    DoubledEight(w.bits);
    hide Doubled, Step;
    var w1 := Word(Doubled(w.bits));
    var w2 := Word(Doubled(w1.bits));
    var w3 := Word(Doubled(w2.bits));
    var w4 := Word(Doubled(w3.bits));
    var w5 := Word(Doubled(w4.bits));
    var w6 := Word(Doubled(w5.bits));
    var w7 := Word(Doubled(w6.bits));
    StepsShift(8, w7);
    StepsShift(7, w6);
    StepsShift(6, w5);
    StepsShift(5, w4);
    StepsShift(4, w3);
    StepsShift(3, w2);
    StepsShift(2, w1);
    StepsShift(1, w);
  }

  lemma JoinedIsXor(lo: bv16, hi: bv16)
    requires lo <= 0xFF
    ensures Joined(lo, hi) == XorOf(lo, Upper(hi))
  {
  }

  lemma RegisterTwice(r: Word, lo: byte, hi: byte)
    ensures Register(r, [lo, hi]) == Steps(8, Xor(Steps(8, Xor(r, Octet(lo))), Octet(hi)))
  {
    hide Octet, Xor, Step, Steps;
    var s := Steps(8, Xor(r, Octet(lo)));
    assert [lo, hi][1..] == [hi] && [hi][1..] == [];
    assert Register(s, [hi]) == Register(Steps(8, Xor(s, Octet(hi))), []);
  }

  /** Two octets go through the register as the one word they spell. */
  lemma RegisterOfTwo(r: Word, lo: byte, hi: byte)
    ensures Register(r, [lo, hi]) == Steps(16, Xor(r, FromLittle(lo, hi)))
  {
    var a, b := Octet(lo), Octet(hi);
    RegisterTwice(r, lo, hi);
    var up := Word(Upper(b.bits));
    assert FromLittle(lo, hi) == Xor(a, up) && b.bits <= 0xFF by {
      hide Joined, XorOf, Upper, Pack, ToBits;
      UnpackPack(ToBits(lo));
      UnpackPack(ToBits(hi));
      JoinedIsXor(a.bits, b.bits);
    }
    hide Upper, Register, Octet, Xor, Step, FromLittle, Steps;
    StepsUpper(b);
    StepsLinear(8, Xor(r, a), up);
    XorLaws(r, a, up);
    StepsAdd(8, 8, Xor(r, FromLittle(lo, hi)));
  }

  function Residue(): Word {
    Steps(16, Word(0xFFFF))
  }

  lemma ComplementXor(w: Word)
    ensures Xor(w, Complement(w)) == Word(0xFFFF)
  {
  }

  lemma VerifiedResidue(data: bytes, check: bytes)
    requires VerifyCrc(data, check)
    ensures Register(ZERO, data + check) == Residue()
  {
    hide Register, Complement, Xor, FromLittle, Steps;
    var r := Register(ZERO, data);
    assert check == [check[0], check[1]];
    RegisterAppend(ZERO, data, check);
    RegisterOfTwo(r, check[0], check[1]);
    ComplementXor(r);
  }

  // ---- Blocks and frames ----

  lemma BlockUnchanged(data: bytes, check: bytes, data': bytes, check': bytes, p: int)
    requires VerifyCrc(data, check) && VerifyCrc(data', check')
    requires Burst16(data + check, data' + check', p)
    ensures data + check == data' + check'
  {
    hide VerifyCrc, Burst16, Register;
    VerifiedResidue(data, check);
    VerifiedResidue(data', check');
    OctetBurstDetected(ZERO, data + check, data' + check', p);
  }

  lemma {:induction false} BlocksUnchanged(a: bytes, b: bytes, n: nat, p: int)
    requires |a| == |b| == n + 2 * CeilDiv16(n)
    requires DecodeBlocks(a, n).Ok? && DecodeBlocks(b, n).Ok? && Burst16(a, b, p)
    ensures a == b
    decreases n
  {
    hide VerifyCrc, Burst16, CeilDiv16;
    if n == 0 {
      CeilOfZero();
    } else {
      CeilStep(n);
      var k := BlockLength(n);
      PartsOf(a, k);
      PartsOf(b, k);
      hide Slice;
      BurstInPart(a, b, p, 0, k + 2);
      BurstInPart(a, b, p, k + 2, |a|);
      BlockUnchanged(a[..k], a[k..k + 2], b[..k], b[k..k + 2], p);
      BlocksUnchanged(a[k + 2..], b[k + 2..], n - k, p - 8 * (k + 2));
    }
  }

  lemma PartsOf(a: bytes, k: nat)
    requires k + 2 <= |a|
    ensures Slice(a, k, k + 2) == a[k..k + 2] && Slice(a, k + 2, |a| + k + 2) == a[k + 2..]
    ensures a[..k] + a[k..k + 2] == a[0..k + 2] && a == a[0..k + 2] + a[k + 2..|a|] && a[k + 2..|a|] == a[k + 2..]
  {
  }

  /** The frame size is strictly increasing in the length octet. */
  lemma LengthDeterminesSize(a: nat, b: nat)
    requires 5 <= a && 5 <= b && LinkFrameSize(a) == LinkFrameSize(b)
    ensures a == b
  {
  }

  /**
    An altered frame whose alteration spans at most sixteen transmitted bits, wherever they lie
    (sync, length, control, addresses, data, checksums, across block borders), is rejected.
   */
  lemma BurstRejected(frame: bytes, altered: bytes, p: int)
    requires Parse(frame).Ok? && Burst16(frame, altered, p) && altered != frame
    ensures Parse(altered) == Raised
  {
    if Parse(altered).Ok? {
      hide VerifyCrc, Burst16, DecodeBlocks, Interpret, LinkFrameSize, CeilDiv16, Little16;
      BurstKeepsLength(frame, altered, p);
      LengthDeterminesSize(frame[2], altered[2]);
      SizeOfBlocks(frame[2]);
      hide WellSized;
      FrameUnchanged(frame, altered, frame[2] - 5, p);
      assert false;
    }
  }

  lemma FrameUnchanged(a: bytes, b: bytes, n: nat, p: int)
    requires |a| == |b| == 10 + n + 2 * CeilDiv16(n) && Burst16(a, b, p)
    requires VerifyCrc(a[..8], a[8..10]) && VerifyCrc(b[..8], b[8..10])
    requires DecodeBlocks(a[10..], n).Ok? && DecodeBlocks(b[10..], n).Ok?
    ensures a == b
  {
    hide VerifyCrc, Burst16, DecodeBlocks, CeilDiv16;
    PartsOfFrame(a);
    PartsOfFrame(b);
    BurstInPart(a, b, p, 0, 10);
    BurstInPart(a, b, p, 10, |a|);
    BlockUnchanged(a[..8], a[8..10], b[..8], b[8..10], p);
    BlocksUnchanged(a[10..], b[10..], n, p - 80);
  }

  lemma BurstKeepsLength(a: bytes, b: bytes, p: int)
    requires Burst16(a, b, p)
    ensures |a| == |b|
  {
  }

  lemma SizeOfBlocks(length: nat)
    requires 5 <= length
    ensures LinkFrameSize(length) == 10 + (length - 5) + 2 * CeilDiv16(length - 5)
  {
  }

  lemma PartsOfFrame(a: bytes)
    requires 10 <= |a|
    ensures a[..8] + a[8..10] == a[0..10] && a[10..|a|] == a[10..] && a == a[0..10] + a[10..]
  {
  }

  /** Changing one octet, or two adjacent ones, of an accepted frame makes the parser reject it. */
  lemma AdjacentOctetsRejected(frame: bytes, altered: bytes, i: nat)
    requires Parse(frame).Ok? && |altered| == |frame| && altered != frame
    requires forall k | 0 <= k < |frame| && k != i && k != i + 1 :: altered[k] == frame[k]
    ensures Parse(altered) == Raised
  {
    hide Parse;
    TwoOctetsAreABurst(frame, altered, i);
    BurstRejected(frame, altered, 8 * i);
  }

  // ---- Sixteen is the best possible ----

  lemma OctetsOfPattern()
    ensures Octet(0) == ZERO && Octet(1) == Word(1)
    ensures Octet(0x79) == Word(0x79)
  {
    assert ToBits(0x79) == Bits(true, false, false, true, true, true, true, false);
    assert ToBits(1) == Bits(true, false, false, false, false, false, false, false);
    assert ToBits(0) == Bits(false, false, false, false, false, false, false, false);
  }

  lemma OctetOfPattern()
    ensures Octet(0x4D) == Word(0x4D)
  {
    assert ToBits(0x4D) == Bits(true, false, true, true, false, false, true, false);
  }

  lemma FirstOctetSteps()
    ensures Steps(8, Word(0x79)) == Word(0x14D)
  {
    assert StepBits(0x79) == 0xA680 && StepBits(0xA680) == 0x5340 && StepBits(0x5340) == 0x29A0 && StepBits(0x29A0) == 0x14D0;
    assert StepBits(0x14D0) == 0xA68 && StepBits(0xA68) == 0x534 && StepBits(0x534) == 0x29A && StepBits(0x29A) == 0x14D;
    hide StepBits;
    assert Steps(8, Word(0x79)) == Steps(7, Word(0xA680)) == Steps(6, Word(0x5340)) == Steps(5, Word(0x29A0)) == Steps(4, Word(0x14D0));
    assert Steps(4, Word(0x14D0)) == Steps(3, Word(0xA68)) == Steps(2, Word(0x534)) == Steps(1, Word(0x29A)) == Steps(0, Word(0x14D));
  }

  lemma SecondOctetSteps()
    ensures Steps(8, Word(0x100)) == Word(1)
  {
    assert StepBits(0x100) == 0x80 && StepBits(0x80) == 0x40 && StepBits(0x40) == 0x20 && StepBits(0x20) == 0x10;
    assert StepBits(0x10) == 8 && StepBits(8) == 4 && StepBits(4) == 2 && StepBits(2) == 1;
    hide StepBits;
    assert Steps(8, Word(0x100)) == Steps(7, Word(0x80)) == Steps(6, Word(0x40)) == Steps(5, Word(0x20)) == Steps(4, Word(0x10));
    assert Steps(4, Word(0x10)) == Steps(3, Word(8)) == Steps(2, Word(4)) == Steps(1, Word(2)) == Steps(0, Word(1));
  }

  lemma RegisterOfThree(r: Word, a: byte, b: byte, c: byte)
    ensures Register(r, [a, b, c]) == Steps(8, Xor(Steps(8, Xor(Steps(8, Xor(r, Octet(a))), Octet(b))), Octet(c)))
  {
    hide Xor, Octet, Steps;
    assert [a, b, c][1..] == [b, c] && [b, c][1..] == [c] && [c][1..] == [];
    var x := Steps(8, Xor(r, Octet(a)));
    var y := Steps(8, Xor(x, Octet(b)));
    assert Register(x, [b, c]) == Register(y, [c]) == Register(Steps(8, Xor(y, Octet(c))), []);
  }

  /** Three zero octets and the seventeen-bit generator pattern have one checksum. */
  lemma PatternHasNoRegister()
    ensures Register(ZERO, [0x79, 0x4D, 1]) == ZERO && Register(ZERO, [0, 0, 0]) == ZERO
  {
    RegisterOfThree(ZERO, 0x79, 0x4D, 1);
    RegisterOfThree(ZERO, 0, 0, 0);
    OctetsOfPattern();
    OctetOfPattern();
    FirstOctetSteps();
    SecondOctetSteps();
    StepsOfZero(8);
    hide Octet, Steps, Register;
    assert Xor(ZERO, Word(0x79)) == Word(0x79) && Xor(Word(0x14D), Word(0x4D)) == Word(0x100);
    assert Xor(Word(1), Word(1)) == ZERO && Xor(ZERO, ZERO) == ZERO;
  }

  lemma OneBlock(user: bytes)
    requires 0 < |user| <= 16
    ensures EncodeBlocks(user) == user + CrcOctets(user)
  {
    EncodeOneBlock(user, []);
    assert user + [] == user;
    assert EncodeBlocks([]) == [];
  }

  lemma FrameOfOneBlock(control: byte, d0: byte, d1: byte, s0: byte, s1: byte, user: bytes)
    requires |user| == 3
    ensures var header := LinkHeader(8, control, d0, d1, s0, s1);
            |header| == 8 && Encode(control, d0, d1, s0, s1, user) == (header + CrcOctets(header)) + (user + CrcOctets(user))
  {
    OneBlock(user);
  }

  /** Only the seventeen bits of the pattern differ. */
  lemma PatternBits(front: bytes, check: bytes, i: nat, j: nat)
    requires |front| == 10 && |check| == 2
    requires i < 15 && j < 8 && !(80 <= 8 * i + j < 80 + 17)
    ensures BitsOf((front + ([0x79, 0x4D, 1] + check))[i])[j] == BitsOf((front + ([0, 0, 0] + check))[i])[j]
  {
    if i == 12 {
      assert ToBits(1) == Bits(true, false, false, false, false, false, false, false);
      assert ToBits(0) == Bits(false, false, false, false, false, false, false, false);
    } else {
      hide BitsOf;
      assert i < 10 || 13 <= i;
    }
  }

  lemma EncodingParses(control: byte, d0: byte, d1: byte, s0: byte, s1: byte, user: bytes)
    requires |user| == 3
    ensures Parse(Encode(control, d0, d1, s0, s1, user)).Ok?
  {
    hide Parse, Encode, EncodeBlocks, Interpret, DecodeBlocks;
    ParseEncode(control, d0, d1, s0, s1, user);
  }

  lemma PatternFrames(control: byte, d0: byte, d1: byte, s0: byte, s1: byte) returns (front: bytes, check: bytes)
    ensures |front| == 10 && |check| == 2
    ensures Encode(control, d0, d1, s0, s1, [0, 0, 0]) == front + ([0, 0, 0] + check)
    ensures Encode(control, d0, d1, s0, s1, [0x79, 0x4D, 1]) == front + ([0x79, 0x4D, 1] + check)
  {
    FrameOfOneBlock(control, d0, d1, s0, s1, [0, 0, 0]);
    FrameOfOneBlock(control, d0, d1, s0, s1, [0x79, 0x4D, 1]);
    PatternHasNoRegister();
    assert CrcOctets([0x79, 0x4D, 1]) == CrcOctets([0, 0, 0]);
    hide Encode, EncodeBlocks, CrcOctets, LinkHeader;
    var header := LinkHeader(8, control, d0, d1, s0, s1);
    front, check := header + CrcOctets(header), CrcOctets([0, 0, 0]);
  }

  /** Some alteration within seventeen consecutive bits goes unseen, whatever the header. */
  lemma SeventeenBitsEscape(control: byte, d0: byte, d1: byte, s0: byte, s1: byte) returns (frame: bytes, altered: bytes)
    ensures Parse(frame).Ok? && Parse(altered).Ok? && altered != frame && |frame| == |altered| == 15
    ensures forall i: nat, j: nat | i < 15 && j < 8 && !(80 <= 8 * i + j < 80 + 17) :: BitsOf(altered[i])[j] == BitsOf(frame[i])[j]
  {
    hide Parse, Encode, EncodeBlocks, CrcOctets, LinkHeader, BitsOf;
    frame, altered := Encode(control, d0, d1, s0, s1, [0, 0, 0]), Encode(control, d0, d1, s0, s1, [0x79, 0x4D, 1]);
    EncodingParses(control, d0, d1, s0, s1, [0, 0, 0]);
    EncodingParses(control, d0, d1, s0, s1, [0x79, 0x4D, 1]);
    var front, check := PatternFrames(control, d0, d1, s0, s1);
    assert altered[10] == 0x79 && frame[10] == 0;
    forall i: nat, j: nat | i < 15 && j < 8 && !(80 <= 8 * i + j < 80 + 17)
      ensures BitsOf(altered[i])[j] == BitsOf(frame[i])[j]
    {
      PatternBits(front, check, i, j);
    }
  }
}
