/**
  What the DNP3 CRC detects, at the resolution of single bits: octets travel least significant bit
  first, and two blocks of equal length with valid checksums never differ only inside a window of
  sixteen consecutive bits.
 */
module Burst {
  import opened Bytes
  import opened Octets
  import opened Crc

  function BitWord(bit: bool): Word {
    Word(if bit then 1 else 0)
  }

  function BitsOf(b: byte): (bits: seq<bool>)
    ensures |bits| == 8
  {
    Listed(ToBits(b))
  }

  function Listed(x: Bits): (bits: seq<bool>)
    ensures |bits| == 8
  {
    [x.b0] + ([x.b1] + ([x.b2] + ([x.b3] + ([x.b4] + ([x.b5] + ([x.b6] + ([x.b7] + [])))))))
  }

  /** The bits of a block in transmission order. */
  function BitStream(data: bytes): (bits: seq<bool>)
    ensures |bits| == 8 * |data|
  {
    if data == [] then [] else BitsOf(data[0]) + BitStream(data[1..])
  }

  /** The CRC as a shift register clocked once per bit. */
  function Clocked(r: Word, bits: seq<bool>): Word
    decreases |bits|
  {
    if bits == [] then r else Clocked(Step(Xor(r, BitWord(bits[0]))), bits[1..])
  }

  /** A bit sequence as a register value, its first bit lowest. */
  function WordOf(bits: seq<bool>): Word {
    if bits == [] then ZERO else Prefixed(bits[0], WordOf(bits[1..]))
  }

  function Prefixed(bit: bool, w: Word): Word {
    Xor(BitWord(bit), Word(Doubled(w.bits)))
  }

  function Doubled(b: bv16): bv16 {
    b << 1
  }

  /** Only the `n` lowest bits may be set. */
  predicate Narrow(n: nat, w: Word) {
    var b := w.bits;
    if n == 0 then b <= 0 else if n == 1 then b <= 0x1 else if n == 2 then b <= 0x3 else if n == 3 then b <= 0x7
    else if n == 4 then b <= 0xF else if n == 5 then b <= 0x1F else if n == 6 then b <= 0x3F
    else if n == 7 then b <= 0x7F else if n == 8 then b <= 0xFF else if n == 9 then b <= 0x1FF
    else if n == 10 then b <= 0x3FF else if n == 11 then b <= 0x7FF else if n == 12 then b <= 0xFFF
    else if n == 13 then b <= 0x1FFF else if n == 14 then b <= 0x3FFF else if n == 15 then b <= 0x7FFF else true
  }

  lemma NarrowPrefixed(n: nat, bit: bool, w: Word)
    requires n <= 15 && Narrow(n, w)
    ensures Narrow(n + 1, Prefixed(bit, w))
  {
  }

  lemma NarrowFits(n: nat, w: Word)
    requires n <= 15 && Narrow(n, w)
    ensures w.bits <= 0x7FFF
  {
  }

  lemma HalfOfDouble(b: bv16)
    requires b <= 0x7FFF
    ensures StepBits(Doubled(b)) == b
  {
  }

  lemma ClockPrefixed(r: Word, bit: bool, w: Word)
    requires w.bits <= 0x7FFF
    ensures Step(Xor(r, Prefixed(bit, w))) == Xor(Step(Xor(r, BitWord(bit))), w)
  {
    hide StepBits, XorOf, Doubled, BitWord;
    var d := Word(Doubled(w.bits));
    HalfOfDouble(w.bits);
    XorLaws(r, BitWord(bit), d);
    StepLinear(Xor(r, BitWord(bit)), d);
  }

  /** Up to sixteen bits may be exclusive-ored into the register at once. */
  lemma {:induction false} ClockedFold(r: Word, bits: seq<bool>)
    requires |bits| <= 16
    ensures Clocked(r, bits) == Steps(|bits|, Xor(r, WordOf(bits)))
    ensures Narrow(|bits|, WordOf(bits))
    decreases |bits|
  {
    assert Narrow(0, ZERO);
    hide Step, Xor, Narrow, Prefixed, BitWord;
    if bits == [] {
      XorLaws(r, ZERO, ZERO);
    } else {
      var w := WordOf(bits[1..]);
      ClockedFold(Step(Xor(r, BitWord(bits[0]))), bits[1..]);
      NarrowFits(|bits| - 1, w);
      NarrowPrefixed(|bits| - 1, bits[0], w);
      ClockPrefixed(r, bits[0], w);
    }
  }

  lemma PrefixedBits(p: bv16, q: bv16, v: bv16, w: bv16)
    requires p <= 1 && q <= 1 && v <= 0x7FFF && w <= 0x7FFF
    requires XorOf(p, Doubled(v)) == XorOf(q, Doubled(w))
    ensures p == q && v == w
  {
  }

  lemma PrefixedInjective(p: bool, q: bool, v: Word, w: Word)
    requires v.bits <= 0x7FFF && w.bits <= 0x7FFF && Prefixed(p, v) == Prefixed(q, w)
    ensures p == q && v == w
  {
    hide XorOf, Doubled;
    PrefixedBits(if p then 1 else 0, if q then 1 else 0, v.bits, w.bits);
  }

  lemma {:induction false} WordOfInjective(a: seq<bool>, b: seq<bool>)
    requires |a| == |b| <= 16 && WordOf(a) == WordOf(b)
    ensures a == b
    decreases |a|
  {
    hide Prefixed, Narrow;
    if a != [] {
      var v, w := WordOf(a[1..]), WordOf(b[1..]);
      ClockedFold(ZERO, a[1..]);
      ClockedFold(ZERO, b[1..]);
      NarrowFits(|a| - 1, v);
      NarrowFits(|a| - 1, w);
      PrefixedInjective(a[0], b[0], v, w);
      WordOfInjective(a[1..], b[1..]);
      assert a == [a[0]] + a[1..] && b == [b[0]] + b[1..];
    }
  }

  lemma {:induction false} ClockedAppend(r: Word, a: seq<bool>, b: seq<bool>)
    ensures Clocked(r, a + b) == Clocked(Clocked(r, a), b)
    decreases |a|
  {
    hide Step, Xor, BitWord;
    if a == [] {
      assert a + b == b;
    } else {
      assert (a + b)[0] == a[0] && (a + b)[1..] == a[1..] + b;
      ClockedAppend(Step(Xor(r, BitWord(a[0]))), a[1..], b);
    }
  }

  /** Clocking the same bits keeps two registers apart. */
  lemma {:induction false} ClockedInjective(r: Word, s: Word, bits: seq<bool>)
    requires Clocked(r, bits) == Clocked(s, bits)
    ensures r == s
    decreases |bits|
  {
    hide Step, Xor, BitWord;
    if bits != [] {
      var c := BitWord(bits[0]);
      ClockedInjective(Step(Xor(r, c)), Step(Xor(s, c)), bits[1..]);
      StepInjective(Xor(r, c), Xor(s, c));
      XorLaws(r, s, c);
    }
  }

  /** The heart of it: a window of at most sixteen bits is determined by the register it leads to. */
  lemma WindowInjective(r: Word, a: seq<bool>, b: seq<bool>)
    requires |a| == |b| <= 16 && Clocked(r, a) == Clocked(r, b)
    ensures a == b
  {
    hide Steps, Xor, WordOf, Clocked;
    ClockedFold(r, a);
    ClockedFold(r, b);
    StepsInjective(|a|, Xor(r, WordOf(a)), Xor(r, WordOf(b)));
    XorLaws(r, WordOf(a), ZERO);
    XorLaws(r, WordOf(b), ZERO);
    XorLaws(WordOf(a), WordOf(b), r);
    WordOfInjective(a, b);
  }

  lemma BurstDetected(r: Word, a: seq<bool>, b: seq<bool>, p: nat, q: nat)
    requires |a| == |b| && p <= q <= |a| && q <= p + 16
    requires a[..p] == b[..p] && a[q..] == b[q..]
    requires Clocked(r, a) == Clocked(r, b)
    ensures a == b
  {
    hide Clocked;
    assert a == a[..p] + (a[p..q] + a[q..]);
    assert b == b[..p] + (b[p..q] + b[q..]);
    var s := Clocked(r, a[..p]);
    ClockedAppend(r, a[..p], a[p..q] + a[q..]);
    ClockedAppend(r, b[..p], b[p..q] + b[q..]);
    ClockedAppend(s, a[p..q], a[q..]);
    ClockedAppend(s, b[p..q], b[q..]);
    ClockedInjective(Clocked(s, a[p..q]), Clocked(s, b[p..q]), a[q..]);
    WindowInjective(s, a[p..q], b[p..q]);
  }

  // ---- Octets ----

  function Horner(bit: bool, w: bv16): bv16 {
    Pick(bit, 1) ^ (w << 1)
  }

  lemma PackHorner(x: Bits)
    ensures Pack(x) == Horner(x.b0, Horner(x.b1, Horner(x.b2, Horner(x.b3,
                       Horner(x.b4, Horner(x.b5, Horner(x.b6, Horner(x.b7, 0))))))))
  {
  }

  lemma PrefixedHorner(bit: bool, w: bv16)
    ensures Prefixed(bit, Word(w)) == Word(Horner(bit, w))
  {
  }

  lemma PackPrefixed(x: Bits)
    ensures Word(Pack(x)) ==
            Prefixed(x.b0, Prefixed(x.b1, Prefixed(x.b2, Prefixed(x.b3,
            Prefixed(x.b4, Prefixed(x.b5, Prefixed(x.b6, Prefixed(x.b7, ZERO))))))))
  {
    hide Prefixed, Horner, Pack;
    PackHorner(x);
    PrefixedHorner(x.b7, 0);
    PrefixedHorner(x.b6, Horner(x.b7, 0));
    PrefixedHorner(x.b5, Horner(x.b6, Horner(x.b7, 0)));
    PrefixedHorner(x.b4, Horner(x.b5, Horner(x.b6, Horner(x.b7, 0))));
    PrefixedHorner(x.b3, Horner(x.b4, Horner(x.b5, Horner(x.b6, Horner(x.b7, 0)))));
    PrefixedHorner(x.b2, Horner(x.b3, Horner(x.b4, Horner(x.b5, Horner(x.b6, Horner(x.b7, 0))))));
    PrefixedHorner(x.b1, Horner(x.b2, Horner(x.b3, Horner(x.b4, Horner(x.b5, Horner(x.b6, Horner(x.b7, 0)))))));
    PrefixedHorner(x.b0, Horner(x.b1, Horner(x.b2, Horner(x.b3, Horner(x.b4, Horner(x.b5, Horner(x.b6, Horner(x.b7, 0))))))));
  }

  lemma WordOfCons(bit: bool, rest: seq<bool>)
    ensures WordOf([bit] + rest) == Prefixed(bit, WordOf(rest))
  {
    hide Prefixed;
    assert ([bit] + rest)[1..] == rest;
  }

  lemma WordOfFour(p: bool, q: bool, r: bool, s: bool, rest: seq<bool>)
    ensures WordOf([p] + ([q] + ([r] + ([s] + rest)))) ==
            Prefixed(p, Prefixed(q, Prefixed(r, Prefixed(s, WordOf(rest)))))
  {
    hide WordOf, Prefixed;
    WordOfCons(s, rest);
    WordOfCons(r, [s] + rest);
    WordOfCons(q, [r] + ([s] + rest));
    WordOfCons(p, [q] + ([r] + ([s] + rest)));
  }

  lemma WordOfListed(x: Bits)
    ensures WordOf(Listed(x)) == Word(Pack(x))
  {
    assert WordOf([]) == ZERO;
    hide WordOf, Prefixed, Pack;
    WordOfFour(x.b4, x.b5, x.b6, x.b7, []);
    WordOfFour(x.b0, x.b1, x.b2, x.b3, [x.b4] + ([x.b5] + ([x.b6] + ([x.b7] + []))));
    PackPrefixed(x);
  }

  lemma WordOfOctet(b: byte)
    ensures WordOf(BitsOf(b)) == Octet(b)
  {
    hide WordOf, Listed, ToBits, Pack;
    WordOfListed(ToBits(b));
  }

  /** The octet-wise CRC is the bit-wise shift register. */
  lemma {:induction false} RegisterClocks(r: Word, data: bytes)
    ensures Register(r, data) == Clocked(r, BitStream(data))
    decreases |data|
  {
    hide Xor, Octet, WordOf, Clocked, BitsOf, Narrow, Step;
    if data == [] {
      assert BitStream(data) == [];
      ClockedNothing(r);
    } else {
      ClockedFold(r, BitsOf(data[0]));
      WordOfOctet(data[0]);
      ClockedAppend(r, BitsOf(data[0]), BitStream(data[1..]));
      RegisterClocks(Steps(8, Xor(r, Octet(data[0]))), data[1..]);
    }
  }

  lemma ClockedNothing(r: Word)
    ensures Clocked(r, []) == r
  {
  }

  lemma {:induction false} BitStreamAt(data: bytes, i: nat, j: nat)
    requires i < |data| && j < 8
    ensures BitStream(data)[8 * i + j] == BitsOf(data[i])[j]
  {
    if i != 0 {
      BitStreamAt(data[1..], i - 1, j);
    }
  }

  lemma ListedInjective(x: Bits, y: Bits)
    requires Listed(x) == Listed(y)
    ensures x == y
  {
    assert Listed(x)[0] == Listed(y)[0] && Listed(x)[1] == Listed(y)[1] && Listed(x)[2] == Listed(y)[2];
    assert Listed(x)[3] == Listed(y)[3] && Listed(x)[4] == Listed(y)[4] && Listed(x)[5] == Listed(y)[5];
    assert Listed(x)[6] == Listed(y)[6] && Listed(x)[7] == Listed(y)[7];
  }

  lemma BitsDetermineOctet(a: byte, b: byte)
    requires BitsOf(a) == BitsOf(b)
    ensures a == b
  {
    hide FromBits, ToBits, Listed;
    ListedInjective(ToBits(a), ToBits(b));
    BitsOfOctet(a);
    BitsOfOctet(b);
  }

  /** `a` and `b` differ only inside the sixteen transmitted bits from bit `p` on. */
  ghost predicate Burst16(a: bytes, b: bytes, p: int) {
    && |a| == |b|
    && forall i, j | 0 <= i < |a| && 0 <= j < 8 && !(p <= 8 * i + j < p + 16) :: BitsOf(a[i])[j] == BitsOf(b[i])[j]
  }

  lemma Burst16Stream(a: bytes, b: bytes, p: int, k: nat)
    requires Burst16(a, b, p) && k < 8 * |a| && !(p <= k < p + 16)
    ensures BitStream(a)[k] == BitStream(b)[k]
  {
    hide BitsOf, BitStream;
    var i, j := k / 8, k % 8;
    assert k == 8 * i + j;
    BitStreamAt(a, i, j);
    BitStreamAt(b, i, j);
  }

  lemma BitStreamInjective(a: bytes, b: bytes)
    requires |a| == |b| && BitStream(a) == BitStream(b)
    ensures a == b
  {
    hide BitsOf;
    forall i | 0 <= i < |a|
      ensures a[i] == b[i]
    {
      forall j | 0 <= j < 8
        ensures BitsOf(a[i])[j] == BitsOf(b[i])[j]
      {
        BitStreamAt(a, i, j);
        BitStreamAt(b, i, j);
      }
      BitsDetermineOctet(a[i], b[i]);
    }
  }

  lemma StreamsAgree(a: bytes, b: bytes, p: int) returns (from: nat, to: nat)
    requires Burst16(a, b, p)
    ensures from <= to <= 8 * |a| && to <= from + 16
    ensures BitStream(a)[..from] == BitStream(b)[..from] && BitStream(a)[to..] == BitStream(b)[to..]
  {
    assert |a| == |b|;
    hide BitStream, Burst16;
    var n := 8 * |a|;
    from := if p < 0 then 0 else if n < p then n else p;
    to := if p + 16 < 0 then 0 else if n < p + 16 then n else p + 16;
    forall k: nat | k < n && !(p <= k < p + 16)
      ensures BitStream(a)[k] == BitStream(b)[k]
    {
      Burst16Stream(a, b, p, k);
    }
  }

  /** Equal registers and a burst of at most sixteen bits: there was no change at all. */
  lemma OctetBurstDetected(r: Word, a: bytes, b: bytes, p: int)
    requires Burst16(a, b, p) && Register(r, a) == Register(r, b)
    ensures a == b
  {
    var from, to := StreamsAgree(a, b, p);
    hide Register, BitStream, Burst16;
    RegisterClocks(r, a);
    RegisterClocks(r, b);
    BurstDetected(r, BitStream(a), BitStream(b), from, to);
    BitStreamInjective(a, b);
  }

  /** A change confined to one octet or to two adjacent octets is such a burst. */
  lemma TwoOctetsAreABurst(a: bytes, b: bytes, i: nat)
    requires |a| == |b| && forall k | 0 <= k < |a| && k != i && k != i + 1 :: a[k] == b[k]
    ensures Burst16(a, b, 8 * i)
  {
  }

  /** A burst in a whole is a burst in each of its parts. */
  lemma BurstInPart(a: bytes, b: bytes, p: int, from: nat, to: nat)
    requires Burst16(a, b, p) && from <= to <= |a|
    ensures Burst16(a[from..to], b[from..to], p - 8 * from)
  {
    hide BitsOf;
    forall i, j | 0 <= i < to - from && 0 <= j < 8 && !(p - 8 * from <= 8 * i + j < p - 8 * from + 16)
      ensures BitsOf(a[from..to][i])[j] == BitsOf(b[from..to][i])[j]
    {
      assert BitsOf(a[from + i])[j] == BitsOf(b[from + i])[j];
    }
  }
}
