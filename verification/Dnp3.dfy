/**
  DNP3 data-link frames: the header, the sixteen-octet user blocks with their checksums, and what
  the parser reports about an accepted frame.
 */
module Dnp3 {
  import opened Wrappers
  import opened Bytes
  import opened Octets
  import opened Crc
  import opened Burst
  import opened Framing
  import opened FrameRules

  datatype TransportFields = TransportFields(first: bool, final: bool)

  datatype ApplicationFields = ApplicationFields(
    first: bool, final: bool, confirmationRequested: bool, unsolicited: bool, controlOperation: bool)

  datatype Frame = Frame(
    sourceAddress: nat,
    destinationAddress: nat,
    linkFunction: nat,
    directionFromMaster: bool,
    primary: bool,
    transportSequence: Option<nat>,
    applicationFunction: Option<nat>,
    applicationFunctionName: Option<string>,
    applicationSequence: Option<nat>,
    internalIndications: Option<nat>,
    userDataLength: nat,
    transport: Option<TransportFields>,
    application: Option<ApplicationFields>)

  function ApplicationFunctionName(code: byte): Option<string> {
    match code
    case 0x00 => Some("confirm")
    case 0x01 => Some("read")
    case 0x02 => Some("write")
    case 0x03 => Some("select")
    case 0x04 => Some("operate")
    case 0x05 => Some("direct_operate")
    case 0x06 => Some("direct_operate_no_ack")
    case 0x0D => Some("cold_restart")
    case 0x0E => Some("warm_restart")
    case 0x14 => Some("enable_unsolicited")
    case 0x15 => Some("disable_unsolicited")
    case 0x17 => Some("delay_measurement")
    case 0x81 => Some("response")
    case 0x82 => Some("unsolicited_response")
    case _ => None
  }

  // ---- Checksummed blocks ----

  function CrcOctets(data: bytes): (c: bytes)
    ensures |c| == 2
  {
    [Low(Checksum(data)), High(Checksum(data))]
  }

  /** The check value of the nine octets "123456789" is 0xEA82, and its low octet is sent first. */
  lemma CheckOctets()
    ensures CrcOctets([0x31, 0x32, 0x33, 0x34, 0x35, 0x36, 0x37, 0x38, 0x39]) == [0x82, 0xEA]
  {
    CheckValue();
    hide Checksum;
    assert LowHalf(0xEA82) == 0x82 && HighHalf(0xEA82) == 0xEA;
    hide LowHalf, HighHalf;
  }

  /** A Python slice: bounds beyond the end are clipped. */
  function Slice(s: bytes, from: nat, to: nat): bytes
    requires from <= to
  {
    s[Clip(s, from)..Clip(s, to)]
  }

  function Clip(s: bytes, i: nat): (k: nat)
    ensures k <= |s|
  {
    if i <= |s| then i else |s|
  }

  predicate VerifyCrc(data: bytes, encoded: bytes) {
    |encoded| == 2 && FromLittle(encoded[0], encoded[1]) == Checksum(data)
  }

  /** The checksum octets are the only two that verify. */
  lemma VerifiesIff(data: bytes, encoded: bytes)
    ensures VerifyCrc(data, encoded) <==> encoded == CrcOctets(data)
  {
    hide Low, High, FromLittle, Checksum;
    LittleRoundTrip(Checksum(data));
    if VerifyCrc(data, encoded) {
      LittleOctets(encoded[0], encoded[1]);
    }
  }

  function BlockLength(n: nat): nat {
    if n < 16 then n else 16
  }

  /** User octets in blocks of sixteen, each followed by its checksum. */
  function EncodeBlocks(user: bytes): bytes {
    if user == [] then []
    else
      var k := BlockLength(|user|);
      user[..k] + CrcOctets(user[..k]) + EncodeBlocks(user[k..])
  }

  /** What `DecodeUserBlocks` computes from offset 0. */
  function DecodeBlocks(encoded: bytes, n: nat): Result<bytes>
    decreases n
  {
    if n == 0 then Ok([])
    else
      var k := BlockLength(n);
      if |encoded| < k || !VerifyCrc(encoded[..k], Slice(encoded, k, k + 2)) then Raised
      else
        match DecodeBlocks(Slice(encoded, k + 2, |encoded| + k + 2), n - k)
        case Raised => Raised
        case Ok(rest) => Ok(encoded[..k] + rest)
  }

  lemma CeilStep(n: nat)
    requires n != 0
    ensures CeilDiv16(n) == 1 + CeilDiv16(n - BlockLength(n))
  {
  }

  lemma {:induction false} EncodedLength(user: bytes)
    ensures |EncodeBlocks(user)| == |user| + 2 * CeilDiv16(|user|)
    decreases |user|
  {
    hide CrcOctets, CeilDiv16;
    if user == [] {
      assert EncodeBlocks(user) == [];
      CeilOfZero();
    } else {
      CeilStep(|user|);
      EncodedLength(user[BlockLength(|user|)..]);
    }
  }

  lemma CeilOfZero()
    ensures CeilDiv16(0) == 0
  {
  }

  /** The three parts of a non-empty encoding. */
  lemma FirstBlock(block: bytes, check: bytes, rest: bytes)
    requires |check| == 2
    ensures var encoded, k := block + check + rest, |block|;
            && encoded[..k] == block
            && Slice(encoded, k, k + 2) == check
            && Slice(encoded, k + 2, |encoded| + k + 2) == rest
  {
  }

  lemma {:induction false} DecodeEncode(user: bytes)
    ensures DecodeBlocks(EncodeBlocks(user), |user|) == Ok(user)
    decreases |user|
  {
    if user != [] {
      hide Checksum, VerifyCrc, CrcOctets;
      var k := BlockLength(|user|);
      var block, check, rest := user[..k], CrcOctets(user[..k]), EncodeBlocks(user[k..]);
      hide Slice;
      FirstBlock(block, check, rest);
      VerifiesIff(block, check);
      DecodeEncode(user[k..]);
      assert block + user[k..] == user;
    }
  }

  lemma {:induction false} EncodeDecode(encoded: bytes, n: nat)
    requires DecodeBlocks(encoded, n).Ok? && |encoded| == n + 2 * CeilDiv16(n)
    ensures |DecodeBlocks(encoded, n).value| == n && EncodeBlocks(DecodeBlocks(encoded, n).value) == encoded
    decreases n
  {
    hide Checksum, VerifyCrc, CrcOctets, CeilDiv16;
    if n == 0 {
      CeilOfZero();
    } else {
      var k := BlockLength(n);
      CeilStep(n);
      var block, check, rest := encoded[..k], encoded[k..k + 2], encoded[k + 2..];
      assert block + check + rest == encoded;
      FirstBlock(block, check, rest);
      hide Slice;
      VerifiesIff(block, check);
      EncodeDecode(rest, n - k);
      EncodeOneBlock(block, DecodeBlocks(rest, n - k).value);
    }
  }

  lemma EncodeOneBlock(block: bytes, more: bytes)
    requires 0 < |block| <= 16 && (more == [] || |block| == 16)
    ensures EncodeBlocks(block + more) == block + CrcOctets(block) + EncodeBlocks(more)
  {
    hide CrcOctets;
    var user := block + more;
    assert user[..|block|] == block && user[|block|..] == more;
  }

  function After(output: bytes, r: Result<bytes>): Result<bytes> {
    if r.Raised? then Raised else Ok(output + r.value)
  }

  /** The blocks before `offset` decode to `output`; what remains decides the rest. */
  ghost predicate DecodedUpTo(encoded: bytes, n: nat, output: bytes, offset: nat) {
    && |output| <= n
    && DecodeBlocks(encoded, n) ==
       After(output, DecodeBlocks(Slice(encoded, offset, offset + |encoded|), n - |output|))
  }

  lemma DecodeStarts(encoded: bytes, n: nat)
    ensures DecodedUpTo(encoded, n, [], 0)
  {
    assert Slice(encoded, 0, |encoded|) == encoded;
    var r := DecodeBlocks(encoded, n);
    assert r.Ok? ==> [] + r.value == r.value;
  }

  lemma DecodeContinues(encoded: bytes, n: nat, output: bytes, offset: nat)
    requires DecodedUpTo(encoded, n, output, offset) && |output| < n
    ensures var k := BlockLength(n - |output|);
            var block, check := Slice(encoded, offset, offset + k), Slice(encoded, offset + k, offset + k + 2);
            if |block| == k && VerifyCrc(block, check) then DecodedUpTo(encoded, n, output + block, offset + k + 2)
            else DecodeBlocks(encoded, n) == Raised
  {
    hide VerifyCrc, Slice;
    var k := BlockLength(n - |output|);
    SliceSteps(encoded, offset, k);
    var block, check := Slice(encoded, offset, offset + k), Slice(encoded, offset + k, offset + k + 2);
    var later := DecodeBlocks(Slice(encoded, offset + k + 2, offset + k + 2 + |encoded|), n - |output| - k);
    if |block| == k && VerifyCrc(block, check) && later.Ok? {
      Associative(output, block, later.value);
    }
  }

  method DecodeUserBlocks(encoded: bytes, userLength: nat) returns (r: Result<bytes>)
    ensures r == DecodeBlocks(encoded, userLength)
  {
    hide VerifyCrc, DecodedUpTo;
    var output: bytes, offset := [], 0;
    DecodeStarts(encoded, userLength);
    while |output| < userLength
      invariant |output| <= userLength && 0 <= offset && DecodedUpTo(encoded, userLength, output, offset)
      decreases userLength - |output|
    {
      var blockLength := BlockLength(userLength - |output|);
      var block := Slice(encoded, offset, offset + blockLength);
      var encodedCrc := Slice(encoded, offset + blockLength, offset + blockLength + 2);
      DecodeContinues(encoded, userLength, output, offset);
      if |block| != blockLength {
        return Raised;
      }
      var verified := CheckCrc(block, encodedCrc);
      if !verified {
        return Raised;
      }
      output := output + block;
      offset := offset + blockLength + 2;
    }
    DecodeEnds(encoded, userLength, output, offset);
    r := Ok(output);
  }

  lemma DecodeEnds(encoded: bytes, n: nat, output: bytes, offset: nat)
    requires DecodedUpTo(encoded, n, output, offset) && |output| == n
    ensures DecodeBlocks(encoded, n) == Ok(output)
  {
    assert output + [] == output;
  }

  method CheckCrc(data: bytes, encoded: bytes) returns (ok: bool)
    ensures ok == VerifyCrc(data, encoded)
  {
    var crc := Dnp3Crc(data);
    ok := |encoded| == 2 && FromLittle(encoded[0], encoded[1]) == crc;
  }

  lemma SliceSteps(encoded: bytes, offset: nat, k: nat)
    ensures var tail := Slice(encoded, offset, offset + |encoded|);
            && (|Slice(encoded, offset, offset + k)| == k <==> k <= |tail|)
            && (k <= |tail| ==> tail[..k] == Slice(encoded, offset, offset + k))
            && (k <= |tail| ==> Slice(tail, k, k + 2) == Slice(encoded, offset + k, offset + k + 2))
            && (k <= |tail| ==> Slice(tail, k + 2, |tail| + k + 2) == Slice(encoded, offset + k + 2, offset + k + 2 + |encoded|))
  {
  }

  // ---- Frames ----

  /** What the parser reports, from the control octet, the two addresses and the user octets. */
  function Interpret(control: byte, destination: nat, source: nat, user: bytes): Frame {
    var hasTransport := user != [];
    var hasApplication := |user| >= 3 && ToBits(user[0]).b7;
    var hasIndications := hasApplication && user[2] in {0x81, 0x82} && |user| >= 5;
    Frame(
      source, destination, control % 16, ToBits(control).b7, ToBits(control).b6,
      if hasTransport then Some(user[0] % 64) else None,
      if hasApplication then Some(user[2]) else None,
      if hasApplication then ApplicationFunctionName(user[2]) else None,
      if hasApplication then Some(user[1] % 16) else None,
      if hasIndications then Some(Little16(user[3], user[4])) else None,
      |user|,
      if hasTransport then Some(TransportFields(ToBits(user[0]).b7, ToBits(user[0]).b6)) else None,
      if hasApplication then
        var c := ToBits(user[1]);
        Some(ApplicationFields(c.b7, c.b6, c.b5, c.b4, user[2] in {0x02, 0x03, 0x04, 0x05, 0x06}))
      else None)
  }

  function LinkHeader(length: byte, control: byte, d0: byte, d1: byte, s0: byte, s1: byte): bytes {
    [0x05, 0x64, length, control, d0, d1, s0, s1]
  }

  /** A well-formed frame around user data. */
  function Encode(control: byte, d0: byte, d1: byte, s0: byte, s1: byte, user: bytes): bytes
    requires |user| <= 250
  {
    var header := LinkHeader(5 + |user|, control, d0, d1, s0, s1);
    header + CrcOctets(header) + EncodeBlocks(user)
  }

  predicate WellSized(frame: bytes) {
    && 10 <= |frame| && frame[0] == 0x05 && frame[1] == 0x64 && 5 <= frame[2]
    && |frame| == LinkFrameSize(frame[2])
  }

  function Parse(frame: bytes): Result<Frame> {
    if !WellSized(frame) || !VerifyCrc(frame[..8], frame[8..10]) then Raised
    else
      match DecodeBlocks(frame[10..], frame[2] - 5)
      case Raised => Raised
      case Ok(user) => Ok(Interpret(frame[3], Little16(frame[4], frame[5]), Little16(frame[6], frame[7]), user))
  }

  method ParseDnp3Frame(frame: bytes) returns (r: Result<Frame>)
    ensures r == Parse(frame)
  {
    hide VerifyCrc, DecodeBlocks, LinkFrameSize, ToBits, ApplicationFunctionName;
    if |frame| < 10 {
      return Raised;
    }
    if frame[0] != 0x05 || frame[1] != 0x64 {
      return Raised;
    }
    var length := frame[2];
    if length < 5 {
      return Raised;
    }
    var userLength := length - 5;
    var expectedSize := LinkFrameSize(length);
    if |frame| != expectedSize {
      return Raised;
    }
    var headerOk := CheckCrc(frame[..8], frame[8..10]);
    if !headerOk {
      return Raised;
    }
    var decoded := DecodeUserBlocks(frame[10..], userLength);
    if decoded.Raised? {
      return Raised;
    }
    var userData := decoded.value;
    var control := frame[3];
    var destination := Little16(frame[4], frame[5]);
    var source := Little16(frame[6], frame[7]);
    var transportSequence, applicationFunction: Option<nat>, applicationSequence, internalIndications: Option<nat> := None, None, None, None;
    var name: Option<string>, transportFields, applicationFields := None, None, None;
    if userData != [] {
      var transport := userData[0];
      transportSequence := Some(transport % 64);
      transportFields := Some(TransportFields(ToBits(transport).b7, ToBits(transport).b6));
      var application := userData[1..];
      if |application| >= 2 && ToBits(transport).b7 {
        var c := ToBits(application[0]);
        applicationSequence := Some(application[0] % 16);
        applicationFunction := Some(application[1]);
        name := ApplicationFunctionName(application[1]);
        applicationFields := Some(ApplicationFields(
                                    c.b7, c.b6, c.b5, c.b4, application[1] in {0x02, 0x03, 0x04, 0x05, 0x06}));
        if application[1] in {0x81, 0x82} && |application| >= 4 {
          internalIndications := Some(Little16(application[2], application[3]));
        }
      }
    }
    r := Ok(Frame(source, destination, control % 16, ToBits(control).b7, ToBits(control).b6, transportSequence,
                  applicationFunction, name, applicationSequence, internalIndications, |userData|, transportFields,
                  applicationFields));
  }

  lemma FrameParts(header: bytes, check: bytes, blocks: bytes)
    requires |header| == 8 && |check| == 2
    ensures var frame := header + check + blocks;
            && frame[..8] == header && frame[8..10] == check && frame[10..] == blocks
            && forall i | 0 <= i < 8 :: frame[i] == header[i]
  {
  }

  lemma EncodeLayout(control: byte, d0: byte, d1: byte, s0: byte, s1: byte, user: bytes)
    requires |user| <= 250
    ensures var frame, length := Encode(control, d0, d1, s0, s1, user), 5 + |user|;
            && |frame| == LinkFrameSize(length) && 10 <= |frame|
            && frame[0] == 0x05 && frame[1] == 0x64 && frame[2] == length && frame[3] == control
            && frame[4] == d0 && frame[5] == d1 && frame[6] == s0 && frame[7] == s1
            && VerifyCrc(frame[..8], frame[8..10])
            && frame[10..] == EncodeBlocks(user)
  {
    hide VerifyCrc, EncodeBlocks, CrcOctets, CeilDiv16;
    var header := LinkHeader(5 + |user|, control, d0, d1, s0, s1);
    FrameParts(header, CrcOctets(header), EncodeBlocks(user));
    EncodedLength(user);
    VerifiesIff(header, CrcOctets(header));
  }

  /** Encoding then parsing recovers the control bits, both addresses and the user octets. */
  lemma ParseEncode(control: byte, d0: byte, d1: byte, s0: byte, s1: byte, user: bytes)
    requires |user| <= 250
    ensures var frame := Encode(control, d0, d1, s0, s1, user);
            && |frame| >= 10
            && Parse(frame) == Ok(Interpret(control, Little16(d0, d1), Little16(s0, s1), user))
            && DecodeBlocks(frame[10..], |user|) == Ok(user)
  {
    hide VerifyCrc, Encode, DecodeBlocks, EncodeBlocks, Interpret, LinkFrameSize;
    EncodeLayout(control, d0, d1, s0, s1, user);
    DecodeEncode(user);
  }

  function Bit(bit: bool): (n: nat)
    ensures n <= 1
  {
    if bit then 1 else 0
  }

  lemma PutIs(bit: bool, rest: int)
    ensures Put(bit, rest) == Bit(bit) + 2 * rest
  {
  }

  lemma WeightsOf(x: Bits) returns (low: nat)
    ensures low < 16 && FromBits(x) == low + 16 * Bit(x.b4) + 32 * Bit(x.b5) + 64 * Bit(x.b6) + 128 * Bit(x.b7)
  {
    low := Bit(x.b0) + 2 * Bit(x.b1) + 4 * Bit(x.b2) + 8 * Bit(x.b3);
    hide Put, Bit;
    var r7 := Put(x.b7, 0);
    var r6 := Put(x.b6, r7);
    var r5 := Put(x.b5, r6);
    var r4 := Put(x.b4, r5);
    var r3 := Put(x.b3, r4);
    var r2 := Put(x.b2, r3);
    var r1 := Put(x.b1, r2);
    PutIs(x.b7, 0);
    PutIs(x.b6, r7);
    PutIs(x.b5, r6);
    PutIs(x.b4, r5);
    PutIs(x.b3, r4);
    PutIs(x.b2, r3);
    PutIs(x.b1, r2);
    PutIs(x.b0, r1);
  }

  lemma HighBits(b: byte)
    ensures ToBits(b).b7 <==> b >= 128
    ensures ToBits(b).b6 <==> b % 128 >= 64
    ensures ToBits(b).b5 <==> b % 64 >= 32
    ensures ToBits(b).b4 <==> b % 32 >= 16
  {
    BitsOfOctet(b);
    var x := ToBits(b);
    var low := WeightsOf(x);
    hide ToBits, FromBits;
    var r5 := low + 16 * Bit(x.b4);
    var r6 := r5 + 32 * Bit(x.b5);
    var r7 := r6 + 64 * Bit(x.b6);
    assert b % 128 == r7;
    assert b % 64 == r6;
    assert b % 32 == r5;
  }

  /** The link layer, by arithmetic on the control octet and the four address octets. */
  ghost predicate LinkFields(f: Frame, control: byte, d0: byte, d1: byte, s0: byte, s1: byte, user: bytes) {
    && f.sourceAddress == s0 as int + 256 * s1 as int && f.destinationAddress == d0 as int + 256 * d1 as int
    && f.linkFunction == control % 16 && (f.directionFromMaster <==> control >= 128) && (f.primary <==> control % 128 >= 64)
    && f.userDataLength == |user|
  }

  /** The transport octet, if there is user data at all. */
  ghost predicate TransportOctet(f: Frame, user: bytes) {
    if user == [] then f.transportSequence == None && f.transport == None
    else
      f.transportSequence == Some(user[0] % 64) && f.transport == Some(TransportFields(user[0] >= 128, user[0] % 128 >= 64))
  }

  /** The application header, if a first segment holds two octets of it. */
  ghost predicate ApplicationOctets(f: Frame, user: bytes) {
    if |user| >= 3 && user[0] >= 128 then
      && f.applicationFunction == Some(user[2]) && f.applicationSequence == Some(user[1] % 16)
      && f.applicationFunctionName == ApplicationFunctionName(user[2])
      && f.application == Some(ApplicationFields(
                                 user[1] >= 128, user[1] % 128 >= 64, user[1] % 64 >= 32, user[1] % 32 >= 16, 2 <= user[2] <= 6))
    else f.applicationFunction == None && f.applicationSequence == None && f.applicationFunctionName == None && f.application == None
  }

  /** The indications, if a response or an unsolicited response holds them. */
  ghost predicate IndicationOctets(f: Frame, user: bytes) {
    f.internalIndications ==
    if |user| >= 5 && user[0] >= 128 && (user[2] == 0x81 || user[2] == 0x82) then Some(user[3] as int + 256 * user[4] as int) else None
  }

  lemma InterpretLink(control: byte, d0: byte, d1: byte, s0: byte, s1: byte, user: bytes)
    ensures LinkFields(Interpret(control, Little16(d0, d1), Little16(s0, s1), user), control, d0, d1, s0, s1, user)
  {
    HighBits(control);
    hide ToBits, ApplicationFunctionName;
  }

  lemma InterpretTransport(control: byte, destination: nat, source: nat, user: bytes)
    ensures TransportOctet(Interpret(control, destination, source, user), user)
  {
    hide ToBits, ApplicationFunctionName;
    if user != [] {
      HighBits(user[0]);
    }
  }

  lemma InterpretApplication(control: byte, destination: nat, source: nat, user: bytes)
    ensures ApplicationOctets(Interpret(control, destination, source, user), user)
    ensures IndicationOctets(Interpret(control, destination, source, user), user)
  {
    hide ToBits, ApplicationFunctionName;
    if |user| >= 3 {
      HighBits(user[0]);
      HighBits(user[1]);
    }
  }

  /** What is reported of every frame, layer by layer. */
  lemma ParsedFields(control: byte, d0: byte, d1: byte, s0: byte, s1: byte, user: bytes)
    requires |user| <= 250
    ensures var r := Parse(Encode(control, d0, d1, s0, s1, user));
            && r.Ok?
            && LinkFields(r.value, control, d0, d1, s0, s1, user)
            && TransportOctet(r.value, user) && ApplicationOctets(r.value, user) && IndicationOctets(r.value, user)
  {
    ParseEncode(control, d0, d1, s0, s1, user);
    InterpretLink(control, d0, d1, s0, s1, user);
    InterpretTransport(control, Little16(d0, d1), Little16(s0, s1), user);
    InterpretApplication(control, Little16(d0, d1), Little16(s0, s1), user);
    hide Parse, Encode, Interpret, LinkFields, TransportOctet, ApplicationOctets, IndicationOctets;
  }

  /** The function that a name stands for. */
  function FunctionNamed(name: string): Option<byte> {
    if name == "confirm" then Some(0)
    else if name == "read" then Some(1)
    else if name == "write" then Some(2)
    else if name == "select" then Some(3)
    else if name == "operate" then Some(4)
    else if name == "direct_operate" then Some(5)
    else if name == "direct_operate_no_ack" then Some(6)
    else if name == "cold_restart" then Some(13)
    else if name == "warm_restart" then Some(14)
    else if name == "enable_unsolicited" then Some(20)
    else if name == "disable_unsolicited" then Some(21)
    else if name == "delay_measurement" then Some(23)
    else if name == "response" then Some(129)
    else if name == "unsolicited_response" then Some(130)
    else None
  }

  /** Names and functions determine each other, and the unnamed functions are the others. */
  lemma NamesDetermineFunctions(code: byte)
    ensures match ApplicationFunctionName(code)
            case Some(name) => FunctionNamed(name) == Some(code)
            case None => forall name: string :: FunctionNamed(name) != Some(code)
  {
  }

  /** Re-encoding an accepted frame gives back the same octets. */
  lemma EncodeParse(frame: bytes) returns (user: bytes)
    requires Parse(frame).Ok?
    ensures |user| <= 250 && |frame| >= 10
    ensures frame == Encode(frame[3], frame[4], frame[5], frame[6], frame[7], user)
    ensures Parse(frame) == Ok(Interpret(frame[3], Little16(frame[4], frame[5]), Little16(frame[6], frame[7]), user))
  {
    hide VerifyCrc, DecodeBlocks, EncodeBlocks, CrcOctets, Interpret, CeilDiv16;
    user := DecodeBlocks(frame[10..], frame[2] - 5).value;
    EncodeDecode(frame[10..], frame[2] - 5);
    VerifiesIff(frame[..8], frame[8..10]);
    var header := LinkHeader(5 + |user|, frame[3], frame[4], frame[5], frame[6], frame[7]);
    assert frame[..8] == header;
    assert frame == frame[..8] + frame[8..10] + frame[10..];
  }

  /** The parser accepts exactly the encodings. */
  lemma AcceptsIffEncoded(frame: bytes)
    ensures Parse(frame).Ok? <==>
            exists control: byte, d0: byte, d1: byte, s0: byte, s1: byte, user: bytes ::
              |user| <= 250 && frame == Encode(control, d0, d1, s0, s1, user)
  {
    hide Parse, Encode;
    if Parse(frame).Ok? {
      var user := EncodeParse(frame);
    }
    forall control: byte, d0: byte, d1: byte, s0: byte, s1: byte, user: bytes
      | |user| <= 250 && frame == Encode(control, d0, d1, s0, s1, user)
      ensures Parse(frame).Ok?
    {
      ParseEncode(control, d0, d1, s0, s1, user);
    }
  }

  /** A frame cut off by the stream splitter is never rejected for its size or its sync octets. */
  lemma CutFramesAreWellSized(frame: bytes)
    ensures Complete(DNP3, frame) <==> WellSized(frame)
  {
    assert |frame| >= 3 ==> frame[..3] == [frame[0], frame[1], frame[2]];
  }
}
