/**
  The header rules of the five passive protocols and the five splitter loops that apply them:
  MBAP, DNP3 data link, TPKT (cut twice, for S7comm and for MMS) and OPC UA TCP.
 */
module FrameRules {
  import opened Bytes
  import opened Framing

  const MBAP := Rule(6, (h: bytes) => MbapSize(h))
  const DNP3 := Rule(3, (h: bytes) => Dnp3Size(h))
  const TPKT := Rule(4, (h: bytes) => TpktSize(h))
  const OPCUA := Rule(8, (h: bytes) => OpcUaSize(h))

  const MAX_CAPTURE_MESSAGE_SIZE := 16 * 1024 * 1024

  function MbapSize(h: bytes): (v: Verdict)
    ensures v.Size? ==> 8 <= v.n
  {
    if |h| < 6 then BadHeader
    else
      var length := Big16(h[4], h[5]);
      if Big16(h[2], h[3]) != 0 || !(2 <= length <= 254) then BadHeader else Size(6 + length)
  }

  function CeilDiv16(n: nat): nat {
    (n + 15) / 16
  }

  /** Link frame size for a length octet: ten header octets, user octets, two CRC octets a block. */
  function LinkFrameSize(length: nat): nat
    requires 5 <= length
  {
    var userLength := length - 5;
    10 + userLength + 2 * CeilDiv16(userLength)
  }

  function Dnp3Size(h: bytes): (v: Verdict)
    ensures v.Size? ==> 10 <= v.n
  {
    if |h| < 3 || h[0] != 0x05 || h[1] != 0x64 || h[2] < 5 then BadHeader else Size(LinkFrameSize(h[2]))
  }

  function TpktSize(h: bytes): (v: Verdict)
    ensures v.Size? ==> 7 <= v.n
  {
    if |h| < 4 || h[0] != 3 || Big16(h[2], h[3]) < 7 then BadHeader else Size(Big16(h[2], h[3]))
  }

  /** The octets of an ASCII literal. */
  function Ascii(s: string): bytes
    requires forall i | 0 <= i < |s| :: s[i] < 128 as char
  {
    seq(|s|, i requires 0 <= i < |s| => s[i] as int)
  }

  predicate IsMessageType(t: bytes) {
    t in {Ascii("HEL"), Ascii("ACK"), Ascii("ERR"), Ascii("RHE"), Ascii("OPN"), Ascii("MSG"), Ascii("CLO")}
  }

  function OpcUaSize(h: bytes): (v: Verdict)
    ensures v.Size? ==> 8 <= v.n
  {
    if |h| < 8 || !IsMessageType(h[..3]) then BadHeader
    else
      var size := Little32(h, 4);
      if size < 8 || size > MAX_CAPTURE_MESSAGE_SIZE then BadHeader else Size(size)
  }

  lemma RulesAreWellformed()
    ensures Wellformed(MBAP) && Wellformed(DNP3) && Wellformed(TPKT) && Wellformed(OPCUA)
  {
  }

  // ---- What a whole frame is, octet by octet ----

  lemma MbapHeaders(h: bytes, protocol: nat, length: nat)
    requires |h| == 6 && protocol == Big16(h[2], h[3]) && length == Big16(h[4], h[5])
    ensures MbapSize(h) == if protocol == 0 && 2 <= length <= 254 then Size(6 + length) else BadHeader
  {
    hide Big16;
  }

  lemma BigOctets(hi: byte, lo: byte)
    ensures Big16(hi, lo) == 256 * hi as int + lo
    ensures Big16(hi, lo) == 0 <==> hi == 0 && lo == 0
  {
  }

  lemma MbapFrames(u: bytes)
    ensures Complete(MBAP, u) <==> |u| >= 6 && MbapSize(u[..6]) == Size(|u|)
  {
    hide MbapSize;
  }

  /** Section 3.1.3 of the MODBUS Messaging guide: protocol 0, and a length that counts unit and data. */
  lemma ModbusUnits(u: bytes)
    ensures MBAP.need == 6
    ensures Complete(MBAP, u) <==> 8 <= |u| <= 260 && u[2] == 0 && u[3] == 0 && 256 * u[4] as int + u[5] == |u| - 6
  {
    MbapFrames(u);
    hide Complete, MbapSize;
    if |u| >= 6 {
      BigOctets(u[2], u[3]);
      BigOctets(u[4], u[5]);
      hide Big16;
      MbapHeaders(u[..6], Big16(u[2], u[3]), Big16(u[4], u[5]));
    }
  }

  /** Sync octets, and a length octet that counts five header octets and the user data. */
  lemma LinkFrames(f: bytes)
    ensures DNP3.need == 3
    ensures Complete(DNP3, f) <==>
            |f| >= 10 && f[0] == 0x05 && f[1] == 0x64 && f[2] >= 5 && |f| == 5 + f[2] as int + 2 * ((f[2] as int + 10) / 16)
  {
    assert |f| >= 3 ==> f[..3] == [f[0], f[1], f[2]];
  }

  /** Section 6 of RFC 1006: version 3, and a length that counts the whole packet. */
  lemma TpktPackets(p: bytes)
    ensures TPKT.need == 4
    ensures Complete(TPKT, p) <==> |p| >= 7 && p[0] == 3 && 256 * p[2] as int + p[3] == |p|
  {
    assert |p| >= 4 ==> p[..4] == [p[0], p[1], p[2], p[3]];
  }

  lemma OpcUaHeaders(h: bytes)
    requires |h| == 8
    ensures OPCUA.size(h) ==
            var size := h[4] as int + 0x100 * h[5] as int + 0x1_0000 * h[6] as int + 0x100_0000 * h[7] as int;
            if IsMessageType(h[..3]) && 8 <= size <= 16_777_216 then Size(size) else BadHeader
  {
    hide IsMessageType;
  }

  lemma MessageTypes(t: bytes)
    requires |t| == 3
    ensures IsMessageType(t) <==>
            t in {[0x48, 0x45, 0x4C], [0x41, 0x43, 0x4B], [0x45, 0x52, 0x52], [0x52, 0x48, 0x45],
                  [0x4F, 0x50, 0x4E], [0x4D, 0x53, 0x47], [0x43, 0x4C, 0x4F]}
  {
    assert Ascii("HEL") == [0x48, 0x45, 0x4C] && Ascii("ACK") == [0x41, 0x43, 0x4B] && Ascii("ERR") == [0x45, 0x52, 0x52];
    assert Ascii("RHE") == [0x52, 0x48, 0x45] && Ascii("OPN") == [0x4F, 0x50, 0x4E] && Ascii("MSG") == [0x4D, 0x53, 0x47];
    assert Ascii("CLO") == [0x43, 0x4C, 0x4F];
    hide Ascii;
  }

  /** Section 7.1.2 of OPC 10000-6: seven message types, and a size that counts the whole message. */
  lemma OpcUaMessages(m: bytes)
    ensures OPCUA.need == 8
    ensures Complete(OPCUA, m) <==>
            && 8 <= |m| <= 16_777_216
            && m[..3] in {[0x48, 0x45, 0x4C], [0x41, 0x43, 0x4B], [0x45, 0x52, 0x52], [0x52, 0x48, 0x45],
                          [0x4F, 0x50, 0x4E], [0x4D, 0x53, 0x47], [0x43, 0x4C, 0x4F]}
            && m[4] as int + 0x100 * m[5] as int + 0x1_0000 * m[6] as int + 0x100_0000 * m[7] as int == |m|
  {
    if |m| >= 8 {
      var h := m[..8];
      OpcUaHeaders(h);
      MessageTypes(m[..3]);
      assert h[..3] == m[..3] && h[4] == m[4] && h[5] == m[5] && h[6] == m[6] && h[7] == m[7];
      hide IsMessageType, OpcUaSize;
    }
  }

  /** Everything before `offset` has been cut into `frames`. */
  ghost predicate CutUpTo(r: Rule, data: bytes, frames: seq<bytes>, offset: nat)
    requires Wellformed(r)
  {
    offset <= |data| && Split(r, data) == Prepend(frames, Split(r, data[offset..]))
  }

  lemma Start(r: Rule, data: bytes)
    requires Wellformed(r)
    ensures CutUpTo(r, data, [], 0)
  {
    assert data[0..] == data;
    if Split(r, data).Parsed? {
      assert [] + Split(r, data).frames == Split(r, data).frames;
    }
  }

  lemma Header(r: Rule, data: bytes, offset: nat)
    requires Wellformed(r) && offset + r.need <= |data|
    ensures data[offset..][..r.need] == data[offset..offset + r.need]
  {
  }

  lemma Advance(r: Rule, data: bytes, frames: seq<bytes>, offset: nat, n: nat)
    requires Wellformed(r) && CutUpTo(r, data, frames, offset)
    requires offset + r.need <= |data| && r.size(data[offset..offset + r.need]) == Size(n)
    requires offset + n <= |data|
    ensures CutUpTo(r, data, frames + [data[offset..offset + n]], offset + n)
  {
    Header(r, data, offset);
    var f := data[offset..offset + n];
    assert data[offset..][..n] == f;
    assert data[offset..][n..] == data[offset + n..];
    PrependTwice(frames, [f], Split(r, data[offset + n..]));
  }

  /** The loop ends with too few octets for a header, or for the frame that the header announces. */
  lemma Stop(r: Rule, data: bytes, frames: seq<bytes>, offset: nat)
    requires Wellformed(r) && CutUpTo(r, data, frames, offset)
    requires offset + r.need <= |data| ==>
               && r.size(data[offset..offset + r.need]).Size?
               && |data| - offset < r.size(data[offset..offset + r.need]).n
    ensures Split(r, data) == Parsed(frames, data[offset..])
  {
    if offset + r.need <= |data| {
      Header(r, data, offset);
    }
    assert frames + [] == frames;
  }

  lemma Reject(r: Rule, data: bytes, frames: seq<bytes>, offset: nat)
    requires Wellformed(r) && CutUpTo(r, data, frames, offset)
    requires offset + r.need <= |data| && r.size(data[offset..offset + r.need]).BadHeader?
    ensures Split(r, data) == Error
  {
    Header(r, data, offset);
  }

  method SplitModbusTcpStream(data: bytes) returns (o: Outcome)
    ensures Wellformed(MBAP) && o == Split(MBAP, data)
  {
    var frames: seq<bytes>, offset := [], 0;
    hide Split, CutUpTo;
    Start(MBAP, data);
    while |data| - offset >= 6
      invariant 0 <= offset <= |data| && CutUpTo(MBAP, data, frames, offset)
    {
      var protocolId := Big16(data[offset + 2], data[offset + 3]);
      var length := Big16(data[offset + 4], data[offset + 5]);
      if protocolId != 0 || !(2 <= length <= 254) {
        Reject(MBAP, data, frames, offset);
        return Error;
      }
      var frameSize := 6 + length;
      if |data| - offset < frameSize {
        break;
      }
      Advance(MBAP, data, frames, offset, frameSize);
      frames := frames + [data[offset..offset + frameSize]];
      offset := offset + frameSize;
    }
    Stop(MBAP, data, frames, offset);
    o := Parsed(frames, data[offset..]);
  }

  method SplitDnp3Stream(data: bytes) returns (o: Outcome)
    ensures Wellformed(DNP3) && o == Split(DNP3, data)
  {
    var frames: seq<bytes>, offset := [], 0;
    hide Split, CutUpTo;
    Start(DNP3, data);
    while |data| - offset >= 3
      invariant 0 <= offset <= |data| && CutUpTo(DNP3, data, frames, offset)
    {
      if data[offset] != 0x05 || data[offset + 1] != 0x64 {
        Reject(DNP3, data, frames, offset);
        return Error;
      }
      var length := data[offset + 2];
      if length < 5 {
        Reject(DNP3, data, frames, offset);
        return Error;
      }
      var frameSize := LinkFrameSize(length);
      if |data| - offset < frameSize {
        break;
      }
      Advance(DNP3, data, frames, offset, frameSize);
      frames := frames + [data[offset..offset + frameSize]];
      offset := offset + frameSize;
    }
    Stop(DNP3, data, frames, offset);
    o := Parsed(frames, data[offset..]);
  }

  /** The S7comm and the MMS module each carry their own copy of this loop. */
  method SplitTpktStream(data: bytes) returns (o: Outcome)
    ensures Wellformed(TPKT) && o == Split(TPKT, data)
  {
    var packets: seq<bytes>, offset := [], 0;
    hide Split, CutUpTo;
    Start(TPKT, data);
    while |data| - offset >= 4
      invariant 0 <= offset <= |data| && CutUpTo(TPKT, data, packets, offset)
    {
      if data[offset] != 3 {
        Reject(TPKT, data, packets, offset);
        return Error;
      }
      var packetLength := Big16(data[offset + 2], data[offset + 3]);
      if packetLength < 7 {
        Reject(TPKT, data, packets, offset);
        return Error;
      }
      if |data| - offset < packetLength {
        break;
      }
      Advance(TPKT, data, packets, offset, packetLength);
      packets := packets + [data[offset..offset + packetLength]];
      offset := offset + packetLength;
    }
    Stop(TPKT, data, packets, offset);
    o := Parsed(packets, data[offset..]);
  }

  lemma OpcUaHeader(data: bytes, offset: nat)
    requires offset + 8 <= |data|
    ensures OPCUA.size(data[offset..offset + 8]) ==
            if !IsMessageType(data[offset..offset + 3]) then BadHeader
            else if Little32(data, offset + 4) < 8 then BadHeader
            else if Little32(data, offset + 4) > MAX_CAPTURE_MESSAGE_SIZE then BadHeader
            else Size(Little32(data, offset + 4))
  {
    var h := data[offset..offset + 8];
    assert h[..3] == data[offset..offset + 3];
  }

  method SplitOpcUaStream(data: bytes) returns (o: Outcome)
    ensures Wellformed(OPCUA) && o == Split(OPCUA, data)
  {
    var messages: seq<bytes>, offset := [], 0;
    hide Split, CutUpTo, OpcUaSize, IsMessageType;
    Start(OPCUA, data);
    while |data| - offset >= 8
      invariant 0 <= offset <= |data| && CutUpTo(OPCUA, data, messages, offset)
    {
      OpcUaHeader(data, offset);
      if !IsMessageType(data[offset..offset + 3]) {
        Reject(OPCUA, data, messages, offset);
        return Error;
      }
      var size := Little32(data, offset + 4);
      if size < 8 {
        Reject(OPCUA, data, messages, offset);
        return Error;
      }
      if size > MAX_CAPTURE_MESSAGE_SIZE {
        Reject(OPCUA, data, messages, offset);
        return Error;
      }
      if |data| - offset < size {
        break;
      }
      Advance(OPCUA, data, messages, offset, size);
      messages := messages + [data[offset..offset + size]];
      offset := offset + size;
    }
    Stop(OPCUA, data, messages, offset);
    o := Parsed(messages, data[offset..]);
  }
}
