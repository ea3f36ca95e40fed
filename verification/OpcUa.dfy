/**
  OPC UA TCP messages, and the rule that the body of a secured channel stays opaque: sequence
  numbers, request ids and service ids are reported only for channels opened in the clear.
 */
module OpcUa {
  import opened Wrappers
  import opened Bytes
  import opened Framing
  import opened FrameRules
  import opened Ordering
  import R = Reassembly

  datatype MessageType = HEL | ACK | ERR | RHE | OPN | MSG | CLO

  datatype Fields =
    | Limits(protocolVersion: nat, receiveBufferSize: nat, sendBufferSize: nat, maxMessageSize: nat, maxChunkCount: nat)
    | ServerUri(uri: Option<string>)
    | Status(code: nat, reason: Option<string>)
    | Secured(encryptedOrSigned: bool, continuationChunk: bool)

  datatype Message = Message(
    messageType: MessageType,
    chunkType: char,
    endpointUrl: Option<string>,
    securityPolicyUri: Option<string>,
    secureChannelId: Option<nat>,
    tokenId: Option<nat>,
    sequenceNumber: Option<nat>,
    requestId: Option<nat>,
    serviceNodeId: Option<nat>,
    serviceName: Option<string>,
    fields: Fields)

  /** Strict UTF-8 decoding; `None` stands for its exception. */
  type Utf8 = bytes -> Option<string>

  /** A decoded string and the octets it occupied. */
  datatype Text = Text(value: string, octets: nat)

  const NONE_POLICY := "http://opcfoundation.org/UA/SecurityPolicy#None"

  function ServiceName(id: nat): string {
    match id
    case 420 => "find_servers_request"
    case 423 => "find_servers_response"
    case 426 => "get_endpoints_request"
    case 429 => "get_endpoints_response"
    case 446 => "open_secure_channel_request"
    case 449 => "open_secure_channel_response"
    case 452 => "close_secure_channel_request"
    case 455 => "close_secure_channel_response"
    case 461 => "create_session_request"
    case 464 => "create_session_response"
    case 467 => "activate_session_request"
    case 470 => "activate_session_response"
    case 473 => "close_session_request"
    case 476 => "close_session_response"
    case 527 => "browse_request"
    case 530 => "browse_response"
    case 533 => "browse_next_request"
    case 536 => "browse_next_response"
    case 631 => "read_request"
    case 634 => "read_response"
    case 673 => "write_request"
    case 676 => "write_response"
    case _ => "unknown"
  }

  // ---- Fields ----

  function Signed32(n: nat): int {
    if n < 0x8000_0000 then n else n - 0x1_0000_0000
  }

  /** A length-prefixed field: absent (-1) or that many octets, and the offset behind it. */
  function ByteString(data: bytes, offset: nat): (r: Result<(Option<bytes>, nat)>)
    ensures r.Ok? ==> offset + 4 <= r.value.1 <= |data|
    ensures r.Ok? && r.value.0.Some? ==> data[offset + 4..r.value.1] == r.value.0.value
  {
    if |data| < offset + 4 then Raised
    else
      var length := Signed32(Little32(data, offset));
      if length == -1 then Ok((None, offset + 4))
      else if length < -1 || |data| - (offset + 4) < length then Raised
      else Ok((Some(data[offset + 4..offset + 4 + length]), offset + 4 + length))
  }

  function LittleEndian(n: nat): bytes
    requires n < 0x1_0000_0000
  {
    var m := n / 0x100;
    var k := m / 0x100;
    [n % 0x100, m % 0x100, k % 0x100, k / 0x100]
  }

  lemma LittleEndianReadsBack(n: nat)
    requires n < 0x1_0000_0000
    ensures Little32(LittleEndian(n), 0) == n
  {
  }

  lemma LittleEndianUnique(s: bytes, at: nat)
    requires at + 4 <= |s|
    ensures s[at..at + 4] == LittleEndian(Little32(s, at))
  {
    var a: nat, b: nat, c: nat, d: nat := s[at], s[at + 1], s[at + 2], s[at + 3];
    var k := c + 0x100 * d;
    var m := b + 0x100 * k;
    assert Little32(s, at) == a + 0x100 * m;
    LowDigit(a, m);
    LowDigit(b, k);
    LowDigit(c, d);
    hide Little32;
    assert s[at..at + 4] == [s[at], s[at + 1], s[at + 2], s[at + 3]];
  }

  lemma LowDigit(digit: nat, rest: nat)
    requires digit < 0x100
    ensures (digit + 0x100 * rest) % 0x100 == digit && (digit + 0x100 * rest) / 0x100 == rest
  {
  }

  /** The encoding of a ByteString: -1 for an absent value, else the length and the octets. */
  function EncodeByteString(x: Option<bytes>): bytes
    requires x.Some? ==> |x.value| < 0x8000_0000
  {
    if x.None? then LittleEndian(0xFFFF_FFFF) else LittleEndian(|x.value|) + x.value
  }

  predicate EncodedAt(data: bytes, offset: nat, x: Option<bytes>, end: nat) {
    && (x.Some? ==> |x.value| < 0x8000_0000)
    && offset <= end <= |data| && data[offset..end] == EncodeByteString(x)
  }

  /** A field is read, and not refused, exactly where some value is encoded, and it is that value. */
  lemma ByteStringIffEncoded(data: bytes, offset: nat, x: Option<bytes>, end: nat)
    ensures ByteString(data, offset) == Ok((x, end)) <==> EncodedAt(data, offset, x, end)
  {
    hide Little32, LittleEndian;
    if ByteString(data, offset) == Ok((x, end)) {
      LittleEndianUnique(data, offset);
      assert x.Some? ==> data[offset..end] == data[offset..offset + 4] + data[offset + 4..end];
    }
    if EncodedAt(data, offset, x, end) {
      var length := if x.None? then 0xFFFF_FFFF else |x.value|;
      LittleEndianReadsBack(length);
      FourOctets(length);
      assert EncodeByteString(x)[..4] == LittleEndian(length);
      assert data[offset..end][..4] == data[offset..offset + 4];
      SameLittle32(data, offset, LittleEndian(length));
      assert x.Some? ==> data[offset + 4..end] == data[offset..end][4..] == x.value;
    }
  }

  lemma FourOctets(n: nat)
    requires n < 0x1_0000_0000
    ensures |LittleEndian(n)| == 4
  {
  }

  lemma SameLittle32(data: bytes, offset: nat, four: bytes)
    requires |four| == 4 && offset + 4 <= |data| && data[offset..offset + 4] == four
    ensures Little32(data, offset) == Little32(four, 0)
  {
    assert data[offset..offset + 4][0] == data[offset] && data[offset..offset + 4][1] == data[offset + 1];
    assert data[offset..offset + 4][2] == data[offset + 2] && data[offset..offset + 4][3] == data[offset + 3];
  }

  function UaString(utf8: Utf8, data: bytes, offset: nat): (r: Result<(Option<Text>, nat)>)
    ensures r.Ok? ==> r.value.1 <= |data|
  {
    var (raw, end) :- ByteString(data, offset);
    if raw.None? then Ok((None, end))
    else
      match utf8(raw.value)
      case None => Raised
      case Some(text) => Ok((Some(Text(text, |raw.value|)), end))
  }

  function TextValue(t: Option<Text>): Option<string> {
    if t.Some? then Some(t.value.value) else None
  }

  predicate UrlTooLong(t: Option<Text>) {
    t.Some? && t.value.octets > 4096
  }

  function NumericNodeId(data: bytes, offset: nat): Result<nat> {
    if |data| <= offset then Raised
    else
      var encoding := data[offset];
      var form, available := encoding % 64, |data| - offset;
      if encoding >= 64 then Raised
      else if form == 0 && available >= 2 then Ok(data[offset + 1])
      else if form == 1 && available >= 4 then
        if data[offset + 1] != 0 then Raised else Ok(Little16(data[offset + 2], data[offset + 3]))
      else if form == 2 && available >= 7 then
        if Little16(data[offset + 1], data[offset + 2]) != 0 then Raised else Ok(Little32(data, offset + 3))
      else Raised
  }

  // ---- Message bodies ----

  function Plain(t: MessageType, chunk: char, endpoint: Option<string>, fields: Fields): Message {
    Message(t, chunk, endpoint, None, None, None, None, None, None, None, fields)
  }

  function LimitsOf(body: bytes): Fields
    requires 20 <= |body|
  {
    Limits(Little32(body, 0), Little32(body, 4), Little32(body, 8), Little32(body, 12), Little32(body, 16))
  }

  function ParseHello(utf8: Utf8, body: bytes, chunk: char): (r: Result<Message>)
    ensures r.Ok? ==> r.value.messageType == HEL
  {
    if |body| < 20 then Raised
    else
      var (endpoint, offset) :- UaString(utf8, body, 20);
      if UrlTooLong(endpoint) || offset != |body| then Raised
      else Ok(Plain(HEL, chunk, TextValue(endpoint), LimitsOf(body)))
  }

  function ParseAck(body: bytes, chunk: char): (r: Result<Message>)
    ensures r.Ok? ==> r.value.messageType == ACK
  {
    if |body| != 20 then Raised else Ok(Plain(ACK, chunk, None, LimitsOf(body)))
  }

  function ParseReverseHello(utf8: Utf8, body: bytes, chunk: char): (r: Result<Message>)
    ensures r.Ok? ==> r.value.messageType == RHE
  {
    var (server, offset) :- UaString(utf8, body, 0);
    var (endpoint, end) :- UaString(utf8, body, offset);
    if UrlTooLong(server) || UrlTooLong(endpoint) || end != |body| then Raised
    else Ok(Plain(RHE, chunk, TextValue(endpoint), ServerUri(TextValue(server))))
  }

  function ParseError(utf8: Utf8, body: bytes, chunk: char): (r: Result<Message>)
    ensures r.Ok? ==> r.value.messageType == ERR
  {
    if |body| < 4 then Raised
    else
      var (reason, offset) :- UaString(utf8, body, 4);
      if offset != |body| then Raised else Ok(Plain(ERR, chunk, None, Status(Little32(body, 0), TextValue(reason))))
  }

  function ParseOpenSecureChannel(utf8: Utf8, body: bytes, chunk: char): (r: Result<Message>)
    ensures r.Ok? ==> r.value.messageType == OPN
  {
    if |body| < 4 then Raised
    else
      var (policy, afterPolicy) :- UaString(utf8, body, 4);
      var (_, afterCertificate) :- ByteString(body, afterPolicy);
      var (_, offset) :- ByteString(body, afterCertificate);
      var uri := TextValue(policy);
      if uri != Some(NONE_POLICY) then
        Ok(Message(OPN, chunk, None, uri, Some(Little32(body, 0)), None, None, None, None, None, Secured(true, false)))
      else if |body| < offset + 8 then Raised
      else
        var service :- NumericNodeId(body, offset + 8);
        Ok(Message(OPN, chunk, None, uri, Some(Little32(body, 0)), None, Some(Little32(body, offset)),
                   Some(Little32(body, offset + 4)), Some(service), Some(ServiceName(service)), Secured(false, false)))
  }

  function ParseSymmetric(body: bytes, t: MessageType, chunk: char, policyNone: bool): Result<Message> {
    if |body| < 8 then Raised
    else
      var channel, token := Little32(body, 0), Little32(body, 4);
      if !policyNone then
        Ok(Message(t, chunk, None, None, Some(channel), Some(token), None, None, None, None, Secured(true, false)))
      else if |body| < 16 then Raised
      else
        var sequence, request := Little32(body, 8), Little32(body, 12);
        if chunk != 'F' then
          Ok(Message(t, chunk, None, None, Some(channel), Some(token), Some(sequence), Some(request), None, None,
                     Secured(false, true)))
        else
          var service :- NumericNodeId(body, 16);
          Ok(Message(t, chunk, None, None, Some(channel), Some(token), Some(sequence), Some(request), Some(service),
                     Some(ServiceName(service)), Secured(false, false)))
  }

  function TypeOf(t: bytes): Option<MessageType> {
    if t == Ascii("HEL") then Some(HEL)
    else if t == Ascii("ACK") then Some(ACK)
    else if t == Ascii("ERR") then Some(ERR)
    else if t == Ascii("RHE") then Some(RHE)
    else if t == Ascii("OPN") then Some(OPN)
    else if t == Ascii("MSG") then Some(MSG)
    else if t == Ascii("CLO") then Some(CLO)
    else None
  }

  function ParseOpcUaTcp(utf8: Utf8, packet: bytes, policyNone: bool): Result<Message> {
    if |packet| < 8 || TypeOf(packet[..3]).None? || packet[3] >= 128 then Raised
    else
      var t, chunk, body := TypeOf(packet[..3]).value, packet[3] as char, packet[8..];
      var size := Little32(packet, 4);
      if chunk !in {'F', 'C', 'A'} || size > MAX_CAPTURE_MESSAGE_SIZE || size != |packet| then Raised
      else
        match t
        case HEL => ParseHello(utf8, body, chunk)
        case ACK => ParseAck(body, chunk)
        case RHE => ParseReverseHello(utf8, body, chunk)
        case ERR => ParseError(utf8, body, chunk)
        case OPN => ParseOpenSecureChannel(utf8, body, chunk)
        case MSG => ParseSymmetric(body, t, chunk, policyNone)
        case CLO => ParseSymmetric(body, t, chunk, policyNone)
  }

  // ---- The capture loop ----

  datatype Endpoint = Endpoint(host: string, port: nat)

  /** The two endpoints of a TCP connection, in a direction-independent order. */
  datatype Connection = Connection(low: Endpoint, high: Endpoint)

  predicate EndpointLess(a: Endpoint, b: Endpoint) {
    TextLess(a.host, b.host) || (a.host == b.host && a.port < b.port)
  }

  function ConnectionOf(f: R.Flow): Connection {
    var a, b := Endpoint(f.src, f.sport), Endpoint(f.dst, f.dport);
    if EndpointLess(b, a) then Connection(b, a) else Connection(a, b)
  }

  /** Both directions of a connection, and nothing else, share its identity. */
  lemma ConnectionIgnoresDirection(f: R.Flow, g: R.Flow)
    ensures ConnectionOf(f) == ConnectionOf(g) <==> g == f || g == R.Flow(f.dst, f.dport, f.src, f.sport)
  {
    TextTrichotomy(f.src, f.dst);
    if TextLess(f.src, f.dst) && TextLess(f.dst, f.src) {
      TextTransitive(f.src, f.dst, f.src);
    }
    TextIrreflexive(f.src);
  }

  datatype Observation = Observation(flow: R.Flow, time: int, message: Message, byteCount: nat)

  type Channel = (Connection, nat)

  datatype State = State(streams: R.Streams, noneChannels: set<Channel>, out: seq<Observation>)

  function ChannelId(raw: bytes): nat {
    if |raw| >= 12 && raw[..3] in {Ascii("OPN"), Ascii("MSG"), Ascii("CLO")} then Little32(raw, 8) else 0
  }

  predicate OpensInClear(m: Message) {
    m.messageType == OPN && m.securityPolicyUri == Some(NONE_POLICY) && m.secureChannelId.Some?
  }

  /** One raw message: parsed with what is known of its channel, remembered, reported. */
  function Report(utf8: Utf8, e: R.Emission, s: State): State {
    var connection := ConnectionOf(e.flow);
    match ParseOpcUaTcp(utf8, e.frame, (connection, ChannelId(e.frame)) in s.noneChannels)
    case Raised => s
    case Ok(m) =>
      State(
        s.streams,
        if OpensInClear(m) then s.noneChannels + {(connection, m.secureChannelId.value)} else s.noneChannels,
        s.out + [Observation(e.flow, e.time, m, |e.frame|)])
  }

  function ReportAll(utf8: Utf8, p: R.Packet, raws: seq<bytes>, s: State): State
    decreases |raws|
  {
    if raws == [] then s else ReportAll(utf8, p, raws[1..], Report(utf8, R.Emission(p.flow, p.time, raws[0]), s))
  }

  ghost function Step(utf8: Utf8, s: State, p: R.Packet): State
    requires Wellformed(OPCUA)
  {
    if !R.Relevant(4840, p) then s
    else
      var fed := R.Feed(OPCUA, R.Lookup(s.streams, p.flow), p.seqno, p.payload);
      ReportAll(utf8, p, fed.frames, s.(streams := R.Store(s.streams, p.flow, fed.next)))
  }

  ghost function After(utf8: Utf8, ps: seq<R.Packet>, m: nat): State
    requires Wellformed(OPCUA) && m <= |ps|
  {
    if m == 0 then State(map[], {}, []) else Step(utf8, After(utf8, ps, m - 1), ps[m - 1])
  }

  lemma NothingToReport(utf8: Utf8, p: R.Packet, s: State)
    ensures ReportAll(utf8, p, [], s) == s
  {
  }

  lemma StepAfterSplit(utf8: Utf8, s: State, p: R.Packet, split: Outcome)
    requires Wellformed(OPCUA)
    requires R.Relevant(4840, p) ==> split == Split(OPCUA, R.Kept(R.Lookup(s.streams, p.flow), p.seqno) + p.payload)
    ensures Step(utf8, s, p) ==
            if !R.Relevant(4840, p) then s
            else if split.Error? then s.(streams := s.streams - {p.flow})
            else ReportAll(utf8, p, split.frames,
                           s.(streams := s.streams[p.flow := R.Buffer(p.seqno + |p.payload| - |split.rest|, split.rest)]))
  {
    NothingToReport(utf8, p, s.(streams := s.streams - {p.flow}));
    hide Split, ReportAll, R.Relevant, R.Kept, R.Lookup;
  }

  method OpcUaObservationsFromPcap(utf8: Utf8, packets: seq<R.Packet>) returns (out: seq<Observation>)
    ensures Wellformed(OPCUA) && out == After(utf8, packets, |packets|).out
  {
    RulesAreWellformed();
    hide Split, Step, Report, R.Relevant;
    var streams: R.Streams, noneChannels: set<Channel> := map[], {};
    out := [];
    for i := 0 to |packets|
      invariant State(streams, noneChannels, out) == After(utf8, packets, i)
    {
      var p := packets[i];
      ghost var s := State(streams, noneChannels, out);
      if !R.Relevant(4840, p) {
        StepAfterSplit(utf8, s, p, Error);
        continue;
      }
      var previous := if p.flow in streams then streams[p.flow] else R.Buffer(p.seqno, []);
      var buffered := previous.held;
      if buffered != [] && p.seqno != previous.start + |buffered| {
        buffered := [];
      }
      assert buffered == R.Kept(R.Lookup(streams, p.flow), p.seqno);
      var split := SplitOpcUaStream(buffered + p.payload);
      StepAfterSplit(utf8, s, p, split);
      if split.Error? {
        streams := streams - {p.flow};
        continue;
      }
      streams := streams[p.flow := R.Buffer(p.seqno + |p.payload| - |split.rest|, split.rest)];
      noneChannels, out := ReportMessages(utf8, p, split.frames, streams, noneChannels, out);
    }
  }

  method ReportMessages(utf8: Utf8, p: R.Packet, raws: seq<bytes>, ghost streams: R.Streams, none0: set<Channel>, out0: seq<Observation>)
    returns (noneChannels: set<Channel>, out: seq<Observation>)
    ensures State(streams, noneChannels, out) == ReportAll(utf8, p, raws, State(streams, none0, out0))
  {
    hide ParseOpcUaTcp, ConnectionOf, ChannelId;
    noneChannels, out := none0, out0;
    assert raws[0..] == raws;
    for k := 0 to |raws|
      invariant ReportAll(utf8, p, raws[k..], State(streams, noneChannels, out)) ==
                ReportAll(utf8, p, raws, State(streams, none0, out0))
    {
      assert raws[k..][1..] == raws[k + 1..];
      var raw := raws[k];
      var connection := ConnectionOf(p.flow);
      var parsed := ParseOpcUaTcp(utf8, raw, (connection, ChannelId(raw)) in noneChannels);
      if parsed.Raised? {
        continue;
      }
      var message := parsed.value;
      if OpensInClear(message) {
        noneChannels := noneChannels + {(connection, message.secureChannelId.value)};
      }
      out := out + [Observation(p.flow, p.time, message, |raw|)];
    }
  }

  // ---- Opacity ----

  predicate Symmetric(m: Message) {
    m.messageType == MSG || m.messageType == CLO
  }

  /** The message carries something that an encrypted body would hide. */
  predicate Exposed(m: Message) {
    m.sequenceNumber.Some? || m.requestId.Some? || m.serviceNodeId.Some?
  }

  lemma SymmetricBody(body: bytes, t: MessageType, chunk: char, policyNone: bool)
    ensures match ParseSymmetric(body, t, chunk, policyNone)
            case Raised => true
            case Ok(m) => |body| >= 8 && m.messageType == t && m.secureChannelId == Some(Little32(body, 0)) && (Exposed(m) <==> policyNone)
  {
    hide NumericNodeId, ServiceName;
  }

  lemma SymmetricExposure(utf8: Utf8, raw: bytes, policyNone: bool)
    ensures match ParseOpcUaTcp(utf8, raw, policyNone)
            case Raised => true
            case Ok(m) =>
              Symmetric(m) ==> m.secureChannelId == Some(ChannelId(raw)) && (Exposed(m) <==> policyNone)
  {
    hide ParseHello, ParseAck, ParseReverseHello, ParseError, ParseOpenSecureChannel, ParseSymmetric, Ascii, Exposed;
    if |raw| >= 8 && TypeOf(raw[..3]).Some? {
      SymmetricBody(raw[8..], TypeOf(raw[..3]).value, raw[3] as char, policyNone);
      if |raw| >= 16 {
        assert Little32(raw[8..], 0) == Little32(raw, 8);
      }
    }
  }

  function ChannelOf(o: Observation): Channel
    requires o.message.secureChannelId.Some?
  {
    (ConnectionOf(o.flow), o.message.secureChannelId.value)
  }

  /** An earlier observation opened this channel with the policy that neither signs nor encrypts. */
  ghost predicate OpenedInClear(out: seq<Observation>, n: nat, c: Channel) {
    exists j | 0 <= j < n && j < |out| :: OpensInClear(out[j].message) && ChannelOf(out[j]) == c
  }

  ghost predicate Opaque(s: State) {
    && (forall c :: c in s.noneChannels <==> OpenedInClear(s.out, |s.out|, c))
    && forall i | 0 <= i < |s.out| && Symmetric(s.out[i].message) ::
         && s.out[i].message.secureChannelId.Some?
         && (Exposed(s.out[i].message) <==> OpenedInClear(s.out, i, ChannelOf(s.out[i])))
  }

  lemma OpenedPrefix(a: seq<Observation>, b: seq<Observation>, n: nat, c: Channel)
    requires n <= |a|
    ensures OpenedInClear(a + b, n, c) <==> OpenedInClear(a, n, c)
  {
    hide OpensInClear, ChannelOf;
    assert forall j | 0 <= j < n :: (a + b)[j] == a[j];
  }

  lemma ReportKeepsOpaque(utf8: Utf8, e: R.Emission, s: State)
    requires Opaque(s)
    ensures Opaque(Report(utf8, e, s))
  {
    var known := (ConnectionOf(e.flow), ChannelId(e.frame)) in s.noneChannels;
    SymmetricExposure(utf8, e.frame, known);
    hide ParseOpcUaTcp, ConnectionOf, ChannelId, Exposed, Symmetric;
    var r := ParseOpcUaTcp(utf8, e.frame, known);
    if r.Ok? {
      var o := Observation(e.flow, e.time, r.value, |e.frame|);
      var s' := Report(utf8, e, s);
      assert s'.out == s.out + [o];
      forall n: nat, c | n <= |s.out|
        ensures OpenedInClear(s'.out, n, c) <==> OpenedInClear(s.out, n, c)
      {
        OpenedPrefix(s.out, [o], n, c);
      }
      forall c
        ensures c in s'.noneChannels <==> OpenedInClear(s'.out, |s'.out|, c)
      {
        assert OpenedInClear(s'.out, |s.out|, c) <==> OpenedInClear(s.out, |s.out|, c);
        assert s'.out[|s.out|] == o;
      }
    }
  }

  lemma {:induction false} ReportAllKeepsOpaque(utf8: Utf8, p: R.Packet, raws: seq<bytes>, s: State)
    requires Opaque(s)
    ensures Opaque(ReportAll(utf8, p, raws, s))
    decreases |raws|
  {
    hide Opaque, Report;
    if raws != [] {
      ReportKeepsOpaque(utf8, R.Emission(p.flow, p.time, raws[0]), s);
      ReportAllKeepsOpaque(utf8, p, raws[1..], Report(utf8, R.Emission(p.flow, p.time, raws[0]), s));
    }
  }

  lemma StepKeepsOpaque(utf8: Utf8, s: State, p: R.Packet)
    requires Wellformed(OPCUA) && Opaque(s)
    ensures Opaque(Step(utf8, s, p))
  {
    hide Split, R.Feed, R.Store;
    if R.Relevant(4840, p) {
      var fed := R.Feed(OPCUA, R.Lookup(s.streams, p.flow), p.seqno, p.payload);
      var stored := s.(streams := R.Store(s.streams, p.flow, fed.next));
      assert Opaque(stored);
      hide Opaque, ReportAll;
      ReportAllKeepsOpaque(utf8, p, fed.frames, stored);
    }
  }

  /**
    Opacity over whole captures: at every point, a MSG or CLO observation exposes sequence, request
    or service ids exactly when an earlier observation on the same connection, in either direction,
    opened the same channel with SecurityPolicy#None; and those openings are all that is remembered.
   */
  lemma {:induction false} CaptureIsOpaque(utf8: Utf8, ps: seq<R.Packet>, m: nat)
    requires Wellformed(OPCUA) && m <= |ps|
    ensures Opaque(After(utf8, ps, m))
  {
    if m != 0 {
      hide Opaque, Step;
      CaptureIsOpaque(utf8, ps, m - 1);
      StepKeepsOpaque(utf8, After(utf8, ps, m - 1), ps[m - 1]);
    }
  }
}
