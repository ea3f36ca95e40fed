/** What OPC UA TCP messages say: each one, written out octet by octet, is read back field by field. */
module OpcUaMessages {
  import opened Wrappers
  import opened Bytes
  import opened Framing
  import opened FrameRules
  import opened OpcUa
  import R = Reassembly

  // ---- Fields ----

  lemma NumberAt(data: bytes, at: nat, n: nat)
    requires n < 0x1_0000_0000 && R.Within(LittleEndian(n), data, at)
    ensures |LittleEndian(n)| == 4 && at + 4 <= |data| && Little32(data, at) == n
  {
    LittleEndianReadsBack(n);
    FourOctets(n);
    hide Little32, LittleEndian;
    SameLittle32(data, at, LittleEndian(n));
  }

  /** The low octet comes first. */
  lemma LowOctetFirst(a: byte, b: byte, c: byte, d: byte)
    ensures LittleEndian(a as int + 0x100 * b as int + 0x1_0000 * c as int + 0x100_0000 * d as int) == [a, b, c, d]
    ensures Little32([a, b, c, d], 0) == a as int + 0x100 * b as int + 0x1_0000 * c as int + 0x100_0000 * d as int
  {
    LittleEndianUnique([a, b, c, d], 0);
    assert [a, b, c, d][0..0 + 4] == [a, b, c, d];
    hide LittleEndian;
  }

  /** What a decoded string is. */
  ghost predicate Decodes(utf8: Utf8, raw: Option<bytes>, text: Option<string>) {
    && (raw.None? <==> text.None?)
    && (raw.Some? ==> |raw.value| <= 4096 && utf8(raw.value) == text)
  }

  lemma StringAt(utf8: Utf8, data: bytes, at: nat, raw: Option<bytes>, text: Option<string>)
    requires Decodes(utf8, raw, text) && R.Within(EncodeByteString(raw), data, at)
    ensures var r := UaString(utf8, data, at);
            && r.Ok? && r.value.1 == at + |EncodeByteString(raw)|
            && TextValue(r.value.0) == text && !UrlTooLong(r.value.0)
  {
    hide EncodeByteString;
    BytesAt(data, at, raw);
    hide ByteString;
  }

  lemma BytesAt(data: bytes, at: nat, raw: Option<bytes>)
    requires (raw.Some? ==> |raw.value| < 0x8000_0000) && R.Within(EncodeByteString(raw), data, at)
    ensures ByteString(data, at) == Ok((raw, at + |EncodeByteString(raw)|))
  {
    hide EncodeByteString, ByteString;
    ByteStringIffEncoded(data, at, raw, at + |EncodeByteString(raw)|);
  }

  /** Where the parts of an octet string are. */
  lemma TwoParts(a: bytes, b: bytes)
    ensures R.Within(a, a + b, 0) && R.Within(b, a + b, |a|)
  {
  }

  lemma ThreeParts(a: bytes, b: bytes, c: bytes)
    ensures R.Within(a, a + b + c, 0) && R.Within(b, a + b + c, |a|) && R.Within(c, a + b + c, |a| + |b|)
  {
  }

  lemma FiveParts(a: bytes, b: bytes, c: bytes, d: bytes, e: bytes)
    ensures var s := a + b + c + d + e;
            && R.Within(a, s, 0) && R.Within(b, s, |a|) && R.Within(c, s, |a| + |b|) && R.Within(d, s, |a| + |b| + |c|)
            && R.Within(e, s, |a| + |b| + |c| + |d|)
  {
  }

  // ---- The five bodies ----

  function LimitOctets(version: nat, receive: nat, send: nat, maxMessage: nat, maxChunks: nat): bytes
    requires version < 0x1_0000_0000 && receive < 0x1_0000_0000 && send < 0x1_0000_0000
    requires maxMessage < 0x1_0000_0000 && maxChunks < 0x1_0000_0000
  {
    LittleEndian(version) + LittleEndian(receive) + LittleEndian(send) + LittleEndian(maxMessage) + LittleEndian(maxChunks)
  }

  lemma LimitsAt(version: nat, receive: nat, send: nat, maxMessage: nat, maxChunks: nat, rest: bytes)
    requires version < 0x1_0000_0000 && receive < 0x1_0000_0000 && send < 0x1_0000_0000
    requires maxMessage < 0x1_0000_0000 && maxChunks < 0x1_0000_0000
    ensures var l := LimitOctets(version, receive, send, maxMessage, maxChunks);
            |l| == 20 && LimitsOf(l + rest) == Limits(version, receive, send, maxMessage, maxChunks)
  {
    hide LittleEndian, Little32;
    var a, b, c, d, e := LittleEndian(version), LittleEndian(receive), LittleEndian(send), LittleEndian(maxMessage), LittleEndian(maxChunks);
    FiveParts(a, b, c, d, e + rest);
    TwoParts(e, rest);
    var body := a + b + c + d + (e + rest);
    assert LimitOctets(version, receive, send, maxMessage, maxChunks) + rest == body;
    FourOctets(version);
    FourOctets(receive);
    FourOctets(send);
    FourOctets(maxMessage);
    FourOctets(maxChunks);
    WithinPart(e, e + rest, body, 16);
    hide R.Within, LimitOctets;
    NumberAt(body, 0, version);
    NumberAt(body, 4, receive);
    NumberAt(body, 8, send);
    NumberAt(body, 12, maxMessage);
    NumberAt(body, 16, maxChunks);
  }

  lemma WithinPart(part: bytes, piece: bytes, whole: bytes, at: nat)
    requires R.Within(part, piece, 0) && R.Within(piece, whole, at)
    ensures R.Within(part, whole, at)
  {
    assert whole[at..at + |part|] == whole[at..at + |piece|][0..|part|];
  }

  /** Hello: five limits in this order, and the address of the endpoint. */
  lemma HelloRoundTrip(utf8: Utf8, version: nat, receive: nat, send: nat, maxMessage: nat, maxChunks: nat, url: Option<bytes>,
                       text: Option<string>, chunk: char)
    requires version < 0x1_0000_0000 && receive < 0x1_0000_0000 && send < 0x1_0000_0000
    requires maxMessage < 0x1_0000_0000 && maxChunks < 0x1_0000_0000 && Decodes(utf8, url, text)
    ensures ParseHello(utf8, LimitOctets(version, receive, send, maxMessage, maxChunks) + EncodeByteString(url), chunk) ==
            Ok(Message(HEL, chunk, text, None, None, None, None, None, None, None,
                       Limits(version, receive, send, maxMessage, maxChunks)))
  {
    var l, u := LimitOctets(version, receive, send, maxMessage, maxChunks), EncodeByteString(url);
    LimitsAt(version, receive, send, maxMessage, maxChunks, u);
    TwoParts(l, u);
    StringAt(utf8, l + u, |l|, url, text);
    hide LimitOctets, EncodeByteString, UaString, LimitsOf, TextValue, UrlTooLong, Decodes;
  }

  /** Acknowledge: the five limits and nothing else. */
  lemma AcknowledgeRoundTrip(version: nat, receive: nat, send: nat, maxMessage: nat, maxChunks: nat, more: bytes, chunk: char)
    requires version < 0x1_0000_0000 && receive < 0x1_0000_0000 && send < 0x1_0000_0000
    requires maxMessage < 0x1_0000_0000 && maxChunks < 0x1_0000_0000
    ensures ParseAck(LimitOctets(version, receive, send, maxMessage, maxChunks) + more, chunk) ==
            if more != [] then Raised
            else Ok(Message(ACK, chunk, None, None, None, None, None, None, None, None,
                            Limits(version, receive, send, maxMessage, maxChunks)))
  {
    LimitsAt(version, receive, send, maxMessage, maxChunks, more);
    hide LimitOctets, LimitsOf;
  }

  /** Reverse hello: the server, then the endpoint. */
  lemma ReverseHelloRoundTrip(utf8: Utf8, server: Option<bytes>, serverText: Option<string>, url: Option<bytes>, text: Option<string>, chunk: char)
    requires Decodes(utf8, server, serverText) && Decodes(utf8, url, text)
    ensures ParseReverseHello(utf8, EncodeByteString(server) + EncodeByteString(url), chunk) ==
            Ok(Message(RHE, chunk, text, None, None, None, None, None, None, None, ServerUri(serverText)))
  {
    var s, u := EncodeByteString(server), EncodeByteString(url);
    TwoParts(s, u);
    StringAt(utf8, s + u, 0, server, serverText);
    StringAt(utf8, s + u, |s|, url, text);
    hide EncodeByteString, UaString, TextValue, UrlTooLong, Decodes;
  }

  /** Error: the status, then the reason. */
  lemma ErrorRoundTrip(utf8: Utf8, code: nat, reason: Option<bytes>, text: Option<string>, chunk: char)
    requires code < 0x1_0000_0000 && Decodes(utf8, reason, text)
    ensures ParseError(utf8, LittleEndian(code) + EncodeByteString(reason), chunk) ==
            Ok(Message(ERR, chunk, None, None, None, None, None, None, None, None, Status(code, text)))
  {
    var c, r := LittleEndian(code), EncodeByteString(reason);
    TwoParts(c, r);
    NumberAt(c + r, 0, code);
    StringAt(utf8, c + r, 4, reason, text);
    hide LittleEndian, EncodeByteString, UaString, TextValue, UrlTooLong, Decodes, Little32;
  }

  // ---- Service ids ----

  lemma ShiftedNodeId(front: bytes, data: bytes)
    ensures NumericNodeId(front + data, |front|) == NumericNodeId(data, 0)
  {
    var all := front + data;
    assert forall i | 0 <= i < |data| :: all[|front| + i] == data[i];
    if |data| >= 7 {
      assert all[|front| + 3..|front| + 7] == data[3..7];
      SameLittle32(all, |front| + 3, data[3..7]);
      SameLittle32(data, 3, data[3..7]);
    }
    hide Little32;
  }

  /** A service id in one octet, or in two behind namespace zero. */
  lemma ShortNodeIdRoundTrip(id: byte, namespace: byte, low: byte, high: byte, rest: bytes)
    ensures NumericNodeId([0, id] + rest, 0) == Ok(id)
    ensures NumericNodeId([1, namespace, low, high] + rest, 0) == if namespace == 0 then Ok(low as int + 256 * high as int) else Raised
  {
    hide Little32;
  }

  /** A service id in four octets, behind namespace zero in two. */
  lemma LongNodeIdRoundTrip(id: nat, low: byte, high: byte, rest: bytes)
    requires id < 0x1_0000_0000
    ensures NumericNodeId([2, low, high] + LittleEndian(id) + rest, 0) == if low == 0 && high == 0 then Ok(id) else Raised
  {
    var data := [2, low, high] + LittleEndian(id) + rest;
    ThreeParts([2, low, high], LittleEndian(id), rest);
    NumberAt(data, 3, id);
    hide LittleEndian, Little32, R.Within;
  }

  /** No other form is understood. */
  lemma OtherNodeIdsAreRefused(form: byte, rest: bytes)
    requires form > 2
    ensures NumericNodeId([form] + rest, 0) == Raised && NumericNodeId([], 0) == Raised
  {
    hide Little32;
  }

  // Each service has a request and a response.

  lemma DiscoveryServices()
    ensures ServiceName(420) == "find_servers_request" && ServiceName(423) == "find_servers_response"
    ensures ServiceName(426) == "get_endpoints_request" && ServiceName(429) == "get_endpoints_response"
    ensures ServiceName(446) == "open_secure_channel_request" && ServiceName(449) == "open_secure_channel_response"
    ensures ServiceName(452) == "close_secure_channel_request" && ServiceName(455) == "close_secure_channel_response"
  {
  }

  lemma SessionServices()
    ensures ServiceName(461) == "create_session_request" && ServiceName(464) == "create_session_response"
    ensures ServiceName(467) == "activate_session_request" && ServiceName(470) == "activate_session_response"
    ensures ServiceName(473) == "close_session_request" && ServiceName(476) == "close_session_response"
  {
  }

  lemma DataServices()
    ensures ServiceName(527) == "browse_request" && ServiceName(530) == "browse_response"
    ensures ServiceName(533) == "browse_next_request" && ServiceName(536) == "browse_next_response"
    ensures ServiceName(631) == "read_request" && ServiceName(634) == "read_response"
    ensures ServiceName(673) == "write_request" && ServiceName(676) == "write_response"
  {
  }

  lemma OtherServicesAreUnknown(id: nat)
    requires id !in {420, 423, 426, 429, 446, 449, 452, 455, 461, 464, 467, 470, 473, 476, 527, 530, 533, 536, 631, 634, 673, 676}
    ensures ServiceName(id) == "unknown"
  {
  }

  // ---- Channels ----

  /** What stands in front of the sequence header of an OPN: the channel, the policy, and two certificates. */
  function OpenOctets(channel: nat, policy: Option<bytes>, certificate: Option<bytes>, thumbprint: Option<bytes>): bytes
    requires channel < 0x1_0000_0000 && (policy.Some? ==> |policy.value| <= 4096)
    requires (certificate.Some? ==> |certificate.value| < 0x8000_0000) && (thumbprint.Some? ==> |thumbprint.value| < 0x8000_0000)
  {
    LittleEndian(channel) + EncodeByteString(policy) + EncodeByteString(certificate) + EncodeByteString(thumbprint)
  }

  /** The fields in front, read one after the other from any octets that begin with them. */
  ghost predicate OpenFields(utf8: Utf8, body: bytes, channel: nat, text: Option<string>, end: nat) {
    && 4 <= |body| && Little32(body, 0) == channel && end <= |body|
    && var policy := UaString(utf8, body, 4);
       && policy.Ok? && TextValue(policy.value.0) == text
       && var certificate := ByteString(body, policy.value.1);
          && certificate.Ok?
          && var thumbprint := ByteString(body, certificate.value.1);
             thumbprint.Ok? && thumbprint.value.1 == end
  }

  lemma OpenFieldsAt(utf8: Utf8, channel: nat, policy: Option<bytes>, text: Option<string>, certificate: Option<bytes>,
                     thumbprint: Option<bytes>, rest: bytes)
    requires channel < 0x1_0000_0000 && Decodes(utf8, policy, text)
    requires (certificate.Some? ==> |certificate.value| < 0x8000_0000) && (thumbprint.Some? ==> |thumbprint.value| < 0x8000_0000)
    ensures var open := OpenOctets(channel, policy, certificate, thumbprint); OpenFields(utf8, open + rest, channel, text, |open|)
  {
    var a, b, c, d := LittleEndian(channel), EncodeByteString(policy), EncodeByteString(certificate), EncodeByteString(thumbprint);
    FiveParts(a, b, c, d, rest);
    FourOctets(channel);
    hide LittleEndian, EncodeByteString, Decodes, R.Within, OpenFields;
    OpenFieldsIn(utf8, a + b + c + d + rest, channel, policy, text, certificate, thumbprint);
  }

  lemma OpenFieldsIn(utf8: Utf8, body: bytes, channel: nat, policy: Option<bytes>, text: Option<string>, certificate: Option<bytes>,
                     thumbprint: Option<bytes>)
    requires channel < 0x1_0000_0000 && Decodes(utf8, policy, text)
    requires (certificate.Some? ==> |certificate.value| < 0x8000_0000) && (thumbprint.Some? ==> |thumbprint.value| < 0x8000_0000)
    requires R.Within(LittleEndian(channel), body, 0) && R.Within(EncodeByteString(policy), body, 4)
    requires R.Within(EncodeByteString(certificate), body, 4 + |EncodeByteString(policy)|)
    requires R.Within(EncodeByteString(thumbprint), body, 4 + |EncodeByteString(policy)| + |EncodeByteString(certificate)|)
    ensures OpenFields(utf8, body, channel, text,
                       4 + |EncodeByteString(policy)| + |EncodeByteString(certificate)| + |EncodeByteString(thumbprint)|)
  {
    hide LittleEndian, EncodeByteString, UaString, ByteString, TextValue, UrlTooLong, Little32, OpenFields;
    var b, c, d := |EncodeByteString(policy)|, |EncodeByteString(certificate)|, |EncodeByteString(thumbprint)|;
    assert 4 + b + c + d <= |body|;
    hide R.Within, Decodes;
    NumberAt(body, 0, channel);
    StringAt(utf8, body, 4, policy, text);
    BytesAt(body, 4 + b, certificate);
    BytesAt(body, 4 + b + c, thumbprint);
    OpenFieldsHold(utf8, body, channel, text, 4 + b, 4 + b + c, 4 + b + c + d);
  }

  lemma OpenFieldsHold(utf8: Utf8, body: bytes, channel: nat, text: Option<string>, b: nat, c: nat, end: nat)
    requires 4 <= |body| && Little32(body, 0) == channel && end <= |body|
    requires UaString(utf8, body, 4).Ok? && TextValue(UaString(utf8, body, 4).value.0) == text && UaString(utf8, body, 4).value.1 == b
    requires ByteString(body, b).Ok? && ByteString(body, b).value.1 == c
    requires ByteString(body, c).Ok? && ByteString(body, c).value.1 == end
    ensures OpenFields(utf8, body, channel, text, end)
  {
    hide UaString, ByteString, TextValue, Little32;
  }

  /** Under a policy that protects, the channel and the policy are all that an OPN tells. */
  lemma ProtectedOpenRoundTrip(utf8: Utf8, channel: nat, policy: Option<bytes>, text: Option<string>, certificate: Option<bytes>,
                               thumbprint: Option<bytes>, rest: bytes, chunk: char)
    requires channel < 0x1_0000_0000 && Decodes(utf8, policy, text) && text != Some("http://opcfoundation.org/UA/SecurityPolicy#None")
    requires (certificate.Some? ==> |certificate.value| < 0x8000_0000) && (thumbprint.Some? ==> |thumbprint.value| < 0x8000_0000)
    ensures ParseOpenSecureChannel(utf8, OpenOctets(channel, policy, certificate, thumbprint) + rest, chunk) ==
            Ok(Message(OPN, chunk, None, text, Some(channel), None, None, None, None, None, Secured(true, false)))
  {
    OpenFieldsAt(utf8, channel, policy, text, certificate, thumbprint, rest);
    hide OpenOctets, UaString, ByteString, TextValue, Little32, Decodes, NumericNodeId;
  }

  /** In the clear it also tells the sequence number, the request, and the service. */
  lemma ClearOpenRoundTrip(utf8: Utf8, channel: nat, policy: Option<bytes>, certificate: Option<bytes>, thumbprint: Option<bytes>,
                           sequence: nat, request: nat, node: bytes, id: nat, chunk: char)
    requires channel < 0x1_0000_0000 && Decodes(utf8, policy, Some(NONE_POLICY))
    requires (certificate.Some? ==> |certificate.value| < 0x8000_0000) && (thumbprint.Some? ==> |thumbprint.value| < 0x8000_0000)
    requires sequence < 0x1_0000_0000 && request < 0x1_0000_0000 && NumericNodeId(node, 0) == Ok(id)
    ensures ParseOpenSecureChannel(
              utf8, OpenOctets(channel, policy, certificate, thumbprint) + (LittleEndian(sequence) + LittleEndian(request) + node), chunk) ==
            Ok(Message(OPN, chunk, None, Some(NONE_POLICY), Some(channel), None, Some(sequence),
                       Some(request), Some(id), Some(ServiceName(id)), Secured(false, false)))
  {
    hide OpenOctets, LittleEndian, NumericNodeId, ServiceName, OpenFields, ParseOpenSecureChannel, Little32;
    var open, s, q := OpenOctets(channel, policy, certificate, thumbprint), LittleEndian(sequence), LittleEndian(request);
    var header := s + q + node;
    SequenceHeaderAt(open, sequence, request, node);
    ShiftedNodeId(open + s + q, node);
    OpenFieldsAt(utf8, channel, policy, Some(NONE_POLICY), certificate, thumbprint, header);
    hide Decodes, NONE_POLICY;
    ClearOpenParses(utf8, open + header, channel, |open|, sequence, request, id, chunk);
  }

  lemma SequenceHeaderAt(open: bytes, sequence: nat, request: nat, node: bytes)
    requires sequence < 0x1_0000_0000 && request < 0x1_0000_0000
    ensures var s, q := LittleEndian(sequence), LittleEndian(request);
            var body := open + (s + q + node);
            && |s| == |q| == 4 && Little32(body, |open|) == sequence && Little32(body, |open| + 4) == request
            && body == (open + s + q) + node
  {
    var s, q := LittleEndian(sequence), LittleEndian(request);
    FourOctets(sequence);
    FourOctets(request);
    FiveParts(open, s, q, node, []);
    hide LittleEndian, Little32;
    var body := open + (s + q + node);
    assert body == open + s + q + node + [];
    NumberAt(body, |open|, sequence);
    NumberAt(body, |open| + 4, request);
  }

  lemma ClearOpenParses(utf8: Utf8, body: bytes, channel: nat, end: nat, sequence: nat, request: nat, id: nat, chunk: char)
    requires OpenFields(utf8, body, channel, Some(NONE_POLICY), end) && end + 8 <= |body|
    requires Little32(body, end) == sequence && Little32(body, end + 4) == request && NumericNodeId(body, end + 8) == Ok(id)
    ensures ParseOpenSecureChannel(utf8, body, chunk) ==
            Ok(Message(OPN, chunk, None, Some(NONE_POLICY), Some(channel), None, Some(sequence), Some(request), Some(id),
                       Some(ServiceName(id)), Secured(false, false)))
  {
    hide UaString, ByteString, TextValue, Little32, NumericNodeId, ServiceName;
  }

  /** A message of a protected channel tells the channel and the token. */
  lemma ProtectedMessageRoundTrip(channel: nat, token: nat, rest: bytes, t: MessageType, chunk: char)
    requires channel < 0x1_0000_0000 && token < 0x1_0000_0000
    ensures ParseSymmetric(LittleEndian(channel) + LittleEndian(token) + rest, t, chunk, false) ==
            Ok(Message(t, chunk, None, None, Some(channel), Some(token), None, None, None, None, Secured(true, false)))
  {
    var c, k := LittleEndian(channel), LittleEndian(token);
    ThreeParts(c, k, rest);
    NumberAt(c + k + rest, 0, channel);
    NumberAt(c + k + rest, 4, token);
    hide LittleEndian, Little32, R.Within;
  }

  /** In the clear it also tells the sequence number and the request, and in its final chunk the service. */
  lemma ClearMessageRoundTrip(channel: nat, token: nat, sequence: nat, request: nat, node: bytes, id: nat, t: MessageType, chunk: char)
    requires channel < 0x1_0000_0000 && token < 0x1_0000_0000 && sequence < 0x1_0000_0000 && request < 0x1_0000_0000
    requires NumericNodeId(node, 0) == Ok(id)
    ensures ParseSymmetric(LittleEndian(channel) + LittleEndian(token) + LittleEndian(sequence) + LittleEndian(request) + node,
                           t, chunk, true) ==
            Ok(Message(t, chunk, None, None, Some(channel), Some(token), Some(sequence), Some(request),
                       if chunk == 'F' then Some(id) else None, if chunk == 'F' then Some(ServiceName(id)) else None,
                       Secured(false, chunk != 'F')))
  {
    var c, k, s, q := LittleEndian(channel), LittleEndian(token), LittleEndian(sequence), LittleEndian(request);
    var body := c + k + s + q + node;
    FiveParts(c, k, s, q, node);
    NumberAt(body, 0, channel);
    NumberAt(body, 4, token);
    NumberAt(body, 8, sequence);
    NumberAt(body, 12, request);
    ShiftedNodeId(c + k + s + q, node);
    hide LittleEndian, Little32, NumericNodeId, ServiceName, R.Within;
  }

  // ---- The envelope ----

  function Envelope(name: bytes, chunk: byte, body: bytes): bytes
    requires |name| == 3 && |body| < 0x1_0000_0000 - 8
  {
    name + [chunk] + LittleEndian(8 + |body|) + body
  }

  lemma EnvelopeLayout(name: bytes, chunk: byte, body: bytes)
    requires |name| == 3 && |body| < 0x1_0000_0000 - 8
    ensures var p := Envelope(name, chunk, body);
            |p| == 8 + |body| && p[..3] == name && p[3] == chunk && Little32(p, 4) == 8 + |body| && p[8..] == body
  {
    ThreeParts(name + [chunk], LittleEndian(8 + |body|), body);
    NumberAt(name + [chunk] + LittleEndian(8 + |body|) + body, 4, 8 + |body|);
    hide LittleEndian, Little32;
  }

  /** The first three octets and the chunk type decide how the body is read. */
  lemma EnvelopeMeans(utf8: Utf8, name: bytes, chunk: byte, body: bytes, policyNone: bool)
    requires |name| == 3 && |body| <= 16_777_208
    ensures ParseOpcUaTcp(utf8, Envelope(name, chunk, body), policyNone) ==
            if chunk != 0x46 && chunk != 0x43 && chunk != 0x41 then Raised
            else if name == [0x48, 0x45, 0x4C] then ParseHello(utf8, body, chunk as char)
            else if name == [0x41, 0x43, 0x4B] then ParseAck(body, chunk as char)
            else if name == [0x52, 0x48, 0x45] then ParseReverseHello(utf8, body, chunk as char)
            else if name == [0x45, 0x52, 0x52] then ParseError(utf8, body, chunk as char)
            else if name == [0x4F, 0x50, 0x4E] then ParseOpenSecureChannel(utf8, body, chunk as char)
            else if name == [0x4D, 0x53, 0x47] then ParseSymmetric(body, MSG, chunk as char, policyNone)
            else if name == [0x43, 0x4C, 0x4F] then ParseSymmetric(body, CLO, chunk as char, policyNone)
            else Raised
  {
    hide Envelope, TypeOf, Little32, ParseHello, ParseAck, ParseReverseHello, ParseError, ParseOpenSecureChannel, ParseSymmetric;
    EnvelopeLayout(name, chunk, body);
    NamedTypes(name);
    ChunkTypes(chunk);
  }

  lemma ChunkTypes(chunk: byte)
    ensures chunk as char in {'F', 'C', 'A'} <==> chunk == 0x46 || chunk == 0x43 || chunk == 0x41
  {
  }

  lemma NamedTypes(name: bytes)
    requires |name| == 3
    ensures TypeOf(name) ==
            if name == [0x48, 0x45, 0x4C] then Some(HEL) else if name == [0x41, 0x43, 0x4B] then Some(ACK)
            else if name == [0x45, 0x52, 0x52] then Some(ERR) else if name == [0x52, 0x48, 0x45] then Some(RHE)
            else if name == [0x4F, 0x50, 0x4E] then Some(OPN) else if name == [0x4D, 0x53, 0x47] then Some(MSG)
            else if name == [0x43, 0x4C, 0x4F] then Some(CLO) else None
  {
    assert Ascii("HEL") == [0x48, 0x45, 0x4C] && Ascii("ACK") == [0x41, 0x43, 0x4B] && Ascii("ERR") == [0x45, 0x52, 0x52];
    assert Ascii("RHE") == [0x52, 0x48, 0x45] && Ascii("OPN") == [0x4F, 0x50, 0x4E] && Ascii("MSG") == [0x4D, 0x53, 0x47];
    assert Ascii("CLO") == [0x43, 0x4C, 0x4F];
    hide Ascii;
  }

  // ---- Opacity, spelled out ----

  /** Observation `j` is an OPN that opened the channel of observation `i` in the clear, in the same TCP connection. */
  ghost predicate OpenedFor(out: seq<Observation>, j: int, i: int) {
    && 0 <= j < i < |out|
    && out[j].message.messageType == OPN
    && out[j].message.securityPolicyUri == Some("http://opcfoundation.org/UA/SecurityPolicy#None")
    && out[j].message.secureChannelId.Some? && out[j].message.secureChannelId == out[i].message.secureChannelId
    && (out[i].flow == out[j].flow || out[i].flow == R.Flow(out[j].flow.dst, out[j].flow.dport, out[j].flow.src, out[j].flow.sport))
  }

  /** A MSG or CLO shows a sequence number, a request or a service exactly when its channel was opened in the clear before it. */
  lemma ShownIffOpenedInClear(utf8: Utf8, ps: seq<R.Packet>, m: nat, i: nat)
    requires Wellformed(OPCUA) && m <= |ps| && i < |After(utf8, ps, m).out|
    requires After(utf8, ps, m).out[i].message.messageType in {MSG, CLO}
    ensures var out := After(utf8, ps, m).out;
            var message := out[i].message;
            (message.sequenceNumber.Some? || message.requestId.Some? || message.serviceNodeId.Some?) <==>
            exists j :: OpenedFor(out, j, i)
  {
    CaptureIsOpaque(utf8, ps, m);
    hide After, ConnectionOf;
    var s := After(utf8, ps, m);
    var out := s.out;
    assert Symmetric(out[i].message);
    var c := ChannelOf(out[i]);
    forall j | 0 <= j < i
      ensures OpenedFor(out, j, i) <==> OpensInClear(out[j].message) && ChannelOf(out[j]) == c
    {
      ConnectionIgnoresDirection(out[j].flow, out[i].flow);
    }
    assert OpenedInClear(out, i, c) <==> exists j :: OpenedFor(out, j, i);
  }
}
