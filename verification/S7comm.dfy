/** S7comm over RFC 1006: the COTP header, connection setup with its TSAP parameters, and S7 data. */
module S7comm {
  import opened Wrappers
  import opened Bytes
  import opened Tlv
  import opened Framing
  import opened FrameRules

  datatype Message =
    | OtherPdu(pduType: nat)
    | Connection(isRequest: bool, source: Option<bytes>, destination: Option<bytes>, rack: nat, slot: nat, tpduSize: Option<byte>)
    | Data(reference: nat, rosctr: byte, function_: Option<byte>, error: Option<(byte, byte)>, parameterLength: nat, dataLength: nat,
           endOfUnit: bool, writeOrControl: bool, negotiated: Option<(nat, nat, nat)>)

  const CALLING_TSAP := 0xC1
  const CALLED_TSAP := 0xC2
  const TPDU_SIZE := 0xC0

  // ---- Connection setup ----

  method CotpParameters(data: bytes) returns (r: Result<map<byte, bytes>>)
    ensures r.Raised? <==> Items(data).Raised?
    ensures r.Ok? ==> r.value == Dict(Items(data).value)
  {
    hide Items, Dict, ReadUpTo;
    var parameters: map<byte, bytes> := map[];
    var offset := 0;
    ghost var items: seq<Item> := [];
    assert data[0..] == data;
    ReadNothing(data, 0);
    assert Dict([]) == map[] by {
      NoItems();
    }
    while offset < |data|
      invariant 0 <= offset <= |data| && ReadUpTo(data, 0, items, offset)
      invariant parameters == Dict(items)
    {
      if |data| - offset < 2 {
        ReadFails(data, 0, items, offset);
        return Raised;
      }
      var code, length := data[offset], data[offset + 1];
      if |data| - offset - 2 < length {
        ReadFails(data, 0, items, offset);
        return Raised;
      }
      var next: nat := offset + 2 + length;
      ReadOne(data, 0, items, offset, next);
      ghost var item := Item(code, data[offset + 2..next]);
      DictAppend(items, item);
      items := items + [item];
      parameters := parameters[code := data[offset + 2..next]];
      offset := next;
    }
    ReadAll(data, 0, items);
    r := Ok(parameters);
  }

  lemma NoItems()
    ensures Dict([]) == map[]
  {
  }

  function Lookup(parameters: map<byte, bytes>, code: byte): Option<bytes> {
    if code in parameters then Some(parameters[code]) else None
  }

  function RackSlot(tsap: Option<bytes>): Option<(nat, nat)> {
    if tsap.None? || |tsap.value| != 2 || !(1 <= tsap.value[0] <= 3) then None
    else Some((tsap.value[1] / 32, tsap.value[1] % 32))
  }

  /** The text of a TSAP is left out when the TSAP is empty. */
  function Shown(tsap: Option<bytes>): Option<bytes> {
    if tsap == Some([]) then None else tsap
  }

  function ParseConnection(cotp: bytes, isRequest: bool): Result<Message>
    requires cotp != [] && 1 <= cotp[0] && cotp[0] + 1 <= |cotp|
  {
    if cotp[0] < 6 then Raised
    else
      var items :- Items(cotp[7..cotp[0] + 1]);
      var parameters := Dict(items);
      var source, destination := Lookup(parameters, CALLING_TSAP), Lookup(parameters, CALLED_TSAP);
      match RackSlot(if isRequest then destination else source)
      case None => Raised
      case Some(position) =>
        var size := Lookup(parameters, TPDU_SIZE);
        Ok(Connection(isRequest, Shown(source), Shown(destination), position.0, position.1,
                      if size.Some? && |size.value| == 1 then Some(size.value[0]) else None))
  }

  // ---- S7 data ----

  function HeaderLength(rosctr: byte): nat {
    if rosctr == 2 || rosctr == 3 then 12 else 10
  }

  predicate WritesOrControls(function_: Option<byte>) {
    function_.Some? && function_.value in {0x05, 0x1A, 0x1B, 0x1C, 0x28, 0x29}
  }

  function ParseS7Payload(payload: bytes, endOfUnit: bool): Result<Message> {
    if |payload| < 10 || payload[0] != 0x32 then Raised
    else
      var rosctr := payload[1];
      var header := HeaderLength(rosctr);
      if |payload| < header then Raised
      else
        var parameterLength, dataLength := Big16(payload[6], payload[7]), Big16(payload[8], payload[9]);
        if |payload| != header + parameterLength + dataLength then Raised
        else
          var parameters := payload[header..header + parameterLength];
          var function_ := if parameters == [] then None else Some(parameters[0]);
          Ok(Data(Big16(payload[4], payload[5]), rosctr, function_,
                  if header == 12 then Some((payload[10], payload[11])) else None,
                  parameterLength, dataLength, endOfUnit, WritesOrControls(function_), Negotiated(parameters)))
  }

  /** The limits of a setup-communication function. */
  function Negotiated(parameters: bytes): Option<(nat, nat, nat)> {
    if |parameters| >= 8 && parameters[0] == 0xF0 then
      Some((Big16(parameters[2], parameters[3]), Big16(parameters[4], parameters[5]), Big16(parameters[6], parameters[7])))
    else
      None
  }

  // ---- The packet ----

  function ParseCotp(cotp: bytes): Result<Message>
    requires |cotp| >= 3
  {
    if cotp[0] + 1 > |cotp| || cotp[0] < 1 then Raised
    else
      var pduType := cotp[1] / 16;
      if pduType == 0xE || pduType == 0xD then ParseConnection(cotp, pduType == 0xE)
      else if pduType != 0xF then Ok(OtherPdu(16 * pduType))
      else if cotp[0] < 2 then Raised
      else ParseS7Payload(cotp[cotp[0] + 1..], cotp[2] >= 0x80)
  }

  function ParseS7commTpkt(packet: bytes): Result<Message> {
    if |packet| < 7 || packet[0] != 3 || Big16(packet[2], packet[3]) != |packet| then Raised
    else ParseCotp(packet[4..])
  }

  // ---- Properties ----

  /** A packet cut from the stream fails to parse only for what is behind its TPKT header. */
  lemma CutPacketsHaveGoodHeaders(packet: bytes)
    requires Wellformed(TPKT) && Complete(TPKT, packet)
    ensures |packet| >= 7 && packet[0] == 3 && Big16(packet[2], packet[3]) == |packet|
    ensures ParseS7commTpkt(packet) == ParseCotp(packet[4..])
  {
    hide ParseCotp;
    var h := packet[..TPKT.need];
    assert forall i | 0 <= i < 4 :: h[i] == packet[i];
    assert TPKT.size(h) == TpktSize(h);
  }

  function DeviceCode(isRequest: bool): byte {
    if isRequest then CALLED_TSAP else CALLING_TSAP
  }

  /**
    A setup is accepted exactly when its parameter area is a list of parameters and the last TSAP of
    the device side is of two octets, the first of them 1, 2 or 3.
   */
  lemma SetupAcceptedIff(cotp: bytes, isRequest: bool)
    requires cotp != [] && 6 <= cotp[0] && cotp[0] + 1 <= |cotp|
    ensures ParseConnection(cotp, isRequest).Ok? <==>
            exists items: seq<Item>, i: nat :: Short(items) && cotp[7..cotp[0] + 1] == Encode(items) && LastOf(items, DeviceCode(isRequest), i)
                               && RackSlot(Some(items[i].value)).Some?
  {
    hide Items, Encode, Short, Dict, RackSlot;
    var area := cotp[7..cotp[0] + 1];
    if ParseConnection(cotp, isRequest).Ok? {
      var items := Items(area).value;
      EncodingOfItems(area);
      RackSlotOfNothing();
      DictHasOnlyTheItems(items, DeviceCode(isRequest));
      var i: nat :| LastOf(items, DeviceCode(isRequest), i);
      DictKeepsTheLast(items, DeviceCode(isRequest), i);
    }
    forall items: seq<Item>, i: nat | Short(items) && area == Encode(items) && LastOf(items, DeviceCode(isRequest), i)
                           && RackSlot(Some(items[i].value)).Some?
      ensures ParseConnection(cotp, isRequest).Ok?
    {
      ItemsOfEncoding(items);
      DictKeepsTheLast(items, DeviceCode(isRequest), i);
    }
  }

  lemma RackSlotOfNothing()
    ensures RackSlot(None) == None
  {
  }

  /** Rack and slot survive the trip through a TSAP octet, and every TSAP octet is such a pair. */
  lemma RackSlotRoundTrip(kind: byte, rack: nat, slot: nat)
    requires 1 <= kind <= 3 && rack < 8 && slot < 32
    ensures RackSlot(Some([kind, 32 * rack + slot])) == Some((rack, slot))
  {
  }

  /** Only two octets, the first of them 1, 2 or 3, name a rack and a slot, and these determine the second. */
  lemma RackSlotDeterminesTsap(tsap: bytes)
    ensures RackSlot(Some(tsap)).Some? <==> |tsap| == 2 && tsap[0] in {1, 2, 3}
    ensures RackSlot(Some(tsap)).Some? ==>
              var (rack, slot) := RackSlot(Some(tsap)).value; rack < 8 && slot < 32 && tsap == [tsap[0], 32 * rack + slot]
    ensures RackSlot(None) == None
  {
  }

  function HeaderOf(rosctr: byte, redundancy: bytes, reference: nat, error: (byte, byte), parameterLength: nat, dataLength: nat): (h: bytes)
    requires |redundancy| == 2 && reference < 0x1_0000 && parameterLength < 0x1_0000 && dataLength < 0x1_0000
    ensures |h| == HeaderLength(rosctr)
  {
    [0x32, rosctr, redundancy[0], redundancy[1], reference / 256, reference % 256,
     parameterLength / 256, parameterLength % 256, dataLength / 256, dataLength % 256]
    + if HeaderLength(rosctr) == 12 then [error.0, error.1] else []
  }

  /** An S7 unit as a device would write it. */
  function EncodeS7(rosctr: byte, redundancy: bytes, reference: nat, error: (byte, byte), parameters: bytes, data: bytes): bytes
    requires |redundancy| == 2 && reference < 0x1_0000 && |parameters| < 0x1_0000 && |data| < 0x1_0000
  {
    HeaderOf(rosctr, redundancy, reference, error, |parameters|, |data|) + parameters + data
  }

  /** The payload parser, on a header and the rest. */
  lemma ParseBehindHeader(head: bytes, parameters: bytes, data: bytes, endOfUnit: bool)
    requires |head| >= 10 && head[0] == 0x32 && |head| == HeaderLength(head[1])
    requires Big16(head[6], head[7]) == |parameters| && Big16(head[8], head[9]) == |data|
    ensures var function_ := if parameters == [] then None else Some(parameters[0]);
            ParseS7Payload(head + parameters + data, endOfUnit) ==
            Ok(Data(Big16(head[4], head[5]), head[1], function_, if |head| == 12 then Some((head[10], head[11])) else None,
                    |parameters|, |data|, endOfUnit, WritesOrControls(function_), Negotiated(parameters)))
  {
    hide Negotiated, WritesOrControls;
    var payload := head + parameters + data;
    assert forall i | 0 <= i < |head| :: payload[i] == head[i];
    assert payload[|head|..|head| + |parameters|] == parameters;
  }

  /** Parsing what a device wrote gives back every field; the lengths delimit the parameters. */
  lemma S7RoundTrip(rosctr: byte, redundancy: bytes, reference: nat, error: (byte, byte), parameters: bytes, data: bytes, endOfUnit: bool)
    requires |redundancy| == 2 && reference < 0x1_0000 && |parameters| < 0x1_0000 && |data| < 0x1_0000
    ensures var function_ := if parameters == [] then None else Some(parameters[0]);
            ParseS7Payload(EncodeS7(rosctr, redundancy, reference, error, parameters, data), endOfUnit) ==
            Ok(Data(reference, rosctr, function_, if HeaderLength(rosctr) == 12 then Some(error) else None,
                    |parameters|, |data|, endOfUnit, WritesOrControls(function_), Negotiated(parameters)))
  {
    hide Negotiated, WritesOrControls, ParseS7Payload;
    ParseBehindHeader(HeaderOf(rosctr, redundancy, reference, error, |parameters|, |data|), parameters, data, endOfUnit);
  }

  // ---- What a packet says ----

  /** A parameter as the setup shows it: the value of the last item with its code. */
  ghost predicate LastValue(items: seq<Item>, code: byte, value: Option<bytes>) {
    match value
    case Some(v) => exists i: nat :: LastOf(items, code, i) && items[i].value == v
    case None => forall i | 0 <= i < |items| :: items[i].code != code
  }

  lemma LookupIsLastValue(items: seq<Item>, code: byte, value: Option<bytes>)
    requires LastValue(items, code, value)
    ensures Lookup(Dict(items), code) == value
  {
    hide Dict;
    match value {
      case Some(v) =>
        var i: nat :| LastOf(items, code, i) && items[i].value == v;
        DictKeepsTheLast(items, code, i);
      case None =>
        if code in Dict(items) {
          DictHasOnlyTheItems(items, code);
          assert false;
        }
    }
  }

  /** The setup with the parameters `items`: length, type, two references and a class before them. */
  ghost predicate SetupOf(cotp: bytes, isRequest: bool, items: seq<Item>) {
    && |cotp| >= 7 && cotp[0] as int + 1 == |cotp|
    && cotp[1] / 16 == (if isRequest then 14 else 13)
    && Short(items) && cotp[7..] == Encode(items)
  }

  /**
    A request (0xE) names the device by the called TSAP (0xC2), a confirm (0xD) by the calling one
    (0xC1); both are shown, in this order, and the unit size (0xC0) if it is one octet.
   */
  lemma SetupMeans(cotp: bytes, isRequest: bool, items: seq<Item>, calling: Option<bytes>, called: Option<bytes>, size: Option<bytes>)
    requires SetupOf(cotp, isRequest, items)
    requires LastValue(items, 0xC1, calling) && LastValue(items, 0xC2, called) && LastValue(items, 0xC0, size)
    ensures ParseCotp(cotp) ==
            match RackSlot(if isRequest then called else calling)
            case None => Raised
            case Some((rack, slot)) =>
              Ok(Connection(isRequest, if calling == Some([]) then None else calling, if called == Some([]) then None else called,
                            rack, slot, if size.Some? && |size.value| == 1 then Some(size.value[0]) else None))
  {
    hide Items, Encode, Dict, RackSlot, Lookup, LastValue;
    assert cotp[7..cotp[0] + 1] == cotp[7..];
    ItemsOfEncoding(items);
    LookupIsLastValue(items, 0xC1, calling);
    LookupIsLastValue(items, 0xC2, called);
    LookupIsLastValue(items, 0xC0, size);
  }

  /** A data packet (0xF) hands its payload on, with the mark that ends a unit; of other types the code alone is reported. */
  lemma PacketMeans(pduType: byte, low: byte, last: bool, payload: bytes)
    requires pduType < 16 && low < 16
    ensures pduType == 15 ==>
              ParseCotp([2, 16 * pduType + low, if last then 128 else 0] + payload) == ParseS7Payload(payload, last)
    ensures pduType < 13 ==>
              ParseCotp([2, 16 * pduType + low, if last then 128 else 0] + payload) == Ok(OtherPdu(16 * pduType))
  {
    hide ParseS7Payload, ParseConnection;
    var cotp := [2, 16 * pduType + low, if last then 128 else 0] + payload;
    assert cotp[3..] == payload;
    assert cotp[1] / 16 == pduType;
  }

  /** An error pair follows the header of an acknowledgement (2 and 3) alone; six functions write or control. */
  lemma AcknowledgementsCarryErrors(rosctr: byte, redundancy: bytes, reference: nat, error: (byte, byte), parameters: bytes, data: bytes, last: bool)
    requires |redundancy| == 2 && reference < 0x1_0000 && |parameters| < 0x1_0000 && |data| < 0x1_0000
    ensures var unit := EncodeS7(rosctr, redundancy, reference, error, parameters, data);
            && |unit| == (if rosctr in {2, 3} then 12 else 10) + |parameters| + |data|
            && ParseS7Payload(unit, last).Ok? && ParseS7Payload(unit, last).value.Data?
            && (ParseS7Payload(unit, last).value.error == if rosctr in {2, 3} then Some(error) else None)
            && (ParseS7Payload(unit, last).value.writeOrControl <==>
                parameters != [] && parameters[0] in {0x05, 0x1A, 0x1B, 0x1C, 0x28, 0x29})
  {
    hide Negotiated, ParseS7Payload;
    S7RoundTrip(rosctr, redundancy, reference, error, parameters, data, last);
  }

  /** A setup-communication function (0xF0) names how many jobs each side takes, and the unit length agreed on, in this order. */
  lemma LimitsRoundTrip(function_: byte, reserved: byte, calling: nat, called: nat, length: nat, more: bytes)
    requires calling < 0x1_0000 && called < 0x1_0000 && length < 0x1_0000
    ensures Negotiated([function_, reserved] + TwoOctets(calling) + TwoOctets(called) + TwoOctets(length) + more) ==
            if function_ == 0xF0 then Some((calling, called, length)) else None
  {
    TwoOctetsReadBack(calling);
    TwoOctetsReadBack(called);
    TwoOctetsReadBack(length);
    hide TwoOctets, Big16;
  }
}
