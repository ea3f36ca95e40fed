/** Modbus TCP messages: the application header, the function data, and device identification. */
module ModbusTcp {
  import opened Wrappers
  import opened Bytes
  import opened Tlv
  import opened Framing
  import opened FrameRules

  datatype Fields =
    | ExceptionCode(code: byte)
    | Quantity(address: nat, quantity: nat)
    | Value(address: nat, value: nat)
    | WriteRequest(address: nat, quantity: nat, byteCount: byte)
    | ByteCount(byteCount: byte)
    | IdentificationRequest(meiType: byte, readCode: byte, objectId: byte)
    | Identification(readCode: byte, conformity: byte, moreFollows: bool, nextObject: byte, objects: map<byte, string>)
    | DataLength(length: nat)

  datatype Message = Message(transaction: nat, unit: byte, function_: byte, isException: bool, fields: Fields)

  /** Decoding with replacement: it never fails. */
  type Decode = bytes -> string

  function Decoded(decode: Decode, d: map<byte, bytes>): map<byte, string> {
    map code | code in d :: decode(d[code])
  }

  function IdentificationOf(decode: Decode, data: bytes, isResponse: Option<bool>): Result<Fields>
    requires data != []
  {
    if isResponse != Some(true) then
      if |data| != 3 then Raised else Ok(IdentificationRequest(data[0], data[1], data[2]))
    else if |data| < 6 then Raised
    else
      var items :- Items(data[6..]);
      if |items| != data[5] then Raised
      else Ok(Identification(data[1], data[2], data[3] != 0, data[4], Decoded(decode, Dict(items))))
  }

  lemma DecodedUpdate(decode: Decode, d: map<byte, bytes>, code: byte, value: bytes)
    ensures Decoded(decode, d[code := value]) == Decoded(decode, d)[code := decode(value)]
  {
  }

  /** The loop reads as many objects as the header announces; more items, or fewer, are an error. */
  lemma ItemsLeftOver(data: bytes, base: nat, items: seq<Item>, offset: nat)
    requires ReadUpTo(data, base, items, offset) && offset < |data|
    ensures Items(data[base..]).Ok? ==> |Items(data[base..]).value| > |items|
  {
    assert data[offset..] != [];
  }

  method ParseDeviceIdentification(decode: Decode, data: bytes, isResponse: Option<bool>) returns (r: Result<Fields>)
    requires data != []
    ensures r == IdentificationOf(decode, data, isResponse)
  {
    if isResponse != Some(true) {
      if |data| != 3 {
        return Raised;
      }
      return Ok(IdentificationRequest(data[0], data[1], data[2]));
    }
    if |data| < 6 {
      return Raised;
    }
    hide Items, Dict, Decoded, ReadUpTo;
    var objectCount := data[5];
    var offset := 6;
    var objects: map<byte, string> := map[];
    ghost var items: seq<Item> := [];
    ReadNothing(data, 6);
    NoObjects(decode);
    for n := 0 to objectCount
      invariant 6 <= offset <= |data| && |items| == n
      invariant ReadUpTo(data, 6, items, offset)
      invariant objects == Decoded(decode, Dict(items))
    {
      if |data| - offset < 2 {
        TooFewItems(data, 6, items, offset, objectCount);
        return Raised;
      }
      var objectId, length := data[offset], data[offset + 1];
      if |data| - offset - 2 < length {
        ReadFails(data, 6, items, offset);
        return Raised;
      }
      var next: nat := offset + 2 + length;
      ReadOne(data, 6, items, offset, next);
      ghost var item := Item(objectId, data[offset + 2..next]);
      DictAppend(items, item);
      DecodedUpdate(decode, Dict(items), item.code, item.value);
      items := items + [item];
      objects := objects[objectId := decode(data[offset + 2..next])];
      offset := next;
    }
    if offset != |data| {
      ItemsLeftOver(data, 6, items, offset);
      return Raised;
    }
    ReadAll(data, 6, items);
    r := Ok(Identification(data[1], data[2], data[3] != 0, data[4], objects));
  }

  lemma NoObjects(decode: Decode)
    ensures Decoded(decode, Dict([])) == map[]
  {
  }

  lemma TooFewItems(data: bytes, base: nat, items: seq<Item>, offset: nat, count: nat)
    requires ReadUpTo(data, base, items, offset) && |data| - offset < 2 && |items| < count
    ensures Items(data[base..]).Ok? ==> |Items(data[base..]).value| != count
  {
    if offset == |data| {
      ReadAll(data, base, items);
    }
  }

  /**
    A response is accepted exactly when its objects fill it and are as many as announced; of two
    objects with one id the later one stays.
   */
  lemma IdentificationAcceptsIff(decode: Decode, data: bytes)
    requires |data| >= 6
    ensures IdentificationOf(decode, data, Some(true)).Ok? <==>
            exists items :: Short(items) && |items| == data[5] && data[6..] == Encode(items)
  {
    hide Items, Encode, Short;
    if IdentificationOf(decode, data, Some(true)).Ok? {
      EncodingOfItems(data[6..]);
    }
    forall items | Short(items) && data[6..] == Encode(items)
      ensures Items(data[6..]) == Ok(items)
    {
      ItemsOfEncoding(items);
    }
  }

  /** Encoding any objects behind any header and parsing the response gives the header and the objects back. */
  lemma IdentificationRoundTrip(decode: Decode, header: bytes, items: seq<Item>)
    requires |header| == 6 && Short(items) && |items| == header[5]
    ensures IdentificationOf(decode, header + Encode(items), Some(true)) ==
            Ok(Identification(header[1], header[2], header[3] != 0, header[4], Decoded(decode, Dict(items))))
  {
    ItemsOfEncoding(items);
    var data := header + Encode(items);
    assert data[6..] == Encode(items);
    assert forall i | 0 <= i < 6 :: data[i] == header[i];
  }

  function ByteCountResponse(data: bytes): Result<Fields> {
    if data == [] || |data| - 1 != data[0] then Raised else Ok(ByteCount(data[0]))
  }

  function FunctionFields(decode: Decode, code: byte, data: bytes, isResponse: Option<bool>): Result<Fields> {
    if 1 <= code <= 4 && isResponse == Some(true) then ByteCountResponse(data)
    else if 1 <= code <= 4 && |data| == 4 then Ok(Quantity(Big16(data[0], data[1]), Big16(data[2], data[3])))
    else if (code == 5 || code == 6) && |data| == 4 then Ok(Value(Big16(data[0], data[1]), Big16(data[2], data[3])))
    else if (code == 15 || code == 16) && |data| == 4 then Ok(Quantity(Big16(data[0], data[1]), Big16(data[2], data[3])))
    else if (code == 15 || code == 16) && |data| >= 5 then
      if |data| - 5 != data[4] then Raised
      else Ok(WriteRequest(Big16(data[0], data[1]), Big16(data[2], data[3]), data[4]))
    else if code == 43 && data != [] && data[0] == 0x0E then IdentificationOf(decode, data, isResponse)
    else Ok(DataLength(|data|))
  }

  function BodyFields(decode: Decode, rawFunction: byte, data: bytes, isResponse: Option<bool>): Result<Fields> {
    if rawFunction >= 0x80 then
      if |data| != 1 then Raised else Ok(ExceptionCode(data[0]))
    else
      FunctionFields(decode, rawFunction, data, isResponse)
  }

  function ParseModbusTcp(decode: Decode, payload: bytes, isResponse: Option<bool>): Result<Message> {
    if |payload| < 8 then Raised
    else if Big16(payload[2], payload[3]) != 0 then Raised
    else
      var length := Big16(payload[4], payload[5]);
      if !(2 <= length <= 254) || |payload| != 6 + length then Raised
      else
        var raw := payload[7];
        var fields :- BodyFields(decode, raw, payload[8..], isResponse);
        Ok(Message(Big16(payload[0], payload[1]), payload[6], raw % 0x80, raw >= 0x80, fields))
  }

  /** A unit cut from the stream fails to parse only for what is behind its header. */
  lemma CutUnitsHaveGoodHeaders(decode: Decode, unit: bytes, isResponse: Option<bool>)
    requires Wellformed(MBAP) && Complete(MBAP, unit)
    ensures 8 <= |unit| <= 260
    ensures ParseModbusTcp(decode, unit, isResponse).Raised? <==> BodyFields(decode, unit[7], unit[8..], isResponse).Raised?
  {
    hide BodyFields;
    var h := unit[..MBAP.need];
    assert forall i | 0 <= i < 6 :: h[i] == unit[i];
    assert MBAP.size(h) == MbapSize(h);
  }

  /** What the parser accepts, a splitter cuts off whole. */
  lemma ParsedUnitsAreComplete(decode: Decode, unit: bytes, isResponse: Option<bool>)
    requires ParseModbusTcp(decode, unit, isResponse).Ok?
    ensures Complete(MBAP, unit)
  {
    hide BodyFields;
    var h := unit[..MBAP.need];
    assert forall i | 0 <= i < 6 :: h[i] == unit[i];
    assert MBAP.size(h) == MbapSize(h);
  }

  /** The header fields and the data behind them determine the unit: parsing loses none of its octets. */
  lemma HeaderFieldsDetermineUnit(decode: Decode, a: bytes, b: bytes, isResponse: Option<bool>)
    requires ParseModbusTcp(decode, a, isResponse).Ok? && ParseModbusTcp(decode, b, isResponse).Ok?
    requires var m, n := ParseModbusTcp(decode, a, isResponse).value, ParseModbusTcp(decode, b, isResponse).value;
             m.transaction == n.transaction && m.unit == n.unit && m.function_ == n.function_ && m.isException == n.isException
    requires a[8..] == b[8..]
    ensures a == b
  {
    hide BodyFields;
    assert |a[8..]| == |b[8..]|;
    assert a == a[..8] + a[8..] && b == b[..8] + b[8..];
    assert a[..8] == [a[0], a[1], a[2], a[3], a[4], a[5], a[6], a[7]];
    assert b[..8] == [b[0], b[1], b[2], b[3], b[4], b[5], b[6], b[7]];
  }

  // ---- Round trips ----

  /** A unit as a client or a device writes it. */
  function EncodeUnit(transaction: nat, unit: byte, rawFunction: byte, data: bytes): bytes
    requires transaction < 0x1_0000 && |data| <= 252
  {
    TwoOctets(transaction) + [0, 0] + TwoOctets(2 + |data|) + [unit, rawFunction] + data
  }

  lemma UnitLayout(transaction: nat, unit: byte, rawFunction: byte, data: bytes)
    requires transaction < 0x1_0000 && |data| <= 252
    ensures var u := EncodeUnit(transaction, unit, rawFunction, data);
            && |u| == 8 + |data| && Big16(u[0], u[1]) == transaction && u[2] == 0 && u[3] == 0 && Big16(u[4], u[5]) == 2 + |data|
            && u[6] == unit && u[7] == rawFunction && u[8..] == data
  {
    TwoOctetsReadBack(transaction);
    TwoOctetsReadBack(2 + |data|);
    hide TwoOctets, Big16;
  }

  /** The transaction, the unit, the function without its flag, and the flag are read back; the body decides the rest. */
  lemma UnitRoundTrip(decode: Decode, transaction: nat, unit: byte, rawFunction: byte, data: bytes, isResponse: Option<bool>)
    requires transaction < 0x1_0000 && |data| <= 252
    ensures ParseModbusTcp(decode, EncodeUnit(transaction, unit, rawFunction, data), isResponse) ==
            match BodyFields(decode, rawFunction, data, isResponse)
            case Raised => Raised
            case Ok(fields) =>
              Ok(Message(transaction, unit, if rawFunction >= 128 then rawFunction - 128 else rawFunction, rawFunction >= 128, fields))
  {
    hide BodyFields, EncodeUnit, Big16;
    UnitLayout(transaction, unit, rawFunction, data);
    assert Big16(0, 0) == 0 by {
      BigZero();
    }
  }

  lemma BigZero()
    ensures Big16(0, 0) == 0
  {
  }

  /** An exception holds its code and nothing else. */
  lemma ExceptionRoundTrip(decode: Decode, rawFunction: byte, data: bytes, isResponse: Option<bool>)
    requires rawFunction >= 128
    ensures BodyFields(decode, rawFunction, data, isResponse) == if |data| == 1 then Ok(ExceptionCode(data[0])) else Raised
  {
  }

  /** Four octets are an address and what is read or written there, in this order. */
  lemma AddressRoundTrip(decode: Decode, code: byte, address: nat, second: nat, isResponse: Option<bool>)
    requires address < 0x1_0000 && second < 0x1_0000
    ensures var data := TwoOctets(address) + TwoOctets(second);
            && (code in {1, 2, 3, 4} && isResponse != Some(true) ==>
                  BodyFields(decode, code, data, isResponse) == Ok(Quantity(address, second)))
            && (code in {5, 6} ==> BodyFields(decode, code, data, isResponse) == Ok(Value(address, second)))
            && (code in {15, 16} ==> BodyFields(decode, code, data, isResponse) == Ok(Quantity(address, second)))
  {
    TwoOctetsReadBack(address);
    TwoOctetsReadBack(second);
    hide TwoOctets, Big16, IdentificationOf;
  }

  /** A response to a read, or a write of several values, announces the octets that follow; their number must be right. */
  lemma CountedRoundTrip(decode: Decode, code: byte, address: nat, quantity: nat, count: byte, values: bytes, isResponse: Option<bool>)
    requires address < 0x1_0000 && quantity < 0x1_0000
    ensures code in {1, 2, 3, 4} ==>
              BodyFields(decode, code, [count] + values, Some(true)) == if count == |values| then Ok(ByteCount(count)) else Raised
    ensures code in {15, 16} ==>
              BodyFields(decode, code, TwoOctets(address) + TwoOctets(quantity) + [count] + values, isResponse) ==
              if count == |values| then Ok(WriteRequest(address, quantity, count)) else Raised
  {
    TwoOctetsReadBack(address);
    TwoOctetsReadBack(quantity);
    hide TwoOctets, Big16, IdentificationOf;
  }

  /** A request for identification names what it reads; what is not understood is reported by its length. */
  lemma OtherRequestsRoundTrip(decode: Decode, readCode: byte, objectId: byte, code: byte, data: bytes, isResponse: Option<bool>)
    ensures isResponse != Some(true) ==>
              BodyFields(decode, 43, [0x0E, readCode, objectId], isResponse) == Ok(IdentificationRequest(0x0E, readCode, objectId))
    ensures code < 128 && code !in {1, 2, 3, 4, 5, 6, 15, 16, 43} ==>
              BodyFields(decode, code, data, isResponse) == Ok(DataLength(|data|))
  {
  }

  /** A response with any objects, read in whole. */
  lemma IdentificationIsRead(decode: Decode, readCode: byte, conformity: byte, more: byte, next: byte, items: seq<Item>)
    requires Short(items) && |items| < 256
    ensures BodyFields(decode, 43, [0x0E, readCode, conformity, more, next, |items|] + Encode(items), Some(true)) ==
            Ok(Identification(readCode, conformity, more != 0, next, Decoded(decode, Dict(items))))
  {
    hide IdentificationOf, Encode, Decoded;
    IdentificationRoundTrip(decode, [0x0E, readCode, conformity, more, next, |items|], items);
  }
}
