/** IEC 61850 MMS over RFC 1006: finding the MMS unit behind the presentation layer, and its visible strings. */
module Mms {
  import opened Wrappers
  import opened Bytes
  import opened Ordering
  import S7comm

  const SEARCH_LIMIT := 64
  const MAX_REFERENCES := 32
  const MAX_TEXT := 255

  predicate IsMmsTag(b: byte) {
    b in {0xA0, 0xA1, 0xA2, 0xA3, 0xA4, 0xA8, 0xA9, 0xAA, 0x8B, 0x8C, 0x8D}
  }

  // ---- BER ----

  /** `int.from_bytes(data, "big")`. */
  function Big(data: bytes): nat {
    if data == [] then 0 else 256 * Big(data[..|data| - 1]) + data[|data| - 1]
  }

  /** The length field at `offset`, and the offset behind it. */
  function BerLength(data: bytes, offset: nat): (r: Result<(nat, nat)>)
    ensures r.Ok? ==> offset < r.value.1 <= |data|
  {
    if offset >= |data| then Raised
    else if data[offset] < 0x80 then Ok((data[offset], offset + 1))
    else
      var octets := data[offset] - 0x80;
      if octets == 0 || octets > 4 || offset + 1 + octets > |data| then Raised
      else Ok((Big(data[offset + 1..offset + 1 + octets]), offset + 1 + octets))
  }

  /** A complete MMS unit starts at `k`. */
  predicate UnitAt(payload: bytes, k: nat) {
    && k < |payload|
    && IsMmsTag(payload[k])
    && var length := BerLength(payload, k + 1);
       length.Ok? && length.value.1 + length.value.0 <= |payload|
  }

  /** The first complete unit among the first 64 octets. */
  function FirstUnit(payload: bytes, k: nat): Option<nat>
    decreases SEARCH_LIMIT - k
  {
    if k >= SEARCH_LIMIT || k >= |payload| then None
    else if UnitAt(payload, k) then Some(k)
    else FirstUnit(payload, k + 1)
  }

  lemma {:induction false} FirstUnitIsFirst(payload: bytes, k: nat)
    ensures FirstUnit(payload, k).None? <==> forall j | k <= j < SEARCH_LIMIT :: !UnitAt(payload, j)
    ensures FirstUnit(payload, k).Some? ==>
              var f := FirstUnit(payload, k).value;
              k <= f < SEARCH_LIMIT && UnitAt(payload, f) && forall j | k <= j < f :: !UnitAt(payload, j)
    decreases SEARCH_LIMIT - k
  {
    hide BerLength, IsMmsTag;
    if k < SEARCH_LIMIT && k < |payload| && !UnitAt(payload, k) {
      FirstUnitIsFirst(payload, k + 1);
    }
  }

  method FindMmsTag(payload: bytes) returns (r: Result<nat>)
    ensures r.Raised? <==> forall k | 0 <= k < 64 :: !UnitAt(payload, k)
    ensures r.Ok? ==> r.value < 64 && UnitAt(payload, r.value) && forall k | 0 <= k < r.value :: !UnitAt(payload, k)
  {
    var head := if |payload| > SEARCH_LIMIT then payload[..SEARCH_LIMIT] else payload;
    for offset := 0 to |head|
      invariant forall k | 0 <= k < offset :: !UnitAt(payload, k)
    {
      if IsMmsTag(head[offset]) {
        var length := BerLength(payload, offset + 1);
        if length.Raised? {
          continue;
        }
        if length.value.1 + length.value.0 <= |payload| {
          assert UnitAt(payload, offset);
          return Ok(offset);
        }
      }
    }
    r := Raised;
  }

  // ---- Visible strings ----

  predicate IsVisibleString(b: byte) {
    b == 0x1A || b == 0x16
  }

  /** Decoding ASCII, leaving out everything else. */
  function Ascii7(raw: bytes): (text: string)
    ensures |text| <= |raw|
  {
    if raw == [] then ""
    else
      var last := raw[|raw| - 1];
      Ascii7(raw[..|raw| - 1]) + if last < 0x80 then [last as char] else ""
  }

  /** The texts of the complete strings met by scanning from `offset`; a string met is skipped, whole or not. */
  function Scan(data: bytes, offset: nat): seq<string>
    decreases |data| - offset
  {
    if offset + 2 > |data| then []
    else if !IsVisibleString(data[offset]) then Scan(data, offset + 1)
    else
      var end: nat := offset + 2 + data[offset + 1];
      (if end <= |data| then [Ascii7(data[offset + 2..end])] else []) + Scan(data, end)
  }

  /** `texts` added one by one to a list that takes neither empty texts nor texts it has. */
  function Collect(strings: seq<string>, texts: seq<string>): seq<string>
    decreases |texts|
  {
    if texts == [] then strings
    else Collect(if texts[0] == "" || texts[0] in strings then strings else strings + [texts[0]], texts[1..])
  }

  lemma {:induction false} CollectKeepsEach(strings: seq<string>, texts: seq<string>)
    requires NoDuplicates(strings) && "" !in strings
    ensures NoDuplicates(Collect(strings, texts))
    ensures forall t :: t in Collect(strings, texts) <==> t in strings || (t in texts && t != "")
    decreases |texts|
  {
    if texts != [] {
      var first, rest := texts[0], texts[1..];
      var more := if first == "" || first in strings then strings else strings + [first];
      assert forall t :: t in more <==> t in strings || (t == first && t != "");
      assert forall t :: t in texts <==> t == first || t in rest;
      CollectKeepsEach(more, rest);
    }
  }

  /** Texts stay in the order in which they were met first. */
  lemma {:induction false} CollectExtends(strings: seq<string>, texts: seq<string>)
    ensures strings <= Collect(strings, texts)
    decreases |texts|
  {
    if texts != [] {
      CollectExtends(if texts[0] == "" || texts[0] in strings then strings else strings + [texts[0]], texts[1..]);
    }
  }

  lemma {:induction false} ScannedTextsAreShort(data: bytes, offset: nat)
    ensures forall k | 0 <= k < |Scan(data, offset)| :: |Scan(data, offset)[k]| <= MAX_TEXT
    decreases |data| - offset
  {
    if offset + 2 <= |data| {
      if IsVisibleString(data[offset]) {
        var end: nat := offset + 2 + data[offset + 1];
        ScannedTextsAreShort(data, end);
      } else {
        ScannedTextsAreShort(data, offset + 1);
      }
    }
  }

  function CutText(text: string): string {
    if |text| > MAX_TEXT then text[..MAX_TEXT] else text
  }

  function References(data: bytes): seq<string> {
    var all := Collect([], Scan(data, 0));
    if |all| > MAX_REFERENCES then all[..MAX_REFERENCES] else all
  }

  method VisibleStrings(data: bytes) returns (strings: seq<string>)
    ensures strings == References(data)
  {
    strings := [];
    var offset := 0;
    while offset + 2 <= |data|
      invariant Collect(strings, Scan(data, offset)) == Collect([], Scan(data, 0))
      decreases |data| - offset
    {
      if IsVisibleString(data[offset]) {
        var end: nat := offset + 2 + data[offset + 1];
        var raw := data[offset + 2..if end <= |data| then end else |data|];
        if |raw| == data[offset + 1] {
          var text := Ascii7(raw);
          ghost var before := strings;
          if text != "" && text !in strings {
            strings := strings + [CutText(text)];
          }
          assert Scan(data, offset) == [text] + Scan(data, end);
          CollectOne(before, text, Scan(data, end));
        } else {
          assert Scan(data, offset) == Scan(data, end);
        }
        offset := end;
      } else {
        offset := offset + 1;
      }
    }
    if |strings| > MAX_REFERENCES {
      strings := strings[..MAX_REFERENCES];
    }
  }

  lemma CollectOne(strings: seq<string>, text: string, texts: seq<string>)
    ensures Collect(strings, [text] + texts) == Collect(if text == "" || text in strings then strings else strings + [text], texts)
  {
    assert ([text] + texts)[1..] == texts;
  }

  /** At most 32 distinct, non-empty references of at most 255 characters, those met first; none is missing while there is room. */
  lemma ReferencesAreDistinct(data: bytes)
    ensures var strings := References(data);
            && |strings| <= 32 && NoDuplicates(strings) && strings <= Collect([], Scan(data, 0))
            && (forall t | t in strings :: t != "" && t in Scan(data, 0) && |t| <= 255)
            && (|strings| < 32 ==> forall t | t in Scan(data, 0) && t != "" :: t in strings)
  {
    hide Scan, Collect;
    var strings, texts, all := References(data), Scan(data, 0), Collect([], Scan(data, 0));
    CollectKeepsEach([], texts);
    ScannedTextsAreShort(data, 0);
    assert forall i | 0 <= i < |strings| :: strings[i] == all[i] && strings[i] in all;
  }

  // ---- The packet ----

  datatype Message = Message(tag: byte, invokeId: Option<nat>, serviceTag: Option<byte>, references: seq<string>, prefix: nat, length: nat)

  function InvokeId(value: bytes): Option<nat> {
    if |value| >= 3 && value[0] == 0x02 && 0 < value[1] <= 4 && |value| >= 2 + value[1] then
      Some(Big(value[2..2 + value[1]]))
    else
      None
  }

  function ServiceTag(value: bytes): Option<byte> {
    var offset := if InvokeId(value).Some? then 2 + value[1] as int else 0;
    if offset < |value| then Some(value[offset]) else None
  }

  function ParsePayload(payload: bytes): Result<Message> {
    match FirstUnit(payload, 0)
    case None => Raised
    case Some(k) =>
      if k >= |payload| then Raised
      else
        var (length, start) :- BerLength(payload, k + 1);
        if start + length > |payload| then Raised
        else
          var value := payload[start..start + length];
          Ok(Message(payload[k], InvokeId(value), ServiceTag(value), References(value), k, length))
  }

  function ParseIec61850Mms(packet: bytes): Result<Message> {
    if |packet| < 7 || packet[0] != 3 || Big16(packet[2], packet[3]) != |packet| then Raised
    else
      var cotp := packet[4..];
      if cotp[0] < 1 || cotp[0] + 1 > |cotp| || cotp[1] / 16 != 0xF || cotp[0] < 2 then Raised
      else
        var payload := cotp[cotp[0] + 1..];
        if payload == [] || payload[0] == 0x32 then Raised else ParsePayload(payload)
  }

  /** Once a unit is found, the later checks on its length cannot fail: only a missing unit is an error. */
  lemma FoundUnitsAreComplete(payload: bytes)
    ensures ParsePayload(payload).Ok? <==> exists k: nat | k < 64 :: UnitAt(payload, k)
  {
    hide InvokeId, ServiceTag, References, UnitAt;
    FirstUnitIsFirst(payload, 0);
    if FirstUnit(payload, 0).Some? {
      UnitIsComplete(payload, FirstUnit(payload, 0).value);
    }
  }

  lemma UnitIsComplete(payload: bytes, k: nat)
    requires UnitAt(payload, k)
    ensures k < |payload| && BerLength(payload, k + 1).Ok?
    ensures BerLength(payload, k + 1).value.1 + BerLength(payload, k + 1).value.0 <= |payload|
  {
  }

  /** The two parsers share port 102, and no packet is taken by both. */
  lemma NoPacketIsBoth(packet: bytes)
    ensures !(S7comm.ParseS7commTpkt(packet).Ok? && ParseIec61850Mms(packet).Ok?)
  {
    hide ParsePayload, S7comm.ParseConnection;
  }

  // ---- Round trips ----

  /** Numbers are read with the high octet first, in one to four octets. */
  lemma BigEndian(a: byte, b: byte, c: byte, d: byte)
    ensures Big([a]) == a
    ensures Big([a, b]) == 0x100 * a as int + b
    ensures Big([a, b, c]) == 0x1_0000 * a as int + 0x100 * b as int + c
    ensures Big([a, b, c, d]) == 0x100_0000 * a as int + 0x1_0000 * b as int + 0x100 * c as int + d
  {
    assert [a][..0] == [];
    assert [a, b][..1] == [a];
    assert [a, b, c][..2] == [a, b];
    assert [a, b, c, d][..3] == [a, b, c];
    assert Big([]) == 0;
    assert Big([a]) == a;
    assert Big([a, b]) == 256 * Big([a]) + b;
    assert Big([a, b, c]) == 256 * Big([a, b]) + c;
    assert Big([a, b, c, d]) == 256 * Big([a, b, c]) + d;
  }

  /** A length below 128 is one octet. */
  lemma ShortLengthRoundTrip(before: bytes, first: byte, after: bytes)
    ensures first < 128 ==> BerLength(before + [first] + after, |before|) == Ok((first, |before| + 1))
    ensures first == 128 || first > 132 ==> BerLength(before + [first] + after, |before|) == Raised
  {
    assert (before + [first] + after)[|before|] == first;
    hide Big;
  }

  /** Any length may be written in one to four octets, behind their number. */
  lemma LongLengthRoundTrip(before: bytes, first: byte, long: bytes, after: bytes)
    requires 1 <= |long| <= 4 && first == 128 + |long|
    ensures BerLength(before + ([first] + long) + after, |before|) == Ok((Big(long), |before| + 1 + |long|))
  {
    var data := before + ([first] + long) + after;
    assert data[|before|] == first;
    assert data[|before| + 1..|before| + 1 + |long|] == long;
    hide Big;
  }

  /** The eleven MMS units have these tags. */
  lemma MmsTags(tag: byte)
    ensures IsMmsTag(tag) <==> 0xA0 <= tag <= 0xA4 || 0xA8 <= tag <= 0xAA || 0x8B <= tag <= 0x8D
  {
  }

  lemma InvokeIdLayout(first: bytes, id: bytes, rest: bytes)
    requires |first| == 2
    ensures var value, n := first + id + rest, |id|;
            && |value| == n + 2 + |rest| && value[0] == first[0] && value[1] == first[1]
            && value[2..2 + n] == id && (rest != [] ==> value[2 + n] == rest[0])
  {
  }

  /** The invoke id is an integer of one to four octets in front, and the service is the octet behind it, if there is one. */
  lemma InvokeIdRoundTrip(first: bytes, id: bytes, rest: bytes)
    requires 1 <= |id| <= 4 && |first| == 2 && first[0] == 0x02 && first[1] == |id|
    ensures var value := first + id + rest;
            InvokeId(value) == Some(Big(id)) && ServiceTag(value) == if rest == [] then None else Some(rest[0])
  {
    InvokeIdLayout(first, id, rest);
    hide Big, InvokeId, ServiceTag;
    InvokeIdInFront(first + id + rest, id);
  }

  lemma InvokeIdInFront(value: bytes, id: bytes)
    requires 1 <= |id| <= 4 && |value| >= |id| + 2 && value[0] == 0x02 && value[1] == |id| && value[2..2 + |id|] == id
    ensures InvokeId(value) == Some(Big(id))
    ensures ServiceTag(value) == if |value| == |id| + 2 then None else Some(value[|id| + 2])
  {
    hide Big;
  }

  /** Anything else in front is no invoke id, and the service comes first. */
  lemma ServiceWithoutInvokeId(value: bytes)
    requires |value| < 2 || value[0] != 0x02 || value[1] == 0 || value[1] > 4 || |value| - 2 < value[1]
    ensures InvokeId(value) == None && ServiceTag(value) == if value == [] then None else Some(value[0])
  {
    hide Big;
  }

  /** The header, by the octets of the packet: a data packet (0xF) of a header length of at least two, and something behind it. */
  lemma HeaderMeans(packet: bytes)
    requires |packet| >= 7 && packet[0] == 3 && 256 * packet[2] as int + packet[3] == |packet|
    ensures ParseIec61850Mms(packet) ==
            if 2 <= packet[4] && packet[4] as int + 5 < |packet| && packet[5] >= 0xF0 && packet[packet[4] as int + 5] != 0x32
            then ParsePayload(packet[packet[4] as int + 5..]) else Raised
  {
    hide ParsePayload;
    var cotp := packet[4..];
    assert cotp[0] == packet[4] && cotp[1] == packet[5];
    if cotp[0] + 1 <= |cotp| {
      assert cotp[cotp[0] + 1..] == packet[packet[4] as int + 5..];
    }
  }

  /** Without a whole TPKT header there is nothing. */
  lemma OtherPacketsAreRefused(packet: bytes)
    requires |packet| < 7 || packet[0] != 3 || 256 * packet[2] as int + packet[3] != |packet|
    ensures ParseIec61850Mms(packet) == Raised
  {
    hide ParsePayload;
  }

  /** A data packet around `payload`, as RFC 1006 writes it. */
  function Packet(payload: bytes): bytes
    requires |payload| < 0x1_0000 - 7
  {
    [3, 0] + TwoOctets(7 + |payload|) + [2, 0xF0, 0x80] + payload
  }

  lemma PacketLayout(payload: bytes)
    requires |payload| < 0x1_0000 - 7
    ensures var p := Packet(payload);
            && |p| == 7 + |payload| && p[0] == 3 && Big16(p[2], p[3]) == |p| && p[4] == 2 && p[5] == 0xF0 && p[7..] == payload
  {
    TwoOctetsReadBack(7 + |payload|);
    hide TwoOctets, Big16;
  }

  lemma PacketHoldsPayload(payload: bytes)
    requires |payload| < 0x1_0000 - 7
    ensures ParseIec61850Mms(Packet(payload)) == if payload == [] || payload[0] == 0x32 then Raised else ParsePayload(payload)
  {
    PacketLayout(payload);
    hide Packet, ParsePayload, Big16;
    var cotp := Packet(payload)[4..];
    assert cotp[3..] == Packet(payload)[7..];
  }

  /**
    Behind whatever presentation octets, as long as they hold no unit of their own, a unit in a data
    packet is read back: its tag, its value, how many octets come before it, and its length.
   */
  lemma MmsRoundTrip(prefix: bytes, tag: byte, value: bytes, after: bytes)
    requires |prefix| < 64 && IsMmsTag(tag) && |value| < 128 && |after| < 0x1_0000 - 300
    requires var payload := prefix + [tag, |value|] + value + after;
             payload[0] != 0x32 && forall k: nat | k < |prefix| :: !UnitAt(payload, k)
    ensures var payload := prefix + [tag, |value|] + value + after;
            ParseIec61850Mms(Packet(payload)) ==
            Ok(Message(tag, InvokeId(value), ServiceTag(value), References(value), |prefix|, |value|))
  {
    hide InvokeId, ServiceTag, References, IsMmsTag, UnitAt, Packet;
    var payload := prefix + [tag, |value|] + value + after;
    PacketHoldsPayload(payload);
    UnitBehind(prefix, tag, value, after);
    FirstUnitIsFirst(payload, 0);
    hide FirstUnit, BerLength;
    assert FirstUnit(payload, 0) == Some(|prefix|);
  }

  lemma UnitBehind(prefix: bytes, tag: byte, value: bytes, after: bytes)
    requires IsMmsTag(tag) && |value| < 128
    ensures var payload, k := prefix + [tag, |value|] + value + after, |prefix|;
            && UnitAt(payload, k) && payload[k] == tag
            && BerLength(payload, k + 1) == Ok((|value|, k + 2)) && payload[k + 2..k + 2 + |value|] == value
  {
    hide IsMmsTag;
  }

  /** Decoding keeps the octets below 128, in order. */
  lemma {:induction false} AsciiKeeps(a: bytes, b: bytes, c: byte)
    ensures Ascii7(a + b) == Ascii7(a) + Ascii7(b)
    ensures Ascii7([c]) == if c < 128 then [c as char] else ""
  {
    assert [c][..0] == [];
    if b == [] {
      assert a + b == a;
    } else {
      var n := |b| - 1;
      assert (a + b)[..|a| + n] == a + b[..n] && (a + b)[|a| + n] == b[n];
      AsciiKeeps(a, b[..n], c);
      var last := if b[n] < 0x80 then [b[n] as char] else "";
      assert Ascii7(b) == Ascii7(b[..n]) + last;
      assert Ascii7(a + b) == (Ascii7(a) + Ascii7(b[..n])) + last;
      Associative(Ascii7(a), Ascii7(b[..n]), last);
    }
  }

  lemma {:induction false} ScanOfRest(front: bytes, data: bytes, offset: nat)
    ensures Scan(front + data, |front| + offset) == Scan(data, offset)
    decreases |data| - offset
  {
    var all := front + data;
    hide Ascii7;
    if offset + 2 <= |data| {
      assert all[|front| + offset] == data[offset] && all[|front| + offset + 1] == data[offset + 1];
      if IsVisibleString(data[offset]) {
        var end: nat := offset + 2 + data[offset + 1];
        ScanOfRest(front, data, end);
        if end <= |data| {
          assert all[|front| + offset + 2..|front| + end] == data[offset + 2..end];
        }
      } else {
        ScanOfRest(front, data, offset + 1);
      }
    }
  }

  /** Strings are the elements with tag 0x1A or 0x16, found octet by octet; one that is cut short ends the search. */
  lemma ScanFinds(c: byte, raw: bytes, more: bytes)
    requires |raw| < 256
    ensures c in {0x1A, 0x16} ==> Scan([c, |raw|] + raw + more, 0) == [Ascii7(raw)] + Scan(more, 0)
    ensures c !in {0x1A, 0x16} ==> Scan([c] + more, 0) == Scan(more, 0)
    ensures c in {0x1A, 0x16} && |raw| < 255 ==> Scan([c, |raw| + 1] + raw, 0) == []
  {
    hide Ascii7;
    var data := [c, |raw|] + raw;
    ScanOfRest(data, more, 0);
    ScanOfRest([c], more, 0);
    assert (data + more)[2..2 + |raw|] == raw;
    assert data + more == [c, |raw|] + raw + more;
  }
}
