/**
  Which end of a packet is the monitored device, told from its ports or its direction bit, and what
  each entry of an asset row says about the packets behind it.
 */
module Devices {
  import opened Wrappers
  import opened Ordering
  import opened Ingestion

  // ---- The device ----

  /** The address and the hardware address of the sender, and of the receiver. */
  predicate AtSource(o: Observation, ip: string, mac: Option<string>) {
    ip == o.sourceIp && mac == o.sourceMac
  }

  predicate AtDestination(o: Observation, ip: string, mac: Option<string>) {
    ip == o.destinationIp && mac == o.destinationMac
  }

  /** The device is the end with the protocol's port; a DNP3 device is the end that is not the master. */
  predicate AtDevice(o: Observation, ip: string, mac: Option<string>) {
    match o.payload
    case Modbus(_, _) => if o.destinationPort == 502 then AtDestination(o, ip, mac) else AtSource(o, ip, mac)
    case Dnp3(fromMaster, _, _) => if fromMaster then AtDestination(o, ip, mac) else AtSource(o, ip, mac)
    case S7comm(_, _, _) => if o.sourcePort == 102 then AtSource(o, ip, mac) else AtDestination(o, ip, mac)
    case OpcUa(_, _, _) => if o.sourcePort == 4840 then AtSource(o, ip, mac) else AtDestination(o, ip, mac)
    case Mms(_, _) => if o.sourcePort == 102 then AtSource(o, ip, mac) else AtDestination(o, ip, mac)
  }

  lemma BookedOnTheDevice(o: Observation)
    ensures KeyOf(o).site == o.site && AtDevice(o, KeyOf(o).ip, MacOf(o))
  {
  }

  /** `r` answers `o`: the ends exchanged, the protocol the same; in DNP3 the direction is turned round as well. */
  ghost predicate Answers(o: Observation, r: Observation) {
    && r.site == o.site
    && r.sourceIp == o.destinationIp && r.destinationIp == o.sourceIp
    && r.sourcePort == o.destinationPort && r.destinationPort == o.sourcePort
    && r.sourceMac == o.destinationMac && r.destinationMac == o.sourceMac
    && match o.payload
       case Modbus(_, _) => r.payload.Modbus?
       case Dnp3(fromMaster, from, to) => r.payload.Dnp3? && r.payload == Dnp3(!fromMaster, to, from)
       case S7comm(_, _, _) => r.payload.S7comm?
       case OpcUa(_, _, _) => r.payload.OpcUa?
       case Mms(_, _) => r.payload.Mms?
  }

  /** One end alone has the protocol's port; DNP3 does not ask for it. */
  ghost predicate OneServer(o: Observation) {
    match o.payload
    case Modbus(_, _) => (o.sourcePort == 502) != (o.destinationPort == 502)
    case Dnp3(_, _, _) => true
    case S7comm(_, _, _) => (o.sourcePort == 102) != (o.destinationPort == 102)
    case OpcUa(_, _, _) => (o.sourcePort == 4840) != (o.destinationPort == 4840)
    case Mms(_, _) => (o.sourcePort == 102) != (o.destinationPort == 102)
  }

  /** A packet and its answer are booked on one row, with one hardware address: those of the server, or of the outstation. */
  lemma ConversationIsOneRow(o: Observation, r: Observation)
    requires Answers(o, r) && OneServer(o)
    ensures KeyOf(o) == KeyOf(r) && MacOf(o) == MacOf(r) && Outstations(o) == Outstations(r)
    ensures o.payload.Modbus? && o.destinationPort == 502 ==> KeyOf(o) == Key(o.site, o.destinationIp) && MacOf(o) == o.destinationMac
    ensures (o.payload.S7comm? || o.payload.Mms?) && o.destinationPort == 102 ==>
              KeyOf(o) == Key(o.site, o.destinationIp) && MacOf(o) == o.destinationMac
    ensures o.payload.OpcUa? && o.destinationPort == 4840 ==> KeyOf(o) == Key(o.site, o.destinationIp) && MacOf(o) == o.destinationMac
    ensures o.payload.Dnp3? && o.payload.directionFromMaster ==>
              && KeyOf(o) == Key(o.site, o.destinationIp) && MacOf(o) == o.destinationMac
              && Outstations(o) == {o.payload.linkDestination}
  {
  }

  /** Only a packet that does not go to port 502 names a vendor, and it is the name without an end past 255 letters. */
  lemma VendorsAreNamedByDevices(o: Observation, vendor: string)
    ensures VendorOf(o) == Some(vendor) <==>
            && o.payload.Modbus? && o.destinationPort != 502 && o.payload.identification.Some?
            && var name := o.payload.identification.value.vendorName;
               name.Some? && name.value != "" && vendor == if |name.value| > 255 then name.value[..255] else name.value
  {
  }

  /** The model name comes before the product name, and that before the product code; empty names do not count. */
  lemma ModelsAreNamedByDevices(o: Observation, model: string)
    ensures ModelOf(o) == Some(model) <==>
            && o.payload.Modbus? && o.destinationPort != 502 && o.payload.identification.Some?
            && var id := o.payload.identification.value;
               exists name: string | name != "" ::
                 && (id.modelName == Some(name)
                     || (id.modelName in {None, Some("")} && id.productName == Some(name))
                     || (id.modelName in {None, Some("")} && id.productName in {None, Some("")} && id.productCode == Some(name)))
                 && model == if |name| > 255 then name[..255] else name
  {
    if ModelOf(o) == Some(model) {
      var id := o.payload.identification.value;
      var name := FirstNamed(id.modelName, FirstNamed(id.productName, id.productCode)).value;
      assert name != "";
    }
  }

  /** What an observation says about buffers. */
  lemma BuffersAreReported(o: Observation)
    ensures ReceiveOf(o).Some? || SendOf(o).Some? || MaxMessageOf(o).Some? ==> o.payload.OpcUa?
    ensures o.payload.OpcUa? ==>
              && ReceiveOf(o) == o.payload.limits.receive && SendOf(o) == o.payload.limits.send
              && MaxMessageOf(o) == o.payload.limits.maxMessage
  {
  }

  // ---- The row after one event ----

  /** Row `i` is the device's, with the hardware address it had, or else the one the packet shows. */
  ghost predicate DeviceRow(before: seq<Asset>, after: seq<Asset>, o: Observation, i: nat) {
    && i < |after| && after[i].key.site == o.site
    && (exists mac :: AtDevice(o, after[i].key.ip, mac) &&
          after[i].mac == if i < |before| && before[i].mac.Some? then before[i].mac else mac)
  }

  lemma DeviceRowStored(before: seq<Asset>, obs: seq<Observation>, o: Observation, i: nat, row: Asset)
    requires i <= |before|
    requires UpToDate(if i < |before| then Some(before[i]) else None, KeyOf(o), obs)
    requires row.key == KeyOf(o) && Summarises(row, obs + [o])
    ensures DeviceRow(before, Stored(before, i, row), o, i)
  {
    assert (obs + [o])[..|obs|] == obs && FirstMac([]) == None;
    BookedOnTheDevice(o);
    hide AtDevice, KeyOf, MacOf;
    assert row.mac == if FirstMac(obs).Some? then FirstMac(obs) else MacOf(o);
    assert AtDevice(o, row.key.ip, MacOf(o));
  }

  // ---- What the lists of a row say ----

  /** Exactly the protocols seen. */
  lemma ProtocolsMean(a: Asset, obs: seq<Observation>)
    requires Summarises(a, obs)
    ensures "modbus_tcp" in a.protocols <==> exists o | o in obs :: o.payload.Modbus?
    ensures "dnp3" in a.protocols <==> exists o | o in obs :: o.payload.Dnp3?
    ensures "s7comm" in a.protocols <==> exists o | o in obs :: o.payload.S7comm?
    ensures "opcua" in a.protocols <==> exists o | o in obs :: o.payload.OpcUa?
    ensures "iec61850_mms" in a.protocols <==> exists o | o in obs :: o.payload.Mms?
    ensures forall i, j | 0 <= i < j < |a.protocols| :: a.protocols[i] != a.protocols[j]
  {
    hide TextLess, Earliest, Latest;
    NameOf("modbus_tcp", a, obs);
    NameOf("dnp3", a, obs);
    NameOf("s7comm", a, obs);
    NameOf("opcua", a, obs);
    NameOf("iec61850_mms", a, obs);
    forall o | o in obs
      ensures Names(o.payload)
    {
      NamesOfProtocols(o.payload);
    }
    hide SummarisesLatest, SummarisesModbusAndDnp3, SummarisesS7, SummarisesOpcUa, SummarisesMms, All, ProtocolName;
  }

  ghost predicate Names(p: Payload) {
    && (ProtocolName(p) == "modbus_tcp" <==> p.Modbus?) && (ProtocolName(p) == "dnp3" <==> p.Dnp3?)
    && (ProtocolName(p) == "s7comm" <==> p.S7comm?) && (ProtocolName(p) == "opcua" <==> p.OpcUa?)
    && (ProtocolName(p) == "iec61850_mms" <==> p.Mms?)
  }

  lemma NamesOfProtocols(p: Payload)
    ensures Names(p)
  {
  }

  lemma NameOf(name: string, a: Asset, obs: seq<Observation>)
    requires Summarises(a, obs)
    ensures name in a.protocols <==> exists o | o in obs :: ProtocolName(o.payload) == name
  {
    hide SummarisesLatest, SummarisesModbusAndDnp3, SummarisesS7, SummarisesOpcUa, SummarisesMms, ProtocolName;
    InList(a.protocols, name, Protocols, obs);
  }

  lemma InList<T>(s: seq<T>, x: T, f: Evidence<T>, obs: seq<Observation>)
    requires Elems(s) == All(f, obs)
    ensures x in s <==> exists o | o in obs :: x in f(o)
  {
    assert x in s <==> x in Elems(s);
  }

  /** Exactly the unit ids of Modbus packets and the link addresses of outstations, ascending. */
  lemma AddressesMean(a: Asset, obs: seq<Observation>, n: int)
    requires Summarises(a, obs)
    ensures n in a.modbusUnitIds <==> exists o | o in obs :: o.payload.Modbus? && o.payload.unitId == n
    ensures n in a.dnp3OutstationAddresses <==>
            exists o | o in obs :: o.payload.Dnp3? && n == if o.payload.directionFromMaster then o.payload.linkDestination else o.payload.linkSource
    ensures forall i, j | 0 <= i < j < |a.modbusUnitIds| :: a.modbusUnitIds[i] < a.modbusUnitIds[j]
    ensures forall i, j | 0 <= i < j < |a.dnp3OutstationAddresses| :: a.dnp3OutstationAddresses[i] < a.dnp3OutstationAddresses[j]
  {
    hide SummarisesSightings, SummarisesLatest, SummarisesS7, SummarisesOpcUa, SummarisesMms, All;
    InList(a.modbusUnitIds, n, UnitIds, obs);
    InList(a.dnp3OutstationAddresses, n, Outstations, obs);
  }

  /** Exactly the rack and slot pairs and the lengths that S7comm packets name. */
  lemma S7EntriesMean(a: Asset, obs: seq<Observation>, rack: nat, slot: nat, n: int)
    requires Summarises(a, obs)
    ensures RackSlot(rack, slot) in a.s7RackSlots <==>
            exists o | o in obs :: o.payload.S7comm? && o.payload.rack == Some(rack) && o.payload.slot == Some(slot)
    ensures n in a.s7PduLengths <==> exists o | o in obs :: o.payload.S7comm? && o.payload.negotiatedPduLength == Some(n)
    ensures forall i, j | 0 <= i < j < |a.s7RackSlots| :: a.s7RackSlots[i] != a.s7RackSlots[j]
    ensures forall i, j | 0 <= i < j < |a.s7PduLengths| :: a.s7PduLengths[i] < a.s7PduLengths[j]
  {
    hide SummarisesSightings, SummarisesLatest, SummarisesModbusAndDnp3, SummarisesOpcUa, SummarisesMms, All;
    InList(a.s7RackSlots, RackSlot(rack, slot), RackSlots, obs);
    InList(a.s7PduLengths, n, PduLengths, obs);
  }

  /** Exactly the endpoint addresses and policies that OPC UA packets name, the empty ones left out. */
  lemma OpcUaEntriesMean(a: Asset, obs: seq<Observation>, text: string)
    requires Summarises(a, obs)
    ensures text in a.opcuaEndpointUrls <==> text != "" && exists o | o in obs :: o.payload.OpcUa? && o.payload.endpointUrl == Some(text)
    ensures text in a.opcuaSecurityPolicies <==>
            text != "" && exists o | o in obs :: o.payload.OpcUa? && o.payload.securityPolicyUri == Some(text)
  {
    hide SummarisesSightings, SummarisesLatest, SummarisesModbusAndDnp3, SummarisesS7, SummarisesMms, All;
    InList(a.opcuaEndpointUrls, text, Endpoints, obs);
    InList(a.opcuaSecurityPolicies, text, Policies, obs);
  }

  /** The unit types seen, and of the references seen the 256 that come first, or all if there are fewer. */
  lemma MmsEntriesMean(a: Asset, obs: seq<Observation>, text: string)
    requires Summarises(a, obs)
    ensures text in a.mmsPduTypes <==> exists o | o in obs :: o.payload.Mms? && o.payload.pduType == text
    ensures text in a.mmsObjectReferences ==> exists o | o in obs :: o.payload.Mms? && text in o.payload.objectReferences
    ensures (exists o | o in obs :: o.payload.Mms? && text in o.payload.objectReferences) && text !in a.mmsObjectReferences ==>
              |a.mmsObjectReferences| == 256 && forall r | r in a.mmsObjectReferences :: TextLess(r, text)
    ensures |a.mmsObjectReferences| <= 256
  {
    hide SummarisesSightings, SummarisesLatest, SummarisesModbusAndDnp3, SummarisesS7, SummarisesOpcUa, TextLess;
    InList(a.mmsPduTypes, text, PduTypes, obs);
    assert text in a.mmsObjectReferences <==> text in Elems(a.mmsObjectReferences);
    assert forall o | o in obs && o.payload.Mms? :: text in o.payload.objectReferences <==> text in References(o);
    assert text in All(References, obs) <==> exists o | o in obs :: text in References(o);
  }

  /** Seen first and last at the earliest and the latest time of all, with the first hardware address reported. */
  lemma SightingsMean(a: Asset, obs: seq<Observation>)
    requires Summarises(a, obs)
    ensures exists o | o in obs :: o.observedAt == a.firstSeen
    ensures exists o | o in obs :: o.observedAt == a.lastSeen
    ensures forall o | o in obs :: a.firstSeen <= o.observedAt <= a.lastSeen
    ensures a.mac == None <==> forall o | o in obs :: MacOf(o) == None
    ensures a.mac.Some? ==> exists i | 0 <= i < |obs| :: MacOf(obs[i]) == a.mac && forall j | 0 <= j < i :: MacOf(obs[j]) == None
  {
    hide SummarisesLatest, SummarisesModbusAndDnp3, SummarisesS7, SummarisesOpcUa, SummarisesMms, MacOf, Collected;
    FirstMacIsFirst(obs);
  }

  lemma {:induction false} FirstMacIsFirst(obs: seq<Observation>)
    ensures FirstMac(obs) == None <==> forall o | o in obs :: MacOf(o) == None
    ensures FirstMac(obs).Some? ==>
              exists i | 0 <= i < |obs| :: MacOf(obs[i]) == FirstMac(obs) && forall j | 0 <= j < i :: MacOf(obs[j]) == None
  {
    hide MacOf;
    if obs != [] {
      var n := |obs| - 1;
      FirstMacIsFirst(obs[..n]);
      assert obs == obs[..n] + [obs[n]];
      assert forall o | o in obs :: o in obs[..n] || o == obs[n];
      assert forall j | 0 <= j < n :: obs[j] == obs[..n][j] && obs[j] in obs[..n];
      assert obs[n] in obs;
    }
  }

  /** Of vendor, model and buffer sizes the row keeps what the last observation says that says anything. */
  lemma DetailsMean(a: Asset, obs: seq<Observation>, i: nat)
    requires Summarises(a, obs) && i < |obs|
    ensures VendorOf(obs[i]).Some? && (forall j | i < j < |obs| :: VendorOf(obs[j]) == None) ==> a.latest.vendor == VendorOf(obs[i])
    ensures ModelOf(obs[i]).Some? && (forall j | i < j < |obs| :: ModelOf(obs[j]) == None) ==> a.latest.model == ModelOf(obs[i])
    ensures ReceiveOf(obs[i]).Some? && (forall j | i < j < |obs| :: ReceiveOf(obs[j]) == None) ==> a.latest.receive == ReceiveOf(obs[i])
    ensures SendOf(obs[i]).Some? && (forall j | i < j < |obs| :: SendOf(obs[j]) == None) ==> a.latest.send == SendOf(obs[i])
    ensures MaxMessageOf(obs[i]).Some? && (forall j | i < j < |obs| :: MaxMessageOf(obs[j]) == None) ==>
              a.latest.maxMessage == MaxMessageOf(obs[i])
  {
    hide SummarisesSightings, SummarisesModbusAndDnp3, SummarisesS7, SummarisesOpcUa, SummarisesMms;
    hide LastReported, VendorOf, ModelOf, ReceiveOf, SendOf, MaxMessageOf;
    LastOneStays(a.latest.vendor, VendorOf, obs, i);
    LastOneStays(a.latest.model, ModelOf, obs, i);
    LastOneStays(a.latest.receive, ReceiveOf, obs, i);
    LastOneStays(a.latest.send, SendOf, obs, i);
    LastOneStays(a.latest.maxMessage, MaxMessageOf, obs, i);
  }

  lemma LastOneStays<T>(x: Option<T>, f: Report<T>, obs: seq<Observation>, i: nat)
    requires LastReported(x, f, obs) && i < |obs|
    ensures f(obs[i]).Some? && (forall j | i < j < |obs| :: f(obs[j]) == None) ==> x == f(obs[i])
  {
    assert obs[i] in obs;
  }
}
