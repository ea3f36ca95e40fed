/**
  The asset inventory as a materialised summary of the observation table: whatever the order and
  grouping in which events arrive, and however often they are replayed, the row of an asset is
  determined by the set of its observations.
 */
module Ingestion {
  import opened Wrappers
  import opened Ordering

  /** A Modbus device identification; the revision is in module `Firmware`. */
  datatype Identification = Identification(
    vendorName: Option<string>, modelName: Option<string>, productName: Option<string>, productCode: Option<string>)

  /** The buffer sizes of an OPC UA handshake. */
  datatype Limits = Limits(receive: Option<int>, send: Option<int>, maxMessage: Option<int>)

  datatype Payload =
    | Modbus(unitId: int, identification: Option<Identification>)
    | Dnp3(directionFromMaster: bool, linkSource: int, linkDestination: int)
    | S7comm(rack: Option<nat>, slot: Option<nat>, negotiatedPduLength: Option<int>)
    | OpcUa(endpointUrl: Option<string>, securityPolicyUri: Option<string>, limits: Limits)
    | Mms(pduType: string, objectReferences: seq<string>)

  datatype Observation = Observation(
    eventId: Option<string>,
    site: string,
    observedAt: int,
    sourceIp: string,
    destinationIp: string,
    sourcePort: nat,
    destinationPort: nat,
    sourceMac: Option<string>,
    destinationMac: Option<string>,
    payload: Payload)

  datatype Key = Key(site: string, ip: string)

  datatype RackSlot = RackSlot(rack: nat, slot: nat)

  /** An asset row; an empty list stands for an absent fingerprint entry. */
  datatype Asset = Asset(
    key: Key,
    mac: Option<string>,
    firstSeen: int,
    lastSeen: int,
    protocols: seq<string>,
    modbusUnitIds: seq<int>,
    dnp3OutstationAddresses: seq<int>,
    s7RackSlots: seq<RackSlot>,
    s7PduLengths: seq<int>,
    opcuaEndpointUrls: seq<string>,
    opcuaSecurityPolicies: seq<string>,
    mmsPduTypes: seq<string>,
    mmsObjectReferences: seq<string>,
    latest: Details)

  /** What every report overwrites. */
  datatype Details = Details(vendor: Option<string>, model: Option<string>, receive: Option<int>, send: Option<int>, maxMessage: Option<int>)

  const UNREPORTED := Details(None, None, None, None, None)

  const MAX_REFERENCES := 256

  // ---- What one observation says ----

  function ProtocolName(p: Payload): string {
    match p
    case Modbus(_, _) => "modbus_tcp"
    case Dnp3(_, _, _) => "dnp3"
    case S7comm(_, _, _) => "s7comm"
    case OpcUa(_, _, _) => "opcua"
    case Mms(_, _) => "iec61850_mms"
  }

  /** Whether the monitored device, rather than its client, sent the packet. */
  predicate DeviceIsSource(o: Observation) {
    match o.payload
    case Modbus(_, _) => o.destinationPort != 502
    case Dnp3(fromMaster, _, _) => !fromMaster
    case S7comm(_, _, _) => o.sourcePort == 102
    case OpcUa(_, _, _) => o.sourcePort == 4840
    case Mms(_, _) => o.sourcePort == 102
  }

  function KeyOf(o: Observation): Key {
    Key(o.site, if DeviceIsSource(o) then o.sourceIp else o.destinationIp)
  }

  function MacOf(o: Observation): Option<string> {
    if DeviceIsSource(o) then o.sourceMac else o.destinationMac
  }

  function Some1<T>(x: Option<T>): set<T> {
    if x.Some? then {x.value} else {}
  }

  function Protocols(o: Observation): set<string> {
    {ProtocolName(o.payload)}
  }

  function UnitIds(o: Observation): set<int> {
    if o.payload.Modbus? then {o.payload.unitId} else {}
  }

  function Outstations(o: Observation): set<int> {
    if !o.payload.Dnp3? then {}
    else if o.payload.directionFromMaster then {o.payload.linkDestination} else {o.payload.linkSource}
  }

  function RackSlots(o: Observation): set<RackSlot> {
    if o.payload.S7comm? && o.payload.rack.Some? && o.payload.slot.Some?
    then {RackSlot(o.payload.rack.value, o.payload.slot.value)} else {}
  }

  function PduLengths(o: Observation): set<int> {
    if o.payload.S7comm? then Some1(o.payload.negotiatedPduLength) else {}
  }

  /** Empty strings are not evidence. */
  function NonEmpty(x: Option<string>): set<string> {
    if x.Some? && x.value != "" then {x.value} else {}
  }

  function Endpoints(o: Observation): set<string> {
    if o.payload.OpcUa? then NonEmpty(o.payload.endpointUrl) else {}
  }

  function Policies(o: Observation): set<string> {
    if o.payload.OpcUa? then NonEmpty(o.payload.securityPolicyUri) else {}
  }

  function PduTypes(o: Observation): set<string> {
    if o.payload.Mms? then {o.payload.pduType} else {}
  }

  function References(o: Observation): set<string> {
    if o.payload.Mms? then Elems(o.payload.objectReferences) else {}
  }

  const MAX_TEXT := 255

  function CutText(s: string): string {
    if |s| > MAX_TEXT then s[..MAX_TEXT] else s
  }

  predicate Named(x: Option<string>) {
    x.Some? && x.value != ""
  }

  function FirstNamed(x: Option<string>, y: Option<string>): Option<string> {
    if Named(x) then x else y
  }

  /** The vendor that the device itself names, if any. */
  function VendorOf(o: Observation): Option<string> {
    if o.payload.Modbus? && DeviceIsSource(o) && o.payload.identification.Some? && Named(o.payload.identification.value.vendorName)
    then Some(CutText(o.payload.identification.value.vendorName.value)) else None
  }

  /** The model name, or failing that the product name, or failing that the product code. */
  function ModelOf(o: Observation): Option<string> {
    if !(o.payload.Modbus? && DeviceIsSource(o) && o.payload.identification.Some?) then None
    else
      var id := o.payload.identification.value;
      var model := FirstNamed(id.modelName, FirstNamed(id.productName, id.productCode));
      if Named(model) then Some(CutText(model.value)) else None
  }

  function ReceiveOf(o: Observation): Option<int> {
    if o.payload.OpcUa? then o.payload.limits.receive else None
  }

  function SendOf(o: Observation): Option<int> {
    if o.payload.OpcUa? then o.payload.limits.send else None
  }

  function MaxMessageOf(o: Observation): Option<int> {
    if o.payload.OpcUa? then o.payload.limits.maxMessage else None
  }

  // ---- What a table of observations says ----

  type Evidence<!T> = Observation -> set<T>

  function All<T>(f: Evidence<T>, obs: seq<Observation>): set<T> {
    set o, x | o in obs && x in f(o) :: x
  }

  /** `s` lists all the evidence, in ascending order. */
  ghost predicate Listed<T>(lt: Less<T>, s: seq<T>, f: Evidence<T>, obs: seq<Observation>) {
    Ascending(lt, s) && Elems(s) == All(f, obs)
  }

  /** `s` lists all the evidence, in some order. */
  ghost predicate Collected<T>(s: seq<T>, f: Evidence<T>, obs: seq<Observation>) {
    NoDuplicates(s) && Elems(s) == All(f, obs)
  }

  ghost predicate Earliest(t: int, obs: seq<Observation>) {
    (exists o | o in obs :: o.observedAt == t) && forall o | o in obs :: t <= o.observedAt
  }

  ghost predicate Latest(t: int, obs: seq<Observation>) {
    (exists o | o in obs :: o.observedAt == t) && forall o | o in obs :: o.observedAt <= t
  }

  /** The first hardware address reported, in the order of the table. */
  function FirstMac(obs: seq<Observation>): Option<string> {
    if obs == [] then None
    else
      var before := FirstMac(obs[..|obs| - 1]);
      if before.Some? then before else MacOf(obs[|obs| - 1])
  }

  type Report<!T> = Observation -> Option<T>

  /** `x` is what the last of the observations that report anything reports. */
  ghost predicate LastReported<T>(x: Option<T>, f: Report<T>, obs: seq<Observation>) {
    match x
    case None => forall o | o in obs :: f(o).None?
    case Some(_) => exists i | 0 <= i < |obs| :: f(obs[i]) == x && forall j | i < j < |obs| :: f(obs[j]).None?
  }

  ghost predicate SummarisesLatest(l: Details, obs: seq<Observation>) {
    && LastReported(l.vendor, VendorOf, obs) && LastReported(l.model, ModelOf, obs)
    && LastReported(l.receive, ReceiveOf, obs) && LastReported(l.send, SendOf, obs)
    && LastReported(l.maxMessage, MaxMessageOf, obs)
  }

  ghost predicate SummarisesSightings(a: Asset, obs: seq<Observation>) {
    && Earliest(a.firstSeen, obs) && Latest(a.lastSeen, obs)
    && a.mac == FirstMac(obs)
    && Collected(a.protocols, Protocols, obs)
  }

  ghost predicate SummarisesModbusAndDnp3(a: Asset, obs: seq<Observation>) {
    && Listed(IntLess, a.modbusUnitIds, UnitIds, obs)
    && Listed(IntLess, a.dnp3OutstationAddresses, Outstations, obs)
  }

  ghost predicate SummarisesS7(a: Asset, obs: seq<Observation>) {
    && Collected(a.s7RackSlots, RackSlots, obs)
    && Listed(IntLess, a.s7PduLengths, PduLengths, obs)
  }

  ghost predicate SummarisesOpcUa(a: Asset, obs: seq<Observation>) {
    && Listed(TextLess, a.opcuaEndpointUrls, Endpoints, obs)
    && Listed(TextLess, a.opcuaSecurityPolicies, Policies, obs)
  }

  ghost predicate SummarisesMms(a: Asset, obs: seq<Observation>) {
    && Listed(TextLess, a.mmsPduTypes, PduTypes, obs)
    && Smallest(TextLess, MAX_REFERENCES, All(References, obs), a.mmsObjectReferences)
  }

  ghost predicate Summarises(a: Asset, obs: seq<Observation>) {
    && SummarisesSightings(a, obs)
    && SummarisesLatest(a.latest, obs)
    && SummarisesModbusAndDnp3(a, obs)
    && SummarisesS7(a, obs)
    && SummarisesOpcUa(a, obs)
    && SummarisesMms(a, obs)
  }

  /** A row about to be filled in. */
  function Blank(key: Key, o: Observation): Asset {
    Asset(key, None, o.observedAt, o.observedAt, [], [], [], [], [], [], [], [], [], UNREPORTED)
  }

  // ---- Growing a summary by one observation ----

  lemma AllGrows<T>(f: Evidence<T>, obs: seq<Observation>, o: Observation)
    ensures All(f, obs + [o]) == All(f, obs) + f(o)
  {
    assert (obs + [o])[|obs|] == o;
    assert forall p | p in obs + [o] :: p in obs || p == o;
    assert forall p | p in obs :: p in obs + [o];
  }

  lemma ListedGrows<T(!new)>(lt: Less<T>, s: seq<T>, t: seq<T>, f: Evidence<T>, obs: seq<Observation>, o: Observation)
    requires Listed(lt, s, f, obs) && Ascending(lt, t) && Elems(t) == Elems(s) + f(o)
    ensures Listed(lt, t, f, obs + [o])
  {
    AllGrows(f, obs, o);
  }

  lemma ListedStays<T(!new)>(lt: Less<T>, s: seq<T>, f: Evidence<T>, obs: seq<Observation>, o: Observation)
    requires Listed(lt, s, f, obs) && f(o) == {}
    ensures Listed(lt, s, f, obs + [o])
  {
    AllGrows(f, obs, o);
  }

  lemma CollectedGrows<T(!new)>(s: seq<T>, t: seq<T>, f: Evidence<T>, obs: seq<Observation>, o: Observation)
    requires Collected(s, f, obs) && NoDuplicates(t) && Elems(t) == Elems(s) + f(o)
    ensures Collected(t, f, obs + [o])
  {
    AllGrows(f, obs, o);
  }

  /** `sorted` over a list to which a value was appended if it was new. */
  function AddSorted<T(==)>(lt: Less<T>, s: seq<T>, x: T): seq<T> {
    if x in s then s else SortUnique(lt, s + [x])
  }

  lemma AddSortedAdds<T(!new)>(lt: Less<T>, s: seq<T>, x: T)
    requires StrictTotal(lt) && Ascending(lt, s)
    ensures Ascending(lt, AddSorted(lt, s, x)) && Elems(AddSorted(lt, s, x)) == Elems(s) + {x}
  {
    SortUniqueSorts(lt, s + [x]);
    ElemsSnoc(s, x);
    if x in s {
      assert x in Elems(s);
    }
  }

  lemma ElemsSnoc<T>(s: seq<T>, x: T)
    ensures Elems(s + [x]) == Elems(s) + {x}
  {
    assert (s + [x])[|s|] == x;
    assert forall y | y in s + [x] :: y in s || y == x;
    assert forall y | y in s :: y in s + [x];
  }

  lemma ElemsAppend<T>(s: seq<T>, t: seq<T>)
    ensures Elems(s + t) == Elems(s) + Elems(t)
  {
    assert forall y | y in s + t :: y in s || y in t;
    assert forall y | y in s :: y in s + t;
    assert forall y | y in t :: y in s + t;
  }

  /** Appending a value that is not there yet. */
  function AddNew<T(==)>(s: seq<T>, x: T): seq<T> {
    if x in s then s else s + [x]
  }

  lemma AddNewAdds<T>(s: seq<T>, x: T)
    requires NoDuplicates(s)
    ensures NoDuplicates(AddNew(s, x)) && Elems(AddNew(s, x)) == Elems(s) + {x}
  {
    ElemsSnoc(s, x);
    if x in s {
      assert x in Elems(s);
    }
  }

  /** `sorted(stored | new)[:256]` */
  function MergeReferences(stored: seq<string>, incoming: seq<string>): seq<string> {
    Take(MAX_REFERENCES, SortUnique(TextLess, stored + incoming))
  }

  /**
    The bounded merge loses nothing that it should keep: the list stays the 256 smallest of all
    references ever reported.
   */
  lemma MergeKeepsSmallest(stored: seq<string>, obs: seq<Observation>, o: Observation)
    requires o.payload.Mms? && Smallest(TextLess, MAX_REFERENCES, All(References, obs), stored)
    ensures Smallest(TextLess, MAX_REFERENCES, All(References, obs + [o]),
                     MergeReferences(stored, o.payload.objectReferences))
  {
    var incoming := o.payload.objectReferences;
    TextLessIsTotal();
    hide TextLess;
    SortUniqueSorts(TextLess, stored + incoming);
    ElemsAppend(stored, incoming);
    TakeIsSmallest(TextLess, MAX_REFERENCES, SortUnique(TextLess, stored + incoming));
    SmallestOfSmallest(TextLess, MAX_REFERENCES, All(References, obs), Elems(incoming), stored,
                       MergeReferences(stored, incoming));
    AllGrows(References, obs, o);
  }

  lemma ReferencesStay(stored: seq<string>, obs: seq<Observation>, o: Observation)
    requires !o.payload.Mms? && Smallest(TextLess, MAX_REFERENCES, All(References, obs), stored)
    ensures Smallest(TextLess, MAX_REFERENCES, All(References, obs + [o]), stored)
  {
    AllGrows(References, obs, o);
  }

  // ---- Growing a row ----

  function Min(a: int, b: int): int {
    if b < a then b else a
  }

  function Max(a: int, b: int): int {
    if b > a then b else a
  }

  /** A new report replaces the one before it. */
  function Newer<T>(known: Option<T>, reported: Option<T>): Option<T> {
    if reported.Some? then reported else known
  }

  lemma LastReportedGrows<T>(x: Option<T>, f: Report<T>, obs: seq<Observation>, o: Observation)
    requires LastReported(x, f, obs)
    ensures LastReported(Newer(x, f(o)), f, obs + [o])
  {
    var more := obs + [o];
    assert more[|obs|] == o;
    assert forall p | p in more :: p in obs || p == o;
    if f(o).None? && x.Some? {
      var i :| 0 <= i < |obs| && f(obs[i]) == x && forall j | i < j < |obs| :: f(obs[j]).None?;
      assert more[i] == obs[i] && forall j | i < j < |obs| :: more[j] == obs[j];
    }
  }

  function Updated(l: Details, o: Observation): Details {
    Details(Newer(l.vendor, VendorOf(o)), Newer(l.model, ModelOf(o)), Newer(l.receive, ReceiveOf(o)),
           Newer(l.send, SendOf(o)), Newer(l.maxMessage, MaxMessageOf(o)))
  }

  lemma LatestGrows(l: Details, obs: seq<Observation>, o: Observation)
    requires SummarisesLatest(l, obs)
    ensures SummarisesLatest(Updated(l, o), obs + [o])
  {
    hide LastReported, Newer, VendorOf, ModelOf, ReceiveOf, SendOf, MaxMessageOf;
    LastReportedGrows(l.vendor, VendorOf, obs, o);
    LastReportedGrows(l.model, ModelOf, obs, o);
    LastReportedGrows(l.receive, ReceiveOf, obs, o);
    LastReportedGrows(l.send, SendOf, obs, o);
    LastReportedGrows(l.maxMessage, MaxMessageOf, obs, o);
  }

  lemma NothingReported()
    ensures SummarisesLatest(UNREPORTED, [])
  {
  }

  lemma CollectedOne<T(!new)>(f: Evidence<T>, o: Observation, x: T)
    requires f(o) == {x}
    ensures Collected([x], f, [] + [o])
  {
    assert Collected([], f, []);
    assert Elems([x]) == Elems([]) + {x};
    CollectedGrows([], [x], f, [], o);
  }

  lemma SightingsStart(a: Asset, o: Observation)
    requires a.firstSeen == a.lastSeen == o.observedAt && a.mac == MacOf(o) && a.protocols == [ProtocolName(o.payload)]
    ensures SummarisesSightings(a, [] + [o])
  {
    CollectedOne(Protocols, o, ProtocolName(o.payload));
    hide Collected, Protocols, ProtocolName;
    var obs := [] + [o];
    assert obs == [o] && obs[0] == o && obs[..0] == [];
    assert FirstMac(obs[..0]) == None;
  }

  lemma SightingsGrow(a: Asset, a': Asset, obs: seq<Observation>, o: Observation)
    requires SummarisesSightings(a, obs)
    requires a'.firstSeen == Min(a.firstSeen, o.observedAt) && a'.lastSeen == Max(a.lastSeen, o.observedAt)
    requires a'.mac == if a.mac.Some? then a.mac else MacOf(o)
    requires a'.protocols == AddNew(a.protocols, ProtocolName(o.payload))
    ensures SummarisesSightings(a', obs + [o])
  {
    var more := obs + [o];
    assert more[|obs|] == o && more[..|obs|] == obs;
    assert forall p | p in more :: p in obs || p == o;
    assert forall p | p in obs :: p in more;
    AddNewAdds(a.protocols, ProtocolName(o.payload));
    CollectedGrows(a.protocols, a'.protocols, Protocols, obs, o);
  }

  /** All the lists of a row are up to date. */
  ghost predicate SummarisesLists(a: Asset, obs: seq<Observation>) {
    SummarisesModbusAndDnp3(a, obs) && SummarisesS7(a, obs) && SummarisesOpcUa(a, obs) && SummarisesMms(a, obs)
  }

  lemma BlankSummarisesNothing(key: Key, o: Observation)
    ensures SummarisesLists(Blank(key, o), [])
  {
  }

  lemma ModbusAndDnp3Stay(a: Asset, obs: seq<Observation>, o: Observation)
    requires SummarisesModbusAndDnp3(a, obs) && !o.payload.Modbus? && !o.payload.Dnp3?
    ensures SummarisesModbusAndDnp3(a, obs + [o])
  {
    ListedStays(IntLess, a.modbusUnitIds, UnitIds, obs, o);
    ListedStays(IntLess, a.dnp3OutstationAddresses, Outstations, obs, o);
  }

  lemma S7Stays(a: Asset, obs: seq<Observation>, o: Observation)
    requires SummarisesS7(a, obs) && !o.payload.S7comm?
    ensures SummarisesS7(a, obs + [o])
  {
    AllGrows(RackSlots, obs, o);
    ListedStays(IntLess, a.s7PduLengths, PduLengths, obs, o);
  }

  lemma OpcUaStays(a: Asset, obs: seq<Observation>, o: Observation)
    requires SummarisesOpcUa(a, obs) && !o.payload.OpcUa?
    ensures SummarisesOpcUa(a, obs + [o])
  {
    ListedStays(TextLess, a.opcuaEndpointUrls, Endpoints, obs, o);
    ListedStays(TextLess, a.opcuaSecurityPolicies, Policies, obs, o);
  }

  lemma MmsStays(a: Asset, obs: seq<Observation>, o: Observation)
    requires SummarisesMms(a, obs) && !o.payload.Mms?
    ensures SummarisesMms(a, obs + [o])
  {
    ListedStays(TextLess, a.mmsPduTypes, PduTypes, obs, o);
    ReferencesStay(a.mmsObjectReferences, obs, o);
  }

  /** The same fingerprint lists, whatever else differs. */
  predicate SameLists(a: Asset, b: Asset) {
    && a.modbusUnitIds == b.modbusUnitIds && a.dnp3OutstationAddresses == b.dnp3OutstationAddresses
    && a.s7RackSlots == b.s7RackSlots && a.s7PduLengths == b.s7PduLengths
    && a.opcuaEndpointUrls == b.opcuaEndpointUrls && a.opcuaSecurityPolicies == b.opcuaSecurityPolicies
    && a.mmsPduTypes == b.mmsPduTypes && a.mmsObjectReferences == b.mmsObjectReferences
  }

  lemma ModbusGrows(a: Asset, a': Asset, obs: seq<Observation>, o: Observation)
    requires SummarisesLists(a, obs) && o.payload.Modbus?
    requires SameLists(a', a.(modbusUnitIds := AddSorted(IntLess, a.modbusUnitIds, o.payload.unitId)))
    ensures SummarisesLists(a', obs + [o])
  {
    IntLessIsTotal();
    AddSortedAdds(IntLess, a.modbusUnitIds, o.payload.unitId);
    ListedGrows(IntLess, a.modbusUnitIds, a'.modbusUnitIds, UnitIds, obs, o);
    ListedStays(IntLess, a.dnp3OutstationAddresses, Outstations, obs, o);
    hide Listed, Collected, Smallest;
    S7Stays(a, obs, o);
    OpcUaStays(a, obs, o);
    MmsStays(a, obs, o);
  }

  lemma Dnp3Grows(a: Asset, a': Asset, obs: seq<Observation>, o: Observation)
    requires SummarisesLists(a, obs) && o.payload.Dnp3?
    requires SameLists(a', a.(dnp3OutstationAddresses := AddSorted(IntLess, a.dnp3OutstationAddresses,
                 if DeviceIsSource(o) then o.payload.linkSource else o.payload.linkDestination)))
    ensures SummarisesLists(a', obs + [o])
  {
    IntLessIsTotal();
    AddSortedAdds(IntLess, a.dnp3OutstationAddresses,
                  if DeviceIsSource(o) then o.payload.linkSource else o.payload.linkDestination);
    ListedGrows(IntLess, a.dnp3OutstationAddresses, a'.dnp3OutstationAddresses, Outstations, obs, o);
    ListedStays(IntLess, a.modbusUnitIds, UnitIds, obs, o);
    hide Listed, Collected, Smallest;
    S7Stays(a, obs, o);
    OpcUaStays(a, obs, o);
    MmsStays(a, obs, o);
  }

  lemma S7Grows(a: Asset, a': Asset, obs: seq<Observation>, o: Observation)
    requires SummarisesLists(a, obs) && o.payload.S7comm?
    requires SameLists(a', a.(
               s7RackSlots := if o.payload.rack.Some? && o.payload.slot.Some?
                              then AddNew(a.s7RackSlots, RackSlot(o.payload.rack.value, o.payload.slot.value))
                              else a.s7RackSlots,
               s7PduLengths := if o.payload.negotiatedPduLength.Some?
                               then AddSorted(IntLess, a.s7PduLengths, o.payload.negotiatedPduLength.value)
                               else a.s7PduLengths))
    ensures SummarisesLists(a', obs + [o])
  {
    IntLessIsTotal();
    if o.payload.rack.Some? && o.payload.slot.Some? {
      AddNewAdds(a.s7RackSlots, RackSlot(o.payload.rack.value, o.payload.slot.value));
    }
    CollectedGrows(a.s7RackSlots, a'.s7RackSlots, RackSlots, obs, o);
    if o.payload.negotiatedPduLength.Some? {
      AddSortedAdds(IntLess, a.s7PduLengths, o.payload.negotiatedPduLength.value);
    }
    ListedGrows(IntLess, a.s7PduLengths, a'.s7PduLengths, PduLengths, obs, o);
    hide Listed, Collected, Smallest;
    ModbusAndDnp3Stay(a, obs, o);
    OpcUaStays(a, obs, o);
    MmsStays(a, obs, o);
  }

  function AddText(s: seq<string>, x: Option<string>): seq<string> {
    if x.Some? && x.value != "" then SortUnique(TextLess, AddNew(s, x.value)) else s
  }

  lemma AddTextAdds(s: seq<string>, x: Option<string>)
    requires Ascending(TextLess, s)
    ensures Ascending(TextLess, AddText(s, x)) && Elems(AddText(s, x)) == Elems(s) + NonEmpty(x)
  {
    TextLessIsTotal();
    hide TextLess;
    if x.Some? && x.value != "" {
      SortUniqueSorts(TextLess, AddNew(s, x.value));
      ElemsSnoc(s, x.value);
      if x.value in s {
        assert x.value in Elems(s);
      }
    }
  }

  lemma OpcUaGrows(a: Asset, a': Asset, obs: seq<Observation>, o: Observation)
    requires SummarisesLists(a, obs) && o.payload.OpcUa?
    requires SameLists(a', a.(
               opcuaEndpointUrls := AddText(a.opcuaEndpointUrls, o.payload.endpointUrl),
               opcuaSecurityPolicies := AddText(a.opcuaSecurityPolicies, o.payload.securityPolicyUri)))
    ensures SummarisesLists(a', obs + [o])
  {
    hide AddText;
    AddTextAdds(a.opcuaEndpointUrls, o.payload.endpointUrl);
    AddTextAdds(a.opcuaSecurityPolicies, o.payload.securityPolicyUri);
    ListedGrows(TextLess, a.opcuaEndpointUrls, a'.opcuaEndpointUrls, Endpoints, obs, o);
    ListedGrows(TextLess, a.opcuaSecurityPolicies, a'.opcuaSecurityPolicies, Policies, obs, o);
    hide Listed, Collected, Smallest;
    ModbusAndDnp3Stay(a, obs, o);
    S7Stays(a, obs, o);
    MmsStays(a, obs, o);
  }

  lemma MmsGrows(a: Asset, a': Asset, obs: seq<Observation>, o: Observation)
    requires SummarisesLists(a, obs) && o.payload.Mms?
    requires SameLists(a', a.(
               mmsPduTypes := SortUnique(TextLess, a.mmsPduTypes + [o.payload.pduType]),
               mmsObjectReferences := MergeReferences(a.mmsObjectReferences, o.payload.objectReferences)))
    ensures SummarisesLists(a', obs + [o])
  {
    TextLessIsTotal();
    hide TextLess, MergeReferences;
    SortUniqueSorts(TextLess, a.mmsPduTypes + [o.payload.pduType]);
    ElemsSnoc(a.mmsPduTypes, o.payload.pduType);
    ListedGrows(TextLess, a.mmsPduTypes, a'.mmsPduTypes, PduTypes, obs, o);
    MergeKeepsSmallest(a.mmsObjectReferences, obs, o);
    hide Listed, Collected, Smallest;
    ModbusAndDnp3Stay(a, obs, o);
    S7Stays(a, obs, o);
    OpcUaStays(a, obs, o);
  }

  // ---- The tables ----

  /** The observations of one asset, in table order. */
  function Of(obs: seq<Observation>, key: Key): seq<Observation> {
    if obs == [] then []
    else
      var before, last := Of(obs[..|obs| - 1], key), obs[|obs| - 1];
      if KeyOf(last) == key then before + [last] else before
  }

  predicate HasRow(assets: seq<Asset>, key: Key) {
    exists i | 0 <= i < |assets| :: assets[i].key == key
  }

  /** An event id that the table already holds. */
  predicate Recorded(obs: seq<Observation>, id: Option<string>) {
    id.Some? && exists i | 0 <= i < |obs| :: obs[i].eventId == id
  }

  ghost predicate ValidTables(assets: seq<Asset>, obs: seq<Observation>) {
    && (forall i, j | 0 <= i < j < |assets| :: assets[i].key != assets[j].key)
    && (forall i | 0 <= i < |assets| :: Summarises(assets[i], Of(obs, assets[i].key)))
    && (forall o | o in obs :: HasRow(assets, KeyOf(o)))
    && (forall i, j | 0 <= i < j < |obs| && obs[i].eventId.Some? :: obs[i].eventId != obs[j].eventId)
  }

  lemma OfGrows(obs: seq<Observation>, o: Observation, key: Key)
    ensures Of(obs + [o], key) == if KeyOf(o) == key then Of(obs, key) + [o] else Of(obs, key)
  {
    assert (obs + [o])[..|obs|] == obs;
  }

  lemma {:induction false} OfUnknown(assets: seq<Asset>, obs: seq<Observation>, key: Key)
    requires !HasRow(assets, key) && forall o | o in obs :: HasRow(assets, KeyOf(o))
    ensures Of(obs, key) == []
  {
    if obs != [] {
      assert obs[|obs| - 1] in obs;
      OfUnknown(assets, obs[..|obs| - 1], key);
    }
  }

  lemma {:induction false} OfMembers(obs: seq<Observation>, key: Key, o: Observation)
    ensures o in Of(obs, key) <==> o in obs && KeyOf(o) == key
  {
    if obs != [] {
      var front, last := obs[..|obs| - 1], obs[|obs| - 1];
      OfMembers(front, key, o);
      assert obs == front + [last];
    }
  }

  function Stored(assets: seq<Asset>, i: nat, row: Asset): seq<Asset>
    requires i <= |assets|
  {
    if i < |assets| then assets[i := row] else assets + [row]
  }

  lemma StoredSummaries(assets: seq<Asset>, obs: seq<Observation>, o: Observation, i: nat, row: Asset)
    requires i <= |assets|
    requires forall k | 0 <= k < |assets| :: Summarises(assets[k], Of(obs, assets[k].key))
    requires forall k | 0 <= k < |assets| && k != i :: assets[k].key != KeyOf(o)
    requires row.key == KeyOf(o) && Summarises(row, Of(obs, KeyOf(o)) + [o])
    ensures var table := Stored(assets, i, row);
            forall k | 0 <= k < |table| :: Summarises(table[k], Of(obs + [o], table[k].key))
  {
    hide Summarises, Of;
    var table := Stored(assets, i, row);
    forall k | 0 <= k < |table|
      ensures Summarises(table[k], Of(obs + [o], table[k].key))
    {
      OfGrows(obs, o, table[k].key);
    }
  }

  lemma StoredRows(assets: seq<Asset>, obs: seq<Observation>, o: Observation, i: nat, row: Asset)
    requires i <= |assets| && row.key == KeyOf(o)
    requires i < |assets| ==> assets[i].key == KeyOf(o)
    requires forall p | p in obs :: HasRow(assets, KeyOf(p))
    ensures forall p | p in obs + [o] :: HasRow(Stored(assets, i, row), KeyOf(p))
  {
    var table := Stored(assets, i, row);
    assert table[i] == row;
    forall p | p in obs + [o]
      ensures HasRow(table, KeyOf(p))
    {
      if p in obs {
        var k :| 0 <= k < |assets| && assets[k].key == KeyOf(p);
        assert table[k].key == assets[k].key;
      }
    }
  }

  /** Replacing or adding the row of one asset, together with its new observation. */
  lemma StoreKeepsValid(assets: seq<Asset>, obs: seq<Observation>, o: Observation, i: nat, row: Asset)
    requires ValidTables(assets, obs) && !Recorded(obs, o.eventId)
    requires row.key == KeyOf(o) && Summarises(row, Of(obs, KeyOf(o)) + [o])
    requires i <= |assets|
    requires if i < |assets| then assets[i].key == KeyOf(o) else !HasRow(assets, KeyOf(o))
    ensures ValidTables(Stored(assets, i, row), obs + [o])
  {
    hide Summarises, Of;
    if i == |assets| {
      assert forall k | 0 <= k < |assets| :: assets[k].key != KeyOf(o);
    }
    StoredSummaries(assets, obs, o, i, row);
    StoredRows(assets, obs, o, i, row);
    hide HasRow, Stored;
    StoredKeys(assets, o, i, row);
    NewIdDistinct(obs, o);
  }

  lemma StoredKeys(assets: seq<Asset>, o: Observation, i: nat, row: Asset)
    requires i <= |assets| && row.key == KeyOf(o)
    requires forall j, k | 0 <= j < k < |assets| :: assets[j].key != assets[k].key
    requires if i < |assets| then assets[i].key == KeyOf(o) else forall k | 0 <= k < |assets| :: assets[k].key != KeyOf(o)
    ensures var table := Stored(assets, i, row); forall j, k | 0 <= j < k < |table| :: table[j].key != table[k].key
  {
  }

  lemma NewIdDistinct(obs: seq<Observation>, o: Observation)
    requires !Recorded(obs, o.eventId)
    requires forall i, j | 0 <= i < j < |obs| && obs[i].eventId.Some? :: obs[i].eventId != obs[j].eventId
    ensures var more := obs + [o];
            forall i, j | 0 <= i < j < |more| && more[i].eventId.Some? :: more[i].eventId != more[j].eventId
  {
  }

  // ---- The five handlers' row updates ----

  /** The stored row, if there is one, summarises the observations so far. */
  ghost predicate UpToDate(found: Option<Asset>, key: Key, obs: seq<Observation>) {
    if found.None? then obs == [] else found.value.key == key && Summarises(found.value, obs)
  }

  /** `row` is what a handler makes of `o` and the row it found, whatever the observations behind that row. */
  ghost predicate Computes(found: Option<Asset>, o: Observation, row: Asset) {
    forall obs | UpToDate(found, KeyOf(o), obs) :: row.key == KeyOf(o) && Summarises(row, obs + [o])
  }

  lemma RowComplete(asset: Asset, obs: seq<Observation>)
    requires SummarisesSightings(asset, obs) && SummarisesLatest(asset.latest, obs) && SummarisesLists(asset, obs)
    ensures Summarises(asset, obs)
  {
    hide SummarisesSightings, SummarisesLatest, SummarisesModbusAndDnp3, SummarisesS7, SummarisesOpcUa, SummarisesMms;
  }

  lemma RowParts(asset: Asset, obs: seq<Observation>)
    requires Summarises(asset, obs)
    ensures SummarisesSightings(asset, obs) && SummarisesLatest(asset.latest, obs) && SummarisesLists(asset, obs)
  {
    hide SummarisesSightings, SummarisesLatest, SummarisesModbusAndDnp3, SummarisesS7, SummarisesOpcUa, SummarisesMms;
  }

  lemma SightingsIgnoreLists(a: Asset, b: Asset, obs: seq<Observation>)
    requires SummarisesSightings(a, obs)
    requires b.firstSeen == a.firstSeen && b.lastSeen == a.lastSeen && b.mac == a.mac && b.protocols == a.protocols
    ensures SummarisesSightings(b, obs)
  {
  }

  /** The row of `o` as far as the sightings go: created, or updated from the stored row. */
  ghost predicate Sighted(asset: Asset, found: Option<Asset>, obs: seq<Observation>, o: Observation) {
    var before := Before(found, o);
    && asset.key == KeyOf(o) && SameLists(asset, before) && asset.latest == before.latest
    && SummarisesSightings(asset, obs + [o])
    && SummarisesLists(before, obs) && SummarisesLatest(before.latest, obs)
  }

  function Before(found: Option<Asset>, o: Observation): Asset {
    if found.Some? then found.value else Blank(KeyOf(o), o)
  }

  lemma FirstSighting(asset: Asset, obs: seq<Observation>, o: Observation)
    requires UpToDate(None, KeyOf(o), obs) && asset == Blank(KeyOf(o), o).(mac := MacOf(o), protocols := [ProtocolName(o.payload)])
    ensures Sighted(asset, None, obs, o)
  {
    hide SummarisesLists, SummarisesSightings, SummarisesLatest, Summarises, ProtocolName;
    BlankSummarisesNothing(KeyOf(o), o);
    NothingReported();
    SightingsStart(asset, o);
  }

  lemma NextSighting(known: Asset, asset: Asset, obs: seq<Observation>, o: Observation)
    requires UpToDate(Some(known), KeyOf(o), obs)
    requires asset == known.(firstSeen := Min(known.firstSeen, o.observedAt), lastSeen := Max(known.lastSeen, o.observedAt),
                             protocols := AddNew(known.protocols, ProtocolName(o.payload)),
                             mac := if known.mac.Some? then known.mac else MacOf(o))
    ensures Sighted(asset, Some(known), obs, o)
  {
    hide SummarisesLists, SummarisesSightings, SummarisesLatest, Summarises, ProtocolName;
    RowParts(known, obs);
    SightingsGrow(known, asset, obs, o);
  }

  /** What every handler does first: the sightings of a known asset, or a new row with its first one. */
  method Sight(found: Option<Asset>, o: Observation, name: string) returns (asset: Asset)
    requires name == ProtocolName(o.payload)
    ensures SameLists(asset, Before(found, o)) && asset.latest == Before(found, o).latest
    ensures forall obs | UpToDate(found, KeyOf(o), obs) :: Sighted(asset, found, obs, o)
  {
    hide Sighted, UpToDate;
    if found.None? {
      asset := Blank(KeyOf(o), o).(mac := MacOf(o), protocols := [name]);
      forall obs | UpToDate(found, KeyOf(o), obs)
        ensures Sighted(asset, found, obs, o)
      {
        FirstSighting(asset, obs, o);
      }
      return;
    }
    var known := found.value;
    asset := known.(firstSeen := Min(known.firstSeen, o.observedAt), lastSeen := Max(known.lastSeen, o.observedAt));
    if name !in asset.protocols {
      asset := asset.(protocols := asset.protocols + [name]);
    }
    if asset.mac.None? && MacOf(o).Some? {
      asset := asset.(mac := MacOf(o));
    }
    forall obs | UpToDate(found, KeyOf(o), obs)
      ensures Sighted(asset, found, obs, o)
    {
      NextSighting(known, asset, obs, o);
    }
  }

  /** The row with its protocol's lists updated. */
  lemma RowFinished(sighted: Asset, asset: Asset, found: Option<Asset>, obs: seq<Observation>, o: Observation)
    requires Sighted(sighted, found, obs, o) && SummarisesLists(asset, obs + [o])
    requires asset.key == sighted.key && asset.firstSeen == sighted.firstSeen && asset.lastSeen == sighted.lastSeen
    requires asset.mac == sighted.mac && asset.protocols == sighted.protocols && asset.latest == Updated(sighted.latest, o)
    ensures asset.key == KeyOf(o) && Summarises(asset, obs + [o])
  {
    hide SummarisesLists, SummarisesSightings, SummarisesLatest, Summarises, SameLists, Updated;
    SightingsIgnoreLists(sighted, asset, obs + [o]);
    LatestGrows(sighted.latest, obs, o);
    RowComplete(asset, obs + [o]);
  }

  method ModbusRow(found: Option<Asset>, o: Observation) returns (asset: Asset)
    requires o.payload.Modbus?
    ensures Computes(found, o, asset)
  {
    hide SummarisesLists, SummarisesSightings, SummarisesLatest, Summarises;
    var unitId := o.payload.unitId;
    var sighted := Sight(found, o, "modbus_tcp");
    asset := sighted;
    if unitId !in asset.modbusUnitIds {
      asset := asset.(modbusUnitIds := SortUnique(IntLess, asset.modbusUnitIds + [unitId]));
    }
    if DeviceIsSource(o) && o.payload.identification.Some? {
      var id := o.payload.identification.value;
      var model := if Named(id.modelName) then id.modelName else if Named(id.productName) then id.productName else id.productCode;
      if Named(id.vendorName) {
        asset := asset.(latest := asset.latest.(vendor := Some(CutText(id.vendorName.value))));
      }
      if Named(model) {
        asset := asset.(latest := asset.latest.(model := Some(CutText(model.value))));
      }
    }
    forall obs | UpToDate(found, KeyOf(o), obs)
      ensures asset.key == KeyOf(o) && Summarises(asset, obs + [o])
    {
      hide UpToDate;
      assert Sighted(sighted, found, obs, o);
      ModbusGrows(Before(found, o), asset, obs, o);
      RowFinished(sighted, asset, found, obs, o);
    }
  }

  method Dnp3Row(found: Option<Asset>, o: Observation) returns (asset: Asset)
    requires o.payload.Dnp3?
    ensures Computes(found, o, asset)
  {
    hide SummarisesLists, SummarisesSightings, SummarisesLatest, Summarises;
    var outstation := if DeviceIsSource(o) then o.payload.linkSource else o.payload.linkDestination;
    var sighted := Sight(found, o, "dnp3");
    asset := sighted;
    if outstation !in asset.dnp3OutstationAddresses {
      asset := asset.(dnp3OutstationAddresses := SortUnique(IntLess, asset.dnp3OutstationAddresses + [outstation]));
    }
    forall obs | UpToDate(found, KeyOf(o), obs)
      ensures asset.key == KeyOf(o) && Summarises(asset, obs + [o])
    {
      hide UpToDate;
      assert Sighted(sighted, found, obs, o);
      Dnp3Grows(Before(found, o), asset, obs, o);
      RowFinished(sighted, asset, found, obs, o);
    }
  }

  method S7Row(found: Option<Asset>, o: Observation) returns (asset: Asset)
    requires o.payload.S7comm?
    ensures Computes(found, o, asset)
  {
    hide SummarisesLists, SummarisesSightings, SummarisesLatest, Summarises;
    var rack, slot, negotiated := o.payload.rack, o.payload.slot, o.payload.negotiatedPduLength;
    var rackSlots := if rack.Some? && slot.Some? then [RackSlot(rack.value, slot.value)] else [];
    var sighted := Sight(found, o, "s7comm");
    asset := sighted;
    if rackSlots != [] && rackSlots[0] !in asset.s7RackSlots {
      asset := asset.(s7RackSlots := asset.s7RackSlots + rackSlots);
    }
    if negotiated.Some? && negotiated.value !in asset.s7PduLengths {
      asset := asset.(s7PduLengths := SortUnique(IntLess, asset.s7PduLengths + [negotiated.value]));
    }
    forall obs | UpToDate(found, KeyOf(o), obs)
      ensures asset.key == KeyOf(o) && Summarises(asset, obs + [o])
    {
      hide UpToDate;
      assert Sighted(sighted, found, obs, o);
      S7Grows(Before(found, o), asset, obs, o);
      RowFinished(sighted, asset, found, obs, o);
    }
  }

  method OpcUaRow(found: Option<Asset>, o: Observation) returns (asset: Asset)
    requires o.payload.OpcUa?
    ensures Computes(found, o, asset)
  {
    hide SummarisesLists, SummarisesSightings, SummarisesLatest, Summarises, AddText;
    var sighted := Sight(found, o, "opcua");
    asset := sighted;
    asset := asset.(opcuaEndpointUrls := AddText(asset.opcuaEndpointUrls, o.payload.endpointUrl));
    asset := asset.(opcuaSecurityPolicies := AddText(asset.opcuaSecurityPolicies, o.payload.securityPolicyUri));
    if o.payload.limits.receive.Some? {
      asset := asset.(latest := asset.latest.(receive := o.payload.limits.receive));
    }
    if o.payload.limits.send.Some? {
      asset := asset.(latest := asset.latest.(send := o.payload.limits.send));
    }
    if o.payload.limits.maxMessage.Some? {
      asset := asset.(latest := asset.latest.(maxMessage := o.payload.limits.maxMessage));
    }
    forall obs | UpToDate(found, KeyOf(o), obs)
      ensures asset.key == KeyOf(o) && Summarises(asset, obs + [o])
    {
      hide UpToDate;
      assert Sighted(sighted, found, obs, o);
      OpcUaGrows(Before(found, o), asset, obs, o);
      RowFinished(sighted, asset, found, obs, o);
    }
  }

  method MmsRow(found: Option<Asset>, o: Observation) returns (asset: Asset)
    requires o.payload.Mms?
    ensures Computes(found, o, asset)
  {
    hide SummarisesLists, SummarisesSightings, SummarisesLatest, Summarises;
    var sighted := Sight(found, o, "iec61850_mms");
    asset := sighted;
    asset := asset.(mmsPduTypes := SortUnique(TextLess, asset.mmsPduTypes + [o.payload.pduType]));
    asset := asset.(mmsObjectReferences := MergeReferences(asset.mmsObjectReferences, o.payload.objectReferences));
    forall obs | UpToDate(found, KeyOf(o), obs)
      ensures asset.key == KeyOf(o) && Summarises(asset, obs + [o])
    {
      hide UpToDate;
      assert Sighted(sighted, found, obs, o);
      MmsGrows(Before(found, o), asset, obs, o);
      RowFinished(sighted, asset, found, obs, o);
    }
  }
}
