/**
  The ingest handlers over the tables they share: assets, observations, protocol events and audit
  notes. An event may be posted any number of times, and events in any order.
 */
module Handlers {
  import opened Wrappers
  import opened Ordering
  import opened Ingestion
  import opened Devices

  /** The audit entry of an ingested event: `asset.discovered` or `asset.observed`. */
  datatype Note = Note(discovered: bool, key: Key, protocol: string)

  datatype Ingested = Ingested(observation: nat, createdAsset: bool)

  /** The observations that a sequence of posts leaves behind. */
  function Fed(posts: seq<Observation>): seq<Observation> {
    if posts == [] then []
    else
      var last := posts[|posts| - 1];
      var before := Fed(posts[..|posts| - 1]);
      if Recorded(before, last.eventId) then before else before + [last]
  }

  lemma FedOneMore(posts: seq<Observation>, o: Observation)
    ensures Fed(posts + [o]) == if Recorded(Fed(posts), o.eventId) then Fed(posts) else Fed(posts) + [o]
  {
    assert (posts + [o])[..|posts|] == posts;
  }

  /** Each observation has its protocol event. */
  ghost predicate Paired(protocolEvents: seq<nat>, count: nat) {
    forall i: nat :: i in protocolEvents <==> i < count
  }

  class Inventory {
    var assets: seq<Asset>
    var observations: seq<Observation>
    var protocolEvents: seq<nat>   // the observation that each one belongs to
    var audit: seq<Note>
    /** Everything posted so far. */
    ghost var posts: seq<Observation>

    ghost predicate Valid()
      reads this
    {
      && ValidTables(assets, observations)
      && observations == Fed(posts)
      && Paired(protocolEvents, |observations|)
    }

    constructor ()
      ensures Valid() && assets == [] && observations == [] && audit == [] && posts == []
    {
      assets, observations, protocolEvents, audit, posts := [], [], [], [], [];
    }

    /** `SELECT ... WHERE site_id = ... AND ip_address = ...`; the number of rows if there is none. */
    method FindAsset(key: Key) returns (i: nat)
      ensures i <= |assets|
      ensures if i < |assets| then assets[i].key == key else !HasRow(assets, key)
    {
      i := 0;
      while i < |assets|
        invariant i <= |assets| && forall k | 0 <= k < i :: assets[k].key != key
      {
        if assets[i].key == key {
          return;
        }
        i := i + 1;
      }
    }

    /** The result of an event that is already stored; `None` when there is nothing to return. */
    method ExistingIngestResult(id: Option<string>) returns (r: Option<Response<Ingested>>)
      ensures r.None? <==> !Recorded(observations, id)
      ensures r.Some? ==> exists i: nat | i < |observations| && observations[i].eventId == id ::
                            r.value == if i in protocolEvents then Success(Ingested(i, false)) else Refused(409)
    {
      if id.None? {
        return None;
      }
      for i := 0 to |observations|
        invariant forall k | 0 <= k < i :: observations[k].eventId != id
      {
        if observations[i].eventId == id {
          return Some(if i in protocolEvents then Success(Ingested(i, false)) else Refused(409));
        }
      }
      return None;
    }

    /**
      The five ingestion handlers: an event id that is already recorded changes nothing; any other
      event adds one observation with its protocol event and one audit note, and the row of its asset,
      created if need be, stays exact. That row is the one of the end at the protocol's port, for DNP3
      of the end that is not the master. The 409 answer never occurs.
     */
    method Ingest(o: Observation) returns (r: Response<Ingested>)
      requires Valid()
      modifies this
      ensures Valid() && posts == old(posts) + [o]
      ensures r.Success?
      ensures Recorded(old(observations), o.eventId) ==>
                && assets == old(assets) && observations == old(observations) && protocolEvents == old(protocolEvents)
                && audit == old(audit) && !r.value.createdAsset
                && r.value.observation < |observations| && observations[r.value.observation].eventId == o.eventId
      ensures !Recorded(old(observations), o.eventId) ==>
                && r.value == Ingested(|old(observations)|, !HasRow(old(assets), KeyOf(o)))
                && observations == old(observations) + [o] && protocolEvents == old(protocolEvents) + [|old(observations)|]
                && audit == old(audit) + [Note(r.value.createdAsset, KeyOf(o), ProtocolName(o.payload))]
                && (exists i: nat, row: Asset | i <= |old(assets)| :: row.key == KeyOf(o) && assets == Stored(old(assets), i, row) && DeviceRow(old(assets), assets, o, i))
    {
      hide Summarises, ValidTables, Of, DeviceRow;
      FedOneMore(posts, o);
      hide Fed;
      var known := ExistingIngestResult(o.eventId);
      posts := posts + [o];
      if known.Some? {
        return known.value;
      }
      var i := FindAsset(KeyOf(o));
      var createdAsset := i == |assets|;
      var found: Option<Asset> := if i < |assets| then Some(assets[i]) else None;
      ghost var obs := Of(observations, KeyOf(o));
      FoundIsUpToDate(assets, observations, o, i);
      var row: Asset;
      match o.payload {
        case Modbus(_, _) => row := ModbusRow(found, o);
        case Dnp3(_, _, _) => row := Dnp3Row(found, o);
        case S7comm(_, _, _) => row := S7Row(found, o);
        case OpcUa(_, _, _) => row := OpcUaRow(found, o);
        case Mms(_, _) => row := MmsRow(found, o);
      }
      FoundKey(assets, KeyOf(o), i);
      StoreKeepsValid(assets, observations, o, i, row);
      DeviceRowStored(assets, obs, o, i, row);
      assets := if i < |assets| then assets[i := row] else assets + [row];
      r := Success(Ingested(|observations|, createdAsset));
      protocolEvents := protocolEvents + [|observations|];
      observations := observations + [o];
      audit := audit + [Note(createdAsset, KeyOf(o), ProtocolName(o.payload))];
    }
  }

  lemma FoundKey(assets: seq<Asset>, key: Key, i: nat)
    requires i <= |assets| && if i < |assets| then assets[i].key == key else !HasRow(assets, key)
    ensures HasRow(assets, key) <==> i < |assets|
  {
  }

  /** The row that was looked up summarises the observations stored for its asset. */
  lemma FoundIsUpToDate(assets: seq<Asset>, obs: seq<Observation>, o: Observation, i: nat)
    requires ValidTables(assets, obs)
    requires i <= |assets| && if i < |assets| then assets[i].key == KeyOf(o) else !HasRow(assets, KeyOf(o))
    ensures UpToDate(if i < |assets| then Some(assets[i]) else None, KeyOf(o), Of(obs, KeyOf(o)))
  {
    hide Summarises;
    if i == |assets| {
      OfUnknown(assets, obs, KeyOf(o));
    }
  }

  // ---- Order does not matter ----

  /** Equal in everything that is kept in a canonical order; equal as sets in the other two lists. */
  predicate SameSummary(a: Asset, b: Asset) {
    && a.firstSeen == b.firstSeen && a.lastSeen == b.lastSeen
    && Elems(a.protocols) == Elems(b.protocols) && Elems(a.s7RackSlots) == Elems(b.s7RackSlots)
    && a.modbusUnitIds == b.modbusUnitIds && a.dnp3OutstationAddresses == b.dnp3OutstationAddresses
    && a.s7PduLengths == b.s7PduLengths && a.opcuaEndpointUrls == b.opcuaEndpointUrls
    && a.opcuaSecurityPolicies == b.opcuaSecurityPolicies && a.mmsPduTypes == b.mmsPduTypes
    && a.mmsObjectReferences == b.mmsObjectReferences
  }

  /**
    Permuting, regrouping or repeating the observations of an asset leaves its summary unchanged:
    rows that summarise tables with the same members are the same.
   */
  lemma SummaryIsOrderIndependent(a: Asset, b: Asset, obsA: seq<Observation>, obsB: seq<Observation>)
    requires Summarises(a, obsA) && Summarises(b, obsB)
    requires forall o :: o in obsA <==> o in obsB
    ensures SameSummary(a, b)
  {
    IntLessIsTotal();
    TextLessIsTotal();
    hide TextLess, IntLess;
    AscendingUnique(IntLess, a.modbusUnitIds, b.modbusUnitIds);
    AscendingUnique(IntLess, a.dnp3OutstationAddresses, b.dnp3OutstationAddresses);
    AscendingUnique(IntLess, a.s7PduLengths, b.s7PduLengths);
    AscendingUnique(TextLess, a.opcuaEndpointUrls, b.opcuaEndpointUrls);
    AscendingUnique(TextLess, a.opcuaSecurityPolicies, b.opcuaSecurityPolicies);
    AscendingUnique(TextLess, a.mmsPduTypes, b.mmsPduTypes);
    SmallestUnique(TextLess, MAX_REFERENCES, All(References, obsA), a.mmsObjectReferences, b.mmsObjectReferences);
  }

  /** Posts that share an event id carry the same observation. */
  ghost predicate IdsAgree(posts: seq<Observation>) {
    forall o, p | o in posts && p in posts && o.eventId.Some? && o.eventId == p.eventId :: o == p
  }

  /** What was posted is what is stored, repetitions aside. */
  lemma {:induction false} FedHoldsThePosts(posts: seq<Observation>, o: Observation)
    requires IdsAgree(posts)
    ensures o in Fed(posts) <==> o in posts
  {
    if posts != [] {
      var front, last := posts[..|posts| - 1], posts[|posts| - 1];
      assert posts == front + [last];
      assert forall p :: p in posts <==> p in front || p == last;
      FedHoldsThePosts(front, o);
      if Recorded(Fed(front), last.eventId) {
        var p :| p in Fed(front) && p.eventId == last.eventId;
        FedHoldsThePosts(front, p);
        assert p == last;
        FedHoldsThePosts(front, last);
      }
    }
  }

  /**
    Two inventories fed the same events, in any order and with any repetition, hold the same assets,
    as long as an event id stands for one observation.
   */
  lemma InventoriesAgree(assetsA: seq<Asset>, postsA: seq<Observation>, assetsB: seq<Asset>, postsB: seq<Observation>, i: nat)
    returns (j: nat)
    requires ValidTables(assetsA, Fed(postsA)) && ValidTables(assetsB, Fed(postsB)) && i < |assetsA|
    requires IdsAgree(postsA) && forall o :: o in postsA <==> o in postsB
    ensures j < |assetsB| && assetsB[j].key == assetsA[i].key && SameSummary(assetsA[i], assetsB[j])
  {
    forall o: Observation
      ensures o in Fed(postsA) <==> o in Fed(postsB)
    {
      FedHoldsThePosts(postsA, o);
      FedHoldsThePosts(postsB, o);
    }
    hide Fed, SameSummary;
    j := TablesAgree(assetsA, Fed(postsA), assetsB, Fed(postsB), i);
  }

  lemma TablesAgree(assetsA: seq<Asset>, obsA: seq<Observation>, assetsB: seq<Asset>, obsB: seq<Observation>, i: nat)
    returns (j: nat)
    requires ValidTables(assetsA, obsA) && ValidTables(assetsB, obsB) && i < |assetsA|
    requires forall o :: o in obsA <==> o in obsB
    ensures j < |assetsB| && assetsB[j].key == assetsA[i].key && SameSummary(assetsA[i], assetsB[j])
  {
    var key := assetsA[i].key;
    var ofA, ofB := Of(obsA, key), Of(obsB, key);
    assert Summarises(assetsA[i], ofA);
    var some: Observation :| some in ofA;
    OfMembers(obsA, key, some);
    assert HasRow(assetsB, KeyOf(some));
    j :| 0 <= j < |assetsB| && assetsB[j].key == key;
    forall o: Observation
      ensures o in ofA <==> o in ofB
    {
      OfMembers(obsA, key, o);
      OfMembers(obsB, key, o);
    }
    hide Summarises, SameSummary;
    SummaryIsOrderIndependent(assetsA[i], assetsB[j], ofA, ofB);
  }
}
