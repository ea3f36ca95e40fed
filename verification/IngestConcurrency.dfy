/**
  Any number of ingest handlers at once. A handler serialises on its event id, looks the event up,
  serialises on the site and address of its asset, reads the asset row and writes row and observation
  in one commit; it may roll back at any time. Reads see what is committed.
 */
module IngestConcurrency {
  import opened Wrappers
  import opened Ordering
  import opened Ingestion

  type Sid = nat

  datatype Phase =
    | Started(o: Observation)
    | EventLocked(o: Observation)
    | Unrecorded(o: Observation)
    | KeyLocked(o: Observation)
    | HasRead(o: Observation, found: Option<Asset>)
    | Written(o: Observation, row: Asset)

  datatype Db = Db(
    assets: seq<Asset>,
    observations: seq<Observation>,
    eventLocks: map<string, Sid>,
    keyLocks: map<Key, Sid>,
    sessions: map<Sid, Phase>)

  datatype Step =
    | Begin(sid: Sid, o: Observation)
    | LockEvent(sid: Sid)
    | LookUp(sid: Sid)
    | LockKey(sid: Sid)
    | Read(sid: Sid)
    | Write(sid: Sid, row: Asset)
    | Commit(sid: Sid)
    | Rollback(sid: Sid)

  ghost predicate Init(d: Db) {
    d == Db([], [], map[], map[], map[])
  }

  /** A transaction ends and with it its locks. */
  function Ended(d: Db, sid: Sid): Db {
    d.(eventLocks := map id | id in d.eventLocks && d.eventLocks[id] != sid :: d.eventLocks[id],
       keyLocks := map k | k in d.keyLocks && d.keyLocks[k] != sid :: d.keyLocks[k],
       sessions := d.sessions - {sid})
  }

  /** `SELECT ... WHERE site_id = ... AND ip_address = ...` over the committed rows. */
  ghost predicate Finds(assets: seq<Asset>, key: Key, found: Option<Asset>) {
    match found
    case None => !HasRow(assets, key)
    case Some(row) => row.key == key && row in assets
  }

  /** Where a row goes: over the one with its key, or behind the others. */
  ghost predicate GoesTo(assets: seq<Asset>, key: Key, i: nat) {
    i <= |assets| && if i < |assets| then assets[i].key == key else !HasRow(assets, key)
  }

  ghost predicate Next(d: Db, d': Db, step: Step) {
    match step
    case Begin(sid, o) =>
      sid !in d.sessions && d' == d.(sessions := d.sessions[sid := Started(o)])
    case LockEvent(sid) =>   // an event without an id takes no lock
      && sid in d.sessions && d.sessions[sid].Started?
      && var o := d.sessions[sid].o;
         && (o.eventId.Some? ==> o.eventId.value !in d.eventLocks)
         && d' == d.(sessions := d.sessions[sid := EventLocked(o)],
                     eventLocks := if o.eventId.Some? then d.eventLocks[o.eventId.value := sid] else d.eventLocks)
    case LookUp(sid) =>
      && sid in d.sessions && d.sessions[sid].EventLocked?
      && var o := d.sessions[sid].o;
         d' == if Recorded(d.observations, o.eventId) then Ended(d, sid) else d.(sessions := d.sessions[sid := Unrecorded(o)])
    case LockKey(sid) =>
      && sid in d.sessions && d.sessions[sid].Unrecorded?
      && var o := d.sessions[sid].o;
         KeyOf(o) !in d.keyLocks &&
         d' == d.(sessions := d.sessions[sid := KeyLocked(o)], keyLocks := d.keyLocks[KeyOf(o) := sid])
    case Read(sid) =>
      && sid in d.sessions && d.sessions[sid].KeyLocked?
      && exists found :: Finds(d.assets, KeyOf(d.sessions[sid].o), found)
                         && d' == d.(sessions := d.sessions[sid := HasRead(d.sessions[sid].o, found)])
    case Write(sid, row) =>
      && sid in d.sessions && d.sessions[sid].HasRead?
      && Computes(d.sessions[sid].found, d.sessions[sid].o, row)
      && d' == d.(sessions := d.sessions[sid := Written(d.sessions[sid].o, row)])
    case Commit(sid) =>
      && sid in d.sessions && d.sessions[sid].Written?
      && exists i: nat :: CommitAt(d, d', sid, i)
    case Rollback(sid) =>
      sid in d.sessions && d' == Ended(d, sid)
  }

  ghost predicate CommitAt(d: Db, d': Db, sid: Sid, i: nat)
    requires sid in d.sessions && d.sessions[sid].Written?
  {
    var o, row := d.sessions[sid].o, d.sessions[sid].row;
    && GoesTo(d.assets, KeyOf(o), i)
    && d' == Ended(d, sid).(assets := Stored(d.assets, i, row), observations := d.observations + [o])
  }

  // ---- The invariant ----

  predicate HoldsEvent(p: Phase) {
    !p.Started?
  }

  predicate HoldsKey(p: Phase) {
    p.KeyLocked? || p.HasRead? || p.Written?
  }

  /** What a handler knows is still so, because it holds the locks. */
  ghost predicate Current(assets: seq<Asset>, obs: seq<Observation>, p: Phase) {
    && (!p.Started? && !p.EventLocked? ==> !Recorded(obs, p.o.eventId))
    && (p.HasRead? ==> UpToDate(p.found, KeyOf(p.o), Of(obs, KeyOf(p.o))))
    && (p.Written? ==> p.row.key == KeyOf(p.o) && Summarises(p.row, Of(obs, KeyOf(p.o)) + [p.o]))
  }

  predicate Locked(d: Db, sid: Sid, p: Phase) {
    && (HoldsEvent(p) && p.o.eventId.Some? ==> p.o.eventId.value in d.eventLocks && d.eventLocks[p.o.eventId.value] == sid)
    && (HoldsKey(p) ==> KeyOf(p.o) in d.keyLocks && d.keyLocks[KeyOf(p.o)] == sid)
  }

  ghost predicate Inv(d: Db) {
    && ValidTables(d.assets, d.observations)
    && forall sid | sid in d.sessions :: Locked(d, sid, d.sessions[sid]) && Current(d.assets, d.observations, d.sessions[sid])
  }

  // ---- Steps keep the invariant ----

  lemma EndedKeepsLocks(d: Db, sid: Sid, other: Sid)
    requires other in d.sessions && other != sid && Locked(d, other, d.sessions[other])
    ensures other in Ended(d, sid).sessions && Ended(d, sid).sessions[other] == d.sessions[other]
    ensures Locked(Ended(d, sid), other, d.sessions[other])
  {
    hide KeyOf;
  }

  lemma EndedKeepsInv(d: Db, sid: Sid)
    requires Inv(d)
    ensures Inv(Ended(d, sid))
  {
    hide ValidTables, Current, Locked;
    var d' := Ended(d, sid);
    forall other | other in d'.sessions
      ensures Locked(d', other, d'.sessions[other]) && Current(d'.assets, d'.observations, d'.sessions[other])
    {
      EndedKeepsLocks(d, sid, other);
    }
  }

  /** A lock of its own, and no table touched: the other sessions see no difference. */
  lemma MoveKeepsInv(d: Db, d': Db, sid: Sid, p: Phase)
    requires Inv(d) && d'.assets == d.assets && d'.observations == d.observations && d'.sessions == d.sessions[sid := p]
    requires forall id | id in d.eventLocks :: id in d'.eventLocks && d'.eventLocks[id] == d.eventLocks[id]
    requires forall k | k in d.keyLocks :: k in d'.keyLocks && d'.keyLocks[k] == d.keyLocks[k]
    requires Locked(d', sid, p) && Current(d.assets, d.observations, p)
    ensures Inv(d')
  {
    hide ValidTables, Current, KeyOf;
    forall other | other in d'.sessions
      ensures Locked(d', other, d'.sessions[other]) && Current(d'.assets, d'.observations, d'.sessions[other])
    {
      if other != sid {
        assert Locked(d, other, d.sessions[other]);
      }
    }
  }

  lemma FoundRowIsUpToDate(assets: seq<Asset>, obs: seq<Observation>, key: Key, found: Option<Asset>)
    requires ValidTables(assets, obs) && Finds(assets, key, found)
    ensures UpToDate(found, key, Of(obs, key))
  {
    hide Summarises;
    if found.None? {
      OfUnknown(assets, obs, key);
    }
  }

  lemma WrittenIsCurrent(obs: seq<Observation>, found: Option<Asset>, o: Observation, row: Asset)
    requires UpToDate(found, KeyOf(o), Of(obs, KeyOf(o))) && Computes(found, o, row)
    ensures row.key == KeyOf(o) && Summarises(row, Of(obs, KeyOf(o)) + [o])
  {
    hide UpToDate, Summarises;
  }

  /** A handler that holds other locks than the one that commits knows nothing that the commit changes. */
  lemma OthersStayCurrent(assets: seq<Asset>, obs: seq<Observation>, o: Observation, i: nat, row: Asset, p: Phase)
    requires GoesTo(assets, KeyOf(o), i) && Current(assets, obs, p)
    requires !p.Started? && p.o.eventId.Some? ==> p.o.eventId != o.eventId
    requires HoldsKey(p) ==> KeyOf(p.o) != KeyOf(o)
    ensures Current(Stored(assets, i, row), obs + [o], p)
  {
    hide Summarises, UpToDate, KeyOf;
    OfGrows(obs, o, KeyOf(p.o));
    if !p.Started? && !p.EventLocked? {
      StillUnrecorded(obs, o, p.o.eventId);
    }
    hide Of, Recorded;
  }

  lemma StillUnrecorded(obs: seq<Observation>, o: Observation, id: Option<string>)
    requires id.Some? ==> id != o.eventId
    ensures Recorded(obs + [o], id) <==> Recorded(obs, id)
  {
    var more := obs + [o];
    assert more[|obs|] == o;
    assert forall k | 0 <= k < |obs| :: more[k] == obs[k];
  }

  lemma CommitKeepsInv(d: Db, d': Db, sid: Sid, i: nat)
    requires Inv(d) && sid in d.sessions && d.sessions[sid].Written? && CommitAt(d, d', sid, i)
    ensures Inv(d')
  {
    var o, row := d.sessions[sid].o, d.sessions[sid].row;
    assert Locked(d, sid, d.sessions[sid]) && Current(d.assets, d.observations, d.sessions[sid]);
    StoreKeepsValid(d.assets, d.observations, o, i, row);
    hide ValidTables, KeyOf, Summarises, UpToDate, Recorded, GoesTo, Stored;
    forall other | other in d'.sessions
      ensures Locked(d', other, d'.sessions[other]) && Current(d'.assets, d'.observations, d'.sessions[other])
    {
      assert Locked(d, other, d.sessions[other]) && Current(d.assets, d.observations, d.sessions[other]);
      EndedKeepsLocks(d, sid, other);
      OthersStayCurrent(d.assets, d.observations, o, i, row, d.sessions[other]);
    }
  }

  lemma StepKeepsInv(d: Db, d': Db, step: Step)
    requires Inv(d) && Next(d, d', step)
    ensures Inv(d')
  {
    hide ValidTables, KeyOf, Summarises, UpToDate, Recorded, GoesTo, Stored, Computes, Finds, Of, Ended;
    match step
    case Begin(sid, o) =>
      MoveKeepsInv(d, d', sid, Started(o));
    case LockEvent(sid) =>
      MoveKeepsInv(d, d', sid, EventLocked(d.sessions[sid].o));
    case LookUp(sid) =>
      if Recorded(d.observations, d.sessions[sid].o.eventId) {
        EndedKeepsInv(d, sid);
      } else {
        assert Locked(d, sid, d.sessions[sid]);
        MoveKeepsInv(d, d', sid, Unrecorded(d.sessions[sid].o));
      }
    case LockKey(sid) =>
      assert Locked(d, sid, d.sessions[sid]) && Current(d.assets, d.observations, d.sessions[sid]);
      MoveKeepsInv(d, d', sid, KeyLocked(d.sessions[sid].o));
    case Read(sid) =>
      assert Locked(d, sid, d.sessions[sid]) && Current(d.assets, d.observations, d.sessions[sid]);
      var found :| Finds(d.assets, KeyOf(d.sessions[sid].o), found)
                   && d' == d.(sessions := d.sessions[sid := HasRead(d.sessions[sid].o, found)]);
      FoundRowIsUpToDate(d.assets, d.observations, KeyOf(d.sessions[sid].o), found);
      MoveKeepsInv(d, d', sid, HasRead(d.sessions[sid].o, found));
    case Write(sid, row) =>
      assert Locked(d, sid, d.sessions[sid]) && Current(d.assets, d.observations, d.sessions[sid]);
      WrittenIsCurrent(d.observations, d.sessions[sid].found, d.sessions[sid].o, row);
      MoveKeepsInv(d, d', sid, Written(d.sessions[sid].o, row));
    case Commit(sid) =>
      var i: nat :| CommitAt(d, d', sid, i);
      CommitKeepsInv(d, d', sid, i);
    case Rollback(sid) =>
      EndedKeepsInv(d, sid);
  }

  // ---- Whole runs ----

  ghost predicate Moves(d: Db, d': Db) {
    exists step :: Next(d, d', step)
  }

  ghost predicate IsRun(run: seq<Db>) {
    run != [] && Init(run[0]) && forall i | 0 <= i < |run| - 1 :: Moves(run[i], run[i + 1])
  }

  lemma InitInv(d: Db)
    requires Init(d)
    ensures Inv(d)
  {
  }

  lemma {:induction false} RunKeepsInv(run: seq<Db>, i: nat)
    requires IsRun(run) && i < |run|
    ensures Inv(run[i])
  {
    hide Inv, Next;
    if i == 0 {
      InitInv(run[0]);
    } else {
      RunKeepsInv(run, i - 1);
      assert Moves(run[i - 1], run[i - 1 + 1]);
      var step :| Next(run[i - 1], run[i], step);
      StepKeepsInv(run[i - 1], run[i], step);
    }
  }

  /**
    At every moment of every run of any number of handlers: one row per site and address, each row the
    exact summary of the committed observations of its asset, and one observation per event id.
   */
  lemma TablesAlwaysAgree(run: seq<Db>, i: nat)
    requires IsRun(run) && i < |run|
    ensures ValidTables(run[i].assets, run[i].observations)
  {
    RunKeepsInv(run, i);
    hide ValidTables;
  }
}
