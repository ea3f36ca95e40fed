/**
  Locks of concurrent ingestion handlers and firmware-baseline requests. Every transaction takes an
  event key, then a site/address key, then an asset row, then the audit lock, leaving some out; all
  are held until it ends. Advisory keys are taken to be distinct when their names are.
 */
module LockOrder {
  import opened Wrappers

  datatype Key = Key(site: string, ip: string)

  datatype Lock = EventKey(id: string) | SiteKey(key: Key) | AssetRow(key: Key) | AuditLock

  /** What a request is, and how its branches turn out. */
  datatype Request =
    | Ingest(eventId: Option<string>, replay: bool, key: Key, assetExists: bool, driftAudited: bool)
    | FirmwareBaseline(key: Key, assetExists: bool, valid: bool)

  function Rank(l: Lock): nat {
    match l
    case EventKey(_) => 0
    case SiteKey(_) => 1
    case AssetRow(_) => 2
    case AuditLock => 3
  }

  /** The locks in the order in which the request's code asks for them. */
  function LocksOf(r: Request): seq<Lock> {
    match r
    case Ingest(eventId, replay, key, assetExists, driftAudited) =>
      (if eventId.Some? then [EventKey(eventId.value)] else []) +
      (if eventId.Some? && replay then []
       else [SiteKey(key)] + (if assetExists then [AssetRow(key)] else []) +
            (if driftAudited then [AuditLock] else []) + [AuditLock])
    case FirmwareBaseline(key, assetExists, valid) =>
      if !assetExists then [] else [AssetRow(key)] + (if valid then [AuditLock] else [])
  }

  /** Ranks never go down, and the same rank twice means the same lock twice. */
  predicate InOrder(locks: seq<Lock>) {
    forall i, j | 0 <= i < j < |locks| ::
      Rank(locks[i]) < Rank(locks[j]) || locks[i] == locks[j]
  }

  lemma RequestsLockInOrder(r: Request)
    ensures InOrder(LocksOf(r))
  {
  }

  /** What a request locks, whatever the order: a replay stops at the event key, a refused baseline at the row. */
  lemma RequestsLock(eventId: Option<string>, replay: bool, key: Key, assetExists: bool, driftAudited: bool, valid: bool, id: string, other: Key)
    ensures var locks := LocksOf(Ingest(eventId, replay, key, assetExists, driftAudited));
            && (EventKey(id) in locks <==> eventId == Some(id))
            && (SiteKey(other) in locks <==> other == key && (eventId == None || !replay))
            && (AssetRow(other) in locks <==> other == key && assetExists && (eventId == None || !replay))
            && (AuditLock in locks <==> eventId == None || !replay)
    ensures var locks := LocksOf(FirmwareBaseline(key, assetExists, valid));
            && EventKey(id) !in locks && SiteKey(other) !in locks
            && (AssetRow(other) in locks <==> other == key && assetExists)
            && (AuditLock in locks <==> assetExists && valid)
  {
  }

  // ---- Sessions ----

  type Sid = nat

  /** Who holds what, and what each open transaction has yet to ask for. */
  datatype State = State(holder: map<Lock, Sid>, wanted: map<Sid, seq<Lock>>)

  datatype Step = Begin(sid: Sid, request: Request) | Acquire(sid: Sid) | End(sid: Sid)

  /** The first lock a session still wants is free, or already its own. */
  predicate MayAcquire(s: State, sid: Sid) {
    && sid in s.wanted && s.wanted[sid] != []
    && (s.wanted[sid][0] !in s.holder || s.holder[s.wanted[sid][0]] == sid)
  }

  /** A transaction may end at any time, by commit, by rollback or by losing its connection. */
  ghost predicate Next(s: State, s': State, step: Step) {
    match step
    case Begin(sid, request) => sid !in s.wanted && s' == s.(wanted := s.wanted[sid := LocksOf(request)])
    case Acquire(sid) =>
      && MayAcquire(s, sid)
      && s' == State(s.holder[s.wanted[sid][0] := sid], s.wanted[sid := s.wanted[sid][1..]])
    case End(sid) =>
      && sid in s.wanted
      && s' == State(map l | l in s.holder && s.holder[l] != sid :: s.holder[l], s.wanted - {sid})
  }

  ghost predicate Inv(s: State) {
    && (forall l | l in s.holder :: s.holder[l] in s.wanted)
    && (forall sid | sid in s.wanted :: InOrder(s.wanted[sid]))
    && forall l | l in s.holder :: forall k | 0 <= k < |s.wanted[s.holder[l]]| ::
         Rank(l) < Rank(s.wanted[s.holder[l]][k]) || l == s.wanted[s.holder[l]][k]
  }

  lemma StepKeepsInv(s: State, s': State, step: Step)
    requires Inv(s) && Next(s, s', step)
    ensures Inv(s')
  {
    match step
    case Begin(sid, request) => RequestsLockInOrder(request);
    case Acquire(sid) => AcquireKeepsInv(s, s', sid);
    case End(sid) =>
  }

  lemma AcquireKeepsInv(s: State, s': State, sid: Sid)
    requires Inv(s) && Next(s, s', Acquire(sid))
    ensures Inv(s')
  {
    var wanted, rest, lock := s.wanted[sid], s.wanted[sid][1..], s.wanted[sid][0];
    assert forall k | 0 <= k < |rest| :: rest[k] == wanted[k + 1];
    assert InOrder(rest);
    forall l, k | l in s'.holder && 0 <= k < |s'.wanted[s'.holder[l]]|
      ensures Rank(l) < Rank(s'.wanted[s'.holder[l]][k]) || l == s'.wanted[s'.holder[l]][k]
    {
      if s'.holder[l] == sid {
        if l == lock {
          assert wanted[0] == lock && wanted[k + 1] == rest[k];
        } else {
          assert l in s.holder && s.holder[l] == sid && wanted[k + 1] == rest[k];
        }
      }
    }
  }

  ghost predicate Moves(s: State, s': State) {
    exists step :: Next(s, s', step)
  }

  ghost predicate IsRun(run: seq<State>) {
    && run != [] && run[0] == State(map[], map[])
    && forall i | 0 <= i < |run| - 1 :: Moves(run[i], run[i + 1])
  }

  lemma {:induction false} RunKeepsInv(run: seq<State>, i: nat)
    requires IsRun(run) && i < |run|
    ensures Inv(run[i])
  {
    if i != 0 {
      RunKeepsInv(run, i - 1);
      assert Moves(run[i - 1], run[i - 1 + 1]);
      var step :| Next(run[i - 1], run[i], step);
      hide Inv, Next;
      StepKeepsInv(run[i - 1], run[i], step);
    }
  }

  // ---- No deadlock ----

  predicate WaitsFor(s: State, a: Sid, b: Sid) {
    && a in s.wanted && s.wanted[a] != [] && a != b
    && s.wanted[a][0] in s.holder && s.holder[s.wanted[a][0]] == b
  }

  /** A session waits for someone who, if waiting at all, waits for a lock of higher rank. */
  lemma WaitingRaisesRank(s: State, a: Sid, b: Sid)
    requires Inv(s) && WaitsFor(s, a, b)
    requires s.wanted[b] != [] && !MayAcquire(s, b)
    ensures Rank(s.wanted[a][0]) < Rank(s.wanted[b][0])
  {
    assert s.wanted[b][0] in s.wanted[b];
  }

  /** `c` is a closed chain of sessions, each waiting for the next. */
  predicate WaitCycle(s: State, c: seq<Sid>) {
    && c != [] && c[|c| - 1] == c[0] && |c| > 1
    && forall k | 0 <= k < |c| - 1 :: WaitsFor(s, c[k], c[k + 1])
  }

  lemma {:induction false} RanksRiseAlong(s: State, c: seq<Sid>, k: nat)
    requires Inv(s) && WaitCycle(s, c) && 0 < k < |c|
    ensures c[0] in s.wanted && s.wanted[c[0]] != [] && c[k] in s.wanted && s.wanted[c[k]] != []
    ensures Rank(s.wanted[c[0]][0]) < Rank(s.wanted[c[k]][0])
  {
    assert WaitsFor(s, c[0], c[0 + 1]) && WaitsFor(s, c[k - 1], c[k - 1 + 1]);
    if k == |c| - 1 {
      assert WaitsFor(s, c[0], c[0 + 1]);
    } else {
      assert WaitsFor(s, c[k], c[k + 1]);
    }
    var a, b := c[k - 1], c[k];
    assert s.wanted[b] != [] && !MayAcquire(s, b);
    WaitingRaisesRank(s, a, b);
    if k > 1 {
      RanksRiseAlong(s, c, k - 1);
    }
  }

  /** No reachable wait-for graph has a cycle. */
  lemma NoWaitCycle(run: seq<State>, i: nat, c: seq<Sid>)
    requires IsRun(run) && i < |run|
    ensures !WaitCycle(run[i], c)
  {
    RunKeepsInv(run, i);
    if WaitCycle(run[i], c) {
      hide Inv;
      RanksRiseAlong(run[i], c, |c| - 1);
      assert false;
    }
  }

  /** The session whose next lock ranks highest. */
  lemma {:induction false} HighestWaiter(s: State, sids: set<Sid>) returns (top: Sid)
    requires sids != {} && forall sid | sid in sids :: sid in s.wanted && s.wanted[sid] != []
    ensures top in sids
    ensures forall sid | sid in sids :: Rank(s.wanted[sid][0]) <= Rank(s.wanted[top][0])
    decreases |sids|
  {
    var one :| one in sids;
    var others := sids - {one};
    if others == {} {
      top := one;
      assert forall sid | sid in sids :: sid == one || sid in others;
    } else {
      var best := HighestWaiter(s, others);
      top := if Rank(s.wanted[one][0]) < Rank(s.wanted[best][0]) then best else one;
      forall sid | sid in sids
        ensures Rank(s.wanted[sid][0]) <= Rank(s.wanted[top][0])
      {
        assert sid == one || sid in others;
      }
    }
  }

  /** Progress: while any transaction is open, some transaction has all its locks or can take the next. */
  lemma SomeoneCanMove(run: seq<State>, i: nat) returns (sid: Sid)
    requires IsRun(run) && i < |run| && run[i].wanted != map[]
    ensures sid in run[i].wanted && (run[i].wanted[sid] == [] || MayAcquire(run[i], sid))
  {
    var s := run[i];
    RunKeepsInv(run, i);
    if sid0 :| sid0 in s.wanted && s.wanted[sid0] == [] {
      sid := sid0;
    } else {
      assert s.wanted.Keys != {};
      sid := HighestWaiter(s, s.wanted.Keys);
      if !MayAcquire(s, sid) {
        var b := s.holder[s.wanted[sid][0]];
        if MayAcquire(s, b) {
          sid := b;
        } else {
          WaitingRaisesRank(s, sid, b);
          assert false;
        }
      }
    }
  }
}
