/**
  Any number of sessions appending to the audit log at once. A transaction-scoped lock is taken
  before the newest row is read, and held until commit or rollback; row ids come from a sequence
  that a rollback does not give back. Reads see what is committed plus the session's own inserts.
 */
module AuditConcurrency {
  import opened Wrappers
  import opened AuditChain

  datatype Phase =
    | Idle
    | Locked(draft: Record)
    | HasRead(draft: Record, previous: Option<string>)

  datatype Session = Session(pending: seq<Entry>, phase: Phase)

  type Sid = nat

  /** `committed` lists the visible rows in the order in which they became visible. */
  datatype Db = Db(committed: seq<Entry>, nextId: nat, lock: Option<Sid>, sessions: map<Sid, Session>)

  datatype Step =
    | Connect(sid: Sid)
    | Lock(sid: Sid, draft: Record)
    | ReadLast(sid: Sid)
    | Insert(sid: Sid)
    | Commit(sid: Sid)
    | Rollback(sid: Sid)

  ghost predicate Init(d: Db) {
    d.committed == [] && d.lock == None && d.sessions == map[]
  }

  /** `ORDER BY id DESC LIMIT 1`, wherever that row happens to lie. */
  ghost predicate NewestHash(rows: seq<Entry>, previous: Option<string>) {
    if rows == [] then previous == None
    else exists e | e in rows :: previous == Some(e.entryHash) && forall x | x in rows :: x.id <= e.id
  }

  ghost predicate Next(h: Hash, d: Db, d': Db, step: Step) {
    match step
    case Connect(sid) =>
      sid !in d.sessions && d' == d.(sessions := d.sessions[sid := Session([], Idle)])
    case Lock(sid, draft) =>
      && sid in d.sessions && d.sessions[sid].phase == Idle && (d.lock == None || d.lock == Some(sid))
      && d' == d.(lock := Some(sid), sessions := d.sessions[sid := d.sessions[sid].(phase := Locked(draft))])
    case ReadLast(sid) =>
      && sid in d.sessions && d.sessions[sid].phase.Locked?
      && exists previous ::
           && NewestHash(d.committed + d.sessions[sid].pending, previous)
           && d' == d.(sessions := d.sessions[sid :=
                       d.sessions[sid].(phase := HasRead(d.sessions[sid].phase.draft, previous))])
    case Insert(sid) =>
      && sid in d.sessions && d.sessions[sid].phase.HasRead?
      && var record := d.sessions[sid].phase.draft.(previousHash := d.sessions[sid].phase.previous);
         var row := Entry(d.nextId, record, h(record));
         d' == d.(nextId := d.nextId + 1, sessions := d.sessions[sid := Session(d.sessions[sid].pending + [row], Idle)])
    case Commit(sid) =>
      && sid in d.sessions && d.sessions[sid].phase == Idle
      && d' == d.(committed := d.committed + d.sessions[sid].pending, lock := Released(d.lock, sid),
                  sessions := d.sessions[sid := Session([], Idle)])
    case Rollback(sid) =>
      && sid in d.sessions
      && d' == d.(lock := Released(d.lock, sid), sessions := d.sessions[sid := Session([], Idle)])
  }

  function Released(lock: Option<Sid>, sid: Sid): Option<Sid> {
    if lock == Some(sid) then None else lock
  }

  // ---- The invariant ----

  /** A chain with strictly increasing ids, all below the sequence. */
  ghost predicate Grown(h: Hash, rows: seq<Entry>, nextId: nat) {
    && Chained(h, rows)
    && (forall i, j | 0 <= i < j < |rows| :: rows[i].id < rows[j].id)
    && (forall i | 0 <= i < |rows| :: rows[i].id < nextId)
  }

  ghost predicate SessionInv(h: Hash, d: Db, sid: Sid)
    requires sid in d.sessions
  {
    var s := d.sessions[sid];
    && (s.phase != Idle || s.pending != [] ==> d.lock == Some(sid))
    && Grown(h, d.committed + s.pending, d.nextId)
    && (s.phase.HasRead? ==> s.phase.previous == HashBefore(d.committed + s.pending, |d.committed + s.pending|))
  }

  ghost predicate Inv(h: Hash, d: Db) {
    Grown(h, d.committed, d.nextId) && forall sid | sid in d.sessions :: SessionInv(h, d, sid)
  }

  /** In a grown log the row with the highest id is the last one. */
  lemma NewestIsLast(h: Hash, rows: seq<Entry>, nextId: nat, previous: Option<string>)
    requires Grown(h, rows, nextId) && NewestHash(rows, previous)
    ensures previous == HashBefore(rows, |rows|)
  {
    hide Chained;
    if rows != [] {
      var e :| e in rows && previous == Some(e.entryHash) && forall x | x in rows :: x.id <= e.id;
      var k :| 0 <= k < |rows| && rows[k] == e;
      var last := rows[|rows| - 1];
      assert last in rows && last.id <= e.id;
    }
  }

  lemma GrownExtends(h: Hash, rows: seq<Entry>, nextId: nat, record: Record)
    requires Grown(h, rows, nextId) && record.previousHash == HashBefore(rows, |rows|)
    ensures Grown(h, rows + [Entry(nextId, record, h(record))], nextId + 1)
  {
    ChainExtends(h, rows, Entry(nextId, record, h(record)));
  }

  lemma GrownLater(h: Hash, rows: seq<Entry>, nextId: nat)
    requires Grown(h, rows, nextId)
    ensures Grown(h, rows, nextId + 1)
  {
  }

  /** The inserting session: its pending rows are one longer and still continue the chain. */
  lemma InsertExtends(h: Hash, d: Db, sid: Sid)
    requires Inv(h, d) && sid in d.sessions && d.sessions[sid].phase.HasRead?
    ensures var s := d.sessions[sid];
            var record := s.phase.draft.(previousHash := s.phase.previous);
            Grown(h, d.committed + (s.pending + [Entry(d.nextId, record, h(record))]), d.nextId + 1)
  {
    var s := d.sessions[sid];
    assert SessionInv(h, d, sid);
    var record := s.phase.draft.(previousHash := s.phase.previous);
    var row := Entry(d.nextId, record, h(record));
    hide Grown;
    GrownExtends(h, d.committed + s.pending, d.nextId, record);
    assert d.committed + (s.pending + [row]) == d.committed + s.pending + [row];
  }

  lemma InsertKeepsInv(h: Hash, d: Db, d': Db, sid: Sid)
    requires Inv(h, d) && Next(h, d, d', Insert(sid))
    ensures Inv(h, d')
  {
    InsertExtends(h, d, sid);
    assert SessionInv(h, d, sid);
    hide Grown, HashBefore;
    GrownLater(h, d.committed, d.nextId);
    forall other | other in d'.sessions
      ensures SessionInv(h, d', other)
    {
      if other != sid {
        assert SessionInv(h, d, other);
        assert d'.sessions[other] == d.sessions[other];
        GrownLater(h, d.committed + d.sessions[other].pending, d.nextId);
      }
    }
  }

  lemma CommitKeepsInv(h: Hash, d: Db, d': Db, sid: Sid)
    requires Inv(h, d) && Next(h, d, d', Commit(sid))
    ensures Inv(h, d')
  {
    var pending := d.sessions[sid].pending;
    assert SessionInv(h, d, sid);
    assert d'.committed + [] == d'.committed;
    hide Grown, HashBefore;
    if pending == [] {
      assert d.committed + pending == d.committed;
    }
    forall other | other in d'.sessions
      ensures SessionInv(h, d', other)
    {
      assert SessionInv(h, d, other);
    }
  }

  lemma ReadKeepsInv(h: Hash, d: Db, d': Db, sid: Sid)
    requires Inv(h, d) && Next(h, d, d', ReadLast(sid))
    ensures Inv(h, d')
  {
    assert SessionInv(h, d, sid);
    var rows := d.committed + d.sessions[sid].pending;
    NewestIsLast(h, rows, d.nextId, d'.sessions[sid].phase.previous);
    hide Grown, HashBefore, NewestHash;
    forall other | other in d'.sessions
      ensures SessionInv(h, d', other)
    {
      assert SessionInv(h, d, other);
    }
  }

  /** Connecting, locking and rolling back: no session's rows grow. */
  lemma OtherStepKeepsInv(h: Hash, d: Db, d': Db, step: Step)
    requires Inv(h, d) && Next(h, d, d', step) && (step.Connect? || step.Lock? || step.Rollback?)
    ensures Inv(h, d')
  {
    assert d.committed + [] == d.committed;
    hide Grown, HashBefore;
    forall other | other in d'.sessions
      ensures SessionInv(h, d', other)
    {
      if other in d.sessions {
        assert SessionInv(h, d, other);
      }
    }
  }

  lemma StepKeepsInv(h: Hash, d: Db, d': Db, step: Step)
    requires Inv(h, d) && Next(h, d, d', step)
    ensures Inv(h, d')
  {
    hide Inv, Next;
    match step
    case Insert(sid) => InsertKeepsInv(h, d, d', sid);
    case Commit(sid) => CommitKeepsInv(h, d, d', sid);
    case ReadLast(sid) => ReadKeepsInv(h, d, d', sid);
    case _ => OtherStepKeepsInv(h, d, d', step);
  }

  // ---- Whole runs ----

  ghost predicate IsRun(h: Hash, run: seq<Db>) {
    && run != [] && Init(run[0])
    && forall i | 0 <= i < |run| - 1 :: Moves(h, run[i], run[i + 1])
  }

  ghost predicate Moves(h: Hash, d: Db, d': Db) {
    exists step :: Next(h, d, d', step)
  }

  lemma MoveKeepsInv(h: Hash, d: Db, d': Db)
    requires Inv(h, d) && Moves(h, d, d')
    ensures Inv(h, d')
  {
    hide Inv;
    var step :| Next(h, d, d', step);
    StepKeepsInv(h, d, d', step);
  }

  lemma MoveGrows(h: Hash, d: Db, d': Db)
    requires Moves(h, d, d')
    ensures d.committed <= d'.committed
  {
  }

  lemma {:induction false} RunKeepsInv(h: Hash, run: seq<Db>, i: nat)
    requires IsRun(h, run) && i < |run|
    ensures Inv(h, run[i])
  {
    if i != 0 {
      hide Moves;
      RunKeepsInv(h, run, i - 1);
      assert Moves(h, run[i - 1], run[i - 1 + 1]);
      MoveKeepsInv(h, run[i - 1], run[i]);
    }
  }

  /** A listing of the committed rows by ascending id, as an auditor fetches it. */
  ghost predicate ListedById(rows: seq<Entry>, log: seq<Entry>) {
    multiset(log) == multiset(rows) && forall i, j | 0 <= i < j < |log| :: log[i].id <= log[j].id
  }

  predicate StrictlyById(rows: seq<Entry>) {
    forall i, j | 0 <= i < j < |rows| :: rows[i].id < rows[j].id
  }

  lemma LastOfMultiset(s: seq<Entry>)
    requires s != []
    ensures multiset(s[..|s| - 1]) == multiset(s) - multiset{s[|s| - 1]}
  {
    assert s == s[..|s| - 1] + [s[|s| - 1]];
  }

  lemma LastsAgree(rows: seq<Entry>, log: seq<Entry>)
    requires StrictlyById(rows) && ListedById(rows, log) && rows != [] && log != []
    ensures log[|log| - 1] == rows[|rows| - 1]
  {
    var r, l := rows[|rows| - 1], log[|log| - 1];
    assert l in multiset(log) && r in multiset(rows);
    var i :| 0 <= i < |rows| && rows[i] == l;
    var j :| 0 <= j < |log| && log[j] == r;
  }

  lemma {:induction false} ListingUnique(rows: seq<Entry>, log: seq<Entry>)
    requires StrictlyById(rows) && ListedById(rows, log)
    ensures log == rows
    decreases |rows|
  {
    assert |log| == |multiset(log)| == |multiset(rows)| == |rows|;
    if rows != [] {
      LastsAgree(rows, log);
      FrontsListed(rows, log);
      hide ListedById, StrictlyById;
      ListingUnique(rows[..|rows| - 1], log[..|log| - 1]);
      assert rows == rows[..|rows| - 1] + [rows[|rows| - 1]];
      assert log == log[..|log| - 1] + [log[|log| - 1]];
    }
  }

  lemma FrontsListed(rows: seq<Entry>, log: seq<Entry>)
    requires StrictlyById(rows) && ListedById(rows, log) && |rows| == |log| != 0
    requires log[|log| - 1] == rows[|rows| - 1]
    ensures StrictlyById(rows[..|rows| - 1]) && ListedById(rows[..|rows| - 1], log[..|log| - 1])
  {
    LastOfMultiset(rows);
    LastOfMultiset(log);
  }

  /**
    Concurrent appends never fork the chain: at every moment of every run, the committed rows
    listed by id pass verification.
   */
  lemma CommittedLogVerifies(h: Hash, run: seq<Db>, i: nat, log: seq<Entry>)
    requires IsRun(h, run) && i < |run| && ListedById(run[i].committed, log)
    ensures Chained(h, log)
  {
    RunKeepsInv(h, run, i);
    ListingUnique(run[i].committed, log);
  }

  /** History is only ever added to: every earlier committed log is a prefix of every later one. */
  lemma {:induction false} CommittedLogGrows(h: Hash, run: seq<Db>, i: nat, j: nat)
    requires IsRun(h, run) && i <= j < |run|
    ensures run[i].committed <= run[j].committed
    decreases j
  {
    if i < j {
      hide Moves;
      CommittedLogGrows(h, run, i, j - 1);
      assert Moves(h, run[j - 1], run[j - 1 + 1]);
      MoveGrows(h, run[j - 1], run[j]);
    }
  }
}
