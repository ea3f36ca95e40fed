/**
  Runs of an outbox: deliveries are queued, time passes, and batches are committed or rolled back.
  A delivery ends once and is logged once, and at most five of its tries are committed. A batch that
  is rolled back has sent its messages all the same, and the table forgets it: those tries are not
  bounded by anything.
 */
module OutboxRuns {
  import opened Wrappers
  import opened Outbox

  /** One try of a delivery: when it was started, when it was over, and whether its batch was committed. */
  datatype Try = Try(start: int, end: int, committed: bool)

  /** `sends` is the history of each delivery: every try, in the order of their transactions. */
  datatype System = System(now: int, rows: seq<Row>, log: seq<Entry>, sends: seq<seq<Try>>)

  // ---- Steps ----

  ghost predicate Init(s: System) {
    s.rows == [] && s.log == [] && s.sends == []
  }

  predicate TimePasses(s: System, s': System) {
    s'.now >= s.now && s' == s.(now := s'.now)
  }

  predicate Enqueue(s: System, s': System) {
    s' == s.(rows := s.rows + [Row(Queued, 0, s.now, None, None)], sends := s.sends + [[]])
  }

  /** Whether a pass over a delivery tries to send it. */
  predicate Tries(outcome: Outcome) {
    outcome.Sent? || outcome.SendError? || (outcome.Crash? && outcome.wentOut)
  }

  /** What a worker meets at each delivery, when it starts on it, and the time it reads there. */
  datatype World = World(outcome: nat -> Outcome, start: nat -> int, clock: nat -> int)

  /** The rows in `handled` were dealt with between `at` and now; their tries become history. */
  ghost predicate Handled(s: System, s': System, at: int, handled: seq<nat>, w: World, committed: bool) {
    && (forall i: nat | i in handled :: at <= w.start(i) <= w.clock(i) <= s.now)
    && |s'.sends| == |s.sends|
    && forall i: nat | i < |s.sends| ::
         s'.sends[i] == if i in handled && Tries(w.outcome(i)) then s.sends[i] + [Try(w.start(i), w.clock(i), committed)] else s.sends[i]
  }

  /**
    A batch, selected at `at`, is committed. The rows it holds are locked from `at` on, so they are
    still what they were.
   */
  ghost predicate Commit(s: System, s': System, at: int, locked: set<nat>, limit: nat, w: World) {
    var sel := Selected(s.rows, at, locked, limit);
    && !Crashes(sel, w.outcome)
    && Handled(s, s', at, sel, w, true)
    && Processed(s.rows, s.log, sel, w.outcome, w.clock, s'.rows, s'.log)
    && s'.now == s.now
  }

  /**
    A batch is rolled back after its first `n` rows: by an exception at the last of them, by a
    commit that fails, or because the worker dies. Table and log stay as they were.
   */
  ghost predicate RolledBack(s: System, s': System, at: int, locked: set<nat>, limit: nat, n: nat, w: World) {
    var sel := Selected(s.rows, at, locked, limit);
    && n <= |sel| && (n > 0 ==> !Crashes(sel[..n - 1], w.outcome))
    && Handled(s, s', at, sel[..n], w, false)
    && s'.rows == s.rows && s'.log == s.log && s'.now == s.now
  }

  ghost predicate Commits(s: System, s': System) {
    exists at, locked, limit, w :: Commit(s, s', at, locked, limit, w)
  }

  ghost predicate RollsBack(s: System, s': System) {
    exists at, locked, limit, n, w :: RolledBack(s, s', at, locked, limit, n, w)
  }

  ghost predicate Next(s: System, s': System) {
    TimePasses(s, s') || Enqueue(s, s') || Commits(s, s') || RollsBack(s, s')
  }

  ghost predicate Run(states: seq<System>) {
    states != [] && Init(states[0]) && forall i | 0 <= i < |states| - 1 :: Next(states[i], states[i + 1])
  }

  // ---- One delivery ----

  /** The tries whose batch was committed. */
  function Kept(sends: seq<Try>): (kept: seq<Try>)
    ensures |kept| <= |sends| && multiset(kept) <= multiset(sends)
  {
    if sends == [] then []
    else
      var last := |sends| - 1;
      assert sends == sends[..last] + [sends[last]];
      Kept(sends[..last]) + if sends[last].committed then [sends[last]] else []
  }

  lemma KeptAppend(sends: seq<Try>, t: Try)
    ensures Kept(sends + [t]) == Kept(sends) + if t.committed then [t] else []
  {
    assert (sends + [t])[..|sends|] == sends;
  }

  /** Each try starts no earlier than the delay after the one before it. */
  predicate Spaced(tries: seq<Try>) {
    && (forall k | 0 <= k < |tries| :: tries[k].start <= tries[k].end)
    && forall k | 1 <= k < |tries| :: tries[k].start >= tries[k - 1].end + Pow2(k - 1) * MINUTE
  }

  /** The log entries of one delivery. */
  function EntriesOf(log: seq<Entry>, delivery: nat): seq<Entry> {
    if log == [] then []
    else
      var last := log[|log| - 1];
      EntriesOf(log[..|log| - 1], delivery) + if last.delivery == delivery then [last] else []
  }

  /** What is true of a delivery and its committed tries at any time. */
  predicate RowInv(id: nat, row: Row, tries: seq<Try>, entries: seq<Entry>, now: int) {
    && |tries| == row.attempts <= MAX_ATTEMPTS
    && Spaced(tries)
    && (tries != [] ==> tries[|tries| - 1].end <= now)
    && entries == Logged(id, row)
    && match row.status
       case Queued => row.attempts == 0
       case Retrying => 1 <= row.attempts < MAX_ATTEMPTS && row.nextAttempt == tries[row.attempts - 1].end + Pow2(row.attempts - 1) * MINUTE
       case Delivered => 1 <= row.attempts && row.deliveredAt == Some(tries[row.attempts - 1].end) && row.lastError == None
       case Failed => true
  }

  ghost predicate Inv(s: System) {
    && |s.sends| == |s.rows|
    && (forall i: nat | i < |s.rows| :: RowInv(i, s.rows[i], Kept(s.sends[i]), EntriesOf(s.log, i), s.now))
    && (forall i: nat | |s.rows| <= i :: EntriesOf(s.log, i) == [])
  }

  /** One committed pass over a due delivery. */
  lemma PassKeepsRow(id: nat, row: Row, tries: seq<Try>, at: int, start: int, end: int, outcome: Outcome, now: int)
    requires RowInv(id, row, tries, [], now) && Due(row, at) && at <= start <= end <= now && !outcome.Crash?
    ensures var row' := Attempted(row, outcome, end);
            RowInv(id, row', if Tries(outcome) then tries + [Try(start, end, true)] else tries, Logged(id, row'), now)
  {
    var tries' := tries + [Try(start, end, true)];
    assert forall k | 0 <= k < |tries| :: tries'[k] == tries[k];
    assert tries'[|tries|] == Try(start, end, true);
  }

  lemma {:induction false} EntriesOfAppend(a: seq<Entry>, b: seq<Entry>, id: nat)
    ensures EntriesOf(a + b, id) == EntriesOf(a, id) + EntriesOf(b, id)
  {
    if b == [] {
      assert a + b == a;
    } else {
      var all, last := a + b, |b| - 1;
      assert all[..|all| - 1] == a + b[..last];
      assert all[|all| - 1] == b[last];
      EntriesOfAppend(a, b[..last], id);
    }
  }

  /** A batch logs each of its deliveries on its own. */
  lemma {:induction false} EntriesOfBatch(rows: seq<Row>, sel: seq<nat>, id: nat)
    requires Increasing(sel) && Within(sel, |rows|)
    ensures EntriesOf(EntriesFor(rows, sel), id) == if id in sel then Logged(id, rows[id]) else []
  {
    if sel != [] {
      var front, last := sel[..|sel| - 1], sel[|sel| - 1];
      assert sel == front + [last];
      EntriesOfBatch(rows, front, id);
      EntriesOfAppend(EntriesFor(rows, front), Logged(last, rows[last]), id);
      assert EntriesOf(Logged(last, rows[last]), id) == if id == last then Logged(last, rows[last]) else [] by {
        LoggedIsOwn(last, rows[last], id);
      }
      assert last !in front;
    }
  }

  lemma LoggedIsOwn(delivery: nat, row: Row, id: nat)
    ensures EntriesOf(Logged(delivery, row), id) == if id == delivery then Logged(delivery, row) else []
  {
    if !Pending(row) {
      var e := Entry(delivery, row.status == Delivered, row.attempts);
      assert [e][..0] == [];
      assert EntriesOf([e], id) == EntriesOf([], id) + if delivery == id then [e] else [];
    }
  }

  // ---- Steps keep the invariant ----

  lemma TimeKeepsInv(s: System, s': System)
    requires Inv(s) && TimePasses(s, s')
    ensures Inv(s')
  {
  }

  lemma EnqueueKeepsInv(s: System, s': System)
    requires Inv(s) && Enqueue(s, s')
    ensures Inv(s')
  {
    hide Spaced, EntriesOf;
    forall i: nat | i < |s'.rows|
      ensures RowInv(i, s'.rows[i], Kept(s'.sends[i]), EntriesOf(s'.log, i), s'.now)
    {
      if i < |s.rows| {
        assert RowInv(i, s.rows[i], Kept(s.sends[i]), EntriesOf(s.log, i), s.now);
      } else {
        NewDeliveriesAreUntried();
      }
    }
  }

  lemma CommitKeepsInv(s: System, s': System, at: int, locked: set<nat>, limit: nat, w: World)
    requires Inv(s) && Commit(s, s', at, locked, limit, w)
    ensures Inv(s')
  {
    var sel := Selected(s.rows, at, locked, limit);
    SelectedAre(s.rows, at, locked, limit);
    hide Selected, Spaced, Attempted, EntriesFor, RowInv, Due, Kept;
    forall i: nat
      ensures i in sel ==> EntriesOf(s'.log, i) == EntriesOf(s.log, i) + Logged(i, s'.rows[i])
      ensures i !in sel ==> EntriesOf(s'.log, i) == EntriesOf(s.log, i)
    {
      EntriesOfAppend(s.log, EntriesFor(s'.rows, sel), i);
      EntriesOfBatch(s'.rows, sel, i);
    }
    forall i: nat | i < |s.rows|
      ensures RowInv(i, s'.rows[i], Kept(s'.sends[i]), EntriesOf(s'.log, i), s'.now)
    {
      if i in sel {
        PendingHasNoEntries(i, s.rows[i], Kept(s.sends[i]), EntriesOf(s.log, i), s.now, at);
        PassKeepsRow(i, s.rows[i], Kept(s.sends[i]), at, w.start(i), w.clock(i), w.outcome(i), s.now);
        KeptAppend(s.sends[i], Try(w.start(i), w.clock(i), true));
        assert [] + Logged(i, s'.rows[i]) == Logged(i, s'.rows[i]);
      }
    }
  }

  lemma PendingHasNoEntries(id: nat, row: Row, tries: seq<Try>, entries: seq<Entry>, now: int, at: int)
    requires RowInv(id, row, tries, entries, now) && Due(row, at)
    ensures entries == []
  {
  }

  /** A rollback adds no committed try. */
  lemma RollbackKeepsInv(s: System, s': System, at: int, locked: set<nat>, limit: nat, n: nat, w: World)
    requires Inv(s) && RolledBack(s, s', at, locked, limit, n, w)
    ensures Inv(s')
  {
    hide RowInv, EntriesOf, Kept, Selected, Crashes;
    forall i: nat | i < |s.rows|
      ensures Kept(s'.sends[i]) == Kept(s.sends[i])
    {
      KeptAppend(s.sends[i], Try(w.start(i), w.clock(i), false));
    }
  }

  lemma NextKeepsInv(s: System, s': System)
    requires Inv(s) && Next(s, s')
    ensures Inv(s')
  {
    hide Inv, Commit, RolledBack;
    if TimePasses(s, s') {
      TimeKeepsInv(s, s');
    } else if Enqueue(s, s') {
      EnqueueKeepsInv(s, s');
    } else if Commits(s, s') {
      var at, locked, limit, w :| Commit(s, s', at, locked, limit, w);
      CommitKeepsInv(s, s', at, locked, limit, w);
    } else {
      var at, locked, limit, n, w :| RolledBack(s, s', at, locked, limit, n, w);
      RollbackKeepsInv(s, s', at, locked, limit, n, w);
    }
  }

  lemma {:induction false} RunKeepsInv(states: seq<System>, n: nat)
    requires Run(states) && n < |states|
    ensures Inv(states[n])
    decreases n
  {
    hide Next;
    if n > 0 {
      RunKeepsInv(states, n - 1);
      NextKeepsInv(states[n - 1], states[n - 1 + 1]);
    }
  }

  // ---- What holds of every run ----

  /**
    The stored counter is the number of committed tries and at most five; a delivery is logged
    exactly when it has ended, and once.
   */
  lemma AttemptsAreCommittedTries(states: seq<System>, n: nat, id: nat)
    requires Run(states) && n < |states| && id < |states[n].rows|
    ensures |states[n].sends| == |states[n].rows|
    ensures var row := states[n].rows[id];
            && row.attempts == |Kept(states[n].sends[id])| <= MAX_ATTEMPTS
            && (Pending(row) ==> row.attempts < MAX_ATTEMPTS && EntriesOf(states[n].log, id) == [])
            && (!Pending(row) ==> EntriesOf(states[n].log, id) == [Entry(id, row.status == Delivered, row.attempts)])
  {
    hide Run, Kept;
    RunKeepsInv(states, n);
    assert RowInv(id, states[n].rows[id], Kept(states[n].sends[id]), EntriesOf(states[n].log, id), states[n].now);
  }

  /** What a step may do to a delivery: leave it, or take it from pending to a smaller measure. */
  function Measure(row: Row): int {
    if Pending(row) then MAX_ATTEMPTS - row.attempts else 0
  }

  lemma CommitOnRow(s: System, s': System, at: int, locked: set<nat>, limit: nat, w: World, id: nat)
    requires Inv(s) && Commit(s, s', at, locked, limit, w) && id < |s.rows|
    ensures id < |s'.rows|
    ensures s'.rows[id] == s.rows[id] || (Pending(s.rows[id]) && Measure(s'.rows[id]) < Measure(s.rows[id]))
  {
    var sel := Selected(s.rows, at, locked, limit);
    SelectedAre(s.rows, at, locked, limit);
    assert RowInv(id, s.rows[id], Kept(s.sends[id]), EntriesOf(s.log, id), s.now);
    assert s'.rows[id] == if id in sel then Attempted(s.rows[id], w.outcome(id), w.clock(id)) else s.rows[id];
    assert id in sel ==> Pending(s.rows[id]) && !w.outcome(id).Crash?;
    hide Selected, Inv, Commit, Kept, EntriesOf, Spaced;
  }

  lemma StepOnRow(s: System, s': System, id: nat)
    requires Inv(s) && Next(s, s') && id < |s.rows|
    ensures id < |s'.rows|
    ensures s'.rows[id] == s.rows[id] || (Pending(s.rows[id]) && Measure(s'.rows[id]) < Measure(s.rows[id]))
  {
    hide Inv, Commit, Measure, Handled, Crashes, Selected;
    if Commits(s, s') {
      var at, locked, limit, w :| Commit(s, s', at, locked, limit, w);
      CommitOnRow(s, s', at, locked, limit, w, id);
    }
  }

  lemma StepOf(states: seq<System>, j: nat)
    requires Run(states) && 0 < j < |states|
    ensures Inv(states[j - 1]) && Next(states[j - 1], states[j])
  {
    RunKeepsInv(states, j - 1);
    hide Inv, Next;
    assert Next(states[j - 1], states[j - 1 + 1]);
  }

  /** Delivered and failed are final. */
  lemma {:induction false} EndedForGood(states: seq<System>, i: nat, j: nat, id: nat)
    requires Run(states) && i <= j < |states| && id < |states[i].rows| && !Pending(states[i].rows[id])
    ensures id < |states[j].rows| && states[j].rows[id] == states[i].rows[id]
    decreases j
  {
    hide Run, Next, Inv;
    if i < j {
      EndedForGood(states, i, j - 1, id);
      StepOf(states, j);
      StepOnRow(states[j - 1], states[j], id);
    }
  }

  /** How often a run has changed a delivery. */
  function Changes(states: seq<System>, id: nat): nat {
    if |states| < 2 then 0
    else
      var s, s' := states[|states| - 2], states[|states| - 1];
      Changes(states[..|states| - 1], id) +
      if id < |s.rows| && id < |s'.rows| && s.rows[id] != s'.rows[id] then 1 else 0
  }

  /** Each state of a run counts one change if the row of the delivery is not what it was in the state before. */
  lemma ChangesCount(states: seq<System>, s: System, s': System, id: nat)
    ensures Changes([s], id) == 0
    ensures Changes(states + [s] + [s'], id) ==
            Changes(states + [s], id) + if id < |s.rows| && id < |s'.rows| && s.rows[id] != s'.rows[id] then 1 else 0
  {
    var longer := states + [s] + [s'];
    assert longer[..|longer| - 1] == states + [s];
  }

  lemma RunSoFar(states: seq<System>)
    requires Run(states) && |states| >= 2
    ensures Run(states[..|states| - 1]) && Next(states[|states| - 2], states[|states| - 1])
  {
    hide Next, Init;
    var n := |states| - 1;
    assert Next(states[n - 1], states[n - 1 + 1]);
    forall i | 0 <= i < n - 1
      ensures Next(states[..n][i], states[..n][i + 1])
    {
      assert Next(states[i], states[i + 1]);
    }
  }

  /** Every change uses up some of the measure, so no run changes a delivery more than five times. */
  lemma {:induction false} AtMostFiveChanges(states: seq<System>, id: nat)
    requires Run(states)
    ensures var rows := states[|states| - 1].rows;
            Changes(states, id) <= MAX_ATTEMPTS - if id < |rows| then Measure(rows[id]) else MAX_ATTEMPTS
  {
    if |states| >= 2 {
      hide Next, Inv, Init;
      var n := |states| - 1;
      var s, s' := states[n - 1], states[n];
      RunSoFar(states);
      AtMostFiveChanges(states[..n], id);
      RunKeepsInv(states, n - 1);
      if id < |s.rows| {
        StepOnRow(s, s', id);
      } else if id < |s'.rows| {
        RowsGrowByQueueing(s, s', id);
      }
    }
  }

  lemma RowsGrowByQueueing(s: System, s': System, id: nat)
    requires Next(s, s') && |s.rows| <= id < |s'.rows|
    ensures s'.rows[id].status == Queued && s'.rows[id].attempts == 0
  {
    hide Selected, EntriesFor, Handled, Crashes;
  }

  /**
    A delivery that used up its attempts was tried at least five times, and the five tries that
    counted lie at least 1 + 2 + 4 + 8 minutes apart.
   */
  lemma ExhaustionTakesFifteenMinutes(states: seq<System>, n: nat, id: nat)
    requires Run(states) && n < |states| && id < |states[n].rows|
    requires states[n].rows[id].status == Failed && states[n].rows[id].attempts == MAX_ATTEMPTS
    ensures id < |states[n].sends|
    ensures var kept := Kept(states[n].sends[id]);
            && |kept| == 5 <= |states[n].sends[id]| && multiset(kept) <= multiset(states[n].sends[id])
            && Spaced(kept) && kept[4].start - kept[0].end >= 900
  {
    hide Run, EntriesOf;
    RunKeepsInv(states, n);
    var kept := Kept(states[n].sends[id]);
    assert RowInv(id, states[n].rows[id], kept, EntriesOf(states[n].log, id), states[n].now);
    FiveTries(kept);
  }

  lemma FiveTries(tries: seq<Try>)
    requires Spaced(tries) && |tries| == 5
    ensures tries[4].start - tries[0].end >= 900
  {
    assert Pow2(0) == 1 && Pow2(1) == 2 && Pow2(2) == 4 && Pow2(3) == 8;
  }

  /**
    What a row tells of the committed tries behind it: a queued one has none; one that is being
    retried waits one, two, four or eight minutes from the end of the last; a delivered one was
    delivered by the last, and no error is left.
   */
  lemma RowsTellTheirTries(states: seq<System>, n: nat, id: nat)
    requires Run(states) && n < |states| && id < |states[n].rows|
    ensures id < |states[n].sends|
    ensures var row, kept := states[n].rows[id], Kept(states[n].sends[id]);
            match row.status
            case Queued => kept == []
            case Retrying =>
              && 1 <= |kept| <= 4
              && row.nextAttempt == kept[|kept| - 1].end +
                 (if |kept| == 1 then 60 else if |kept| == 2 then 120 else if |kept| == 3 then 240 else 480)
            case Delivered => 1 <= |kept| <= 5 && row.deliveredAt == Some(kept[|kept| - 1].end) && row.lastError == None
            case Failed => |kept| <= 5
  {
    hide Run, EntriesOf, Spaced, Kept;
    RunKeepsInv(states, n);
    var kept := Kept(states[n].sends[id]);
    assert RowInv(id, states[n].rows[id], kept, EntriesOf(states[n].log, id), states[n].now);
    assert Pow2(0) == 1 && Pow2(1) == 2 && Pow2(2) == 4 && Pow2(3) == 8;
  }

  /** A try ends a delivery at the fifth, and before that puts it off by one, two, four or eight minutes. */
  lemma DelaysDouble(row: Row, message: string, now: int)
    requires row.attempts <= 4
    ensures var row' := Attempted(row, SendError(message), now);
            && row'.attempts == row.attempts + 1
            && (row.attempts == 4 ==> row'.status == Failed)
            && (row.attempts < 4 ==> row'.status == Retrying)
            && (row.attempts == 0 ==> row'.nextAttempt == now + 60) && (row.attempts == 1 ==> row'.nextAttempt == now + 120)
            && (row.attempts == 2 ==> row'.nextAttempt == now + 240) && (row.attempts == 3 ==> row'.nextAttempt == now + 480)
            && row'.lastError == Some(if |message| > 500 then message[..500] else message)
            && row'.deliveredAt == row.deliveredAt
  {
    assert Pow2(0) == 1 && Pow2(1) == 2 && Pow2(2) == 4 && Pow2(3) == 8;
  }

  /** A pass ends a pending delivery in failure only without a target, or at the fifth failed try. */
  lemma FailsOnlyWithoutTargetOrExhausted(row: Row, outcome: Outcome, now: int)
    requires Pending(row) && row.attempts < MAX_ATTEMPTS
    ensures Attempted(row, outcome, now).status == Failed <==>
            outcome.NoTarget? || (outcome.SendError? && row.attempts == MAX_ATTEMPTS - 1)
    ensures Attempted(row, outcome, now).status == Delivered <==> outcome.Sent?
  {
  }

  // ---- Tries that are forgotten ----

  /** The step rolls back a batch that has tried the delivery. */
  ghost predicate ForgetsTry(s: System, s': System, id: nat) {
    exists at, locked, limit, n, w ::
      RolledBack(s, s', at, locked, limit, n, w) && id < |s.sends| && ForgetsIn(s.rows, at, locked, limit, n, w, id)
  }

  ghost predicate ForgetsIn(rows: seq<Row>, at: int, locked: set<nat>, limit: nat, n: nat, w: World, id: nat) {
    n <= |Selected(rows, at, locked, limit)| && id in Selected(rows, at, locked, limit)[..n] && Tries(w.outcome(id))
  }

  /** The tries of a delivery that its row does not know of. */
  function Forgotten(s: System, id: nat): nat {
    if id < |s.sends| then |s.sends[id]| - |Kept(s.sends[id])| else 0
  }

  lemma ForgettingGrows(s: System, s': System, id: nat)
    requires ForgetsTry(s, s', id)
    ensures Forgotten(s', id) == Forgotten(s, id) + 1
  {
    hide Selected, Kept, Crashes;
    var at, locked, limit, n, w :| RolledBack(s, s', at, locked, limit, n, w) && id < |s.sends| && ForgetsIn(s.rows, at, locked, limit, n, w, id);
    KeptAppend(s.sends[id], Try(w.start(id), w.clock(id), false));
  }

  lemma OtherStepsForgetNothing(s: System, s': System, id: nat)
    requires Next(s, s') && !ForgetsTry(s, s', id)
    ensures Forgotten(s', id) == Forgotten(s, id)
  {
    hide Selected, Kept, Crashes, Processed;
    if Commits(s, s') {
      var at, locked, limit, w :| Commit(s, s', at, locked, limit, w);
      if id < |s.sends| {
        KeptAppend(s.sends[id], Try(w.start(id), w.clock(id), true));
      }
    } else if RollsBack(s, s') {
      var at, locked, limit, n, w :| RolledBack(s, s', at, locked, limit, n, w);
      assert id < |s.sends| ==> !ForgetsIn(s.rows, at, locked, limit, n, w, id);
    } else {
      NewDeliveriesAreUntried();
    }
  }

  lemma NewDeliveriesAreUntried()
    ensures Kept([]) == [] && Spaced([])
  {
  }

  /** No step of the run so far forgets a try of the delivery. */
  ghost predicate NothingForgotten(states: seq<System>, n: nat, id: nat) {
    forall i | 0 <= i < n && i + 1 < |states| :: !ForgetsTry(states[i], states[i + 1], id)
  }

  lemma {:induction false} ForgottenIff(states: seq<System>, n: nat, id: nat)
    requires Run(states) && n < |states|
    ensures Forgotten(states[n], id) == 0 <==> NothingForgotten(states, n, id)
    decreases n
  {
    hide Next, Forgotten, ForgetsTry;
    if n == 0 {
      NothingAtFirst(states[0], id);
    } else {
      ForgottenIff(states, n - 1, id);
      var s, s' := states[n - 1], states[n - 1 + 1];
      assert Next(s, s');
      if ForgetsTry(s, s', id) {
        ForgettingGrows(s, s', id);
      } else {
        OtherStepsForgetNothing(s, s', id);
      }
    }
  }

  lemma NothingAtFirst(s: System, id: nat)
    requires Init(s)
    ensures Forgotten(s, id) == 0
  {
  }

  lemma {:induction false} KeptAll(sends: seq<Try>)
    requires |Kept(sends)| == |sends|
    ensures Kept(sends) == sends
  {
    if sends != [] {
      var last := |sends| - 1;
      assert sends == sends[..last] + [sends[last]];
      KeptAll(sends[..last]);
    }
  }

  /**
    The attempts of a row are all its tries exactly when no batch that had tried it was rolled back.
    Then they are at most five, each after the delay that the one before it asked for.
   */
  lemma AttemptsAreAllTriesIff(states: seq<System>, n: nat, id: nat)
    requires Run(states) && n < |states| && id < |states[n].rows|
    ensures |states[n].sends| == |states[n].rows|
    ensures |states[n].sends[id]| == states[n].rows[id].attempts <==> NothingForgotten(states, n, id)
    ensures NothingForgotten(states, n, id) ==> |states[n].sends[id]| <= MAX_ATTEMPTS && Spaced(states[n].sends[id])
  {
    hide Run, NothingForgotten, Kept, EntriesOf, Spaced;
    AttemptsAreCommittedTries(states, n, id);
    ForgottenIff(states, n, id);
    if NothingForgotten(states, n, id) {
      KeptAll(states[n].sends[id]);
      RunKeepsInv(states, n);
      assert RowInv(id, states[n].rows[id], Kept(states[n].sends[id]), EntriesOf(states[n].log, id), states[n].now);
    }
  }

  // ---- Without a bound ----

  /** A delivery queued at time 0 and sent `n` times in batches that were rolled back. */
  function Resent(n: nat): System {
    System(0, [Row(Queued, 0, 0, None, None)], [], [seq(n, _ => Try(0, 0, false))])
  }

  /** What such a batch meets: the message goes out, and then something else raises. */
  function Unlucky(): World {
    World(_ => Crash(true), _ => 0, _ => 0)
  }

  lemma ResendStep(n: nat)
    ensures RolledBack(Resent(n), Resent(n + 1), 0, {}, 25, 1, Unlucky())
    ensures ForgetsTry(Resent(n), Resent(n + 1), 0)
  {
    var rows := Resent(n).rows;
    assert rows[..0] == [];
    assert DueRows(rows, 0, {}) == DueRows([], 0, {}) + [0] == [0];
    assert Selected(rows, 0, {}, 25) == [0];
    assert [0][..1] == [0];
    assert Resent(n + 1).sends[0] == Resent(n).sends[0] + [Try(0, 0, false)];
    assert RolledBack(Resent(n), Resent(n + 1), 0, {}, 25, 1, Unlucky());
    assert ForgetsIn(rows, 0, {}, 25, 1, Unlucky(), 0);
  }

  /** For every `n` there is a run that sends one delivery `n` times and still has it queued, untried. */
  lemma {:induction false} RolledBackBatchesResend(n: nat) returns (states: seq<System>)
    ensures Run(states) && |states| == n + 2 && states[n + 1] == Resent(n)
    ensures |states[n + 1].sends[0]| == n && states[n + 1].rows[0].attempts == 0
  {
    hide Next;
    if n == 0 {
      states := [System(0, [], [], []), Resent(0)];
      QueuedFirst();
    } else {
      var before := RolledBackBatchesResend(n - 1);
      ResendIsAStep(n - 1);
      states := before + [Resent(n)];
      forall i | 0 <= i < |states| - 1
        ensures Next(states[i], states[i + 1])
      {
        if i < |before| - 1 {
          assert states[i] == before[i] && states[i + 1] == before[i + 1];
        }
      }
    }
  }

  lemma QueuedFirst()
    ensures Next(System(0, [], [], []), Resent(0))
  {
    assert Resent(0).sends[0] == [];
    assert [] + Resent(0).sends == Resent(0).sends && [] + Resent(0).rows == Resent(0).rows;
    assert Enqueue(System(0, [], [], []), Resent(0));
  }

  lemma ResendIsAStep(n: nat)
    ensures Next(Resent(n), Resent(n + 1))
  {
    hide RolledBack;
    ResendStep(n);
  }

  /** No batch that has tried something is ever rolled back. */
  ghost predicate KeepsItsTries(states: seq<System>) {
    forall id: nat :: NothingForgotten(states, |states|, id)
  }

  ghost predicate TriedAtMostFiveTimes(states: seq<System>) {
    forall n: nat, id: nat | n < |states| && id < |states[n].sends| :: |states[n].sends[id]| <= MAX_ATTEMPTS
  }

  lemma KeepingTriesBoundsThem(states: seq<System>)
    requires Run(states) && KeepsItsTries(states)
    ensures TriedAtMostFiveTimes(states)
  {
    forall n: nat, id: nat | n < |states| && id < |states[n].sends|
      ensures |states[n].sends[id]| <= MAX_ATTEMPTS
    {
      hide Run, Kept, ForgetsTry;
      assert NothingForgotten(states, |states|, id);
      RunKeepsInv(states, n);
      AttemptsAreAllTriesIff(states, n, id);
    }
  }

  /**
    A worker never tries a delivery more than five times, in any of its runs, exactly when its
    batches are not rolled back once they have tried something.
   */
  lemma AtMostFiveTriesIff(mayForget: bool)
    ensures (forall states | Run(states) && (mayForget || KeepsItsTries(states)) :: TriedAtMostFiveTimes(states)) <==> !mayForget
  {
    if mayForget {
      hide Run;
      var states := RolledBackBatchesResend(6);
      assert |states[7].sends[0]| == 6;
    } else {
      hide TriedAtMostFiveTimes;
      forall states | Run(states) && KeepsItsTries(states)
        ensures TriedAtMostFiveTimes(states)
      {
        KeepingTriesBoundsThem(states);
      }
    }
  }
}
