/**
  The two delivery outboxes, for webhook alerts and for SIEM events. Both workers take the due
  deliveries, try each once, and commit the whole batch; a failed try is put off with a doubling
  delay until the fifth.
 */
module Outbox {
  import opened Wrappers
  import opened Bytes

  const MAX_ATTEMPTS := 5
  const MINUTE := 60
  const MAX_ERROR := 500

  datatype Status = Queued | Retrying | Delivered | Failed

  datatype Row = Row(status: Status, attempts: nat, nextAttempt: int, deliveredAt: Option<int>, lastError: Option<string>)

  /** A terminal audit entry: `alert.delivered`, `alert.failed` and their SIEM counterparts. */
  datatype Entry = Entry(delivery: nat, delivered: bool, attempts: nat)

  /**
    What the worker meets: no enabled rule or destination, a sent message, a caught error, or any
    other exception, which may come before or after the message has gone out.
   */
  datatype Outcome = NoTarget(reason: string) | Sent | SendError(message: string) | Crash(wentOut: bool)

  predicate Pending(row: Row) {
    row.status == Queued || row.status == Retrying
  }

  function Pow2(n: nat): nat {
    if n == 0 then 1 else 2 * Pow2(n - 1)
  }

  function Cut(error: string): string {
    if |error| > MAX_ERROR then error[..MAX_ERROR] else error
  }

  /** The row of a delivery after one pass of the worker. */
  function Attempted(row: Row, outcome: Outcome, now: int): Row {
    match outcome
    case NoTarget(reason) => row.(status := Failed, lastError := Some(Cut(reason)))
    case Sent => row.(status := Delivered, deliveredAt := Some(now), lastError := None, attempts := row.attempts + 1)
    case SendError(message) =>
      if row.attempts + 1 >= MAX_ATTEMPTS then
        row.(status := Failed, lastError := Some(Cut(message)), attempts := row.attempts + 1)
      else
        row.(status := Retrying, lastError := Some(Cut(message)), attempts := row.attempts + 1,
             nextAttempt := now + Pow2(row.attempts) * MINUTE)
    case Crash(_) => row
  }

  /** What a delivery that has just become terminal leaves in the audit log. */
  function Logged(delivery: nat, row: Row): seq<Entry> {
    if Pending(row) then [] else [Entry(delivery, row.status == Delivered, row.attempts)]
  }

  // ---- The worker ----

  /** The session of one transaction: entries that are not committed yet. */
  class Session {
    var entries: seq<Entry>

    constructor ()
      ensures entries == []
    {
      entries := [];
    }
  }

  /** A row loaded into a session. */
  class Delivery {
    const id: nat
    var status: Status
    var attempts: nat
    var nextAttempt: int
    var deliveredAt: Option<int>
    var lastError: Option<string>

    function Contents(): Row
      reads this
    {
      Row(status, attempts, nextAttempt, deliveredAt, lastError)
    }

    constructor (id: nat, row: Row)
      ensures this.id == id && Contents() == row
    {
      this.id := id;
      status, attempts, nextAttempt := row.status, row.attempts, row.nextAttempt;
      deliveredAt, lastError := row.deliveredAt, row.lastError;
    }

    method FailPermanently(session: Session, error: string)
      modifies this, session
      ensures Contents() == old(Contents()).(status := Failed, lastError := Some(Cut(error)))
      ensures session.entries == old(session.entries) + [Entry(id, false, attempts)]
    {
      status := Failed;
      lastError := Some(Cut(error));
      session.entries := session.entries + [Entry(id, false, attempts)];
    }

    method ScheduleRetry(session: Session, error: string, now: int)
      modifies this, session
      ensures Contents() == Attempted(old(Contents()), SendError(error), now)
      ensures session.entries == old(session.entries) + Logged(id, Contents())
    {
      attempts := attempts + 1;
      lastError := Some(Cut(error));
      if attempts >= MAX_ATTEMPTS {
        FailPermanently(session, error);
        return;
      }
      status := Retrying;
      nextAttempt := now + Pow2(attempts - 1) * MINUTE;
    }
  }

  predicate Due(row: Row, now: int) {
    Pending(row) && row.nextAttempt <= now
  }

  /** The due rows that no other session holds, in order of creation. */
  function DueRows(rows: seq<Row>, now: int, locked: set<nat>): seq<nat> {
    if rows == [] then []
    else
      var last := |rows| - 1;
      DueRows(rows[..last], now, locked) + if Due(rows[last], now) && last !in locked then [last] else []
  }

  /** The batch of one transaction. */
  function Selected(rows: seq<Row>, now: int, locked: set<nat>, limit: nat): seq<nat> {
    var due := DueRows(rows, now, locked);
    if |due| <= limit then due else due[..limit]
  }

  /** A batch only names rows of the table. */
  predicate Within(sel: seq<nat>, count: nat) {
    forall k | 0 <= k < |sel| :: sel[k] < count
  }

  predicate Increasing(s: seq<nat>) {
    forall i, j | 0 <= i < j < |s| :: s[i] < s[j]
  }

  lemma {:induction false} DueRowsAre(rows: seq<Row>, now: int, locked: set<nat>)
    ensures Increasing(DueRows(rows, now, locked))
    ensures Within(DueRows(rows, now, locked), |rows|)
    ensures forall i: nat :: i in DueRows(rows, now, locked) <==> i < |rows| && Due(rows[i], now) && i !in locked
  {
    hide Due;
    if rows != [] {
      var last := |rows| - 1;
      var front := rows[..last];
      DueRowsAre(front, now, locked);
      assert forall i: nat | i < last :: front[i] == rows[i];
      var due, earlier := DueRows(rows, now, locked), DueRows(front, now, locked);
      assert due == earlier + if Due(rows[last], now) && last !in locked then [last] else [];
      assert forall i: nat :: i in due <==> i in earlier || (i == last && Due(rows[last], now) && last !in locked);
    }
  }

  /** The deliveries that could be tried now: queued or retrying, due, and held by no other session. */
  function Waiting(rows: seq<Row>, now: int, locked: set<nat>): set<nat> {
    set i: nat | i < |rows| && (rows[i].status == Queued || rows[i].status == Retrying) && rows[i].nextAttempt <= now && i !in locked
  }

  lemma {:induction false} IncreasingSize(s: seq<nat>, all: set<nat>)
    requires Increasing(s) && forall i: nat :: i in s <==> i in all
    ensures |s| == |all|
  {
    if s == [] {
      assert all == {};
    } else {
      var last := |s| - 1;
      assert s[last] in s && s == s[..last] + [s[last]];
      IncreasingSize(s[..last], all - {s[last]});
    }
  }

  /** The batch: as many waiting deliveries as the limit allows, and the oldest of them. */
  lemma SelectedAre(rows: seq<Row>, now: int, locked: set<nat>, limit: nat)
    ensures var sel, waiting := Selected(rows, now, locked, limit), Waiting(rows, now, locked);
            && Increasing(sel) && Within(sel, |rows|)
            && |sel| == (if limit <= |waiting| then limit else |waiting|)
            && (forall i: nat | i in sel :: i in waiting)
            && (forall i: nat, j: nat | i in waiting && i !in sel && j in sel :: j < i)
  {
    DueRowsAre(rows, now, locked);
    var due, sel, waiting := DueRows(rows, now, locked), Selected(rows, now, locked, limit), Waiting(rows, now, locked);
    assert forall k | 0 <= k < |sel| :: sel[k] == due[k];
    hide DueRows;
    assert forall i: nat :: i in due <==> i in waiting;
    IncreasingSize(due, waiting);
    forall i: nat, j: nat | i in waiting && i !in sel && j in sel
      ensures j < i
    {
      var k :| 0 <= k < |due| && due[k] == i;
      assert |sel| <= k;
      var l :| 0 <= l < |sel| && sel[l] == j;
    }
  }

  /** If anything can be tried at all, the delivery that waits longest has been dealt with. */
  ghost predicate OldestDealtWith(rows: seq<Row>, now: int, locked: set<nat>, limit: nat, outcome: nat -> Outcome, clock: nat -> int,
                                  rows': seq<Row>)
  {
    limit > 0 ==>
      forall i: nat | i in Waiting(rows, now, locked) && (forall j: nat | j in Waiting(rows, now, locked) :: i <= j) ::
        i < |rows'| && rows'[i] == Attempted(rows[i], outcome(i), clock(i)) && rows'[i] != rows[i]
  }

  lemma OldestIsTaken(rows: seq<Row>, now: int, locked: set<nat>, limit: nat, i: nat)
    requires limit > 0 && i in Waiting(rows, now, locked) && forall j: nat | j in Waiting(rows, now, locked) :: i <= j
    ensures i in Selected(rows, now, locked, limit)
  {
    SelectedAre(rows, now, locked, limit);
    hide Selected, Waiting, Increasing, Within;
    var sel, waiting := Selected(rows, now, locked, limit), Waiting(rows, now, locked);
    assert waiting == waiting - {i} + {i};
    assert |waiting| > 0;
    assert sel[0] in sel;
  }

  lemma OldestGoesFirst(rows: seq<Row>, log: seq<Entry>, now: int, locked: set<nat>, limit: nat, outcome: nat -> Outcome,
                        clock: nat -> int, rows': seq<Row>, log': seq<Entry>)
    requires !Crashes(Selected(rows, now, locked, limit), outcome)
    requires Processed(rows, log, Selected(rows, now, locked, limit), outcome, clock, rows', log')
    ensures OldestDealtWith(rows, now, locked, limit, outcome, clock, rows')
  {
    var sel := Selected(rows, now, locked, limit);
    if limit > 0 {
      forall i: nat | i in Waiting(rows, now, locked) && (forall j: nat | j in Waiting(rows, now, locked) :: i <= j)
        ensures i < |rows'| && rows'[i] == Attempted(rows[i], outcome(i), clock(i)) && rows'[i] != rows[i]
      {
        OldestIsTaken(rows, now, locked, limit, i);
        hide Selected;
        var k :| 0 <= k < |sel| && sel[k] == i;
        assert !outcome(i).Crash?;
      }
    }
  }

  /** The worker meets an exception that it does not catch at some delivery of the batch. */
  predicate Crashes(sel: seq<nat>, outcome: nat -> Outcome) {
    exists k | 0 <= k < |sel| :: outcome(sel[k]).Crash?
  }

  /** The terminal entries of the first `n` rows of a batch, in the order they were dealt with. */
  function EntriesFor(rows: seq<Row>, sel: seq<nat>): seq<Entry>
    requires Within(sel, |rows|)
  {
    if sel == [] then []
    else
      var last := sel[|sel| - 1];
      EntriesFor(rows, sel[..|sel| - 1]) + Logged(last, rows[last])
  }

  /** A committed batch: every selected row was dealt with once, the others not at all. */
  ghost predicate Processed(rows: seq<Row>, log: seq<Entry>, sel: seq<nat>, outcome: nat -> Outcome, clock: nat -> int,
                            rows': seq<Row>, log': seq<Entry>)
  {
    && |rows'| == |rows|
    && Within(sel, |rows|)
    && (forall i: nat | i < |rows| :: rows'[i] == if i in sel then Attempted(rows[i], outcome(i), clock(i)) else rows[i])
    && log' == log + EntriesFor(rows', sel)
  }

  lemma {:induction false} EntriesForSame(rows: seq<Row>, rows': seq<Row>, sel: seq<nat>)
    requires |rows| == |rows'| && Within(sel, |rows|)
    requires forall k | 0 <= k < |sel| :: rows[sel[k]] == rows'[sel[k]]
    ensures EntriesFor(rows, sel) == EntriesFor(rows', sel)
  {
    if sel != [] {
      EntriesForSame(rows, rows', sel[..|sel| - 1]);
    }
  }

  /** Dealing with one more row of the batch. */
  lemma ProcessedMore(rows: seq<Row>, log: seq<Entry>, sel: seq<nat>, n: nat, outcome: nat -> Outcome, clock: nat -> int,
                      rows': seq<Row>, log': seq<Entry>, row: Row)
    requires Increasing(sel) && n < |sel| && Within(sel, |rows|)
    requires Processed(rows, log, sel[..n], outcome, clock, rows', log')
    requires row == Attempted(rows[sel[n]], outcome(sel[n]), clock(sel[n]))
    ensures Processed(rows, log, sel[..n + 1], outcome, clock, rows'[sel[n] := row], log' + Logged(sel[n], row))
  {
    hide Attempted, Logged;
    var rows'' := rows'[sel[n] := row];
    assert sel[n] < |rows|;
    NextOfBatch(sel, n);
    EntriesForSame(rows', rows'', sel[..n]);
    assert EntriesFor(rows'', sel[..n + 1]) == EntriesFor(rows'', sel[..n]) + Logged(sel[n], row);
    hide EntriesFor, Increasing;
  }

  lemma NextOfBatch(sel: seq<nat>, n: nat)
    requires Increasing(sel) && n < |sel|
    ensures sel[..n + 1][..n] == sel[..n] && sel[n] !in sel[..n]
    ensures forall i: nat :: i in sel[..n + 1] <==> i in sel[..n] || i == sel[n]
  {
    assert sel[..n + 1] == sel[..n] + [sel[n]];
  }

  class Worker {
    var rows: seq<Row>
    var log: seq<Entry>

    constructor ()
      ensures rows == [] && log == []
    {
      rows, log := [], [];
    }

    /**
      One transaction. `outcome` and `clock` give what the worker meets at each delivery and the
      time it reads there; an exception that it does not catch rolls the transaction back. If it is
      committed, the delivery that has waited longest has been dealt with.
     */
    method ProcessPending(configured: bool, now: int, locked: set<nat>, limit: nat, outcome: nat -> Outcome, clock: nat -> int)
      returns (r: Result<nat>)
      modifies this
      ensures r.Raised? <==> !configured || Crashes(Selected(old(rows), now, locked, limit), outcome)
      ensures r.Raised? ==> rows == old(rows) && log == old(log)
      ensures r.Ok? ==>
                && r.value == |Selected(old(rows), now, locked, limit)|
                && Processed(old(rows), old(log), Selected(old(rows), now, locked, limit), outcome, clock, rows, log)
      ensures r.Ok? ==> OldestDealtWith(old(rows), now, locked, limit, outcome, clock, rows)
    {
      if !configured {
        return Raised;
      }
      var sel := Selected(rows, now, locked, limit);
      SelectedAre(rows, now, locked, limit);
      assert forall k | 0 <= k < |sel| :: sel[k] in sel && Pending(rows[sel[k]]);
      hide Crashes, Selected, DueRows, Waiting, OldestDealtWith, EntriesFor, Due, Pending, Processed, Attempted, Logged, Increasing;
      var session := new Session();
      var dirty := rows;
      NothingProcessed(rows, log, sel, outcome, clock);
      for n := 0 to |sel|
        invariant fresh(session) && unchanged(this)
        invariant !Crashes(sel[..n], outcome)
        invariant Processed(rows, log, sel[..n], outcome, clock, dirty, log + session.entries)
      {
        var i := sel[n];
        assert Pending(rows[i]);
        NotReachedYet(rows, log, sel, n, outcome, clock, dirty, log + session.entries);
        ghost var before := session.entries;
        var row := Dispatch(session, i, dirty[i], outcome(i), clock(i));
        CrashesMore(sel, n, outcome);
        if row.None? {
          return Raised;
        }
        ProcessedMore(rows, log, sel, n, outcome, clock, dirty, log + before, row.value);
        Associative(log, before, Logged(i, row.value));
        dirty := dirty[i := row.value];
      }
      assert sel[..|sel|] == sel;
      OldestGoesFirst(rows, log, now, locked, limit, outcome, clock, dirty, log + session.entries);
      rows, log := dirty, log + session.entries;
      r := Ok(|sel|);
    }
  }

  /** One delivery of the batch; `None` when an exception leaves the loop. */
  method Dispatch(session: Session, id: nat, row: Row, outcome: Outcome, now: int) returns (after: Option<Row>)
    requires Pending(row)
    modifies session
    ensures after.None? <==> outcome.Crash?
    ensures after.Some? ==>
              && after.value == Attempted(row, outcome, now)
              && session.entries == old(session.entries) + Logged(id, after.value)
  {
    var delivery := new Delivery(id, row);
    match outcome {
    case NoTarget(reason) =>
      delivery.FailPermanently(session, reason);
    case Sent =>
      delivery.status := Delivered;
      delivery.deliveredAt := Some(now);
      delivery.lastError := None;
      delivery.attempts := delivery.attempts + 1;
      session.entries := session.entries + [Entry(id, true, delivery.attempts)];
    case SendError(message) =>
      delivery.ScheduleRetry(session, message, now);
    case Crash(_) =>
      return None;
    }
    return Some(delivery.Contents());
  }

  lemma NothingProcessed(rows: seq<Row>, log: seq<Entry>, sel: seq<nat>, outcome: nat -> Outcome, clock: nat -> int)
    ensures Processed(rows, log, sel[..0], outcome, clock, rows, log + [])
    ensures !Crashes(sel[..0], outcome)
  {
  }

  lemma CrashesMore(sel: seq<nat>, n: nat, outcome: nat -> Outcome)
    requires n < |sel|
    ensures Crashes(sel[..n + 1], outcome) <==> Crashes(sel[..n], outcome) || outcome(sel[n]).Crash?
    ensures outcome(sel[n]).Crash? ==> Crashes(sel, outcome)
  {
    assert forall k | 0 <= k < n :: sel[..n + 1][k] == sel[..n][k];
    assert sel[..n + 1][n] == sel[n];
  }

  lemma NotReachedYet(rows: seq<Row>, log: seq<Entry>, sel: seq<nat>, n: nat, outcome: nat -> Outcome, clock: nat -> int,
                      rows': seq<Row>, log': seq<Entry>)
    requires Increasing(sel) && n < |sel| && Within(sel, |rows|)
    requires Processed(rows, log, sel[..n], outcome, clock, rows', log')
    ensures |rows'| == |rows| && rows'[sel[n]] == rows[sel[n]]
  {
    hide Attempted, EntriesFor;
    assert sel[n] !in sel[..n];
  }
}
