/**
  A backlog of an outbox: how many passes work it off. Deliveries may be queued between the passes,
  and failed ones wait at least a minute before they are due again.
 */
module Backlog {
  import opened Outbox

  /** A committed pass: when it selected, what it met, the table and the log it left. */
  datatype Pass = Pass(at: int, outcome: nat -> Outcome, clock: nat -> int, dealt: seq<Row>, log: seq<Entry>, log': seq<Entry>)

  /** The rows of `before` were dealt with by the pass; then others were queued behind them. */
  ghost predicate OnePass(before: seq<Row>, after: seq<Row>, limit: nat, p: Pass) {
    && (forall i :: p.at <= p.clock(i))
    && !Crashes(Selected(before, p.at, {}, limit), p.outcome)
    && Processed(before, p.log, Selected(before, p.at, {}, limit), p.outcome, p.clock, p.dealt, p.log')
    && |p.dealt| <= |after| && after[..|p.dealt|] == p.dealt
  }

  /** Pass `k` takes the table from `tables[k]` to `tables[k + 1]`; all passes lie within a minute. */
  ghost predicate Passes(tables: seq<seq<Row>>, passes: seq<Pass>, limit: nat) {
    && |tables| == |passes| + 1
    && (forall k | 0 <= k < |passes| :: OnePass(tables[k], tables[k + 1], limit, passes[k]))
    && (forall k | 0 <= k < |passes| :: passes[0].at <= passes[k].at <= passes[|passes| - 1].at < passes[0].at + 60)
  }

  /** What waits no longer than delivery `i`, as of the last pass. */
  function Ahead(rows: seq<Row>, last: int, i: nat): set<nat> {
    set j | j in Waiting(rows, last, {}) && j <= i
  }

  lemma RetriedWaitsAMinute(row: Row, outcome: Outcome, now: int, last: int)
    requires !outcome.Crash? && last < now + 60
    ensures var row' := Attempted(row, outcome, now);
            !((row'.status == Queued || row'.status == Retrying) && row'.nextAttempt <= last)
            || (row.status != Queued && row.status != Retrying)
  {
    PowersArePositive(row.attempts);
  }

  lemma {:induction false} PowersArePositive(n: nat)
    ensures Pow2(n) >= 1
  {
    if n > 0 {
      PowersArePositive(n - 1);
    }
  }

  lemma DealtWith(before: seq<Row>, after: seq<Row>, limit: nat, p: Pass, j: nat)
    requires OnePass(before, after, limit, p) && j < |before|
    ensures j < |after|
    ensures var sel := Selected(before, p.at, {}, limit);
            after[j] == if j in sel then Attempted(before[j], p.outcome(j), p.clock(j)) else before[j]
  {
    hide Selected, EntriesFor, Attempted, Within, Crashes;
    assert after[..|p.dealt|][j] == after[j];
  }

  lemma NoCrash(sel: seq<nat>, outcome: nat -> Outcome, j: nat)
    requires !Crashes(sel, outcome) && j in sel
    ensures !outcome(j).Crash?
  {
  }

  /** What one pass does to the row of a delivery. */
  lemma PassOverRow(before: seq<Row>, after: seq<Row>, limit: nat, p: Pass, last: int, j: nat)
    requires OnePass(before, after, limit, p) && last < p.at + 60 && j < |before|
    ensures j < |after|
    ensures j !in Selected(before, p.at, {}, limit) ==> after[j] == before[j]
    ensures j in Selected(before, p.at, {}, limit) ==> j !in Waiting(after, last, {})
  {
    SelectedAre(before, p.at, {}, limit);
    DealtWith(before, after, limit, p, j);
    hide Selected, Attempted, Increasing, Within, Processed, Crashes;
    if j in Selected(before, p.at, {}, limit) {
      NoCrash(Selected(before, p.at, {}, limit), p.outcome, j);
      RetriedWaitsAMinute(before[j], p.outcome(j), p.clock(j), last);
    }
  }

  /** A pass that does not reach a waiting delivery has worked off `limit` that were ahead of it. */
  lemma AheadShrinks(before: seq<Row>, after: seq<Row>, limit: nat, p: Pass, last: int, i: nat)
    requires OnePass(before, after, limit, p) && p.at <= last < p.at + 60
    requires i in Waiting(before, p.at, {}) && i !in Selected(before, p.at, {}, limit)
    ensures |Ahead(after, last, i)| + limit <= |Ahead(before, last, i)|
  {
    var sel := Selected(before, p.at, {}, limit);
    SelectedAre(before, p.at, {}, limit);
    forall j: nat | j < |before|
      ensures j < |after| && (j !in sel ==> after[j] == before[j]) && (j in sel ==> j !in Waiting(after, last, {}))
    {
      PassOverRow(before, after, limit, p, last, j);
    }
    hide Selected, OnePass;
    var taken := set j | j in sel;
    var ahead, later := Ahead(before, last, i), Ahead(after, last, i);
    assert forall j: nat :: j in sel <==> j in taken;
    IncreasingSize(sel, taken);
    FullBatch(sel, Waiting(before, p.at, {}), limit, i);
    forall j | j in taken
      ensures j in ahead
    {
      assert j in sel;
    }
    forall j | j in later
      ensures j in ahead && j !in taken
    {
      assert j <= i < |before|;
    }
    SizesAdd(later, taken, ahead);
  }

  lemma FullBatch(sel: seq<nat>, waiting: set<nat>, limit: nat, i: nat)
    requires Increasing(sel) && i in waiting && i !in sel && forall j: nat | j in sel :: j in waiting
    requires |sel| == if limit <= |waiting| then limit else |waiting|
    ensures |sel| == limit
  {
    var taken := set j | j in sel;
    assert forall j: nat :: j in sel <==> j in taken;
    IncreasingSize(sel, taken);
    SizesAdd(taken, {i}, waiting);
  }

  lemma SizesAdd<T>(a: set<T>, b: set<T>, all: set<T>)
    requires a !! b && a <= all && b <= all
    ensures |a| + |b| <= |all|
  {
    assert |a + b| == |a| + |b|;
    assert all == (a + b) + (all - (a + b));
  }

  lemma {:induction false} StillWaiting(tables: seq<seq<Row>>, passes: seq<Pass>, limit: nat, i: nat, k: nat)
    requires Passes(tables, passes, limit) && passes != [] && k <= |passes|
    requires i in Waiting(tables[0], passes[0].at, {})
    requires forall j: nat | j < k :: i !in Selected(tables[j], passes[j].at, {}, limit)
    ensures i < |tables[k]| && tables[k][i] == tables[0][i]
    ensures |Ahead(tables[k], passes[|passes| - 1].at, i)| + k * limit <= |Ahead(tables[0], passes[|passes| - 1].at, i)|
  {
    hide OnePass, Selected, Ahead;
    if k != 0 {
      var last := passes[|passes| - 1].at;
      StillWaiting(tables, passes, limit, i, k - 1);
      assert OnePass(tables[k - 1], tables[k - 1 + 1], limit, passes[k - 1]);
      PassOverRow(tables[k - 1], tables[k], limit, passes[k - 1], last, i);
      AheadShrinks(tables[k - 1], tables[k], limit, passes[k - 1], last, i);
      assert k * limit == (k - 1) * limit + limit;
    }
  }

  /**
    A backlog is worked off in as many committed passes as its size divided by the limit, rounded up:
    passes within a minute, enough of them for everything that becomes due meanwhile, reach every
    delivery that was waiting at the first of them, whatever is queued behind it.
   */
  lemma BacklogIsWorkedOff(tables: seq<seq<Row>>, passes: seq<Pass>, limit: nat, i: nat) returns (k: nat)
    requires Passes(tables, passes, limit) && passes != []
    requires |Waiting(tables[0], passes[|passes| - 1].at, {})| <= |passes| * limit
    requires i in Waiting(tables[0], passes[0].at, {})
    ensures k < |passes| && i in Selected(tables[k], passes[k].at, {}, limit)
    ensures i < |tables[k]| && tables[k][i] == tables[0][i]
  {
    var m := |passes|;
    assert |tables| == m + 1;
    hide Passes, Selected;
    if forall j: nat | j < m :: i !in Selected(tables[j], passes[j].at, {}, limit) {
      StillWaiting(tables, passes, limit, i, m);
      NotYet(tables, passes, limit, i);
      assert false;
    }
    k := FirstTaken(tables, passes, limit, i);
    StillWaiting(tables, passes, limit, i, k);
  }

  lemma NotYet(tables: seq<seq<Row>>, passes: seq<Pass>, limit: nat, i: nat)
    requires Passes(tables, passes, limit) && passes != [] && i in Waiting(tables[0], passes[0].at, {})
    requires i < |tables[|passes|]| && tables[|passes|][i] == tables[0][i]
    ensures |Ahead(tables[|passes|], passes[|passes| - 1].at, i)| >= 1
    ensures |Ahead(tables[0], passes[|passes| - 1].at, i)| <= |Waiting(tables[0], passes[|passes| - 1].at, {})|
  {
    hide OnePass;
    var last := passes[|passes| - 1].at;
    assert passes[0].at <= last;
    SizesAdd(Ahead(tables[0], last, i), {}, Waiting(tables[0], last, {}));
    assert i in Ahead(tables[|passes|], last, i);
    SizesAdd({i}, {}, Ahead(tables[|passes|], last, i));
  }

  lemma FirstTaken(tables: seq<seq<Row>>, passes: seq<Pass>, limit: nat, i: nat) returns (k: nat)
    requires |tables| == |passes| + 1
    requires exists j: nat | j < |passes| :: i in Selected(tables[j], passes[j].at, {}, limit)
    ensures k < |passes| && i in Selected(tables[k], passes[k].at, {}, limit)
    ensures forall j: nat | j < k :: i !in Selected(tables[j], passes[j].at, {}, limit)
  {
    hide Selected;
    k := 0;
    while i !in Selected(tables[k], passes[k].at, {}, limit)
      invariant k < |passes|
      invariant exists j: nat | k <= j < |passes| :: i in Selected(tables[j], passes[j].at, {}, limit)
      invariant forall j: nat | j < k :: i !in Selected(tables[j], passes[j].at, {}, limit)
      decreases |passes| - k
    {
      k := k + 1;
    }
  }
}
