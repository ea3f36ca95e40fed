/**
  Communication anomalies: a captured baseline is a snapshot of the edges seen at a site, and an
  analysis keeps one row for each edge that was observed later and is not in the snapshot.
 */
module Anomalies {
  import opened Wrappers
  import opened Announcements

  type Edge = (string, string, string)   // source, destination, protocol

  /** An observation joined to the site of its asset. */
  datatype Observation = Observation(site: string, edge: Edge, at: int)

  datatype Baseline = Baseline(site: string, active: bool, capturedAt: int, capturedBy: string, edges: set<Edge>)

  datatype Status = Open | Acknowledged(at: int, actor: string)

  datatype Anomaly = Anomaly(firstSeen: int, lastSeen: int, count: nat, status: Status)

  type Key = (nat, Edge)   // baseline, edge

  type Table = map<Key, Anomaly>

  datatype Event =
    | BaselineCaptured(baseline: nat, site: string, edgeCount: nat, actor: string)
    | AnomalyAcknowledged(anomaly: Key, actor: string)

  const BASELINE_CONFIRMATION := "CAPTURE CURRENT COMMUNICATIONS AS BASELINE"

  function Get(t: Table, k: Key): Option<Anomaly> {
    if k in t then Some(t[k]) else None
  }

  // ---- The two grouped queries ----

  /** The edges ever observed at a site. */
  function EdgesOf(site: string, observations: seq<Observation>): set<Edge> {
    set o | o in observations && o.site == site :: o.edge
  }

  lemma EdgesAreObserved(site: string, observations: seq<Observation>)
    ensures forall e :: e in EdgesOf(site, observations) <==> exists o | o in observations :: o.site == site && o.edge == e
  {
  }

  predicate Later(b: Baseline, o: Observation) {
    o.site == b.site && o.at > b.capturedAt
  }

  /** The edges observed at the site of a baseline after it was captured. */
  function LaterEdges(b: Baseline, observations: seq<Observation>): set<Edge> {
    set o | o in observations && Later(b, o) :: o.edge
  }

  /** The times that are grouped under one edge of a baseline. */
  function Times(b: Baseline, e: Edge, observations: seq<Observation>): seq<int> {
    if observations == [] then
      []
    else
      var last := |observations| - 1;
      var o := observations[last];
      Times(b, e, observations[..last]) + if Later(b, o) && o.edge == e then [o.at] else []
  }

  predicate Counts(b: Baseline, e: Edge, o: Observation, at: int) {
    Later(b, o) && o.edge == e && o.at == at
  }

  lemma {:induction false} TimesAreOfLaterObservations(b: Baseline, e: Edge, observations: seq<Observation>, at: int)
    ensures at in Times(b, e, observations) <==> exists o | o in observations :: Counts(b, e, o, at)
  {
    hide Later;
    if observations != [] {
      var last := |observations| - 1;
      var front, o := observations[..last], observations[last];
      TimesAreOfLaterObservations(b, e, front, at);
      assert observations == front + [o];
      assert forall p :: p in observations <==> p in front || p == o;
      assert at in Times(b, e, observations) <==> at in Times(b, e, front) || Counts(b, e, o, at);
    }
  }

  function Earliest(times: seq<int>): (t: int)
    requires times != []
    ensures t in times && forall u | u in times :: t <= u
  {
    if |times| == 1 then times[0]
    else
      var rest := Earliest(times[1..]);
      assert times == [times[0]] + times[1..];
      if times[0] <= rest then times[0] else rest
  }

  function Latest(times: seq<int>): (t: int)
    requires times != []
    ensures t in times && forall u | u in times :: u <= t
  {
    if |times| == 1 then times[0]
    else
      var rest := Latest(times[1..]);
      assert times == [times[0]] + times[1..];
      if times[0] >= rest then times[0] else rest
  }

  lemma LaterEdgesHaveTimes(b: Baseline, e: Edge, observations: seq<Observation>)
    ensures e in LaterEdges(b, observations) <==> Times(b, e, observations) != []
  {
    var times := Times(b, e, observations);
    if times != [] {
      TimesAreOfLaterObservations(b, e, observations, times[0]);
    }
    if o :| o in observations && Later(b, o) && o.edge == e {
      assert Counts(b, e, o, o.at);
      TimesAreOfLaterObservations(b, e, observations, o.at);
    }
  }

  /** A later observation adds one time to the group it falls in. */
  lemma {:induction false} TimesAppend(b: Baseline, e: Edge, observations: seq<Observation>, more: seq<Observation>)
    ensures Times(b, e, observations + more) == Times(b, e, observations) + Times(b, e, more)
  {
    if more == [] {
      assert observations + more == observations;
    } else {
      var last := |more| - 1;
      var all := observations + more;
      assert all[..|all| - 1] == observations + more[..last];
      assert all[|all| - 1] == more[last];
      TimesAppend(b, e, observations, more[..last]);
    }
  }

  /** Only the site and the capture time of a baseline matter, not whether it is still active. */
  lemma {:induction false} TimesOfSameBaseline(b: Baseline, b': Baseline, e: Edge, observations: seq<Observation>)
    requires b.site == b'.site && b.capturedAt == b'.capturedAt
    ensures Times(b, e, observations) == Times(b', e, observations)
  {
    if observations != [] {
      TimesOfSameBaseline(b, b', e, observations[..|observations| - 1]);
    }
  }

  // ---- What an analysis does to one row ----

  function Outcome(b: Baseline, e: Edge, observations: seq<Observation>, prior: Option<Anomaly>): Option<Anomaly> {
    var times := Times(b, e, observations);
    if e in b.edges || times == [] then
      prior
    else if prior.Some? then
      Some(prior.value.(lastSeen := Latest(times), count := |times|))
    else
      Some(Anomaly(Earliest(times), Latest(times), |times|, Open))
  }

  /** The effect of analysing the first `n` baselines, row by row. */
  ghost predicate Analyzed(baselines: seq<Baseline>, observations: seq<Observation>, n: nat, t: Table, t': Table) {
    forall k: Key :: Get(t', k) == if k.0 < n && k.0 < |baselines| && baselines[k.0].active
                                   then Outcome(baselines[k.0], k.1, observations, Get(t, k))
                                   else Get(t, k)
  }

  /** Within a baseline: the edges in `seen` have been dealt with. */
  ghost predicate AnalyzedEdges(b: Baseline, n: nat, observations: seq<Observation>, seen: set<Edge>, t: Table, t': Table) {
    forall k: Key :: Get(t', k) == if k.0 == n && k.1 in seen then Outcome(b, k.1, observations, Get(t, k)) else Get(t, k)
  }

  /** The table after one edge of a baseline has been dealt with. */
  function AfterEdge(b: Baseline, n: nat, observations: seq<Observation>, e: Edge, t: Table): Table {
    var row := Outcome(b, e, observations, Get(t, (n, e)));
    if row.Some? then t[(n, e) := row.value] else t
  }

  lemma EdgeDone(b: Baseline, n: nat, observations: seq<Observation>, seen: set<Edge>, t: Table, t': Table, e: Edge)
    requires AnalyzedEdges(b, n, observations, seen, t, t') && e !in seen
    ensures AnalyzedEdges(b, n, observations, seen + {e}, t, AfterEdge(b, n, observations, e, t'))
  {
    var row := Outcome(b, e, observations, Get(t', (n, e)));
    assert (n, e) in t' ==> row.Some?;
    hide Outcome;
    forall k: Key
      ensures Get(AfterEdge(b, n, observations, e, t'), k) ==
              if k.0 == n && k.1 in seen + {e} then Outcome(b, k.1, observations, Get(t, k)) else Get(t, k)
    {
      assert Get(t', k) == if k.0 == n && k.1 in seen then Outcome(b, k.1, observations, Get(t, k)) else Get(t, k);
    }
  }

  lemma BaselineDone(baselines: seq<Baseline>, n: nat, observations: seq<Observation>, t0: Table, t: Table, t': Table)
    requires n < |baselines| && baselines[n].active
    requires Analyzed(baselines, observations, n, t0, t)
    requires AnalyzedEdges(baselines[n], n, observations, LaterEdges(baselines[n], observations), t, t')
    ensures Analyzed(baselines, observations, n + 1, t0, t')
  {
    forall k: Key
      ensures Get(t', k) == if k.0 < n + 1 && baselines[k.0].active
                            then Outcome(baselines[k.0], k.1, observations, Get(t0, k))
                            else Get(t0, k)
    {
      hide Get, Times, LaterEdges;
      if k.0 == n {
        LaterEdgesHaveTimes(baselines[n], k.1, observations);
      } else {
        hide Outcome;
      }
    }
  }

  lemma SkipInactive(baselines: seq<Baseline>, n: nat, observations: seq<Observation>, t0: Table, t: Table)
    requires n < |baselines| && !baselines[n].active && Analyzed(baselines, observations, n, t0, t)
    ensures Analyzed(baselines, observations, n + 1, t0, t)
  {
    hide Outcome, Get;
  }

  // ---- The store ----

  /** At most one baseline of a site is active. */
  predicate OneActive(baselines: seq<Baseline>) {
    forall i, j | 0 <= i < j < |baselines| :: baselines[i].active && baselines[j].active ==> baselines[i].site != baselines[j].site
  }

  /** A baseline holds the edges of its site among the first `n` observations. */
  predicate SnapshotOf(b: Baseline, n: nat, observations: seq<Observation>) {
    n <= |observations| && b.edges == EdgesOf(b.site, observations[..n])
  }

  /** A row stands for an edge outside the snapshot; it was created when `n` observations were stored. */
  ghost predicate RowOf(b: Baseline, e: Edge, row: Anomaly, n: nat, observations: seq<Observation>) {
    && e !in b.edges
    && n <= |observations|
    && Times(b, e, observations[..n]) != []
    && row.firstSeen == Earliest(Times(b, e, observations[..n]))
  }

  ghost predicate SnapshotsOf(baselines: seq<Baseline>, captured: seq<nat>, observations: seq<Observation>) {
    && |captured| == |baselines|
    && forall i | 0 <= i < |baselines| :: SnapshotOf(baselines[i], captured[i], observations)
  }

  ghost predicate RowsOf(baselines: seq<Baseline>, t: Table, created: map<Key, nat>, observations: seq<Observation>) {
    && created.Keys == t.Keys
    && forall k | k in t :: k.0 < |baselines| && RowOf(baselines[k.0], k.1, t[k], created[k], observations)
  }

  /** Rows keep the moment of their creation; the new ones were created with `n` observations stored. */
  ghost predicate CreatedSince(before: map<Key, nat>, after: map<Key, nat>, n: nat) {
    && before.Keys <= after.Keys
    && forall k | k in after :: after[k] == if k in before then before[k] else n
  }

  lemma UpdateRow(baselines: seq<Baseline>, t: Table, created: map<Key, nat>, observations: seq<Observation>, key: Key, row: Anomaly)
    requires RowsOf(baselines, t, created, observations) && key in t && row.firstSeen == t[key].firstSeen
    ensures RowsOf(baselines, t[key := row], created, observations)
    ensures t[key := row].Keys == t.Keys
  {
    hide Times, Earliest;
    assert RowOf(baselines[key.0], key.1, t[key], created[key], observations);
    assert t[key := row].Keys == t.Keys;
  }

  lemma NotInSnapshot(baselines: seq<Baseline>, t: Table, created: map<Key, nat>, observations: seq<Observation>, key: Key)
    requires RowsOf(baselines, t, created, observations) && key.0 < |baselines| && key.1 in baselines[key.0].edges
    ensures key !in t
  {
  }

  lemma RowOfNew(b: Baseline, e: Edge, row: Anomaly, observations: seq<Observation>)
    requires e !in b.edges && Times(b, e, observations) != [] && row.firstSeen == Earliest(Times(b, e, observations))
    ensures RowOf(b, e, row, |observations|, observations)
  {
    assert observations[..|observations|] == observations;
  }

  lemma AddRow(baselines: seq<Baseline>, t: Table, created: map<Key, nat>, observations: seq<Observation>, key: Key, row: Anomaly)
    requires RowsOf(baselines, t, created, observations) && key !in t && key.0 < |baselines|
    requires key.1 !in baselines[key.0].edges && Times(baselines[key.0], key.1, observations) != []
    requires row.firstSeen == Earliest(Times(baselines[key.0], key.1, observations))
    ensures RowsOf(baselines, t[key := row], created[key := |observations|], observations)
    ensures key !in created
  {
    hide Times, Earliest, Latest;
    hide RowOf;
    var t', created' := t[key := row], created[key := |observations|];
    forall k | k in t'
      ensures k.0 < |baselines| && RowOf(baselines[k.0], k.1, t'[k], created'[k], observations)
    {
      if k == key {
        RowOfNew(baselines[key.0], key.1, row, observations);
      } else {
        assert k in t && t'[k] == t[k] && created'[k] == created[k];
      }
    }
  }

  lemma CreateRow(before: map<Key, nat>, after: map<Key, nat>, key: Key, n: nat)
    requires CreatedSince(before, after, n) && key !in after
    ensures CreatedSince(before, after[key := n], n)
  {
  }

  lemma NothingCreated(before: map<Key, nat>, n: nat)
    ensures CreatedSince(before, before, n)
  {
  }

  lemma CreatedAgain(a: map<Key, nat>, b: map<Key, nat>, c: map<Key, nat>, n: nat)
    requires CreatedSince(a, b, n) && CreatedSince(b, c, n)
    ensures CreatedSince(a, c, n)
  {
  }

  class Monitor {
    var observations: seq<Observation>
    var baselines: seq<Baseline>
    var anomalies: Table
    var alerts: seq<Key>
    var audit: seq<Event>
    /** How many observations were stored when a baseline was captured, and when a row was created. */
    ghost var captured: seq<nat>
    ghost var created: map<Key, nat>

    ghost predicate Valid()
      reads this
    {
      && OneActive(baselines)
      && SnapshotsOf(baselines, captured, observations)
      && RowsOf(baselines, anomalies, created, observations)
      && Once(anomalies.Keys, alerts)
    }

    constructor ()
      ensures Valid() && observations == [] && baselines == [] && anomalies == map[] && alerts == [] && audit == []
    {
      observations, baselines, anomalies, alerts, audit := [], [], map[], [], [];
      captured, created := [], map[];
    }

    /** Ingestion stores an observation; times need not arrive in order. */
    method AddObservation(o: Observation)
      requires Valid()
      modifies this
      ensures Valid()
      ensures observations == old(observations) + [o]
      ensures baselines == old(baselines) && anomalies == old(anomalies) && alerts == old(alerts) && audit == old(audit)
      ensures captured == old(captured) && created == old(created)
    {
      hide RowOf, OneActive, Once, EdgesOf;
      forall n: nat | n <= |observations|
        ensures (observations + [o])[..n] == observations[..n]
      {
      }
      forall k | k in anomalies
        ensures RowOf(baselines[k.0], k.1, anomalies[k], created[k], observations + [o])
      {
        RowOfMore(baselines[k.0], k.1, anomalies[k], created[k], observations, [o]);
      }
      observations := observations + [o];
    }

    /** The current communications of a site become its baseline; the one before it is retired. */
    method CaptureBaseline(site: string, confirmation: string, now: int, actor: string) returns (r: Response<nat>)
      requires Valid()
      modifies this
      ensures Valid()
      ensures observations == old(observations) && anomalies == old(anomalies) && alerts == old(alerts)
      ensures created == old(created)
      ensures r.Refused? <==> confirmation != "CAPTURE CURRENT COMMUNICATIONS AS BASELINE"
      ensures r.Refused? ==> r.status == 422 && baselines == old(baselines) && audit == old(audit)
      ensures r.Success? ==>
                && r.value == |old(baselines)| && |baselines| == |old(baselines)| + 1
                && baselines[r.value] == Baseline(site, true, now, actor, EdgesOf(site, observations))
                && (forall e :: e in baselines[r.value].edges <==> exists o | o in observations :: o.site == site && o.edge == e)
                && (forall i | 0 <= i < r.value :: baselines[i] == Retired(old(baselines)[i], site))
                && (forall i | 0 <= i < r.value :: baselines[i].active <==> old(baselines)[i].active && old(baselines)[i].site != site)
                && audit == old(audit) + [BaselineCaptured(r.value, site, |EdgesOf(site, observations)|, actor)]
    {
      hide RowOf, Once, EdgesOf;
      if confirmation != BASELINE_CONFIRMATION {
        return Refused(422);
      }
      ghost var before := baselines;
      var retired := seq(|baselines|, i requires 0 <= i < |baselines| reads this => Retired(baselines[i], site));
      var edges := EdgesOf(site, observations);
      baselines := retired + [Baseline(site, true, now, actor, edges)];
      captured := captured + [|observations|];
      assert observations[..|observations|] == observations;
      EdgesAreObserved(site, observations);
      forall k | k in anomalies
        ensures RowOf(baselines[k.0], k.1, anomalies[k], created[k], observations)
      {
        RowOfRetired(before[k.0], baselines[k.0], k.1, anomalies[k], created[k], observations);
      }
      r := Success(|retired|);
      audit := audit + [BaselineCaptured(|retired|, site, |edges|, actor)];
    }

    /** One observed edge of one baseline. */
    method AnalyzeEdge(n: nat, e: Edge) returns (isNew: bool)
      requires Valid() && n < |baselines| && e in LaterEdges(baselines[n], observations)
      modifies this`anomalies, this`alerts, this`created
      ensures Valid()
      ensures anomalies == AfterEdge(baselines[n], n, observations, e, old(anomalies))
      ensures isNew <==> (n, e) in anomalies && (n, e) !in old(anomalies)
      ensures anomalies.Keys == old(anomalies).Keys + (if isNew then {(n, e)} else {})
      ensures alerts == old(alerts) + (if isNew then [(n, e)] else [])
      ensures CreatedSince(old(created), created, |observations|)
    {
      hide Once, SnapshotsOf, OneActive, CreatedSince, Times, LaterEdges, Earliest, Latest, RowOf;
      var b, key := baselines[n], (n, e);
      NothingCreated(created, |observations|);
      if e in b.edges {
        NotInSnapshot(baselines, anomalies, created, observations, key);
        return false;
      }
      hide RowsOf;
      LaterEdgesHaveTimes(b, e, observations);
      var times := Times(b, e, observations);
      if key in anomalies {
        var row := anomalies[key].(lastSeen := Latest(times), count := |times|);
        UpdateRow(baselines, anomalies, created, observations, key, row);
        anomalies := anomalies[key := row];
        return false;
      }
      var row := Anomaly(Earliest(times), Latest(times), |times|, Open);
      AddRow(baselines, anomalies, created, observations, key, row);
      AnnounceNew(anomalies.Keys, alerts, key);
      CreateRow(created, created, key, |observations|);
      assert anomalies[key := row].Keys == anomalies.Keys + {key};
      anomalies := anomalies[key := row];
      created := created[key := |observations|];
      alerts := alerts + [key];
      isNew := true;
    }

    /** Every observed edge of one baseline, in whatever order the query returns them. */
    method AnalyzeBaseline(n: nat) returns (count: nat)
      requires Valid() && n < |baselines|
      modifies this`anomalies, this`alerts, this`created
      ensures Valid() && old(alerts) <= alerts
      ensures count == |anomalies.Keys| - |old(anomalies).Keys|
      ensures AnalyzedEdges(baselines[n], n, observations, LaterEdges(baselines[n], observations), old(anomalies), anomalies)
      ensures CreatedSince(old(created), created, |observations|)
    {
      hide RowsOf, Once, SnapshotsOf, OneActive, CreatedSince, AnalyzedEdges, AfterEdge, LaterEdges;
      ghost var t0 := anomalies;
      var pending := LaterEdges(baselines[n], observations);
      count := 0;
      ghost var seen := {};
      NothingSeen(baselines[n], n, observations, t0);
      NothingCreated(created, |observations|);
      while pending != {}
        invariant Valid() && old(alerts) <= alerts
        invariant pending + seen == LaterEdges(baselines[n], observations) && pending !! seen
        invariant count == |anomalies.Keys| - |t0.Keys|
        invariant AnalyzedEdges(baselines[n], n, observations, seen, t0, anomalies)
        invariant CreatedSince(old(created), created, |observations|)
      {
        var e :| e in pending;
        ghost var t, c := anomalies, created;
        var isNew := AnalyzeEdge(n, e);
        EdgeDone(baselines[n], n, observations, seen, t0, t, e);
        CreatedAgain(old(created), c, created, |observations|);
        if isNew {
          count := count + 1;
        }
        pending, seen := pending - {e}, seen + {e};
      }
      assert seen == LaterEdges(baselines[n], observations);
    }

    method AnalyzeActiveBaselines() returns (count: nat)
      requires Valid()
      modifies this`anomalies, this`alerts, this`created
      ensures Valid() && old(alerts) <= alerts
      ensures count == |anomalies.Keys| - |old(anomalies).Keys|
      ensures Analyzed(baselines, observations, |baselines|, old(anomalies), anomalies)
      ensures CreatedSince(old(created), created, |observations|)
    {
      hide RowsOf, Once, SnapshotsOf, OneActive, CreatedSince, Analyzed, AnalyzedEdges;
      ghost var t0 := anomalies;
      count := 0;
      NothingAnalyzed(baselines, observations, t0);
      NothingCreated(created, |observations|);
      for n := 0 to |baselines|
        invariant Valid() && old(alerts) <= alerts
        invariant count == |anomalies.Keys| - |t0.Keys|
        invariant Analyzed(baselines, observations, n, t0, anomalies)
        invariant CreatedSince(old(created), created, |observations|)
      {
        if !baselines[n].active {
          SkipInactive(baselines, n, observations, t0, anomalies);
          continue;
        }
        ghost var t, c := anomalies, created;
        var found := AnalyzeBaseline(n);
        CreatedAgain(old(created), c, created, |observations|);
        BaselineDone(baselines, n, observations, t0, t, anomalies);
        count := count + found;
      }
    }

    method AcknowledgeAnomaly(key: Key, now: int, actor: string) returns (r: Response<Anomaly>)
      requires Valid()
      modifies this`anomalies, this`audit
      ensures Valid()
      ensures r.Refused? <==> key !in old(anomalies)
      ensures r.Refused? ==> r.status == 404 && anomalies == old(anomalies) && audit == old(audit)
      ensures r.Success? ==>
                && r.value == old(anomalies)[key].(status := Acknowledged(now, actor))
                && anomalies == old(anomalies)[key := r.value]
                && audit == old(audit) + [AnomalyAcknowledged(key, actor)]
    {
      hide RowsOf, Once, SnapshotsOf, OneActive;
      if key !in anomalies {
        return Refused(404);
      }
      var row := anomalies[key].(status := Acknowledged(now, actor));
      UpdateRow(baselines, anomalies, created, observations, key, row);
      anomalies := anomalies[key := row];
      audit := audit + [AnomalyAcknowledged(key, actor)];
      r := Success(row);
    }
  }

  /** Two active baselines are of two sites. */
  lemma OneBaselineIsActive(m: Monitor, i: nat, j: nat)
    requires m.Valid() && i < |m.baselines| && j < |m.baselines| && m.baselines[i].active && m.baselines[j].active
    requires m.baselines[i].site == m.baselines[j].site
    ensures i == j
  {
  }

  function Retired(b: Baseline, site: string): Baseline {
    if b.site == site && b.active then b.(active := false) else b
  }

  lemma NothingSeen(b: Baseline, n: nat, observations: seq<Observation>, t: Table)
    ensures AnalyzedEdges(b, n, observations, {}, t, t)
  {
  }

  lemma NothingAnalyzed(baselines: seq<Baseline>, observations: seq<Observation>, t: Table)
    ensures Analyzed(baselines, observations, 0, t, t)
  {
  }

  lemma RowOfMore(b: Baseline, e: Edge, row: Anomaly, n: nat, observations: seq<Observation>, more: seq<Observation>)
    requires RowOf(b, e, row, n, observations)
    ensures RowOf(b, e, row, n, observations + more)
  {
    assert (observations + more)[..n] == observations[..n];
  }

  lemma RowOfRetired(b: Baseline, b': Baseline, e: Edge, row: Anomaly, n: nat, observations: seq<Observation>)
    requires RowOf(b, e, row, n, observations) && b'.(active := b.active) == b
    ensures RowOf(b', e, row, n, observations)
  {
    TimesOfSameBaseline(b, b', e, observations[..n]);
  }

  // ---- What an analysis establishes ----

  /** The stored observations that a row of a baseline stands for. */
  function Sightings(b: Baseline, e: Edge, observations: seq<Observation>): set<nat> {
    set j: nat | j < |observations| && Later(b, observations[j]) && observations[j].edge == e
  }

  lemma {:induction false} TimesCountSightings(b: Baseline, e: Edge, observations: seq<Observation>)
    ensures |Times(b, e, observations)| == |Sightings(b, e, observations)|
  {
    if observations == [] {
      assert Sightings(b, e, observations) == {};
    } else {
      var last := |observations| - 1;
      var front, o := observations[..last], observations[last];
      TimesCountSightings(b, e, front);
      assert Sightings(b, e, observations) == Sightings(b, e, front) + if Later(b, o) && o.edge == e then {last} else {};
    }
  }

  /** A row that agrees with a recount of the observations. */
  predicate Recounted(b: Baseline, e: Edge, row: Anomaly, observations: seq<Observation>) {
    var s := Sightings(b, e, observations);
    && row.count == |s|
    && (forall j | j in s :: observations[j].at <= row.lastSeen)
    && (exists j | j in s :: observations[j].at == row.lastSeen)
  }

  lemma LatestRecounts(b: Baseline, e: Edge, row: Anomaly, observations: seq<Observation>)
    requires Times(b, e, observations) != []
    requires row.lastSeen == Latest(Times(b, e, observations)) && row.count == |Times(b, e, observations)|
    ensures Recounted(b, e, row, observations)
  {
    TimesCountSightings(b, e, observations);
    var s := Sightings(b, e, observations);
    forall j | j in s
      ensures observations[j].at <= row.lastSeen
    {
      assert Counts(b, e, observations[j], observations[j].at);
      TimesAreOfLaterObservations(b, e, observations, observations[j].at);
    }
    TimesAreOfLaterObservations(b, e, observations, row.lastSeen);
    var o :| o in observations && Counts(b, e, o, row.lastSeen);
    var j: nat :| j < |observations| && observations[j] == o;
    assert j in s;
  }

  /**
    The anomalies of an active baseline are exactly the edges seen at its site after the capture and
    missing from its snapshot; their count and last time are those of a recount.
   */
  lemma AnomaliesAreTheNewEdges(baselines: seq<Baseline>, observations: seq<Observation>, t: Table, created: map<Key, nat>, t': Table, i: nat, e: Edge)
    requires Analyzed(baselines, observations, |baselines|, t, t') && RowsOf(baselines, t, created, observations)
    requires i < |baselines| && baselines[i].active
    ensures (i, e) in t' <==> e in LaterEdges(baselines[i], observations) && e !in baselines[i].edges
    ensures (i, e) in t' ==> Recounted(baselines[i], e, t'[(i, e)], observations)
  {
    hide LaterEdges, Times, Recounted, Earliest, Latest;
    var b := baselines[i];
    assert Get(t', (i, e)) == Outcome(b, e, observations, Get(t, (i, e)));
    LaterEdgesHaveTimes(b, e, observations);
    if (i, e) in t {
      RowStaysObserved(b, e, t[(i, e)], created[(i, e)], observations);
    }
    if (i, e) in t' {
      LatestRecounts(b, e, t'[(i, e)], observations);
    }
  }

  /**
    The same in terms of the stored observations: an anomaly is an edge outside the snapshot with a
    sighting at the site strictly after the capture; its count is the number of sightings, its last
    time that of the last, and a row that is new is open and starts with the first.
   */
  lemma AnomaliesMean(baselines: seq<Baseline>, observations: seq<Observation>, t: Table, created: map<Key, nat>, t': Table, i: nat, e: Edge)
    requires Analyzed(baselines, observations, |baselines|, t, t') && RowsOf(baselines, t, created, observations)
    requires i < |baselines| && baselines[i].active
    ensures var b := baselines[i];
            var seen := set j: nat | j < |observations| && observations[j].site == b.site && observations[j].at > b.capturedAt
                                     && observations[j].edge == e;
            && ((i, e) in t' <==> e !in b.edges && seen != {})
            && ((i, e) in t' ==>
                  var row := t'[(i, e)];
                  && row.count == |seen|
                  && (forall j | j in seen :: observations[j].at <= row.lastSeen)
                  && (exists j | j in seen :: observations[j].at == row.lastSeen)
                  && ((i, e) !in t ==>
                        && row.status == Open && (forall j | j in seen :: row.firstSeen <= observations[j].at)
                        && (exists j | j in seen :: observations[j].at == row.firstSeen)))
  {
    AnomaliesAreTheNewEdges(baselines, observations, t, created, t', i, e);
    SightingsAre(baselines[i], e, observations);
    NewRowsAreOpen(baselines, observations, t, t', i, e);
    hide Analyzed, RowsOf, LaterEdges, EdgesOf, Later;
  }

  lemma SightingsAre(b: Baseline, e: Edge, observations: seq<Observation>)
    ensures Sightings(b, e, observations) ==
            set j: nat | j < |observations| && observations[j].site == b.site && observations[j].at > b.capturedAt && observations[j].edge == e
    ensures e in LaterEdges(b, observations) <==> Sightings(b, e, observations) != {}
  {
    if e in LaterEdges(b, observations) {
      var o :| o in observations && Later(b, o) && o.edge == e;
      var j: nat :| j < |observations| && observations[j] == o;
      assert j in Sightings(b, e, observations);
    }
    if j :| j in Sightings(b, e, observations) {
      assert observations[j] in observations;
    }
  }

  lemma NewRowsAreOpen(baselines: seq<Baseline>, observations: seq<Observation>, t: Table, t': Table, i: nat, e: Edge)
    requires Analyzed(baselines, observations, |baselines|, t, t') && i < |baselines| && baselines[i].active
    ensures (i, e) in t' && (i, e) !in t ==>
              var row, seen := t'[(i, e)], Sightings(baselines[i], e, observations);
              && row.status == Open && (forall j | j in seen :: row.firstSeen <= observations[j].at)
              && (exists j | j in seen :: observations[j].at == row.firstSeen)
  {
    var b := baselines[i];
    hide Times, Earliest, Latest;
    assert Get(t', (i, e)) == Outcome(b, e, observations, Get(t, (i, e)));
    if (i, e) in t' && (i, e) !in t {
      FirstOfSightings(b, e, observations);
    }
  }

  lemma FirstOfSightings(b: Baseline, e: Edge, observations: seq<Observation>)
    requires Times(b, e, observations) != []
    ensures var first, seen := Earliest(Times(b, e, observations)), Sightings(b, e, observations);
            (forall j | j in seen :: first <= observations[j].at) && (exists j | j in seen :: observations[j].at == first)
  {
    var first, seen := Earliest(Times(b, e, observations)), Sightings(b, e, observations);
    forall j | j in seen
      ensures first <= observations[j].at
    {
      assert Counts(b, e, observations[j], observations[j].at);
      TimesAreOfLaterObservations(b, e, observations, observations[j].at);
    }
    TimesAreOfLaterObservations(b, e, observations, first);
    var o :| o in observations && Counts(b, e, o, first);
    var j: nat :| j < |observations| && observations[j] == o;
    assert j in seen;
  }

  lemma RowStaysObserved(b: Baseline, e: Edge, row: Anomaly, n: nat, observations: seq<Observation>)
    requires RowOf(b, e, row, n, observations)
    ensures Times(b, e, observations) != []
  {
    TimesAppend(b, e, observations[..n], observations[n..]);
    assert observations == observations[..n] + observations[n..];
  }

  /** An analysis right after another finds nothing to create or to change. */
  lemma RerunChangesNothing(baselines: seq<Baseline>, observations: seq<Observation>, t: Table, t1: Table, t2: Table)
    requires Analyzed(baselines, observations, |baselines|, t, t1) && Analyzed(baselines, observations, |baselines|, t1, t2)
    ensures t2 == t1
  {
    forall k: Key
      ensures Get(t2, k) == Get(t1, k)
    {
      if k.0 < |baselines| && baselines[k.0].active {
        OutcomeTwice(baselines[k.0], k.1, observations, Get(t, k));
      }
    }
    forall k: Key
      ensures k in t2 <==> k in t1
      ensures k in t2 && k in t1 ==> t2[k] == t1[k]
    {
      assert Get(t2, k) == Get(t1, k);
    }
  }

  lemma OutcomeTwice(b: Baseline, e: Edge, observations: seq<Observation>, prior: Option<Anomaly>)
    ensures Outcome(b, e, observations, Outcome(b, e, observations, prior)) == Outcome(b, e, observations, prior)
  {
  }

  /** An analysis drops no row, keeps every first time, and undoes no acknowledgement. */
  lemma RowsAreKept(baselines: seq<Baseline>, observations: seq<Observation>, t: Table, t': Table, k: Key)
    requires Analyzed(baselines, observations, |baselines|, t, t') && k in t
    ensures k in t' && t'[k].firstSeen == t[k].firstSeen && t'[k].status == t[k].status
    ensures (k.0 < |baselines| ==> !baselines[k.0].active) ==> t'[k] == t[k]
  {
    hide Times, Latest, Earliest;
    assert Get(t, k) == Some(t[k]);
    assert Get(t', k).Some?;
  }

  lemma EarliestOfBoth(times: seq<int>, more: seq<int>)
    requires times != []
    ensures Earliest(times + more) == Earliest(times) <==> forall at | at in more :: at >= Earliest(times)
  {
    var all := times + more;
    assert forall at :: at in all <==> at in times || at in more;
  }

  lemma TimesSince(b: Baseline, e: Edge, n: nat, observations: seq<Observation>, bound: int)
    requires n <= |observations|
    ensures (forall at | at in Times(b, e, observations[n..]) :: at >= bound) <==>
            forall j | n <= j < |observations| && Later(b, observations[j]) && observations[j].edge == e ::
              observations[j].at >= bound
  {
    hide Times, Later;
    var since := observations[n..];
    forall j | n <= j < |observations| && Later(b, observations[j]) && observations[j].edge == e
      ensures observations[j].at in Times(b, e, since)
    {
      assert since[j - n] == observations[j] && Counts(b, e, observations[j], observations[j].at);
      TimesAreOfLaterObservations(b, e, since, observations[j].at);
    }
    forall at | at in Times(b, e, since)
      ensures exists j | n <= j < |observations| :: Counts(b, e, observations[j], at)
    {
      TimesAreOfLaterObservations(b, e, since, at);
      var o :| o in since && Counts(b, e, o, at);
      var k: nat :| k < |since| && since[k] == o;
      assert observations[n + k] == o;
    }
  }

  /**
    The first time of a row is the earliest time known when the row was created. It is still the
    earliest of all sightings exactly when none of those stored since is older.
   */
  lemma FirstSeenIsExactIff(b: Baseline, e: Edge, row: Anomaly, n: nat, observations: seq<Observation>)
    requires RowOf(b, e, row, n, observations)
    ensures Times(b, e, observations) != []
    ensures row.firstSeen == Earliest(Times(b, e, observations)) <==>
            forall j | n <= j < |observations| && Later(b, observations[j]) && observations[j].edge == e ::
              observations[j].at >= row.firstSeen
  {
    hide Times, Earliest, Later;
    var known, since := observations[..n], observations[n..];
    assert observations == known + since;
    TimesAppend(b, e, known, since);
    EarliestOfBoth(Times(b, e, known), Times(b, e, since));
    TimesSince(b, e, n, observations, row.firstSeen);
  }

  /** An older observation that arrives late leaves the row with a first time that is too recent. */
  lemma FirstSeenCanLag(e: Edge)
    ensures var b := Baseline("plant", true, 0, "admin", {});
            var known := [Observation("plant", e, 20)];
            var row := Anomaly(20, 20, 1, Open);
            var late := known + [Observation("plant", e, 10)];
            RowOf(b, e, row, 1, late) && row.firstSeen != Earliest(Times(b, e, late))
  {
    var b := Baseline("plant", true, 0, "admin", {});
    var known := [Observation("plant", e, 20)];
    var row := Anomaly(20, 20, 1, Open);
    var late := known + [Observation("plant", e, 10)];
    assert late[..1] == known && known[..0] == [];
    assert Times(b, e, known) == [20];
    assert RowOf(b, e, row, 1, late);
    FirstSeenIsExactIff(b, e, row, 1, late);
    assert late[1].at < row.firstSeen;
  }

  /** An edge outside a snapshot was never reported at the site before the capture. */
  lemma NewEdgesWereNeverReported(b: Baseline, n: nat, observations: seq<Observation>, e: Edge, j: nat)
    requires SnapshotOf(b, n, observations) && e !in b.edges
    requires j < |observations| && observations[j].site == b.site && observations[j].edge == e
    ensures n <= j
  {
    assert forall i: nat | i < n :: observations[..n][i] == observations[i] && observations[i] in observations[..n];
  }
}
