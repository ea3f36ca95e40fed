/**
  CVE correlation: one row per asset and CVE, upserted on every match, rejected when a match goes
  stale, and announced once, when the row first appears.
 */
module Correlation {
  import opened Wrappers
  import opened Announcements
  import opened Cpe

  datatype Status = Candidate | Confirmed | Rejected

  datatype Row = Row(source: string, status: Status, confidence: real, columns: Columns)

  /** What a row copies from the catalogue, or derives from its references. */
  datatype Columns = Columns(cvssScore: Option<real>, severity: Option<string>, exploitable: bool, patchAvailable: bool,
                             description: string, icsAdvisories: seq<string>)

  type Pair = (nat, string)   // asset id, CVE id

  type Table = map<Pair, Row>

  datatype Reference = Reference(url: Option<string>, tags: seq<string>)

  datatype Vulnerability = Vulnerability(
    cveId: string, cpeMatches: seq<CpeMatch>, cvssScore: Option<real>, severity: Option<string>,
    knownExploited: bool, description: string, references: seq<Reference>)

  predicate Contains(text: string, part: string) {
    part <= text || (text != "" && Contains(text[1..], part))
  }

  predicate IsCisaIcsAdvisory(env: Env, url: Option<string>) {
    url.Some? && Contains(env.casefold(url.value), "cisa.gov/news-events/ics-advisories/")
  }

  predicate OffersPatch(env: Env, references: seq<Reference>) {
    exists r | r in references :: exists t | t in r.tags :: env.casefold(t) in {"patch", "vendor advisory"}
  }

  function IcsAdvisories(env: Env, references: seq<Reference>): seq<string> {
    if references == [] then []
    else (if IsCisaIcsAdvisory(env, references[0].url) then [references[0].url.value] else []) + IcsAdvisories(env, references[1..])
  }

  function ColumnsOf(env: Env, v: Vulnerability): Columns {
    Columns(v.cvssScore, v.severity, v.knownExploited, OffersPatch(env, v.references), v.description, IcsAdvisories(env, v.references))
  }

  /** The columns for the first catalogue entry of a CVE. */
  function ColumnsFor(env: Env, vulns: seq<Vulnerability>, cve: string): Option<Columns> {
    if vulns == [] then None
    else if vulns[0].cveId == cve then Some(ColumnsOf(env, vulns[0]))
    else ColumnsFor(env, vulns[1..], cve)
  }

  lemma {:induction false} ColumnsForEntry(env: Env, vulns: seq<Vulnerability>, n: nat)
    requires n < |vulns| && DistinctCves(vulns)
    ensures ColumnsFor(env, vulns, vulns[n].cveId) == Some(ColumnsOf(env, vulns[n]))
  {
    if n > 0 {
      assert vulns[0].cveId != vulns[n].cveId;
      ColumnsForEntry(env, vulns[1..], n - 1);
    }
  }

  lemma {:induction false} EntriesHaveColumns(env: Env, vulns: seq<Vulnerability>, n: nat)
    requires n < |vulns|
    ensures ColumnsFor(env, vulns, vulns[n].cveId).Some?
  {
    if n > 0 && vulns[0].cveId != vulns[n].cveId {
      EntriesHaveColumns(env, vulns[1..], n - 1);
    }
  }

  const NO_COLUMNS := Columns(None, None, false, false, "", [])

  function ColumnsOrNone(c: Option<Columns>): Columns {
    if c.Some? then c.value else NO_COLUMNS
  }

  predicate Evaluated(a: Asset) {
    a.vendor.Some? && a.model.Some?
  }

  predicate DistinctAssets(assets: seq<Asset>) {
    forall i, j | 0 <= i < j < |assets| :: assets[i].id != assets[j].id
  }

  predicate DistinctCves(vulns: seq<Vulnerability>) {
    forall i, j | 0 <= i < j < |vulns| :: vulns[i].cveId != vulns[j].cveId
  }

  /** The match relation, against the first `n` entries of the catalogue. */
  predicate Matched(env: Env, a: Asset, vulns: seq<Vulnerability>, n: nat, cve: string)
    requires n <= |vulns|
  {
    exists j | 0 <= j < n :: vulns[j].cveId == cve && Matches(env, a, vulns[j].cpeMatches)
  }

  function Get(t: Table, p: Pair): Option<Row> {
    if p in t then Some(t[p]) else None
  }

  function MatchStatus(a: Asset): Status {
    if Confidence(a) >= 0.9 then Confirmed else Candidate
  }

  /** The row of a matched pair: an update leaves the source as it was. */
  function Upserted(a: Asset, columns: Columns, prior: Option<Row>): Row {
    Row(if prior.Some? then prior.value.source else "nvd", MatchStatus(a), Confidence(a), columns)
  }

  function Staled(prior: Row): Row {
    if prior.source == "nvd" && prior.status != Rejected then prior.(status := Rejected, confidence := 0.0) else prior
  }

  /** What a run makes of one row of an evaluated asset. */
  function Outcome(a: Asset, columns: Columns, matched: bool, prior: Option<Row>): Option<Row> {
    if matched then Some(Upserted(a, columns, prior)) else if prior.Some? then Some(Staled(prior.value)) else None
  }

  /** The rows of one asset are what its turn makes of them. */
  ghost predicate RowsOfAsset(env: Env, a: Asset, vulns: seq<Vulnerability>, t: Table, t': Table) {
    forall cve :: Get(t', (a.id, cve)) ==
                  Outcome(a, ColumnsOrNone(ColumnsFor(env, vulns, cve)), Matched(env, a, vulns, |vulns|, cve), Get(t, (a.id, cve)))
  }

  /** A run's effect on the table, one asset at a time. */
  ghost predicate Correlated(env: Env, assets: seq<Asset>, vulns: seq<Vulnerability>, n: nat, t: Table, t': Table)
    requires n <= |assets|
  {
    && (forall i | 0 <= i < n && Evaluated(assets[i]) :: RowsOfAsset(env, assets[i], vulns, t, t'))
    && (forall p: Pair | (forall i | 0 <= i < n && Evaluated(assets[i]) :: assets[i].id != p.0) :: Get(t', p) == Get(t, p))
  }

  /** The catalogue CVEs that match an asset. */
  function MatchedCves(env: Env, a: Asset, vulns: seq<Vulnerability>): set<string> {
    set v | v in vulns && Matches(env, a, v.cpeMatches) :: v.cveId
  }

  /** The number of matching pairs among the first `n` assets. */
  function MatchesFound(env: Env, assets: seq<Asset>, vulns: seq<Vulnerability>, n: nat): nat
    requires n <= |assets|
  {
    if n == 0 then 0
    else MatchesFound(env, assets, vulns, n - 1) +
         if Evaluated(assets[n - 1]) then |MatchedCves(env, assets[n - 1], vulns)| else 0
  }

  lemma MatchedSet(env: Env, a: Asset, vulns: seq<Vulnerability>, matched: set<string>)
    requires forall cve :: cve in matched <==> Matched(env, a, vulns, |vulns|, cve)
    ensures matched == MatchedCves(env, a, vulns)
  {
    hide Matches;
    assert forall cve :: cve in MatchedCves(env, a, vulns) <==> Matched(env, a, vulns, |vulns|, cve);
  }

  /** Every row comes from the only source there is. */
  ghost predicate AllNvd(t: Table) {
    forall p | p in t :: t[p].source == "nvd"
  }

  /** Each row has been announced exactly once, and nothing else has; every row came from the NVD. */
  ghost predicate Announced(t: Table, alerts: seq<Pair>) {
    Once(t.Keys, alerts) && AllNvd(t)
  }

  // ---- One asset ----

  /** Within an asset: the first `n` vulnerabilities have been upserted into `t`. */
  ghost predicate UpsertedUpTo(env: Env, a: Asset, vulns: seq<Vulnerability>, n: nat, t: Table, t': Table)
    requires n <= |vulns|
  {
    && (forall cve :: Get(t', (a.id, cve)) ==
                      if Matched(env, a, vulns, n, cve) then Some(Upserted(a, ColumnsOrNone(ColumnsFor(env, vulns, cve)), Get(t, (a.id, cve)))) else Get(t, (a.id, cve)))
    && (forall p: Pair | p.0 != a.id :: Get(t', p) == Get(t, p))
  }

  lemma MatchedStep(env: Env, a: Asset, vulns: seq<Vulnerability>, n: nat, cve: string)
    requires n < |vulns|
    ensures Matched(env, a, vulns, n + 1, cve) <==>
            Matched(env, a, vulns, n, cve) || (vulns[n].cveId == cve && Matches(env, a, vulns[n].cpeMatches))
  {
    hide Matches;
  }

  lemma UpsertStep(env: Env, a: Asset, vulns: seq<Vulnerability>, n: nat, t: Table, t': Table)
    requires n < |vulns| && UpsertedUpTo(env, a, vulns, n, t, t') && DistinctCves(vulns)
    ensures var p := (a.id, vulns[n].cveId);
            UpsertedUpTo(env, a, vulns, n + 1, t,
                         if Matches(env, a, vulns[n].cpeMatches) then t'[p := Upserted(a, ColumnsOf(env, vulns[n]), Get(t', p))] else t')
    ensures !Matched(env, a, vulns, n, vulns[n].cveId)
  {
    hide Matches, Upserted, ColumnsOf, ColumnsFor;
    MatchedGrows(env, a, vulns, n);
    ColumnsForEntry(env, vulns, n);
    assert !Matched(env, a, vulns, n, vulns[n].cveId);
  }

  lemma MatchedGrows(env: Env, a: Asset, vulns: seq<Vulnerability>, n: nat)
    requires n < |vulns|
    ensures forall cve :: Matched(env, a, vulns, n + 1, cve) <==>
                          Matched(env, a, vulns, n, cve) || (vulns[n].cveId == cve && Matches(env, a, vulns[n].cpeMatches))
  {
    hide Matches, Matched;
    forall cve
      ensures Matched(env, a, vulns, n + 1, cve) <==>
              Matched(env, a, vulns, n, cve) || (vulns[n].cveId == cve && Matches(env, a, vulns[n].cpeMatches))
    {
      MatchedStep(env, a, vulns, n, cve);
    }
  }

  /** A CVE not reached yet has a row now just when it had one at the start of the asset. */
  lemma NotYetUpserted(env: Env, a: Asset, vulns: seq<Vulnerability>, n: nat, t: Table, t': Table)
    requires n < |vulns| && UpsertedUpTo(env, a, vulns, n, t, t') && !Matched(env, a, vulns, n, vulns[n].cveId)
    ensures (a.id, vulns[n].cveId) in t' <==> (a.id, vulns[n].cveId) in t
  {
    hide Matched;
    var p := (a.id, vulns[n].cveId);
    assert Get(t', p) == Get(t, p);
  }

  /** Rejecting the stale rows of one asset. */
  function Reject(t: Table, id: nat, matched: set<string>): Table {
    map p: Pair | p in t :: if p.0 == id && p.1 !in matched then Staled(t[p]) else t[p]
  }

  /** What an asset's turn does to the rows of the asset, and that it leaves the others alone. */
  lemma AssetRows(env: Env, a: Asset, vulns: seq<Vulnerability>, t: Table, t1: Table, matched: set<string>)
    requires UpsertedUpTo(env, a, vulns, |vulns|, t, t1)
    requires forall cve :: cve in matched <==> Matched(env, a, vulns, |vulns|, cve)
    ensures RowsOfAsset(env, a, vulns, t, Reject(t1, a.id, matched))
    ensures forall p: Pair | p.0 != a.id :: Get(Reject(t1, a.id, matched), p) == Get(t, p)
  {
    hide Matched, Upserted, Staled, ColumnsFor, ColumnsOrNone;
    forall p: Pair | p.0 != a.id
      ensures Get(Reject(t1, a.id, matched), p) == Get(t, p)
    {
      assert Get(t1, p) == Get(t, p);
    }
  }

  lemma AssetDone(env: Env, assets: seq<Asset>, vulns: seq<Vulnerability>, n: nat, t0: Table, t: Table, t1: Table, matched: set<string>)
    requires n < |assets| && DistinctAssets(assets) && Evaluated(assets[n])
    requires Correlated(env, assets, vulns, n, t0, t)
    requires UpsertedUpTo(env, assets[n], vulns, |vulns|, t, t1)
    requires forall cve :: cve in matched <==> Matched(env, assets[n], vulns, |vulns|, cve)
    ensures Correlated(env, assets, vulns, n + 1, t0, Reject(t1, assets[n].id, matched))
  {
    AssetRows(env, assets[n], vulns, t, t1, matched);
    UntouchedSoFar(env, assets, vulns, n, t0, t);
    hide Matched, Get, Reject, UpsertedUpTo, RowsOfAsset, Evaluated, DistinctAssets, Correlated;
    SameRowsBefore(env, assets[n], vulns, t0, t, Reject(t1, assets[n].id, matched));
    OneMoreAsset(env, assets, vulns, n, t0, t, Reject(t1, assets[n].id, matched));
  }

  /** The rows of an asset whose turn has not come are what they were. */
  lemma UntouchedSoFar(env: Env, assets: seq<Asset>, vulns: seq<Vulnerability>, n: nat, t0: Table, t: Table)
    requires n < |assets| && DistinctAssets(assets) && Correlated(env, assets, vulns, n, t0, t)
    ensures forall cve :: Get(t, (assets[n].id, cve)) == Get(t0, (assets[n].id, cve))
  {
    hide RowsOfAsset, Get, Evaluated;
    forall cve
      ensures Get(t, (assets[n].id, cve)) == Get(t0, (assets[n].id, cve))
    {
      assert forall i | 0 <= i < n && Evaluated(assets[i]) :: assets[i].id != (assets[n].id, cve).0;
    }
  }

  lemma OneMoreAsset(env: Env, assets: seq<Asset>, vulns: seq<Vulnerability>, n: nat, t0: Table, t: Table, t': Table)
    requires n < |assets| && DistinctAssets(assets) && Evaluated(assets[n])
    requires Correlated(env, assets, vulns, n, t0, t) && RowsOfAsset(env, assets[n], vulns, t0, t')
    requires forall p: Pair | p.0 != assets[n].id :: Get(t', p) == Get(t, p)
    ensures Correlated(env, assets, vulns, n + 1, t0, t')
  {
    hide RowsOfAsset, Get, Evaluated;
    forall i | 0 <= i < n && Evaluated(assets[i])
      ensures RowsOfAsset(env, assets[i], vulns, t0, t')
    {
      assert assets[i].id != assets[n].id;
      SameRowsAfter(env, assets[i], vulns, t0, t, t');
    }
    forall p: Pair | forall i | 0 <= i < n + 1 && Evaluated(assets[i]) :: assets[i].id != p.0
      ensures Get(t', p) == Get(t0, p)
    {
      assert assets[n].id != p.0;
    }
  }

  lemma SameRowsBefore(env: Env, a: Asset, vulns: seq<Vulnerability>, t0: Table, t: Table, t': Table)
    requires RowsOfAsset(env, a, vulns, t, t') && forall cve :: Get(t, (a.id, cve)) == Get(t0, (a.id, cve))
    ensures RowsOfAsset(env, a, vulns, t0, t')
  {
    hide Outcome, Matched, Get, ColumnsFor, ColumnsOrNone;
  }

  lemma SameRowsAfter(env: Env, a: Asset, vulns: seq<Vulnerability>, t0: Table, t: Table, t': Table)
    requires RowsOfAsset(env, a, vulns, t0, t) && forall cve :: Get(t', (a.id, cve)) == Get(t, (a.id, cve))
    ensures RowsOfAsset(env, a, vulns, t0, t')
  {
    hide Outcome, Matched, Get, ColumnsFor, ColumnsOrNone;
  }

  class Matcher {
    var table: Table
    var alerts: seq<Pair>

    ghost predicate Valid()
      reads this
    {
      Announced(table, alerts)
    }

    constructor ()
      ensures Valid() && table == map[] && alerts == []
    {
      table, alerts := map[], [];
    }

    /** The inner loop: upsert every match of one asset, and announce the pairs that are new. */
    method UpsertMatches(env: Env, a: Asset, vulns: seq<Vulnerability>) returns (matched: set<string>, count: nat)
      requires Valid() && DistinctCves(vulns)
      modifies this
      ensures UpsertedUpTo(env, a, vulns, |vulns|, old(table), table)
      ensures forall cve :: cve in matched <==> Matched(env, a, vulns, |vulns|, cve)
      ensures count == |matched|
      ensures Valid() && old(alerts) <= alerts
    {
      hide Matches, Matched, Upserted, ColumnsOf, UpsertedUpTo, Once, AllNvd;
      ghost var t := table;
      var existing := set p | p in table && p.0 == a.id :: p.1;
      matched, count := {}, 0;
      NothingUpserted(env, a, vulns, t);
      for n := 0 to |vulns|
        invariant UpsertedUpTo(env, a, vulns, n, t, table)
        invariant forall cve :: cve in matched <==> Matched(env, a, vulns, n, cve)
        invariant count == |matched| && old(alerts) <= alerts
        invariant Valid()
      {
        var v := vulns[n];
        var result := MatchAsset(env, a, v.cpeMatches);
        UpsertStep(env, a, vulns, n, t, table);
        MatchedGrows(env, a, vulns, n);
        if result.None? {
          continue;
        }
        matched := matched + {v.cveId};
        ghost var before := table;
        ghost var p := (a.id, v.cveId);
        NewRowIsNvd(a, ColumnsOf(env, v), table, p);
        table := table[(a.id, v.cveId) := Upserted(a, ColumnsOf(env, v), Get(table, (a.id, v.cveId)))];
        NotYetUpserted(env, a, vulns, n, t, before);
        assert table.Keys == before.Keys + {p};
        if v.cveId !in existing {
          AnnounceNew(before.Keys, alerts, p);
          alerts := alerts + [(a.id, v.cveId)];
        }
        assert p in before ==> table.Keys == before.Keys;
        count := count + 1;
      }
    }

    /** One correlation run over the inventory and the catalogue. */
    method CorrelateAssets(env: Env, assets: seq<Asset>, vulns: seq<Vulnerability>) returns (count: nat)
      requires Valid() && DistinctAssets(assets) && DistinctCves(vulns)
      modifies this
      ensures Valid() && old(alerts) <= alerts
      ensures Correlated(env, assets, vulns, |assets|, old(table), table)
      ensures count == MatchesFound(env, assets, vulns, |assets|)
    {
      hide MatchedCves, Announced, Correlated, UpsertedUpTo, Matched;
      ghost var t0 := table;
      count := 0;
      NothingCorrelated(env, assets, vulns, table);
      for n := 0 to |assets|
        invariant Valid() && old(alerts) <= alerts
        invariant Correlated(env, assets, vulns, n, t0, table)
        invariant count == MatchesFound(env, assets, vulns, n)
      {
        var a := assets[n];
        if !Evaluated(a) {
          SkipAsset(env, assets, vulns, n, t0, table);
          continue;
        }
        ghost var t := table;
        var matched, found := UpsertMatches(env, a, vulns);
        MatchedSet(env, a, vulns, matched);
        count := count + found;
        AssetDone(env, assets, vulns, n, t0, t, table, matched);
        RejectKeepsAnnounced(table, alerts, a.id, matched);
        table := map p: Pair | p in table :: if p.0 == a.id && p.1 !in matched then Staled(table[p]) else table[p];
      }
    }
  }

  lemma NewRowIsNvd(a: Asset, columns: Columns, t: Table, p: Pair)
    requires AllNvd(t)
    ensures AllNvd(t[p := Upserted(a, columns, Get(t, p))])
  {
  }

  lemma NothingUpserted(env: Env, a: Asset, vulns: seq<Vulnerability>, t: Table)
    ensures UpsertedUpTo(env, a, vulns, 0, t, t)
    ensures forall cve :: !Matched(env, a, vulns, 0, cve)
  {
  }

  lemma NothingCorrelated(env: Env, assets: seq<Asset>, vulns: seq<Vulnerability>, t: Table)
    ensures Correlated(env, assets, vulns, 0, t, t)
  {
  }

  lemma SkipAsset(env: Env, assets: seq<Asset>, vulns: seq<Vulnerability>, n: nat, t0: Table, t: Table)
    requires n < |assets| && !Evaluated(assets[n]) && Correlated(env, assets, vulns, n, t0, t)
    ensures Correlated(env, assets, vulns, n + 1, t0, t)
  {
    hide Outcome, Matched;
    forall p: Pair | forall i | 0 <= i < n + 1 && Evaluated(assets[i]) :: assets[i].id != p.0
      ensures Get(t, p) == Get(t0, p)
    {
      assert forall i | 0 <= i < n && Evaluated(assets[i]) :: assets[i].id != p.0;
    }
  }

  lemma RejectKeepsAnnounced(t: Table, alerts: seq<Pair>, id: nat, matched: set<string>)
    requires Announced(t, alerts)
    ensures Announced(Reject(t, id, matched), alerts)
  {
    assert Reject(t, id, matched).Keys == t.Keys;
  }

  // ---- What a run establishes ----

  /**
    After a run, the rows of an evaluated asset that are not rejected are exactly the catalogue CVEs
    that match it, with the status and confidence that its firmware knowledge gives.
   */
  lemma RowsAgreeWithMatches(env: Env, assets: seq<Asset>, vulns: seq<Vulnerability>, t: Table, t': Table, i: nat, cve: string)
    requires Correlated(env, assets, vulns, |assets|, t, t') && AllNvd(t)
    requires i < |assets| && Evaluated(assets[i])
    ensures var p := (assets[i].id, cve);
            && (p in t' && t'[p].status != Rejected <==> Matched(env, assets[i], vulns, |vulns|, cve))
            && (p in t' && t'[p].status != Rejected ==>
                  t'[p].status == MatchStatus(assets[i]) && t'[p].confidence == Confidence(assets[i])
                  && Some(t'[p].columns) == ColumnsFor(env, vulns, cve))
  {
    if j :| 0 <= j < |vulns| && vulns[j].cveId == cve && Matches(env, assets[i], vulns[j].cpeMatches) {
      EntriesHaveColumns(env, vulns, j);
    }
    hide ColumnsFor;
    hide Matched;
    assert Get(t', (assets[i].id, cve)) ==
           Outcome(assets[i], ColumnsOrNone(ColumnsFor(env, vulns, cve)), Matched(env, assets[i], vulns, |vulns|, cve), Get(t, (assets[i].id, cve)));
  }

  /** An immediate second run changes no row, and so announces nothing. */
  lemma SecondRunChangesNothing(env: Env, assets: seq<Asset>, vulns: seq<Vulnerability>, t: Table, t1: Table, t2: Table)
    requires DistinctAssets(assets)
    requires Correlated(env, assets, vulns, |assets|, t, t1) && Correlated(env, assets, vulns, |assets|, t1, t2)
    ensures t2 == t1
  {
    forall p: Pair
      ensures Get(t2, p) == Get(t1, p)
    {
      if i :| 0 <= i < |assets| && Evaluated(assets[i]) && assets[i].id == p.0 {
        hide Matched;
        var a, matched := assets[i], Matched(env, assets[i], vulns, |vulns|, p.1);
        assert p == (a.id, p.1);
        assert Get(t1, (a.id, p.1)) == Outcome(a, ColumnsOrNone(ColumnsFor(env, vulns, p.1)), matched, Get(t, (a.id, p.1)));
        assert Get(t2, (a.id, p.1)) == Outcome(a, ColumnsOrNone(ColumnsFor(env, vulns, p.1)), matched, Get(t1, (a.id, p.1)));
      }
    }
    GetDetermines(t2, t1);
  }

  lemma GetDetermines(a: Table, b: Table)
    requires forall p: Pair :: Get(a, p) == Get(b, p)
    ensures a == b
  {
    forall p: Pair
      ensures p in a <==> p in b
      ensures p in a && p in b ==> a[p] == b[p]
    {
      assert Get(a, p) == Get(b, p);
    }
  }

  // ---- Spelled out ----

  /**
    After a run: the row of an asset with a vendor and a model is in force exactly if a catalogue entry
    of that CVE has a list entry that matches; it is confirmed with 0.95 if the firmware is known, and
    a candidate with 0.7 if not. Any other row of the asset is rejected.
   */
  lemma RunMeans(env: Env, assets: seq<Asset>, vulns: seq<Vulnerability>, t: Table, t': Table, i: nat, cve: string)
    requires Correlated(env, assets, vulns, |assets|, t, t') && AllNvd(t)
    requires i < |assets| && assets[i].vendor.Some? && assets[i].model.Some?
    ensures var a, p := assets[i], (assets[i].id, cve);
            var matched := exists v, m | v in vulns && m in v.cpeMatches :: v.cveId == cve && Matches(env, a, [m]);
            var known := a.firmwareVersion.Some? && a.firmwareVersion.value != "";
            && (matched ==> p in t' && t'[p].status == (if known then Confirmed else Candidate)
                            && t'[p].confidence == (if known then 0.95 else 0.7))
            && (!matched ==>
                  && (p in t' <==> p in t)
                  && (p in t' ==> t'[p] == if t[p].status == Rejected then t[p] else t[p].(status := Rejected, confidence := 0.0)))
  {
    var a := assets[i];
    MatchedMeans(env, a, vulns, cve);
    hide Matched, Matches, ColumnsFor, ColumnsOrNone;
    assert Get(t', (a.id, cve)) ==
           Outcome(a, ColumnsOrNone(ColumnsFor(env, vulns, cve)), Matched(env, a, vulns, |vulns|, cve), Get(t, (a.id, cve)));
  }

  lemma MatchedMeans(env: Env, a: Asset, vulns: seq<Vulnerability>, cve: string)
    ensures Matched(env, a, vulns, |vulns|, cve) <==>
            exists v, m | v in vulns && m in v.cpeMatches :: v.cveId == cve && Matches(env, a, [m])
  {
    hide Matches;
    if Matched(env, a, vulns, |vulns|, cve) {
      var j :| 0 <= j < |vulns| && vulns[j].cveId == cve && Matches(env, a, vulns[j].cpeMatches);
      MatchesSingly(env, a, vulns[j].cpeMatches);
      assert vulns[j] in vulns;
    }
    forall v, m | v in vulns && m in v.cpeMatches && v.cveId == cve && Matches(env, a, [m])
      ensures Matched(env, a, vulns, |vulns|, cve)
    {
      MatchesSingly(env, a, v.cpeMatches);
      var j :| 0 <= j < |vulns| && vulns[j] == v;
    }
  }

  /** The rows of an asset without a vendor or a model, or of no asset at all, are left alone. */
  lemma OthersAreLeftAlone(env: Env, assets: seq<Asset>, vulns: seq<Vulnerability>, t: Table, t': Table, id: nat, cve: string)
    requires Correlated(env, assets, vulns, |assets|, t, t')
    requires forall i | 0 <= i < |assets| && assets[i].id == id :: assets[i].vendor == None || assets[i].model == None
    ensures Get(t', (id, cve)) == Get(t, (id, cve))
  {
    hide RowsOfAsset;
    var p := (id, cve);
    assert forall i | 0 <= i < |assets| && Evaluated(assets[i]) :: assets[i].id != p.0;
  }

  lemma {:induction false} ContainsMeans(text: string, part: string)
    ensures Contains(text, part) <==> exists front, back :: text == front + part + back
  {
    if part <= text {
      assert text == "" + part + text[|part|..];
    } else if text != "" {
      ContainsMeans(text[1..], part);
      if Contains(text[1..], part) {
        var front, back :| text[1..] == front + part + back;
        assert text == ([text[0]] + front) + part + back;
      }
      forall front, back | text == front + part + back
        ensures Contains(text[1..], part)
      {
        if front == "" {
          assert false;
        }
        assert text[1..] == front[1..] + part + back;
      }
    } else {
      forall front, back: string | text == front + part + back
        ensures false
      {
      }
    }
  }

  lemma {:induction false} AdvisoriesMean(env: Env, references: seq<Reference>, url: string)
    ensures url in IcsAdvisories(env, references) <==>
            exists r | r in references :: r.url == Some(url) && Contains(env.casefold(url), "cisa.gov/news-events/ics-advisories/")
  {
    hide Contains;
    if references != [] {
      AdvisoriesMean(env, references[1..], url);
      assert forall r :: r in references <==> r == references[0] || r in references[1..];
    }
  }

  /** What a row copies from its catalogue entry, and what it derives from the references. */
  lemma ColumnsMean(env: Env, v: Vulnerability, url: string)
    ensures var c := ColumnsOf(env, v);
            && c.cvssScore == v.cvssScore && c.severity == v.severity && c.exploitable == v.knownExploited && c.description == v.description
            && (c.patchAvailable <==>
                exists r, tag | r in v.references && tag in r.tags :: env.casefold(tag) == "patch" || env.casefold(tag) == "vendor advisory")
            && (url in c.icsAdvisories <==>
                exists r | r in v.references :: r.url == Some(url) && Contains(env.casefold(url), "cisa.gov/news-events/ics-advisories/"))
  {
    AdvisoriesMean(env, v.references, url);
    hide IcsAdvisories, Contains;
  }

  /** The pairs of an asset with vendor and model among the first `n`, and a CVE that matches it. */
  function MatchingPairs(env: Env, assets: seq<Asset>, vulns: seq<Vulnerability>, n: nat): set<Pair>
    requires n <= |assets|
  {
    set a, v | a in assets[..n] && a.vendor.Some? && a.model.Some? && v in vulns && Matches(env, a, v.cpeMatches) :: (a.id, v.cveId)
  }

  lemma {:induction false} PairsOfOneAsset(id: nat, cves: set<string>, pairs: set<Pair>)
    requires pairs == set c | c in cves :: (id, c)
    ensures |pairs| == |cves|
    decreases |cves|
  {
    if c :| c in cves {
      PairsOfOneAsset(id, cves - {c}, pairs - {(id, c)});
    } else {
      assert pairs == {};
    }
  }

  function PairsOf(env: Env, a: Asset, vulns: seq<Vulnerability>): set<Pair> {
    set c | Evaluated(a) && c in MatchedCves(env, a, vulns) :: (a.id, c)
  }

  lemma OneMorePairs(env: Env, assets: seq<Asset>, vulns: seq<Vulnerability>, n: nat)
    requires 0 < n <= |assets|
    ensures MatchingPairs(env, assets, vulns, n) == MatchingPairs(env, assets, vulns, n - 1) + PairsOf(env, assets[n - 1], vulns)
  {
    hide Matches;
    var a, all := assets[n - 1], MatchingPairs(env, assets, vulns, n);
    assert assets[..n] == assets[..n - 1] + [a];
    forall p | p in PairsOf(env, a, vulns)
      ensures p in all
    {
      var v :| v in vulns && Matches(env, a, v.cpeMatches) && v.cveId == p.1;
      assert a in assets[..n];
    }
  }

  lemma PairsAreNew(env: Env, assets: seq<Asset>, vulns: seq<Vulnerability>, n: nat)
    requires n < |assets| && DistinctAssets(assets)
    ensures MatchingPairs(env, assets, vulns, n) !! PairsOf(env, assets[n], vulns)
  {
    hide Matches, MatchedCves;
    forall p | p in MatchingPairs(env, assets, vulns, n)
      ensures p.0 != assets[n].id
    {
      var a :| a in assets[..n] && a.id == p.0;
      var i :| 0 <= i < n && assets[i] == a;
    }
  }

  /** What a run returns is the number of matching pairs. */
  lemma {:induction false} MatchesAreCounted(env: Env, assets: seq<Asset>, vulns: seq<Vulnerability>, n: nat)
    requires n <= |assets| && DistinctAssets(assets)
    ensures MatchesFound(env, assets, vulns, n) == |MatchingPairs(env, assets, vulns, n)|
  {
    if n == 0 {
      assert MatchingPairs(env, assets, vulns, n) == {};
    } else {
      hide MatchingPairs, MatchedCves, PairsOf, Evaluated, DistinctAssets;
      MatchesAreCounted(env, assets, vulns, n - 1);
      OneMorePairs(env, assets, vulns, n);
      PairsAreNew(env, assets, vulns, n - 1);
      CountPairs(env, assets[n - 1], vulns);
    }
  }

  lemma CountPairs(env: Env, a: Asset, vulns: seq<Vulnerability>)
    ensures |PairsOf(env, a, vulns)| == if Evaluated(a) then |MatchedCves(env, a, vulns)| else 0
  {
    hide MatchedCves, Evaluated;
    var cves := if Evaluated(a) then MatchedCves(env, a, vulns) else {};
    assert PairsOf(env, a, vulns) == set c | c in cves :: (a.id, c);
    hide PairsOf;
    PairsOfOneAsset(a.id, cves, PairsOf(env, a, vulns));
  }
}
