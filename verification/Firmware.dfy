/**
  Firmware drift: the version an asset reports, the version an administrator approved, and the
  flag and log entries that follow their difference.
 */
module Firmware {
  import opened Wrappers

  const MAX_VERSION := 255

  datatype Entry =
    | DriftDetected(baseline: Option<string>, previous: Option<string>, observed: string, actor: string)
    | DriftResolved(baseline: Option<string>, previous: Option<string>, observed: string, actor: string)
    | BaselineSet(previous: Option<string>, current: string, drift: bool, actor: string)
    | BaselineCleared(previous: Option<string>, actor: string)

  datatype Alert = FirmwareDrift(baseline: Option<string>, observed: string)

  /** A column that is neither null nor empty. */
  predicate Present(s: Option<string>) {
    s.Some? && s.value != ""
  }

  /** The drift that the inventory shows, derived from the two versions alone. */
  predicate Drifts(baseline: Option<string>, observed: Option<string>) {
    Present(baseline) && Present(observed) && baseline != observed
  }

  // ---- Surrounding white space ----

  function StripLeft(space: char -> bool, s: string): string {
    if s != "" && space(s[0]) then StripLeft(space, s[1..]) else s
  }

  function StripRight(space: char -> bool, s: string): string {
    if s != "" && space(s[|s| - 1]) then StripRight(space, s[..|s| - 1]) else s
  }

  function Strip(space: char -> bool, s: string): string {
    StripRight(space, StripLeft(space, s))
  }

  predicate Padded(space: char -> bool, s: string) {
    s != "" && (space(s[0]) || space(s[|s| - 1]))
  }

  lemma {:induction false} StripLeftIsShorter(space: char -> bool, s: string)
    ensures |StripLeft(space, s)| <= |s|
    ensures |StripLeft(space, s)| == |s| ==> StripLeft(space, s) == s && (s != "" ==> !space(s[0]))
    ensures StripLeft(space, s) != "" ==> !space(StripLeft(space, s)[0])
  {
    if s != "" && space(s[0]) {
      StripLeftIsShorter(space, s[1..]);
    }
  }

  lemma {:induction false} StripRightIsPrefix(space: char -> bool, s: string)
    ensures StripRight(space, s) <= s
    ensures StripRight(space, s) != "" ==> !space(StripRight(space, s)[|StripRight(space, s)| - 1])
  {
    if s != "" && space(s[|s| - 1]) {
      StripRightIsPrefix(space, s[..|s| - 1]);
    }
  }

  /** Stripping changes exactly the padded strings, and leaves nothing to strip. */
  lemma StripChangesPadded(space: char -> bool, s: string)
    ensures Strip(space, s) == s <==> !Padded(space, s)
    ensures !Padded(space, Strip(space, s))
    ensures |Strip(space, s)| <= |s|
  {
    var left := StripLeft(space, s);
    var both := StripRight(space, left);
    StripLeftIsShorter(space, s);
    StripRightIsPrefix(space, left);
    if both != "" {
      assert both[0] == left[0];
    }
  }

  /** What stripping takes away is white space, in front and behind. */
  lemma StripTakesSpace(space: char -> bool, s: string) returns (front: string, back: string)
    ensures s == front + Strip(space, s) + back
    ensures (forall c | c in front :: space(c)) && (forall c | c in back :: space(c))
  {
    front := LeftTakes(space, s);
    back := RightTakes(space, StripLeft(space, s));
    assert front + (StripRight(space, StripLeft(space, s)) + back) == front + StripRight(space, StripLeft(space, s)) + back;
  }

  lemma {:induction false} LeftTakes(space: char -> bool, s: string) returns (front: string)
    ensures s == front + StripLeft(space, s) && forall c | c in front :: space(c)
  {
    front := "";
    if s != "" && space(s[0]) {
      var more := LeftTakes(space, s[1..]);
      front := [s[0]] + more;
    }
  }

  lemma {:induction false} RightTakes(space: char -> bool, s: string) returns (back: string)
    ensures s == StripRight(space, s) + back && forall c | c in back :: space(c)
  {
    back := "";
    if s != "" && space(s[|s| - 1]) {
      var n := |s| - 1;
      var more := RightTakes(space, s[..n]);
      back := more + [s[n]];
      assert s == s[..n] + [s[n]];
    }
  }

  // ---- The log ----

  /** Whether the flag stands after the events of a log, read from the log alone. */
  predicate Flagged(log: seq<Entry>) {
    log != [] &&
    match log[|log| - 1]
    case DriftDetected(_, _, _, _) => true
    case DriftResolved(_, _, _, _) => false
    case BaselineSet(_, _, drift, _) => drift
    case BaselineCleared(_, _) => false
  }

  /** Drift is reported only when it was not flagged, and resolved only when it was. */
  predicate Consistent(log: seq<Entry>) {
    forall i | 0 <= i < |log| ::
      && (log[i].DriftDetected? ==> !Flagged(log[..i]))
      && (log[i].DriftResolved? ==> Flagged(log[..i]))
  }

  /** The alert of each reported drift. */
  function AlertsOf(log: seq<Entry>): seq<Alert> {
    if log == [] then []
    else
      var last := log[|log| - 1];
      AlertsOf(log[..|log| - 1]) +
      if last.DriftDetected? then [FirmwareDrift(last.baseline, last.observed)] else []
  }

  lemma ConsistentAppend(log: seq<Entry>, e: Entry)
    requires Consistent(log)
    requires e.DriftDetected? ==> !Flagged(log)
    requires e.DriftResolved? ==> Flagged(log)
    ensures Consistent(log + [e])
    ensures AlertsOf(log + [e]) == AlertsOf(log) + if e.DriftDetected? then [FirmwareDrift(e.baseline, e.observed)] else []
  {
    var log' := log + [e];
    assert log'[..|log|] == log;
    forall i | 0 <= i < |log'|
      ensures log'[i].DriftDetected? ==> !Flagged(log'[..i])
      ensures log'[i].DriftResolved? ==> Flagged(log'[..i])
    {
      if i < |log| {
        assert log'[..i] == log[..i] && log'[i] == log[i];
      }
    }
  }

  /** Between two reports of drift lies a resolution, a new baseline or a clearing. */
  lemma ReportsAreSeparated(log: seq<Entry>, i: nat, j: nat)
    requires Consistent(log) && i < j < |log| && log[i].DriftDetected? && log[j].DriftDetected?
    ensures exists k | i < k < j :: log[k].DriftResolved? || log[k].BaselineSet? || log[k].BaselineCleared?
  {
    assert log[..i + 1][i] == log[i];
    assert Flagged(log[..i + 1]);
    assert i + 1 != j;
    assert !log[i + 1].DriftDetected?;
  }

  // ---- The asset row ----

  class Asset {
    const space: char -> bool
    var version: Option<string>
    var baseline: Option<string>
    var setAt: Option<int>
    var setBy: Option<string>
    var driftAt: Option<int>
    var log: seq<Entry>
    var alerts: seq<Alert>

    ghost predicate Valid()
      reads this
    {
      && (driftAt.Some? <==> Drifts(baseline, version))
      && (driftAt.Some? <==> Flagged(log))
      && Consistent(log)
      && alerts == AlertsOf(log)
      && (version.Some? ==> 0 < |version.value| <= MAX_VERSION)
      && (baseline.Some? ==> 0 < |baseline.value| <= MAX_VERSION && !Padded(space, baseline.value))
      && (baseline.Some? <==> setAt.Some?) && (baseline.Some? <==> setBy.Some?)
    }

    constructor (space: char -> bool)
      ensures Valid() && this.space == space
      ensures version == None && baseline == None && driftAt == None && log == [] && alerts == []
    {
      this.space := space;
      version, baseline, setAt, setBy, driftAt, log, alerts := None, None, None, None, None, [], [];
    }

    method ApplyFirmwareVersion(observed: string, observedAt: int, sensor: string)
      requires Valid() && 0 < |observed| <= MAX_VERSION
      modifies this`version, this`driftAt, this`log, this`alerts
      ensures Valid() && version == Some(observed)
      ensures Drifts(baseline, version) && old(driftAt).None? ==>
                driftAt == Some(observedAt) && log == old(log) + [DriftDetected(baseline, old(version), observed, "sensor:" + sensor)]
      ensures !Drifts(baseline, version) && old(driftAt).Some? ==>
                driftAt == None && log == old(log) + [DriftResolved(baseline, old(version), observed, "sensor:" + sensor)]
      ensures (Drifts(baseline, version) <==> old(driftAt).Some?) ==> driftAt == old(driftAt) && log == old(log)
      ensures alerts == old(alerts) + if old(driftAt).None? && driftAt.Some? then [FirmwareDrift(baseline, observed)] else []
    {
      hide Flagged, Consistent, AlertsOf;
      var previous := version;
      var wasDrifted := driftAt.Some?;
      version := Some(observed);
      var isDrifted := Present(baseline) && observed != baseline.value;
      if isDrifted && !wasDrifted {
        driftAt := Some(observedAt);
        alerts := alerts + [FirmwareDrift(baseline, observed)];
        var e := DriftDetected(baseline, previous, observed, "sensor:" + sensor);
        ConsistentAppend(log, e);
        FlaggedAppend(log, e);
        log := log + [e];
      } else if !isDrifted && wasDrifted {
        driftAt := None;
        var e := DriftResolved(baseline, previous, observed, "sensor:" + sensor);
        ConsistentAppend(log, e);
        FlaggedAppend(log, e);
        log := log + [e];
      }
    }

    /** The revision of a device identification: an empty one is ignored, a long one is cut. */
    method ObserveRevision(revision: Option<string>, observedAt: int, sensor: string)
      requires Valid()
      modifies this`version, this`driftAt, this`log, this`alerts
      ensures Valid()
      ensures !Present(revision) ==> version == old(version) && driftAt == old(driftAt) && log == old(log)
      ensures Present(revision) ==>
                version.Some? && version.value <= revision.value &&
                (version == revision || |version.value| == 255 < |revision.value|) && |version.value| <= 255
    {
      if Present(revision) {
        var observed := if |revision.value| > MAX_VERSION then revision.value[..MAX_VERSION] else revision.value;
        ApplyFirmwareVersion(observed, observedAt, sensor);
      }
    }

    /** The stores of an accepted baseline. */
    method Approve(v: string, now: int, actor: string) returns (drifted: bool)
      requires Valid() && 0 < |v| <= MAX_VERSION && !Padded(space, v)
      modifies this`baseline, this`setAt, this`setBy, this`driftAt, this`log
      ensures Valid()
      ensures baseline == Some(v) && setAt == Some(now) && setBy == Some(actor)
      ensures drifted <==> Drifts(Some(v), version)
      ensures driftAt == (if drifted then Some(now) else None)
      ensures log == old(log) + [BaselineSet(old(baseline), v, drifted, actor)]
    {
      hide Flagged, Consistent, AlertsOf;
      var previous := baseline;
      baseline, setAt, setBy := Some(v), Some(now), Some(actor);
      drifted := Present(version) && version.value != v;
      driftAt := if drifted then Some(now) else None;
      var e := BaselineSet(previous, v, drifted, actor);
      ConsistentAppend(log, e);
      FlaggedAppend(log, e);
      log := log + [e];
    }
  }

  /** The flag stands exactly while an approved and an observed version differ. */
  lemma FlagMeansDifferent(asset: Asset)
    requires asset.Valid()
    ensures asset.driftAt.Some? <==> asset.baseline.Some? && asset.version.Some? && asset.baseline.value != asset.version.value
  {
  }

  lemma FlaggedAppend(log: seq<Entry>, e: Entry)
    ensures Flagged(log + [e]) <==> e.DriftDetected? || (e.BaselineSet? && e.drift)
  {
  }

  /** The version an update asks for: the one it names, or else the one observed. */
  function Requested(update: Option<string>, observed: Option<string>): string {
    if Present(update) then update.value else if Present(observed) then observed.value else ""
  }

  /** A version that the administrator names goes before the one observed; an empty one is as good as none. */
  lemma NamedVersionGoesFirst(named: string, update: Option<string>, observed: string)
    requires named != ""
    ensures Requested(Some(named), update) == named
    ensures Requested(None, Some(observed)) == observed && Requested(Some(""), Some(observed)) == observed
    ensures Requested(None, None) == "" && Requested(Some(""), None) == ""
  {
  }

  method SetFirmwareBaseline(asset: Asset?, update: Option<string>, now: int, actor: string) returns (r: Response<bool>)
    requires asset != null ==> asset.Valid()
    modifies if asset == null then {} else {asset}
    ensures asset == null ==> r == Refused(404)
    ensures asset != null ==>
              var v := Strip(asset.space, Requested(update, old(asset.version)));
              && asset.Valid() && asset.version == old(asset.version)
              && (r.Refused? ==> asset.baseline == old(asset.baseline) && asset.driftAt == old(asset.driftAt)
                                 && asset.log == old(asset.log) && asset.setAt == old(asset.setAt) && asset.setBy == old(asset.setBy))
              && (r == Refused(409) <==> v == "")
              && (r == Refused(422) <==> |v| > 255)
              && (r.Success? <==> 0 < |v| <= 255)
              && (r.Success? ==>
                    && asset.baseline == Some(v) && asset.setAt == Some(now) && asset.setBy == Some(actor)
                    && (r.value <==> Drifts(Some(v), asset.version))
                    && asset.driftAt == (if r.value then Some(now) else None)
                    && asset.log == old(asset.log) + [BaselineSet(old(asset.baseline), v, r.value, actor)])
    ensures asset != null && r.Success? && update.Some? && update.value != "" ==> asset.baseline == Some(Strip(asset.space, update.value))
  {
    if asset == null {
      return Refused(404);
    }
    hide Flagged, Consistent, AlertsOf, Strip, Drifts, Padded, Requested;
    var version := Strip(asset.space, Requested(update, asset.version));
    if version == "" {
      return Refused(409);
    }
    if |version| > MAX_VERSION {
      return Refused(422);
    }
    StripChangesPadded(asset.space, Requested(update, asset.version));
    var drifted := asset.Approve(version, now, actor);
    r := Success(drifted);
  }

  method ClearFirmwareBaseline(asset: Asset?, actor: string) returns (r: Response<()>)
    requires asset != null ==> asset.Valid()
    modifies if asset == null then {} else {asset}
    ensures asset == null <==> r == Refused(404)
    ensures asset != null ==>
              && r == Success(()) && asset.Valid() && asset.version == old(asset.version)
              && asset.baseline == None && asset.setAt == None && asset.setBy == None && asset.driftAt == None
              && asset.log == old(asset.log) + [BaselineCleared(old(asset.baseline), actor)]
  {
    if asset == null {
      return Refused(404);
    }
    hide Flagged, Consistent, AlertsOf;
    var e := BaselineCleared(asset.baseline, actor);
    asset.baseline, asset.setAt, asset.setBy, asset.driftAt := None, None, None, None;
    ConsistentAppend(asset.log, e);
    FlaggedAppend(asset.log, e);
    asset.log := asset.log + [e];
    r := Success(());
  }

  /**
    Approving the version on display, by an update that names none, is meant to end the drift. It
    does so exactly when that version carries no surrounding white space: the baseline is stripped,
    the observed version is not.
   */
  lemma ApprovingObservedEndsDriftIff(space: char -> bool, update: Option<string>, observed: string)
    requires !Present(update) && Strip(space, observed) != ""
    ensures Drifts(Some(Strip(space, Requested(update, Some(observed)))), Some(observed)) <==> Padded(space, observed)
  {
    StripChangesPadded(space, observed);
  }
}
