/** CPE 2.3 formatted strings, and whether an asset matches a vulnerability's applicability list. */
module Cpe {
  import opened Wrappers

  // ---- Splitting on unescaped colons ----

  function SplitFrom(value: string, current: string, escaped: bool): seq<string>
    decreases |value|
  {
    if value == [] then [current]
    else
      var c, rest := value[0], value[1..];
      if escaped then SplitFrom(rest, current + [c], false)
      else if c == '\\' then SplitFrom(rest, current, true)
      else if c == ':' then [current] + SplitFrom(rest, "", false)
      else SplitFrom(rest, current + [c], false)
  }

  method SplitCpe(value: string) returns (parts: seq<string>)
    ensures parts == SplitFrom(value, "", false)
  {
    parts := [];
    var current, escaped := "", false;
    assert value[0..] == value;
    for i := 0 to |value|
      invariant parts + SplitFrom(value[i..], current, escaped) == SplitFrom(value, "", false)
    {
      var character := value[i];
      assert value[i..][1..] == value[i + 1..];
      if escaped {
        current := current + [character];
        escaped := false;
      } else if character == '\\' {
        escaped := true;
      } else if character == ':' {
        parts := parts + [current];
        current := "";
      } else {
        current := current + [character];
      }
    }
    parts := parts + [current];
  }

  function Escape(s: string): string {
    if s == [] then []
    else EscapeOne(s[0]) + Escape(s[1..])
  }

  function EscapeOne(c: char): string {
    if c == ':' || c == '\\' then ['\\', c] else [c]
  }

  function JoinEscaped(parts: seq<string>): string
    requires parts != []
  {
    if |parts| == 1 then Escape(parts[0]) else Escape(parts[0]) + ":" + JoinEscaped(parts[1..])
  }

  /** Reading an escaped component adds exactly the component to what has been collected. */
  lemma {:induction false} SplitEscaped(s: string, rest: string, current: string)
    ensures SplitFrom(Escape(s) + rest, current, false) == SplitFrom(rest, current + s, false)
    decreases |s|
  {
    hide SplitFrom, EscapeOne;
    if s == [] {
      assert Escape(s) + rest == rest && current + s == current;
    } else {
      var head := EscapeOne(s[0]);
      var more := Escape(s[1..]) + rest;
      assert Escape(s) + rest == head + more;
      SplitOneCharacter(s[0], more, current);
      SplitEscaped(s[1..], rest, current + [s[0]]);
      assert current + [s[0]] + s[1..] == current + s;
    }
  }

  lemma SplitOneCharacter(c: char, more: string, current: string)
    ensures SplitFrom(EscapeOne(c) + more, current, false) == SplitFrom(more, current + [c], false)
  {
    if c == ':' || c == '\\' {
      var v := ['\\', c] + more;
      assert v[1..] == [c] + more && ([c] + more)[1..] == more;
    } else {
      assert ([c] + more)[1..] == more;
    }
  }

  /** Splitting undoes the escaped join, for every non-empty list of components. */
  lemma {:induction false} SplitUndoesJoin(parts: seq<string>)
    requires parts != []
    ensures SplitFrom(JoinEscaped(parts), "", false) == parts
  {
    var first := parts[0];
    assert "" + first == first;
    if |parts| == 1 {
      assert Escape(first) + "" == Escape(first);
      SplitEscaped(first, "", "");
      assert parts == [first];
    } else {
      var rest := JoinEscaped(parts[1..]);
      assert Escape(first) + ":" + rest == Escape(first) + (":" + rest);
      SplitEscaped(first, ":" + rest, "");
      assert (":" + rest)[1..] == rest;
      SplitUndoesJoin(parts[1..]);
      assert [first] + parts[1..] == parts;
    }
  }

  // ---- Matching ----

  /** Unicode case folding, and version parsing with versions placed on a line; both arbitrary. */
  datatype Env = Env(casefold: string -> string, version: string -> Option<real>)

  datatype CpeMatch = CpeMatch(
    criteria: Option<string>,
    versionStartIncluding: Option<string>,
    versionStartExcluding: Option<string>,
    versionEndIncluding: Option<string>,
    versionEndExcluding: Option<string>)

  datatype Asset = Asset(id: nat, vendor: Option<string>, model: Option<string>, firmwareVersion: Option<string>)

  function OrEmpty(s: Option<string>): string {
    if s.Some? then s.value else ""
  }

  predicate Alphanumeric(c: char) {
    'a' <= c <= 'z' || '0' <= c <= '9'
  }

  function Kept(s: string): string {
    if s == [] then [] else (if Alphanumeric(s[0]) then [s[0]] else []) + Kept(s[1..])
  }

  function Normalize(env: Env, s: string): string {
    Kept(env.casefold(s))
  }

  /** The candidate and the bound both parse, and the comparison holds. */
  predicate Bounded(env: Env, version: string, bound: Option<string>, holds: (real, real) -> bool) {
    bound.Some? ==>
      env.version(version).Some? && env.version(bound.value).Some? &&
      holds(env.version(version).value, env.version(bound.value).value)
  }

  predicate VersionMatches(env: Env, version: string, cpeVersion: string, m: CpeMatch) {
    if cpeVersion != "*" && cpeVersion != "-" then Normalize(env, version) == Normalize(env, cpeVersion)
    else
      && env.version(version).Some?
      && Bounded(env, version, m.versionStartIncluding, (v, b) => v >= b)
      && Bounded(env, version, m.versionStartExcluding, (v, b) => v > b)
      && Bounded(env, version, m.versionEndIncluding, (v, b) => v <= b)
      && Bounded(env, version, m.versionEndExcluding, (v, b) => v < b)
  }

  predicate HasFirmware(a: Asset) {
    a.firmwareVersion.Some? && a.firmwareVersion.value != ""
  }

  /** One entry of an applicability list covers the asset. */
  predicate Covers(env: Env, a: Asset, m: CpeMatch) {
    var parts := SplitFrom(OrEmpty(m.criteria), "", false);
    && |parts| >= 6
    && Normalize(env, parts[3]) == Normalize(env, OrEmpty(a.vendor))
    && Normalize(env, parts[4]) == Normalize(env, OrEmpty(a.model))
    && (HasFirmware(a) ==> VersionMatches(env, a.firmwareVersion.value, parts[5], m))
  }

  predicate Matches(env: Env, a: Asset, matches: seq<CpeMatch>) {
    exists i | 0 <= i < |matches| :: Covers(env, a, matches[i])
  }

  /** Only the presence of a firmware version decides how sure a match is. */
  function Confidence(a: Asset): real {
    if HasFirmware(a) then 0.95 else 0.7
  }

  datatype Found = Found(confidence: real, criteria: string)

  lemma EmptyHasOnePart()
    ensures |SplitFrom("", "", false)| == 1
  {
  }

  method MatchAsset(env: Env, a: Asset, matches: seq<CpeMatch>) returns (r: Option<Found>)
    ensures r.Some? <==> Matches(env, a, matches)
    ensures r.Some? ==> r.value.confidence == Confidence(a)
    ensures r.Some? ==> r.value.confidence == if a.firmwareVersion == None || a.firmwareVersion == Some("") then 0.7 else 0.95
    ensures r.Some? ==> exists i | 0 <= i < |matches| ::
                          && Covers(env, a, matches[i]) && matches[i].criteria == Some(r.value.criteria)
                          && forall j | 0 <= j < i :: !Covers(env, a, matches[j])
  {
    var vendor := Normalize(env, OrEmpty(a.vendor));
    var model := Normalize(env, OrEmpty(a.model));
    EmptyHasOnePart();
    for i := 0 to |matches|
      invariant forall j | 0 <= j < i :: !Covers(env, a, matches[j])
    {
      var m := matches[i];
      var parts := SplitCpe(OrEmpty(m.criteria));
      if |parts| < 6 || Normalize(env, parts[3]) != vendor || Normalize(env, parts[4]) != model {
        continue;
      }
      if !HasFirmware(a) {
        assert Covers(env, a, m);
        return Some(Found(0.7, m.criteria.value));
      }
      if VersionMatches(env, a.firmwareVersion.value, parts[5], m) {
        assert Covers(env, a, m);
        return Some(Found(0.95, m.criteria.value));
      }
    }
    return None;
  }

  /** Whether an asset matches does not depend on the order of the list, or on repetitions in it. */
  lemma MatchIgnoresOrder(env: Env, a: Asset, xs: seq<CpeMatch>, ys: seq<CpeMatch>)
    requires forall m :: m in xs <==> m in ys
    ensures Matches(env, a, xs) <==> Matches(env, a, ys)
  {
    hide Covers;
    if Matches(env, a, xs) {
      var i :| 0 <= i < |xs| && Covers(env, a, xs[i]);
      assert xs[i] in ys;
    }
    if Matches(env, a, ys) {
      var i :| 0 <= i < |ys| && Covers(env, a, ys[i]);
      assert ys[i] in xs;
    }
  }

  // ---- What an entry means ----

  /** The vendor is the fourth component, the model the fifth. */
  ghost predicate Names(env: Env, a: Asset, m: CpeMatch, parts: seq<string>) {
    && |parts| >= 6 && m.criteria == Some(JoinEscaped(parts))
    && Kept(env.casefold(parts[3])) == Kept(env.casefold(OrEmpty(a.vendor)))
    && Kept(env.casefold(parts[4])) == Kept(env.casefold(OrEmpty(a.model)))
  }

  /** Folding keeps the letters a to z and the digits, in order, and nothing else. */
  lemma {:induction false} KeptLetters(s: string, t: string, c: char)
    ensures Kept(s + t) == Kept(s) + Kept(t)
    ensures Kept([c]) == if 'a' <= c <= 'z' || '0' <= c <= '9' then [c] else []
  {
    assert Kept([c]) == (if Alphanumeric(c) then [c] else []) + Kept([c][1..]);
    if s == [] {
      assert s + t == t;
    } else {
      assert (s + t)[0] == s[0] && (s + t)[1..] == s[1..] + t;
      KeptLetters(s[1..], t, c);
    }
  }

  /** A list matches through one of its entries. */
  lemma MatchesSingly(env: Env, a: Asset, ms: seq<CpeMatch>)
    ensures Matches(env, a, ms) <==> exists m | m in ms :: Matches(env, a, [m])
  {
    hide Covers;
    if Matches(env, a, ms) {
      var i :| 0 <= i < |ms| && Covers(env, a, ms[i]);
      assert [ms[i]][0] == ms[i] && ms[i] in ms;
      assert Matches(env, a, [ms[i]]);
    }
    forall m | m in ms && Matches(env, a, [m])
      ensures Matches(env, a, ms)
    {
      assert Covers(env, a, m);
      var i :| 0 <= i < |ms| && ms[i] == m;
    }
  }

  lemma MatchesOne(env: Env, a: Asset, m: CpeMatch)
    ensures Matches(env, a, [m]) <==> Covers(env, a, m)
  {
    hide Covers;
    assert [m][0] == m;
  }

  /** Without the vendor and the model in their places there is no match. */
  lemma OthersNeverMatch(env: Env, a: Asset, m: CpeMatch, parts: seq<string>)
    requires parts != [] && m.criteria == Some(JoinEscaped(parts)) && !Names(env, a, m, parts)
    ensures !Matches(env, a, [m])
  {
    SplitUndoesJoin(parts);
    hide SplitFrom, JoinEscaped, Kept;
    MatchesOne(env, a, m);
  }

  /** Without a firmware version, the vendor and the model decide. */
  lemma UnknownVersionMatches(env: Env, a: Asset, m: CpeMatch, parts: seq<string>)
    requires Names(env, a, m, parts) && (a.firmwareVersion == None || a.firmwareVersion == Some(""))
    ensures Matches(env, a, [m])
  {
    SplitUndoesJoin(parts);
    hide SplitFrom, JoinEscaped, Kept;
    MatchesOne(env, a, m);
  }

  /** An entry for one version matches firmware with the same letters and digits. */
  lemma NamedVersionMatchesIff(env: Env, a: Asset, m: CpeMatch, parts: seq<string>, version: string)
    requires Names(env, a, m, parts) && a.firmwareVersion == Some(version) && version != ""
    requires parts[5] != "*" && parts[5] != "-"
    ensures Matches(env, a, [m]) <==> Kept(env.casefold(version)) == Kept(env.casefold(parts[5]))
  {
    SplitUndoesJoin(parts);
    hide SplitFrom, JoinEscaped, Kept;
    MatchesOne(env, a, m);
  }

  /** An entry for a range of versions. */
  ghost predicate Ranges(env: Env, a: Asset, m: CpeMatch, parts: seq<string>, version: string) {
    Names(env, a, m, parts) && a.firmwareVersion == Some(version) && version != "" && (parts[5] == "*" || parts[5] == "-")
  }

  /**
    A range matches exactly the versions that parse, if every bound given parses, from the included
    start or behind the excluded start, up to the included end or before the excluded end.
   */
  lemma RangeMatchesIff(env: Env, a: Asset, m: CpeMatch, parts: seq<string>, version: string)
    requires Ranges(env, a, m, parts, version)
    ensures Matches(env, a, [m]) <==>
            && env.version(version).Some?
            && var v := env.version(version).value;
               && (forall b | m.versionStartIncluding == Some(b) :: env.version(b).Some? && env.version(b).value <= v)
               && (forall b | m.versionStartExcluding == Some(b) :: env.version(b).Some? && env.version(b).value < v)
               && (forall b | m.versionEndIncluding == Some(b) :: env.version(b).Some? && v <= env.version(b).value)
               && (forall b | m.versionEndExcluding == Some(b) :: env.version(b).Some? && v < env.version(b).value)
  {
    SplitUndoesJoin(parts);
    hide SplitFrom, JoinEscaped, Kept;
    MatchesOne(env, a, m);
  }

  /** Patched firmware is not matched, and neither is firmware from before the vulnerability. */
  lemma OutsideIsNeverMatched(env: Env, a: Asset, m: CpeMatch, parts: seq<string>, version: string, b: string, v: real, bound: real)
    requires Ranges(env, a, m, parts, version) && env.version(version) == Some(v) && env.version(b) == Some(bound)
    requires || (m.versionEndExcluding == Some(b) && v >= bound) || (m.versionEndIncluding == Some(b) && v > bound)
             || (m.versionStartExcluding == Some(b) && v <= bound) || (m.versionStartIncluding == Some(b) && v < bound)
    ensures !Matches(env, a, [m])
  {
    hide Ranges, Matches;
    RangeMatchesIff(env, a, m, parts, version);
  }

  /** The bound `wide` is absent or, compared by `le`, no narrower than `narrow`. */
  ghost predicate Wider(env: Env, wide: Option<string>, narrow: Option<string>, le: (real, real) -> bool) {
    wide.Some? ==>
      narrow.Some? && env.version(wide.value).Some? &&
      (env.version(narrow.value).Some? ==> le(env.version(narrow.value).value, env.version(wide.value).value))
  }

  /** Lowering a start or raising an end, or dropping one, never loses a match. */
  lemma WiderRangesMatchMore(env: Env, a: Asset, m: CpeMatch, wide: CpeMatch, parts: seq<string>, version: string)
    requires Ranges(env, a, m, parts, version) && wide.criteria == m.criteria
    requires Wider(env, wide.versionStartIncluding, m.versionStartIncluding, (n, w) => w <= n)
    requires Wider(env, wide.versionStartExcluding, m.versionStartExcluding, (n, w) => w <= n)
    requires Wider(env, wide.versionEndIncluding, m.versionEndIncluding, (n, w) => n <= w)
    requires Wider(env, wide.versionEndExcluding, m.versionEndExcluding, (n, w) => n <= w)
    requires Matches(env, a, [m])
    ensures Matches(env, a, [wide])
  {
    RangeMatchesIff(env, a, m, parts, version);
    assert Ranges(env, a, wide, parts, version);
    RangeMatchesIff(env, a, wide, parts, version);
    hide Ranges, Matches;
  }
}
