/** What the history rewrite hands to git-filter-repo: each selected
    commit's final date in git's raw `<unix seconds> <+|-><HH><MM>` form,
    keyed by the lower-cased commit hash. */
module Rewrite {
  import opened Results
  import opened Text
  import opened Decimal
  import opened Chrono
  import opened Repo
  import opened Engine
  import opened Validation
  import Scope
  import opened Random

  datatype RewriteError = RewriteError(message: string)

  /** The UTC offset in whole minutes, rounded down; a naive value is UTC. */
  function OffsetMinutes(dt: DateTime): (m: int)
    ensures -1440 <= m < 1440
    ensures dt.zone.None? ==> m == 0
    ensures dt.zone.Some? ==> m * 60 <= dt.zone.value < m * 60 + 60
  {
    match dt.zone
    case None => 0
    case Some(off) => off / 60
  }

  function Abs(i: int): nat {
    if i < 0 then -i else i
  }

  /** The `<sign><HH><MM>` suffix for an offset in minutes. */
  function OffsetText(minutes: int): (s: string)
    requires -1440 <= minutes < 1440
    ensures |s| == 5 && (s[0] == '+' <==> minutes >= 0) && (s[0] == '-' <==> minutes < 0)
    ensures AllDigits(s[1..])
  {
    var a := Abs(minutes);
    NatToStringBelow(a / 60, 2);
    NatToStringBelow(a % 60, 2);
    [if minutes >= 0 then '+' else '-'] + ZeroPad(a / 60, 2) + ZeroPad(a % 60, 2)
  }

  /** git's raw date: Unix seconds, a space, and the signed offset. */
  function FormatGitDate(dt: DateTime): (s: string)
    ensures ' ' in s
  {
    var ts := IntToString(UnixTime(dt));
    var r := ts + " " + OffsetText(OffsetMinutes(dt));
    assert r[|ts|] == ' ';
    r
  }

  /** Reads `<sign><HH><MM>` back into signed minutes. */
  function ParseOffset(t: string): (r: Option<int>)
    ensures r.Some? ==> |t| == 5 && (t[0] == '+' || t[0] == '-')
  {
    if |t| == 5 && (t[0] == '+' || t[0] == '-') && AllDigits(t[1..]) then
      var magnitude := DigitsValue(t[1..3]) * 60 + DigitsValue(t[3..5]);
      Some(if t[0] == '-' then -magnitude else magnitude)
    else
      None
  }

  /** Reads git's raw date back into Unix seconds and offset minutes. */
  function ParseGitDate(s: string): (r: Option<(int, int)>)
    ensures r.Some? ==> |SplitOn(s, ' ')| == 2
  {
    var parts := SplitOn(s, ' ');
    if |parts| != 2 then None
    else
      match (ParseSigned(parts[0]), ParseOffset(parts[1]))
      case (Some(ts), Some(minutes)) => Some((ts, minutes))
      case _ => None
  }

  lemma OffsetTextRoundTrip(minutes: int)
    requires -1440 <= minutes < 1440
    ensures ParseOffset(OffsetText(minutes)) == Some(minutes)
    ensures ' ' !in OffsetText(minutes)
  {
    var a := Abs(minutes);
    NatToStringBelow(a / 60, 2);
    NatToStringBelow(a % 60, 2);
    var t := OffsetText(minutes);
    assert t[1..3] == ZeroPad(a / 60, 2);
    assert t[3..5] == ZeroPad(a % 60, 2);
    assert forall i :: 1 <= i < 5 ==> t[i] == t[1..][i - 1];
  }

  /** The serialised date reads back as the instant's Unix time and its
      offset in minutes. */
  lemma FormatGitDateRoundTrip(dt: DateTime)
    ensures ParseGitDate(FormatGitDate(dt)) == Some((UnixTime(dt), OffsetMinutes(dt)))
  {
    var ts := IntToString(UnixTime(dt));
    var t := OffsetText(OffsetMinutes(dt));
    OffsetTextRoundTrip(OffsetMinutes(dt));
    IntToStringRoundTrip(UnixTime(dt));
    assert JoinWith([ts, t], ' ') == FormatGitDate(dt);
    SplitJoin([ts, t], ' ');
  }

  /** For a whole-minute offset the text loses nothing: the decoded minutes
      give the offset back, and a naive value reads as `+0000`. */
  lemma WholeMinuteOffsetRecovered(dt: DateTime)
    requires dt.zone.Some? ==> dt.zone.value % 60 == 0
    ensures ParseGitDate(FormatGitDate(dt)).Some?
    ensures ParseGitDate(FormatGitDate(dt)).value.1 * 60 == if dt.zone.Some? then dt.zone.value else 0
    ensures dt.zone.None? ==> FormatGitDate(dt) == IntToString(UnixTime(dt)) + " +0000"
  {
    FormatGitDateRoundTrip(dt);
    if dt.zone.None? {
      OffsetTextZero();
    }
  }

  /** The zero offset is written `+0000`. */
  lemma OffsetTextZero()
    ensures OffsetText(0) == "+0000"
  {
    assert ZeroPad(0, 2) == "00";
  }

  // ---------------------------------------------------------------------
  // The date map
  // ---------------------------------------------------------------------

  function LoweredHashes(commits: seq<Commit>): (r: seq<string>)
    ensures |r| == |commits| && forall i :: 0 <= i < |commits| ==> r[i] == AsciiLower(commits[i].hash)
  {
    seq(|commits|, i requires 0 <= i < |commits| => AsciiLower(commits[i].hash))
  }

  /** The date map: one entry per selected commit, keyed by its lower-cased
      hash, holding its serialised final date; the first commit without a
      final date is an error. */
  function BuildDateMap(selected: seq<Commit>, final: map<string, DateTime>): (r: Result<map<string, string>, RewriteError>)
    ensures r.Ok? <==> forall i :: 0 <= i < |selected| ==> selected[i].hash in final
    ensures r.Err? ==> exists i :: (0 <= i < |selected| && selected[i].hash !in final
      && r.error == RewriteError("Missing computed timestamp for commit: " + selected[i].hash)
      && forall j :: 0 <= j < i ==> selected[j].hash in final)
    ensures r.Ok? ==> r.value.Keys == set i | 0 <= i < |selected| :: AsciiLower(selected[i].hash)
    ensures r.Ok? ==> forall i :: 0 <= i < |selected| && LastOccurrence(LoweredHashes(selected), i) ==>
      r.value[AsciiLower(selected[i].hash)] == FormatGitDate(final[selected[i].hash])
  {
    match FirstUndated(selected, final, 0)
    case Some(i) =>
      Err(RewriteError("Missing computed timestamp for commit: " + selected[i].hash))
    case None =>
      Ok(DatesByHash(selected, final))
  }

  /** The date map of commits that all have a final date. */
  function DatesByHash(selected: seq<Commit>, final: map<string, DateTime>): (m: map<string, string>)
    requires forall i :: 0 <= i < |selected| ==> selected[i].hash in final
    ensures m.Keys == set i | 0 <= i < |selected| :: AsciiLower(selected[i].hash)
    ensures forall i :: 0 <= i < |selected| && LastOccurrence(LoweredHashes(selected), i) ==>
      m[AsciiLower(selected[i].hash)] == FormatGitDate(final[selected[i].hash])
  {
    var keys := LoweredHashes(selected);
    var values := seq(|selected|, i requires 0 <= i < |selected| => FormatGitDate(final[selected[i].hash]));
    var m := AssignByHash(keys, values);
    assert (set i | 0 <= i < |keys| :: keys[i]) == set i | 0 <= i < |selected| :: AsciiLower(selected[i].hash);
    m
  }

  // ---------------------------------------------------------------------
  // The rewrite plan
  // ---------------------------------------------------------------------

  datatype RewritePlan = RewritePlan(
    selectedCount: nat,
    totalCommits: nat,
    mode: string,
    scopeFraction: real,
    dateMap: map<string, string>)

  /** The errors the plan can stop with, tagged by the stage that raised them. */
  datatype PlanFailure =
    | ScopeFailed(scopeError: Scope.ScopeError)
    | EngineFailed(engineError: EngineFailure)
    | RewriteFailed(rewriteError: RewriteError)

  /** The final dates for the selected commits; nothing is computed, and
      nothing can fail, when the scope selects no commit. */
  function FinalTimes(selected: seq<Commit>, config: ValidatedConfig, seeding: Option<int> -> Rng): (r: Result<map<string, DateTime>, EngineFailure>)
    ensures selected == [] ==> r == Ok(map[])
    ensures selected != [] ==> r == ComputeTimestamps(selected, config, seeding)
    ensures r.Ok? ==> r.value.Keys == set c | c in selected :: c.hash
  {
    if selected == [] then Ok(map[]) else ComputeTimestamps(selected, config, seeding)
  }

  /** Scope the history, compute the final dates and serialise them. */
  function BuildRewritePlan(commits: seq<Commit>, config: ValidatedConfig, seeding: Option<int> -> Rng): (r: Result<RewritePlan, PlanFailure>)
    ensures r.Err? && r.error.ScopeFailed? <==> !(-1.0 <= config.scope.fraction <= 1.0)
    ensures var scoped := Scope.ApplyScope(commits, config.scope.fraction);
      r.Err? && r.error.EngineFailed? <==> scoped.Ok? && FinalTimes(scoped.value.0, config, seeding).Err?
    ensures var scoped := Scope.ApplyScope(commits, config.scope.fraction);
      r.Err? && r.error.EngineFailed? ==> r.error.engineError == FinalTimes(scoped.value.0, config, seeding).error
    ensures r.Ok? ==> (r.value.totalCommits == |commits| && r.value.mode == config.timestamp.mode
      && r.value.scopeFraction == config.scope.fraction
      && r.value.selectedCount == Scope.SelectedCount(config.scope.fraction, |commits|))
    ensures var scoped := Scope.ApplyScope(commits, config.scope.fraction);
      r.Ok? ==> (
        && scoped.Ok? && FinalTimes(scoped.value.0, config, seeding).Ok?
        && var selected := scoped.value.0;
           var final := FinalTimes(selected, config, seeding).value;
           && r.value.dateMap.Keys == (set i | 0 <= i < |selected| :: AsciiLower(selected[i].hash))
           && forall i :: 0 <= i < |selected| && LastOccurrence(LoweredHashes(selected), i) ==>
                r.value.dateMap[AsciiLower(selected[i].hash)] == FormatGitDate(final[selected[i].hash]))
  {
    var scoped := Scope.ApplyScope(commits, config.scope.fraction);
    if scoped.Err? then Err(ScopeFailed(scoped.error))
    else
      var selected := scoped.value.0;
      var final := FinalTimes(selected, config, seeding);
      if final.Err? then Err(EngineFailed(final.error))
      else
        var dates := BuildDateMap(selected, final.value);
        if dates.Err? then Err(RewriteFailed(dates.error))
        else Ok(RewritePlan(|selected|, |commits|, config.timestamp.mode, config.scope.fraction, dates.value))
  }

  /** The engine dates every commit it is given, so the plan never stops on
      a missing timestamp, and its date map covers exactly the selected
      commits. */
  lemma PlanNeverMissesTimestamp(commits: seq<Commit>, config: ValidatedConfig, seeding: Option<int> -> Rng)
    ensures var r := BuildRewritePlan(commits, config, seeding);
      !(r.Err? && r.error.RewriteFailed?)
    ensures var r := BuildRewritePlan(commits, config, seeding);
      var scoped := Scope.ApplyScope(commits, config.scope.fraction);
      r.Ok? ==> scoped.Ok? && var selected := scoped.value.0;
        r.value.dateMap.Keys == set i | 0 <= i < |selected| :: AsciiLower(selected[i].hash)
  {
  }
}
