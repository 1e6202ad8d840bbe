/** Semantic validation of a schema-checked policy: the cross-field rules
    the schema cannot express, turning raw sections into typed records and
    failing with a dotted field path on the first violated rule. */
module Validation {
  import opened Results
  import opened Text
  import opened Decimal
  import opened Chrono
  import opened Json
  import opened Policy

  datatype ValidationError = ValidationError(path: string, message: string)

  /** What an IANA lookup of a zone name gives: a zone (reduced here to one
      fixed offset), no such zone, or a key the lookup refuses outright. */
  datatype ZoneLookup = ZoneFound(offset: Offset) | ZoneMissing | ZoneRejected

  type ZoneDatabase = string -> ZoneLookup

  /** A `datetime.time` with zero seconds, as minutes after midnight. */
  type MinuteOfDay = m: int | 0 <= m < 1440

  datatype ParsedCalendar = ParsedCalendar(start: int, end: int, timezoneName: string, tz: Offset)

  datatype ParsedWorkHours = ParsedWorkHours(start: MinuteOfDay, end: MinuteOfDay)

  datatype ParsedWorkBlock = ParsedWorkBlock(enabled: bool, hours: Option<ParsedWorkHours>)

  datatype ParsedWorkPatterns = ParsedWorkPatterns(
    weekdays: ParsedWorkBlock,
    saturday: ParsedWorkBlock,
    sunday: ParsedWorkBlock)

  datatype ParsedRandomness = ParsedRandomness(
    seed: Option<int>,
    gapMinutesMin: int,
    gapMinutesMax: int,
    secondsMin: int,
    secondsMax: int)

  datatype ValidatedConfig = ValidatedConfig(
    timestamp: TimestampConfig,
    scope: ScopeConfig,
    calendar: Option<ParsedCalendar>,
    workPatterns: Option<ParsedWorkPatterns>,
    randomness: Option<ParsedRandomness>)

  // ---------------------------------------------------------------------
  // What a validated configuration guarantees
  // ---------------------------------------------------------------------

  /** Hours are present exactly when the block is enabled, and end after start. */
  predicate WellFormedBlock(b: ParsedWorkBlock) {
    && (b.enabled <==> b.hours.Some?)
    && (b.hours.Some? ==> b.hours.value.start < b.hours.value.end)
  }

  predicate WellFormedPatterns(w: ParsedWorkPatterns) {
    && WellFormedBlock(w.weekdays)
    && WellFormedBlock(w.saturday)
    && WellFormedBlock(w.sunday)
    && (w.weekdays.enabled || w.saturday.enabled || w.sunday.enabled)
  }

  predicate WellFormedRandomness(r: ParsedRandomness) {
    && 0 <= r.gapMinutesMin <= r.gapMinutesMax
    && 0 <= r.secondsMin <= r.secondsMax <= 59
  }

  predicate IsCopyMode(mode: string) {
    mode == "author" || mode == "commit"
  }

  predicate WellFormedConfig(v: ValidatedConfig) {
    if IsCopyMode(v.timestamp.mode) then
      v.calendar.None? && v.workPatterns.None? && v.randomness.None?
    else
      && v.timestamp.mode == "synthetic"
      && v.calendar.Some? && v.workPatterns.Some? && v.randomness.Some?
      && v.calendar.value.start <= v.calendar.value.end
      && WellFormedPatterns(v.workPatterns.value)
      && WellFormedRandomness(v.randomness.value)
  }

  predicate NoSyntheticSections(cfg: Config) {
    cfg.calendar.None? && cfg.workPatterns.None? && cfg.randomness.None?
  }

  predicate AllSyntheticSections(cfg: Config) {
    cfg.calendar.Some? && cfg.workPatterns.Some? && cfg.randomness.Some?
  }

  /** The first synthetic section present, in calendar, work_patterns, randomness order. */
  function FirstPresentSection(cfg: Config): string {
    if cfg.calendar.Some? then "calendar"
    else if cfg.workPatterns.Some? then "work_patterns"
    else "randomness"
  }

  /** The first synthetic section missing, in the same order. */
  function FirstMissingSection(cfg: Config): string {
    if cfg.calendar.None? then "calendar"
    else if cfg.workPatterns.None? then "work_patterns"
    else "randomness"
  }

  // ---------------------------------------------------------------------
  // Entry point
  // ---------------------------------------------------------------------

  function ValidateConfig(cfg: Config, zones: ZoneDatabase): (r: Result<ValidatedConfig, ValidationError>)
    ensures r.Ok? ==> WellFormedConfig(r.value)
    ensures r.Ok? ==> r.value.timestamp == cfg.timestamp && r.value.scope == cfg.scope
    ensures IsCopyMode(cfg.timestamp.mode) ==> (r.Ok? <==> NoSyntheticSections(cfg))
    ensures IsCopyMode(cfg.timestamp.mode) && r.Err? ==> r.error.path == FirstPresentSection(cfg)
    ensures !IsCopyMode(cfg.timestamp.mode) && cfg.timestamp.mode != "synthetic" ==>
      r.Err? && r.error.path == "timestamp.mode"
    ensures cfg.timestamp.mode == "synthetic" && !AllSyntheticSections(cfg) ==>
      r.Err? && r.error.path == FirstMissingSection(cfg)
    ensures cfg.timestamp.mode == "synthetic" && AllSyntheticSections(cfg) ==>
      var c := ValidateCalendar(cfg.calendar.value, zones);
      var w := ValidateWorkPatterns(cfg.workPatterns.value);
      var n := ValidateRandomness(cfg.randomness.value);
      && (r.Ok? <==> c.Ok? && w.Ok? && n.Ok?)
      && (r.Ok? ==> r.value.calendar == Some(c.value) && r.value.workPatterns == Some(w.value)
                    && r.value.randomness == Some(n.value))
  {
    var mode := cfg.timestamp.mode;
    if IsCopyMode(mode) then
      match ForbidSyntheticSections(cfg, mode)
      case Some(e) => Err(e)
      case None => Ok(ValidatedConfig(cfg.timestamp, cfg.scope, None, None, None))
    else if mode != "synthetic" then
      Err(ValidationError("timestamp.mode", "unsupported mode: " + mode))
    else if cfg.calendar.None? then
      Err(ValidationError("calendar", "missing calendar for synthetic mode"))
    else if cfg.workPatterns.None? then
      Err(ValidationError("work_patterns", "missing work_patterns for synthetic mode"))
    else if cfg.randomness.None? then
      Err(ValidationError("randomness", "missing randomness for synthetic mode"))
    else
      var calendar :- ValidateCalendar(cfg.calendar.value, zones);
      var work :- ValidateWorkPatterns(cfg.workPatterns.value);
      var rand :- ValidateRandomness(cfg.randomness.value);
      Ok(ValidatedConfig(cfg.timestamp, cfg.scope, Some(calendar), Some(work), Some(rand)))
  }

  /** Author and commit modes refuse every synthetic section, naming the first. */
  function ForbidSyntheticSections(cfg: Config, mode: string): (r: Option<ValidationError>)
    ensures r.None? <==> NoSyntheticSections(cfg)
    ensures r.Some? ==> r.value.path == FirstPresentSection(cfg)
  {
    if cfg.calendar.Some? then
      Some(ValidationError("calendar", "calendar is not allowed in " + mode + " mode"))
    else if cfg.workPatterns.Some? then
      Some(ValidationError("work_patterns", "work_patterns is not allowed in " + mode + " mode"))
    else if cfg.randomness.Some? then
      Some(ValidationError("randomness", "randomness is not allowed in " + mode + " mode"))
    else
      None
  }

  // ---------------------------------------------------------------------
  // Calendar
  // ---------------------------------------------------------------------

  function ParseDate(path: string, value: string): (r: Result<int, ValidationError>)
    ensures r.Ok? <==> StrptimeDate(value).Some?
    ensures r.Ok? ==> r.value == Ordinal(StrptimeDate(value).value)
    ensures r.Err? ==> r.error.path == path
  {
    match StrptimeDate(value)
    case None => Err(ValidationError(path, "invalid date: " + value))
    case Some(d) => Ok(Ordinal(d))
  }

  /** The timezone name a calendar section asks for: `UTC` when absent,
      otherwise the stripped string, which must not be empty. */
  function TimezoneName(raw: Value): (r: Result<string, ValidationError>)
    ensures raw.JNull? ==> r == Ok("UTC")
    ensures raw.JString? && Strip(raw.s) != [] ==> r == Ok(Strip(raw.s))
    ensures r.Ok? ==> r.value != []
    ensures r.Err? ==> r.error.path == "calendar.timezone"
    ensures (raw.JString? && Strip(raw.s) == []) || (!raw.JNull? && !raw.JString?) ==> r.Err?
  {
    if raw.JNull? then Ok("UTC")
    else if !raw.JString? then
      Err(ValidationError("calendar.timezone", "timezone must be a string"))
    else
      var name := Strip(raw.s);
      if name == [] then Err(ValidationError("calendar.timezone", "timezone must not be empty"))
      else Ok(name)
  }

  function ValidateCalendar(calendar: Object, zones: ZoneDatabase): (r: Result<ParsedCalendar, ValidationError>)
    ensures r.Ok? ==> r.value.start <= r.value.end
    ensures r.Ok? ==>
      && Get(calendar, "start").JString? && Get(calendar, "end").JString?
      && ParseDate("calendar.start", Get(calendar, "start").s) == Ok(r.value.start)
      && ParseDate("calendar.end", Get(calendar, "end").s) == Ok(r.value.end)
      && TimezoneName(Get(calendar, "timezone")) == Ok(r.value.timezoneName)
    ensures r.Ok? && IsUtcAlias(r.value.timezoneName) ==> r.value.tz == 0
    ensures !Get(calendar, "start").JString? ==> r.Err? && r.error.path == "calendar.start"
    ensures Get(calendar, "start").JString? && !Get(calendar, "end").JString? ==>
      r.Err? && r.error.path == "calendar.end"
    ensures Get(calendar, "start").JString? && Get(calendar, "end").JString? ==>
      var s := ParseDate("calendar.start", Get(calendar, "start").s);
      var e := ParseDate("calendar.end", Get(calendar, "end").s);
      s.Ok? && e.Ok? && s.value > e.value ==> r.Err? && r.error.path == "calendar"
  {
    var startRaw := Get(calendar, "start");
    var endRaw := Get(calendar, "end");
    if !startRaw.JString? then
      Err(ValidationError("calendar.start", "start must be a string"))
    else if !endRaw.JString? then
      Err(ValidationError("calendar.end", "end must be a string"))
    else
      var start :- ParseDate("calendar.start", startRaw.s);
      var end :- ParseDate("calendar.end", endRaw.s);
      if start > end then
        Err(ValidationError("calendar", "start must be on or before end"))
      else
        var tzName :- TimezoneName(Get(calendar, "timezone"));
        var tz :- ResolveTimezone("calendar.timezone", tzName, zones);
        Ok(ParsedCalendar(start, end, tzName, tz))
  }

  /** `a` equals `b` when letter case is ignored. */
  predicate EqualsIgnoringCase(a: string, b: string) {
    |a| == |b| && forall i :: 0 <= i < |a| ==> LowerChar(a[i]) == LowerChar(b[i])
  }

  /** The names that denote UTC without consulting a zone database. */
  predicate IsUtcAlias(name: string) {
    EqualsIgnoringCase(name, "utc") || EqualsIgnoringCase(name, "z") || EqualsIgnoringCase(name, "etc/utc")
  }

  lemma UpperMatchesIgnoringCase(name: string, target: string)
    requires forall i :: 0 <= i < |target| ==> 'A' <= target[i] <= 'Z' || target[i] == '/'
    ensures AsciiUpper(name) == target <==> EqualsIgnoringCase(name, AsciiLower(target))
  {
    if |name| == |target| {
      if AsciiUpper(name) == target {
        forall i | 0 <= i < |name| ensures LowerChar(name[i]) == LowerChar(AsciiLower(target)[i]) {
          assert UpperChar(name[i]) == target[i];
        }
      }
      if EqualsIgnoringCase(name, AsciiLower(target)) {
        forall i | 0 <= i < |name| ensures AsciiUpper(name)[i] == target[i] {
          assert LowerChar(name[i]) == LowerChar(AsciiLower(target)[i]);
        }
      }
    }
  }

  function ResolveTimezone(path: string, name: string, zones: ZoneDatabase): (r: Result<Offset, ValidationError>)
    ensures IsUtcAlias(name) ==> r == Ok(0)
    ensures !IsUtcAlias(name) ==> (r.Ok? <==> zones(name).ZoneFound?)
    ensures !IsUtcAlias(name) && r.Ok? ==> r.value == zones(name).offset
    ensures r.Err? ==> r.error.path == path
  {
    UpperMatchesIgnoringCase(name, "UTC");
    UpperMatchesIgnoringCase(name, "Z");
    UpperMatchesIgnoringCase(name, "ETC/UTC");
    assert AsciiLower("UTC") == "utc";
    assert AsciiLower("Z") == "z";
    assert AsciiLower("ETC/UTC") == "etc/utc";
    var upper := AsciiUpper(name);
    if upper == "UTC" || upper == "Z" || upper == "ETC/UTC" then Ok(0)
    else
      match zones(name)
      case ZoneFound(off) => Ok(off)
      case ZoneMissing =>
        Err(ValidationError(path, "invalid timezone: " + name + ". install tzdata or set timezone to UTC"))
      case ZoneRejected =>
        Err(ValidationError(path, "invalid timezone: " + name))
  }

  // ---------------------------------------------------------------------
  // Work patterns
  // ---------------------------------------------------------------------

  function ValidateWorkPatterns(workPatterns: Object): (r: Result<ParsedWorkPatterns, ValidationError>)
    ensures r.Ok? ==> WellFormedPatterns(r.value)
    ensures r.Ok? ==>
      && Get(workPatterns, "weekdays").JObject?
      && Get(workPatterns, "saturday").JObject?
      && Get(workPatterns, "sunday").JObject?
      && Ok(r.value.weekdays) == ValidateWorkBlock("work_patterns.weekdays", Get(workPatterns, "weekdays").fields)
      && Ok(r.value.saturday) == ValidateWorkBlock("work_patterns.saturday", Get(workPatterns, "saturday").fields)
      && Ok(r.value.sunday) == ValidateWorkBlock("work_patterns.sunday", Get(workPatterns, "sunday").fields)
    ensures
      && Get(workPatterns, "weekdays").JObject?
      && Get(workPatterns, "saturday").JObject?
      && Get(workPatterns, "sunday").JObject?
      ==>
      var w := ValidateWorkBlock("work_patterns.weekdays", Get(workPatterns, "weekdays").fields);
      var s := ValidateWorkBlock("work_patterns.saturday", Get(workPatterns, "saturday").fields);
      var u := ValidateWorkBlock("work_patterns.sunday", Get(workPatterns, "sunday").fields);
      w.Ok? && s.Ok? && u.Ok? && !w.value.enabled && !s.value.enabled && !u.value.enabled ==>
        r.Err? && r.error.path == "work_patterns"
  {
    var weekdaysRaw := Get(workPatterns, "weekdays");
    var saturdayRaw := Get(workPatterns, "saturday");
    var sundayRaw := Get(workPatterns, "sunday");
    if !weekdaysRaw.JObject? then
      Err(ValidationError("work_patterns.weekdays", "weekdays must be an object"))
    else if !saturdayRaw.JObject? then
      Err(ValidationError("work_patterns.saturday", "saturday must be an object"))
    else if !sundayRaw.JObject? then
      Err(ValidationError("work_patterns.sunday", "sunday must be an object"))
    else
      var weekdays :- ValidateWorkBlock("work_patterns.weekdays", weekdaysRaw.fields);
      var saturday :- ValidateWorkBlock("work_patterns.saturday", saturdayRaw.fields);
      var sunday :- ValidateWorkBlock("work_patterns.sunday", sundayRaw.fields);
      if !(weekdays.enabled || saturday.enabled || sunday.enabled) then
        Err(ValidationError("work_patterns", "enable at least one of weekdays, saturday, or sunday"))
      else
        Ok(ParsedWorkPatterns(weekdays, saturday, sunday))
  }

  function ValidateWorkBlock(path: string, block: Object): (r: Result<ParsedWorkBlock, ValidationError>)
    ensures r.Ok? ==> WellFormedBlock(r.value)
    ensures r.Ok? ==> Get(block, "enabled") == JBool(r.value.enabled)
    ensures !Get(block, "enabled").JBool? ==> r.Err? && r.error.path == path + ".enabled"
    ensures Get(block, "enabled") == JBool(false) ==>
      && (r.Ok? <==> Get(block, "hours").JNull?)
      && (r.Ok? ==> r.value == ParsedWorkBlock(false, None))
      && (r.Err? ==> r.error.path == path + ".hours")
    ensures Get(block, "enabled") == JBool(true) && !Get(block, "hours").JObject? ==>
      r.Err? && r.error.path == path + ".hours"
    ensures r.Ok? && r.value.enabled ==>
      var hours := Get(block, "hours").fields;
      && Get(hours, "start").JString? && Get(hours, "end").JString?
      && Ok(r.value.hours.value.start) == ParseTime(path + ".hours.start", Get(hours, "start").s)
      && Ok(r.value.hours.value.end) == ParseTime(path + ".hours.end", Get(hours, "end").s)
  {
    var enabledRaw := Get(block, "enabled");
    if !enabledRaw.JBool? then
      Err(ValidationError(path + ".enabled", "enabled must be a boolean"))
    else
      var hoursRaw := Get(block, "hours");
      if !enabledRaw.b then
        if !hoursRaw.JNull? then
          Err(ValidationError(path + ".hours", "hours must be omitted when enabled is false"))
        else
          Ok(ParsedWorkBlock(false, None))
      else if !hoursRaw.JObject? then
        Err(ValidationError(path + ".hours", "hours must be an object when enabled is true"))
      else
        var startRaw := Get(hoursRaw.fields, "start");
        var endRaw := Get(hoursRaw.fields, "end");
        if !startRaw.JString? then
          Err(ValidationError(path + ".hours.start", "start must be a string"))
        else if !endRaw.JString? then
          Err(ValidationError(path + ".hours.end", "end must be a string"))
        else
          var startT :- ParseTime(path + ".hours.start", startRaw.s);
          var endT :- ParseTime(path + ".hours.end", endRaw.s);
          if endT <= startT then
            Err(ValidationError(path + ".hours.end", "end must be after hours.start"))
          else
            Ok(ParsedWorkBlock(true, Some(ParsedWorkHours(startT, endT))))
  }

  /** The two colon-separated pieces of a time string, each read as a
      Python `int` literal; `None` when there are not exactly two pieces or
      either piece is not an integer. */
  datatype TimeFields = WrongShape | NotIntegers | Fields(hour: int, minute: int)

  function SplitTime(value: string): (r: TimeFields)
    ensures r.WrongShape? <==> |SplitOn(value, ':')| != 2
    ensures r.Fields? ==>
      var parts := SplitOn(value, ':');
      && ParsePyInt(parts[0]) == Some(r.hour)
      && ParsePyInt(parts[1]) == Some(r.minute)
    ensures r.NotIntegers? ==>
      var parts := SplitOn(value, ':');
      ParsePyInt(parts[0]).None? || ParsePyInt(parts[1]).None?
  {
    var parts := SplitOn(value, ':');
    if |parts| != 2 then WrongShape
    else
      var h := ParsePyInt(parts[0]);
      var m := ParsePyInt(parts[1]);
      if h.None? || m.None? then NotIntegers else Fields(h.value, m.value)
  }

  /** The message for a time field outside its range, quoting the value. */
  function OutOfRange(field: string, v: int): string {
    field + " out of range: " + IntToString(v)
  }

  /** `HH:MM`: exactly two colon-separated integers, hour 0..23 and minute 0..59. */
  function ParseTime(path: string, value: string): (r: Result<MinuteOfDay, ValidationError>)
    ensures r.Ok? <==> SplitTime(value).Fields? && 0 <= SplitTime(value).hour <= 23 && 0 <= SplitTime(value).minute <= 59
    ensures r.Ok? ==> r.value == SplitTime(value).hour * 60 + SplitTime(value).minute
    ensures r.Err? ==> r.error.path == path
  {
    TimeOfFields(path, value, SplitTime(value))
  }

  /** The range checks `ParseTime` applies once the two fields are read. */
  function TimeOfFields(path: string, value: string, t: TimeFields): (r: Result<MinuteOfDay, ValidationError>)
    ensures r.Ok? <==> t.Fields? && 0 <= t.hour <= 23 && 0 <= t.minute <= 59
    ensures r.Ok? ==> r.value == t.hour * 60 + t.minute
    ensures r.Err? ==> r.error.path == path
  {
    match t
    case WrongShape =>
      Err(ValidationError(path, "time must use HH:MM format"))
    case NotIntegers =>
      Err(ValidationError(path, "invalid time: " + value))
    case Fields(h, m) =>
      if !(0 <= h <= 23) then
        Err(ValidationError(path, OutOfRange("hour", h)))
      else if !(0 <= m <= 59) then
        Err(ValidationError(path, OutOfRange("minute", m)))
      else
        Ok(h * 60 + m)
  }

  /** The `HH:MM` text of a time of day: both fields zero-padded to two digits. */
  function ClockText(minute: MinuteOfDay): (s: string)
    ensures |s| == 5 && s[2] == ':'
  {
    var h := ZeroPad(minute / 60, 2);
    var m := ZeroPad(minute % 60, 2);
    NatToStringBelow(minute / 60, 2);
    NatToStringBelow(minute % 60, 2);
    h + ":" + m
  }

  /** Two plain digit strings joined by a colon split back into their values. */
  lemma SplitDigitPair(h: string, m: string)
    requires h != [] && m != [] && AllDigits(h) && AllDigits(m)
    ensures SplitTime(h + ":" + m) == Fields(DigitsValue(h), DigitsValue(m))
  {
    assert forall i :: 0 <= i < |h| ==> h[i] != ':';
    assert forall i :: 0 <= i < |m| ==> m[i] != ':';
    assert JoinWith([h, m], ':') == h + ":" + m by {
      assert [h, m][1..] == [m];
    }
    SplitJoin([h, m], ':');
  }

  /** Every time of day written as `HH:MM` reads back as itself. */
  lemma ParseClockText(path: string, minute: MinuteOfDay)
    ensures ParseTime(path, ClockText(minute)) == Ok(minute)
  {
    var h := ZeroPad(minute / 60, 2);
    var m := ZeroPad(minute % 60, 2);
    NatToStringBelow(minute / 60, 2);
    NatToStringBelow(minute % 60, 2);
    var text := ClockText(minute);
    assert text == h + ":" + m;
    SplitDigitPair(h, m);
    assert SplitTime(text) == Fields(DigitsValue(h), DigitsValue(m));
    assert DigitsValue(h) == minute / 60 && DigitsValue(m) == minute % 60;
    assert (minute / 60) * 60 + minute % 60 == minute;
    assert 0 <= minute / 60 <= 23 && 0 <= minute % 60 <= 59;
    var r := TimeOfFields(path, text, Fields(minute / 60, minute % 60));
    assert r.Ok? && r.value == minute;
    assert ParseTime(path, text) == r;
  }

  // ---------------------------------------------------------------------
  // Randomness
  // ---------------------------------------------------------------------

  /** The randomness rules stated on the raw section, independently of the
      order in which the validator checks them. */
  predicate AcceptableRandomness(rnd: Object) {
    var seed := Get(rnd, "seed");
    var gap := Get(rnd, "gap_minutes");
    var sec := Get(rnd, "seconds");
    && (seed.JNull? || seed.JInt?)
    && gap.JObject? && sec.JObject?
    && Get(gap.fields, "min").JInt? && Get(gap.fields, "max").JInt?
    && Get(sec.fields, "min").JInt? && Get(sec.fields, "max").JInt?
    && 0 <= Get(gap.fields, "min").i <= Get(gap.fields, "max").i
    && 0 <= Get(sec.fields, "min").i <= Get(sec.fields, "max").i <= 59
  }

  function ValidateRandomness(randomness: Object): (r: Result<ParsedRandomness, ValidationError>)
    ensures r.Ok? <==> AcceptableRandomness(randomness)
    ensures r.Ok? ==> WellFormedRandomness(r.value)
    ensures r.Ok? ==>
      var gap := Get(randomness, "gap_minutes").fields;
      var sec := Get(randomness, "seconds").fields;
      && r.value.seed == (if Get(randomness, "seed").JInt? then Some(Get(randomness, "seed").i) else None)
      && r.value.gapMinutesMin == Get(gap, "min").i
      && r.value.gapMinutesMax == Get(gap, "max").i
      && r.value.secondsMin == Get(sec, "min").i
      && r.value.secondsMax == Get(sec, "max").i
    ensures Get(randomness, "seed").JBool? ==> r.Err? && r.error.path == "randomness.seed"
  {
    var seedRaw := Get(randomness, "seed");
    if !seedRaw.JNull? && !IsInt(seedRaw) then
      Err(ValidationError("randomness.seed", "seed must be an integer or null"))
    else
      var seed := if seedRaw.JNull? then None else Some(seedRaw.i);
      var gapRaw := Get(randomness, "gap_minutes");
      if !gapRaw.JObject? then
        Err(ValidationError("randomness.gap_minutes", "gap_minutes must be an object"))
      else
        var secRaw := Get(randomness, "seconds");
        if !secRaw.JObject? then
          Err(ValidationError("randomness.seconds", "seconds must be an object"))
        else
          var gapMin :- RequireInt(gapRaw.fields, "min", "randomness.gap_minutes.min");
          var gapMax :- RequireInt(gapRaw.fields, "max", "randomness.gap_minutes.max");
          if gapMin < 0 || gapMax < 0 then
            Err(ValidationError("randomness.gap_minutes", "min and max must be non negative"))
          else if gapMin > gapMax then
            Err(ValidationError("randomness.gap_minutes", "min must be less than or equal to max"))
          else
            var secMin :- RequireInt(secRaw.fields, "min", "randomness.seconds.min");
            var secMax :- RequireInt(secRaw.fields, "max", "randomness.seconds.max");
            if !(0 <= secMin <= 59) then
              Err(ValidationError("randomness.seconds.min", "min must be between 0 and 59"))
            else if !(0 <= secMax <= 59) then
              Err(ValidationError("randomness.seconds.max", "max must be between 0 and 59"))
            else if secMin > secMax then
              Err(ValidationError("randomness.seconds", "min must be less than or equal to max"))
            else
              Ok(ParsedRandomness(seed, gapMin, gapMax, secMin, secMax))
  }

  /** An integer field; a boolean is refused although Python counts it as an `int`. */
  function RequireInt(obj: Object, key: string, path: string): (r: Result<int, ValidationError>)
    ensures r.Ok? <==> Get(obj, key).JInt?
    ensures r.Ok? ==> r.value == Get(obj, key).i
    ensures r.Err? ==> r.error == ValidationError(path, "value must be an integer")
  {
    var raw := Get(obj, key);
    if !IsInt(raw) then Err(ValidationError(path, "value must be an integer")) else Ok(raw.i)
  }

  /** `isinstance(v, int) and not isinstance(v, bool)`. */
  predicate IsInt(v: Value) {
    v.JInt?
  }
}
