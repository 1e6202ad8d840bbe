/** The policy emitter of the web form: it turns the form's cleaned values
    into the policy mapping the YAML file is written from, filling in
    defaults and forcing the randomness ranges into shape. */
module YamlEmit {
  import opened Results
  import opened Decimal
  import opened Chrono
  import opened Json
  import opened Validation

  const DefaultGapMin: int := 25
  const DefaultGapMax: int := 90
  const DefaultSecMin: int := 5
  const DefaultSecMax: int := 55

  /** A `datetime.time` from the form; microseconds are not modelled. */
  datatype TimeOfDay = TimeOfDay(hour: int, minute: int, second: int)

  type FormTime = t: TimeOfDay | 0 <= t.hour < 24 && 0 <= t.minute < 60 && 0 <= t.second < 60
    witness TimeOfDay(0, 0, 0)

  /** A `datetime.date` from the form. */
  type FormDate = d: CivilDate | ValidDate(d) witness CivilDate(1, 1, 1)

  /** One day kind's fields: the enabled checkbox and its two times. */
  datatype FormBlock = FormBlock(enabled: bool, start: Option<FormTime>, end: Option<FormTime>)

  /** The cleaned values the emitter reads; a field the form left empty is `None`. */
  datatype FormData = FormData(
    mode: string,
    scopeFraction: real,
    calendarStart: Option<FormDate>,
    calendarEnd: Option<FormDate>,
    weekdays: FormBlock,
    saturday: FormBlock,
    sunday: FormBlock,
    seed: Option<int>,
    gapMinutesMin: Option<int>,
    gapMinutesMax: Option<int>,
    secondsMin: Option<int>,
    secondsMax: Option<int>)

  /** `ValueError` for a mode the emitter does not know; a field the
      synthetic mode needs but the form left empty, which Python reports as
      an attribute error on `None`. */
  datatype EmitError = UnsupportedMode(message: string) | MissingValue(field: string)

  /** The minute of the day a form time falls in; its seconds are dropped. */
  function MinuteOf(t: FormTime): (m: MinuteOfDay)
    ensures m / 60 == t.hour && m % 60 == t.minute
  {
    t.hour * 60 + t.minute
  }

  /** `t.strftime("%H:%M")`. */
  function FmtTime(t: FormTime): (s: string)
    ensures |s| == 5 && s[2] == ':'
  {
    ClockText(MinuteOf(t))
  }

  /** The validator reads an emitted time back as its minute of the day,
      seconds dropped. */
  lemma FmtTimeParses(path: string, t: FormTime)
    ensures ParseTime(path, FmtTime(t)) == Ok(MinuteOf(t))
  {
    ParseClockText(path, MinuteOf(t));
  }

  /** Two times in the same minute are written identically. */
  lemma FmtTimeDropsSeconds(a: FormTime, b: FormTime)
    requires a.hour == b.hour && a.minute == b.minute
    ensures FmtTime(a) == FmtTime(b)
  {
  }

  // ---------------------------------------------------------------------
  // Ranges
  // ---------------------------------------------------------------------

  function Min(a: int, b: int): int {
    if a <= b then a else b
  }

  function Max(a: int, b: int): int {
    if a >= b then a else b
  }

  /** The range before clamping: defaults for missing bounds, stretched so
      that a single given bound does not cross its default partner. */
  function RawRange(maybeMin: Option<int>, maybeMax: Option<int>, defaultMin: int, defaultMax: int): (r: (int, int))
    ensures maybeMin.None? && maybeMax.None? ==> r == (defaultMin, defaultMax)
    ensures maybeMin.None? && maybeMax.Some? ==> r.1 == maybeMax.value && r.0 == Min(defaultMin, r.1)
    ensures maybeMin.Some? && maybeMax.None? ==> r.0 == maybeMin.value && r.1 == Max(defaultMax, r.0)
    ensures maybeMin.Some? && maybeMax.Some? ==> r == (maybeMin.value, maybeMax.value)
    ensures (maybeMin.None? || maybeMax.None?) && defaultMin <= defaultMax ==> r.0 <= r.1
  {
    if maybeMin.None? && maybeMax.None? then (defaultMin, defaultMax)
    else if maybeMin.None? then (Min(defaultMin, maybeMax.value), maybeMax.value)
    else if maybeMax.None? then (maybeMin.value, Max(defaultMax, maybeMin.value))
    else (maybeMin.value, maybeMax.value)
  }

  /** Forcing one bound into `[clampMin, clampMax]` (no upper bound when
      `clampMax` is absent). */
  function Clamp(v: int, clampMin: int, clampMax: Option<int>): (c: int)
    ensures c >= clampMin
    ensures clampMax.Some? && clampMin <= clampMax.value ==> c <= clampMax.value
    ensures clampMin <= v && (clampMax.Some? ==> v <= clampMax.value) ==> c == v
  {
    match clampMax
    case None => Max(clampMin, v)
    case Some(hi) => Max(clampMin, Min(hi, v))
  }

  predicate WithinClamp(v: int, clampMin: int, clampMax: Option<int>) {
    clampMin <= v && (clampMax.Some? ==> v <= clampMax.value)
  }

  /** `_normalise_range`: always an ordered range inside the clamp bounds;
      a range that already is one is left as it is. Otherwise each bound is
      forced into the clamp bounds, and a maximum that then lies below the
      minimum collapses onto it. */
  function NormaliseRange(maybeMin: Option<int>, maybeMax: Option<int>, defaultMin: int, defaultMax: int,
                          clampMin: int, clampMax: Option<int>): (r: (int, int))
    requires clampMax.Some? ==> clampMin <= clampMax.value
    ensures var raw := RawRange(maybeMin, maybeMax, defaultMin, defaultMax);
      && r.0 == Clamp(raw.0, clampMin, clampMax)
      && r.1 == Max(r.0, Clamp(raw.1, clampMin, clampMax))
    ensures r.0 <= r.1
    ensures WithinClamp(r.0, clampMin, clampMax) && WithinClamp(r.1, clampMin, clampMax)
    ensures var raw := RawRange(maybeMin, maybeMax, defaultMin, defaultMax);
      raw.0 <= raw.1 && WithinClamp(raw.0, clampMin, clampMax) && WithinClamp(raw.1, clampMin, clampMax) ==> r == raw
  {
    var raw := RawRange(maybeMin, maybeMax, defaultMin, defaultMax);
    var lo := Clamp(raw.0, clampMin, clampMax);
    var hi := Clamp(raw.1, clampMin, clampMax);
    if lo > hi then (lo, lo) else (lo, hi)
  }

  /** Normalising a normalised range changes nothing. */
  lemma NormaliseRangeIdempotent(maybeMin: Option<int>, maybeMax: Option<int>, defaultMin: int, defaultMax: int,
                                 clampMin: int, clampMax: Option<int>)
    requires clampMax.Some? ==> clampMin <= clampMax.value
    ensures var r := NormaliseRange(maybeMin, maybeMax, defaultMin, defaultMax, clampMin, clampMax);
      NormaliseRange(Some(r.0), Some(r.1), defaultMin, defaultMax, clampMin, clampMax) == r
  {
  }

  /** Seconds entered as -5..100 are clamped to 0..59, and a reversed
      70..10 collapses onto 59..59. */
  lemma NormaliseRangeClampsAndCollapses()
    ensures NormaliseRange(Some(-5), Some(100), DefaultSecMin, DefaultSecMax, 0, Some(59)) == (0, 59)
    ensures NormaliseRange(Some(70), Some(10), DefaultSecMin, DefaultSecMax, 0, Some(59)) == (59, 59)
  {
  }

  // ---------------------------------------------------------------------
  // Sections
  // ---------------------------------------------------------------------

  /** `int(date.strftime("%Y%m%d"))`. */
  function StartSeed(d: FormDate): (seed: int)
    ensures seed / 10000 == d.year && (seed / 100) % 100 == d.month && seed % 100 == d.day
  {
    var seed := d.year * 10000 + (d.month * 100 + d.day);
    DivMod10000(d.year, d.month * 100 + d.day);
    DivMod100(d.year * 100 + d.month, d.day);
    assert seed == (d.year * 100 + d.month) * 100 + d.day;
    DivMod100(d.year, d.month);
    seed
  }

  lemma DivMod100(q: int, r: int)
    requires 0 <= r < 100
    ensures (q * 100 + r) / 100 == q && (q * 100 + r) % 100 == r
  {
  }

  lemma DivMod10000(q: int, r: int)
    requires 0 <= r < 10000
    ensures (q * 10000 + r) / 10000 == q && (q * 10000 + r) % 10000 == r
  {
  }

  /** Distinct start dates give distinct default seeds. */
  lemma StartSeedInjective(a: FormDate, b: FormDate)
    requires StartSeed(a) == StartSeed(b)
    ensures a == b
  {
  }

  function Bounds(r: (int, int)): Value {
    JObject(map["min" := JInt(r.0), "max" := JInt(r.1)])
  }

  function GapRange(form: FormData): (r: (int, int))
    ensures 0 <= r.0 <= r.1
  {
    NormaliseRange(form.gapMinutesMin, form.gapMinutesMax, DefaultGapMin, DefaultGapMax, 0, None)
  }

  function SecondsRange(form: FormData): (r: (int, int))
    ensures 0 <= r.0 <= r.1 <= 59
  {
    NormaliseRange(form.secondsMin, form.secondsMax, DefaultSecMin, DefaultSecMax, 0, Some(59))
  }

  /** The randomness section: the form's seed or the start date's
      `YYYYMMDD`, and both ranges normalised. */
  function BuildRandomness(form: FormData, start: FormDate): (r: Object)
    ensures r.Keys == {"seed", "gap_minutes", "seconds"}
    ensures r["seed"] == JInt(if form.seed.Some? then form.seed.value else StartSeed(start))
    ensures r["gap_minutes"] == Bounds(GapRange(form)) && r["seconds"] == Bounds(SecondsRange(form))
  {
    var seed := if form.seed.Some? then form.seed.value else StartSeed(start);
    map["seed" := JInt(seed), "gap_minutes" := Bounds(GapRange(form)), "seconds" := Bounds(SecondsRange(form))]
  }

  /** One work block: `enabled: false` alone, or `enabled: true` with both
      times as `HH:MM`. */
  function BuildWorkBlock(block: FormBlock, prefix: string): (r: Result<Value, EmitError>)
    ensures !block.enabled ==> r == Ok(JObject(map["enabled" := JBool(false)]))
    ensures block.enabled ==> (r.Ok? <==> block.start.Some? && block.end.Some?)
    ensures block.enabled && block.start.None? ==> r == Err(MissingValue(prefix + "_start"))
    ensures block.enabled && block.start.Some? && block.end.None? ==> r == Err(MissingValue(prefix + "_end"))
    ensures r.Ok? && block.enabled ==> r.value == JObject(map[
      "enabled" := JBool(true),
      "hours" := JObject(map["start" := JString(FmtTime(block.start.value)), "end" := JString(FmtTime(block.end.value))])])
  {
    if !block.enabled then Ok(JObject(map["enabled" := JBool(false)]))
    else if block.start.None? then Err(MissingValue(prefix + "_start"))
    else if block.end.None? then Err(MissingValue(prefix + "_end"))
    else
      Ok(JObject(map[
        "enabled" := JBool(true),
        "hours" := JObject(map["start" := JString(FmtTime(block.start.value)), "end" := JString(FmtTime(block.end.value))])]))
  }

  /** The mode and scope every policy carries. */
  function BasePolicy(form: FormData): Object {
    map["timestamp" := JObject(map["mode" := JString(form.mode)]),
        "scope" := JObject(map["fraction" := JFloat(form.scopeFraction)])]
  }

  function CalendarSection(start: FormDate, end: FormDate): Object {
    map["start" := JString(IsoFormat(start)), "end" := JString(IsoFormat(end)), "timezone" := JString("UTC")]
  }

  /** The synthetic policy: mode and scope, the calendar, the three work
      blocks and the randomness. */
  function SyntheticPolicy(form: FormData, start: FormDate, end: FormDate,
                           weekdays: Value, saturday: Value, sunday: Value): (p: Object)
    ensures p.Keys == {"timestamp", "scope", "calendar", "work_patterns", "randomness"}
  {
    BasePolicy(form)
      ["calendar" := JObject(CalendarSection(start, end))]
      ["work_patterns" := JObject(map["weekdays" := weekdays, "saturday" := saturday, "sunday" := sunday])]
      ["randomness" := JObject(BuildRandomness(form, start))]
  }

  /** `build_policy_dict`: copy modes emit mode and scope only; synthetic mode
      adds the calendar (always in UTC), the three work blocks and the
      randomness; any other mode is refused. */
  function BuildPolicyDict(form: FormData): (r: Result<Object, EmitError>)
    ensures IsCopyMode(form.mode) ==> r == Ok(BasePolicy(form)) && r.value.Keys == {"timestamp", "scope"}
    ensures !IsCopyMode(form.mode) && form.mode != "synthetic" ==>
      r == Err(UnsupportedMode("Unsupported mode: " + form.mode))
    ensures form.mode == "synthetic" && form.calendarStart.None? ==> r == Err(MissingValue("calendar_start"))
    ensures form.mode == "synthetic" && form.calendarStart.Some? && form.calendarEnd.None? ==>
      r == Err(MissingValue("calendar_end"))
    ensures form.mode == "synthetic" && form.calendarStart.Some? && form.calendarEnd.Some? ==>
      var w := BuildWorkBlock(form.weekdays, "weekdays");
      var s := BuildWorkBlock(form.saturday, "saturday");
      var u := BuildWorkBlock(form.sunday, "sunday");
      && (r.Ok? <==> w.Ok? && s.Ok? && u.Ok?)
      && (r.Ok? ==> r.value == SyntheticPolicy(form, form.calendarStart.value, form.calendarEnd.value, w.value, s.value, u.value))
    ensures r.Ok? && form.mode == "synthetic" ==>
      r.value.Keys == {"timestamp", "scope", "calendar", "work_patterns", "randomness"}
  {
    var base := BasePolicy(form);
    if IsCopyMode(form.mode) then Ok(base)
    else if form.mode != "synthetic" then Err(UnsupportedMode("Unsupported mode: " + form.mode))
    else if form.calendarStart.None? then Err(MissingValue("calendar_start"))
    else if form.calendarEnd.None? then Err(MissingValue("calendar_end"))
    else
      var weekdays :- BuildWorkBlock(form.weekdays, "weekdays");
      var saturday :- BuildWorkBlock(form.saturday, "saturday");
      var sunday :- BuildWorkBlock(form.sunday, "sunday");
      Ok(SyntheticPolicy(form, form.calendarStart.value, form.calendarEnd.value, weekdays, saturday, sunday))
  }
}
