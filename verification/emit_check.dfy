/** What the emitter promises the validator: the policy it writes from a
    consistent form passes semantic validation with the form's own values,
    and the one way a form can still produce a rejected policy. */
module EmitRoundTrip {
  import opened Results
  import opened Text
  import opened Chrono
  import opened Json
  import opened Policy
  import opened Validation
  import opened YamlEmit

  /** An enabled block has both times, the end in a later minute. */
  predicate BlockReady(b: FormBlock) {
    b.enabled ==> b.start.Some? && b.end.Some? && MinuteOf(b.start.value) < MinuteOf(b.end.value)
  }

  /** A synthetic form the validator will accept: both dates, start not
      after end, every enabled block ready and at least one enabled. */
  predicate SyntheticReady(form: FormData) {
    && form.mode == "synthetic"
    && form.calendarStart.Some? && form.calendarEnd.Some?
    && !Before(form.calendarEnd.value, form.calendarStart.value)
    && BlockReady(form.weekdays) && BlockReady(form.saturday) && BlockReady(form.sunday)
    && (form.weekdays.enabled || form.saturday.enabled || form.sunday.enabled)
  }

  /** The parsed block the validator should make of a form block. */
  function ExpectedBlock(b: FormBlock): ParsedWorkBlock
    requires BlockReady(b)
  {
    if b.enabled then ParsedWorkBlock(true, Some(ParsedWorkHours(MinuteOf(b.start.value), MinuteOf(b.end.value))))
    else ParsedWorkBlock(false, None)
  }

  /** An emitted block passes the validator exactly when it is ready, and
      then parses to the form's minutes. */
  lemma EmittedBlockValidates(b: FormBlock, prefix: string, path: string)
    requires b.enabled ==> b.start.Some? && b.end.Some?
    ensures BuildWorkBlock(b, prefix).Ok? && BuildWorkBlock(b, prefix).value.JObject?
    ensures var v := ValidateWorkBlock(path, BuildWorkBlock(b, prefix).value.fields);
      && (v.Ok? <==> BlockReady(b))
      && (v.Ok? ==> v.value == ExpectedBlock(b))
  {
    if b.enabled {
      EnabledBlockValidates(b.start.value, b.end.value, path);
    } else {
      var blk: Object := map["enabled" := JBool(false)];
      assert Get(blk, "enabled") == JBool(false);
      assert Get(blk, "hours") == JNull;
    }
  }

  lemma EnabledBlockValidates(start: FormTime, end: FormTime, path: string)
    ensures var hours: Object := map["start" := JString(FmtTime(start)), "end" := JString(FmtTime(end))];
      var v := ValidateWorkBlock(path, map["enabled" := JBool(true), "hours" := JObject(hours)]);
      && (v.Ok? <==> MinuteOf(start) < MinuteOf(end))
      && (v.Ok? ==> v.value == ParsedWorkBlock(true, Some(ParsedWorkHours(MinuteOf(start), MinuteOf(end)))))
  {
    var s, e := FmtTime(start), FmtTime(end);
    FmtTimeParses(path + ".hours.start", start);
    FmtTimeParses(path + ".hours.end", end);
    HoursBlockValidates(path, s, e, MinuteOf(start), MinuteOf(end));
  }

  /** An enabled block whose two time strings parse validates exactly when
      the end is later. */
  lemma HoursBlockValidates(path: string, s: string, e: string, sm: MinuteOfDay, em: MinuteOfDay)
    requires ParseTime(path + ".hours.start", s) == Ok(sm)
    requires ParseTime(path + ".hours.end", e) == Ok(em)
    ensures var hours: Object := map["start" := JString(s), "end" := JString(e)];
      var v := ValidateWorkBlock(path, map["enabled" := JBool(true), "hours" := JObject(hours)]);
      && (v.Ok? <==> sm < em)
      && (v.Ok? ==> v.value == ParsedWorkBlock(true, Some(ParsedWorkHours(sm, em))))
  {
    var hours: Object := map["start" := JString(s), "end" := JString(e)];
    var blk: Object := map["enabled" := JBool(true), "hours" := JObject(hours)];
    HoursBlockFields(s, e);
    HoursBlockOutcome(path, blk, hours, s, e, sm, em);
  }

  lemma HoursBlockFields(s: string, e: string)
    ensures var hours: Object := map["start" := JString(s), "end" := JString(e)];
      var blk: Object := map["enabled" := JBool(true), "hours" := JObject(hours)];
      && Get(blk, "enabled") == JBool(true) && Get(blk, "hours") == JObject(hours)
      && Get(hours, "start") == JString(s) && Get(hours, "end") == JString(e)
  {
  }

  lemma HoursBlockOutcome(path: string, blk: Object, hours: Object, s: string, e: string, sm: MinuteOfDay, em: MinuteOfDay)
    requires Get(blk, "enabled") == JBool(true) && Get(blk, "hours") == JObject(hours)
    requires Get(hours, "start") == JString(s) && Get(hours, "end") == JString(e)
    requires ParseTime(path + ".hours.start", s) == Ok(sm)
    requires ParseTime(path + ".hours.end", e) == Ok(em)
    ensures var v := ValidateWorkBlock(path, blk);
      && (v.Ok? <==> sm < em)
      && (v.Ok? ==> v.value == ParsedWorkBlock(true, Some(ParsedWorkHours(sm, em))))
  {
    var v := ValidateWorkBlock(path, blk);
    if sm < em {
      assert v == Ok(ParsedWorkBlock(true, Some(ParsedWorkHours(sm, em))));
    } else {
      assert v.Err?;
    }
  }

  /** A form window shorter than a minute: 09:00:00 to 09:00:30 is emitted
      as `09:00`–`09:00`, which the validator rejects. */
  lemma SubMinuteWindowRejected()
    ensures var b := FormBlock(true, Some(TimeOfDay(9, 0, 0)), Some(TimeOfDay(9, 0, 30)));
      && BuildWorkBlock(b, "weekdays").Ok?
      && ValidateWorkBlock("work_patterns.weekdays", BuildWorkBlock(b, "weekdays").value.fields).Err?
  {
    var b := FormBlock(true, Some(TimeOfDay(9, 0, 0)), Some(TimeOfDay(9, 0, 30)));
    EmittedBlockValidates(b, "weekdays", "work_patterns.weekdays");
  }

  /** `UTC` names itself and resolves to the zero offset without a lookup. */
  lemma UtcTimezone(path: string, zones: ZoneDatabase)
    ensures TimezoneName(JString("UTC")) == Ok("UTC")
    ensures ResolveTimezone(path, "UTC", zones) == Ok(0)
  {
    var utc := "UTC";
    assert !IsSpace(utc[0]) && !IsSpace(utc[2]);
    assert Strip(utc) == utc;
    assert EqualsIgnoringCase(utc, "utc") by {
      assert LowerChar(utc[0]) == 'u' && LowerChar(utc[1]) == 't' && LowerChar(utc[2]) == 'c';
    }
  }

  /** The emitted calendar passes exactly when start is not after end, as
      the form's ordinals in UTC. */
  lemma EmittedCalendarValidates(start: FormDate, end: FormDate, zones: ZoneDatabase)
    ensures var v := ValidateCalendar(CalendarSection(start, end), zones);
      && (v.Ok? <==> !Before(end, start))
      && (v.Ok? ==> v.value == ParsedCalendar(Ordinal(start), Ordinal(end), "UTC", 0))
  {
    var cal := CalendarSection(start, end);
    CalendarSectionFields(start, end);
    IsoFormatRoundTrip(start);
    IsoFormatRoundTrip(end);
    OrdinalOrder(end, start);
    UtcCalendarValidates(cal, IsoFormat(start), IsoFormat(end), Ordinal(start), Ordinal(end), zones);
  }

  /** The three entries of an emitted calendar. */
  lemma CalendarSectionFields(start: FormDate, end: FormDate)
    ensures var cal := CalendarSection(start, end);
      && Get(cal, "start") == JString(IsoFormat(start))
      && Get(cal, "end") == JString(IsoFormat(end))
      && Get(cal, "timezone") == JString("UTC")
  {
  }

  /** A calendar whose two dates parse and whose zone is `UTC` validates
      exactly when the start is not after the end. */
  lemma UtcCalendarValidates(cal: Object, s: string, e: string, sd: int, ed: int, zones: ZoneDatabase)
    requires Get(cal, "start") == JString(s) && Get(cal, "end") == JString(e)
    requires Get(cal, "timezone") == JString("UTC")
    requires ParseDate("calendar.start", s) == Ok(sd) && ParseDate("calendar.end", e) == Ok(ed)
    ensures var v := ValidateCalendar(cal, zones);
      && (v.Ok? <==> sd <= ed)
      && (v.Ok? ==> v.value == ParsedCalendar(sd, ed, "UTC", 0))
  {
    if sd <= ed {
      UtcCalendarAccepted(cal, s, e, sd, ed, zones);
    }
  }

  lemma UtcCalendarAccepted(cal: Object, s: string, e: string, sd: int, ed: int, zones: ZoneDatabase)
    requires Get(cal, "start") == JString(s) && Get(cal, "end") == JString(e)
    requires Get(cal, "timezone") == JString("UTC")
    requires ParseDate("calendar.start", s) == Ok(sd) && ParseDate("calendar.end", e) == Ok(ed)
    requires sd <= ed
    ensures ValidateCalendar(cal, zones) == Ok(ParsedCalendar(sd, ed, "UTC", 0))
  {
    UtcTimezone("calendar.timezone", zones);
  }

  /** The emitted randomness always passes, with the normalised ranges and
      the seed the form gave or the start date's `YYYYMMDD`. */
  lemma EmittedRandomnessValidates(form: FormData, start: FormDate)
    ensures var v := ValidateRandomness(BuildRandomness(form, start));
      var gap := GapRange(form);
      var sec := SecondsRange(form);
      v == Ok(ParsedRandomness(Some(if form.seed.Some? then form.seed.value else StartSeed(start)),
                               gap.0, gap.1, sec.0, sec.1))
  {
  }

  /** The emitted patterns pass exactly when every block is ready and one is
      enabled. */
  lemma EmittedPatternsValidate(form: FormData)
    requires form.weekdays.enabled ==> form.weekdays.start.Some? && form.weekdays.end.Some?
    requires form.saturday.enabled ==> form.saturday.start.Some? && form.saturday.end.Some?
    requires form.sunday.enabled ==> form.sunday.start.Some? && form.sunday.end.Some?
    ensures var w := JObject(map[
      "weekdays" := BuildWorkBlock(form.weekdays, "weekdays").value,
      "saturday" := BuildWorkBlock(form.saturday, "saturday").value,
      "sunday" := BuildWorkBlock(form.sunday, "sunday").value]);
      var v := ValidateWorkPatterns(w.fields);
      && (v.Ok? <==> BlockReady(form.weekdays) && BlockReady(form.saturday) && BlockReady(form.sunday)
                     && (form.weekdays.enabled || form.saturday.enabled || form.sunday.enabled))
      && (v.Ok? ==> v.value == ParsedWorkPatterns(ExpectedBlock(form.weekdays), ExpectedBlock(form.saturday), ExpectedBlock(form.sunday)))
  {
    EmittedBlockValidates(form.weekdays, "weekdays", "work_patterns.weekdays");
    EmittedBlockValidates(form.saturday, "saturday", "work_patterns.saturday");
    EmittedBlockValidates(form.sunday, "sunday", "work_patterns.sunday");
    PatternsOfBlocks(
      BuildWorkBlock(form.weekdays, "weekdays").value.fields,
      BuildWorkBlock(form.saturday, "saturday").value.fields,
      BuildWorkBlock(form.sunday, "sunday").value.fields);
  }

  /** Three block objects make patterns that validate exactly when each
      block does and one of them is enabled. */
  lemma PatternsOfBlocks(w: Object, s: Object, u: Object)
    ensures var v := ValidateWorkPatterns(map["weekdays" := JObject(w), "saturday" := JObject(s), "sunday" := JObject(u)]);
      var bw := ValidateWorkBlock("work_patterns.weekdays", w);
      var bs := ValidateWorkBlock("work_patterns.saturday", s);
      var bu := ValidateWorkBlock("work_patterns.sunday", u);
      && (v.Ok? <==> bw.Ok? && bs.Ok? && bu.Ok? && (bw.value.enabled || bs.value.enabled || bu.value.enabled))
      && (v.Ok? ==> v.value == ParsedWorkPatterns(bw.value, bs.value, bu.value))
  {
    var m: Object := map["weekdays" := JObject(w), "saturday" := JObject(s), "sunday" := JObject(u)];
    assert Get(m, "weekdays") == JObject(w);
    assert Get(m, "saturday") == JObject(s);
    assert Get(m, "sunday") == JObject(u);
  }

  /** The configuration the loader reads from an emitted copy-mode policy. */
  lemma EmittedCopyConfig(form: FormData)
    requires IsCopyMode(form.mode)
    ensures BuildPolicyDict(form).Ok?
    ensures FromDocument(BuildPolicyDict(form).value)
      == Some(Config(TimestampConfig(form.mode), ScopeConfig(form.scopeFraction), None, None, None))
  {
    var doc := BasePolicy(form);
    assert Get(doc, "timestamp") == JObject(map["mode" := JString(form.mode)]);
    assert Get(doc, "scope") == JObject(map["fraction" := JFloat(form.scopeFraction)]);
    assert Get(map["mode" := JString(form.mode)], "mode") == JString(form.mode);
    assert Get(map["fraction" := JFloat(form.scopeFraction)], "fraction") == JFloat(form.scopeFraction);
    assert Section(doc, "calendar") == Some(None);
    assert Section(doc, "work_patterns") == Some(None);
    assert Section(doc, "randomness") == Some(None);
  }

  /** An emitted copy-mode policy always passes the validator, unchanged. */
  lemma EmittedCopyPolicyValidates(form: FormData, zones: ZoneDatabase)
    requires IsCopyMode(form.mode)
    ensures BuildPolicyDict(form).Ok? && FromDocument(BuildPolicyDict(form).value).Some?
    ensures ValidateConfig(FromDocument(BuildPolicyDict(form).value).value, zones)
      == Ok(ValidatedConfig(TimestampConfig(form.mode), ScopeConfig(form.scopeFraction), None, None, None))
  {
    EmittedCopyConfig(form);
  }

  /** The configuration the loader reads from an emitted synthetic policy:
      the three sections exactly as the emitter built them. */
  lemma EmittedSyntheticConfig(form: FormData)
    requires form.mode == "synthetic" && BuildPolicyDict(form).Ok?
    ensures form.calendarStart.Some? && form.calendarEnd.Some?
    ensures var start, end := form.calendarStart.value, form.calendarEnd.value;
      FromDocument(BuildPolicyDict(form).value) == Some(Config(
        TimestampConfig("synthetic"), ScopeConfig(form.scopeFraction),
        Some(CalendarSection(start, end)),
        Some(map[
          "weekdays" := BuildWorkBlock(form.weekdays, "weekdays").value,
          "saturday" := BuildWorkBlock(form.saturday, "saturday").value,
          "sunday" := BuildWorkBlock(form.sunday, "sunday").value]),
        Some(BuildRandomness(form, start))))
  {
    var start, end := form.calendarStart.value, form.calendarEnd.value;
    SyntheticDocumentLoads(form, start, end,
      BuildWorkBlock(form.weekdays, "weekdays").value,
      BuildWorkBlock(form.saturday, "saturday").value,
      BuildWorkBlock(form.sunday, "sunday").value);
  }

  /** Loading a synthetic policy document hands its sections over as they are. */
  lemma SyntheticDocumentLoads(form: FormData, start: FormDate, end: FormDate, w: Value, s: Value, u: Value)
    requires w.JObject? && s.JObject? && u.JObject?
    requires form.mode == "synthetic"
    ensures FromDocument(SyntheticPolicy(form, start, end, w, s, u)) == Some(Config(
      TimestampConfig("synthetic"), ScopeConfig(form.scopeFraction),
      Some(CalendarSection(start, end)),
      Some(map["weekdays" := w, "saturday" := s, "sunday" := u]),
      Some(BuildRandomness(form, start))))
  {
    SyntheticPolicyFields(form, start, end, w, s, u);
    LoadsSections(SyntheticPolicy(form, start, end, w, s, u), form.mode, form.scopeFraction,
      CalendarSection(start, end), map["weekdays" := w, "saturday" := s, "sunday" := u], BuildRandomness(form, start));
  }

  /** A document with a string mode, a float fraction and three object
      sections loads as exactly those values. */
  lemma LoadsSections(doc: Object, mode: string, fraction: real, cal: Object, wp: Object, rnd: Object)
    requires Get(doc, "timestamp") == JObject(map["mode" := JString(mode)])
    requires Get(doc, "scope") == JObject(map["fraction" := JFloat(fraction)])
    requires Get(doc, "calendar") == JObject(cal)
    requires Get(doc, "work_patterns") == JObject(wp)
    requires Get(doc, "randomness") == JObject(rnd)
    ensures FromDocument(doc) == Some(Config(TimestampConfig(mode), ScopeConfig(fraction), Some(cal), Some(wp), Some(rnd)))
  {
    assert Get(map["mode" := JString(mode)], "mode") == JString(mode);
    assert Get(map["fraction" := JFloat(fraction)], "fraction") == JFloat(fraction);
  }

  /** The five top-level entries of a synthetic policy. */
  lemma SyntheticPolicyFields(form: FormData, start: FormDate, end: FormDate, w: Value, s: Value, u: Value)
    ensures var doc := SyntheticPolicy(form, start, end, w, s, u);
      && Get(doc, "timestamp") == JObject(map["mode" := JString(form.mode)])
      && Get(doc, "scope") == JObject(map["fraction" := JFloat(form.scopeFraction)])
      && Get(doc, "calendar") == JObject(CalendarSection(start, end))
      && Get(doc, "work_patterns") == JObject(map["weekdays" := w, "saturday" := s, "sunday" := u])
      && Get(doc, "randomness") == JObject(BuildRandomness(form, start))
  {
    var b := BasePolicy(form);
    BasePolicyFields(form);
    UpdatedFields(b, JObject(CalendarSection(start, end)),
      JObject(map["weekdays" := w, "saturday" := s, "sunday" := u]), JObject(BuildRandomness(form, start)));
  }

  lemma BasePolicyFields(form: FormData)
    ensures Get(BasePolicy(form), "timestamp") == JObject(map["mode" := JString(form.mode)])
    ensures Get(BasePolicy(form), "scope") == JObject(map["fraction" := JFloat(form.scopeFraction)])
  {
  }

  /** Adding the three synthetic sections keeps mode and scope. */
  lemma UpdatedFields(b: Object, cal: Value, wp: Value, rnd: Value)
    ensures var doc := b["calendar" := cal]["work_patterns" := wp]["randomness" := rnd];
      && Get(doc, "timestamp") == Get(b, "timestamp") && Get(doc, "scope") == Get(b, "scope")
      && Get(doc, "calendar") == cal && Get(doc, "work_patterns") == wp && Get(doc, "randomness") == rnd
  {
  }

  /** An emitted synthetic policy passes the validator exactly when the form
      is ready, and then carries the form's dates in UTC, its blocks'
      minutes, its normalised ranges and its seed (or the start date's). */
  lemma EmittedSyntheticPolicyValidates(form: FormData, zones: ZoneDatabase)
    requires form.mode == "synthetic" && BuildPolicyDict(form).Ok?
    ensures FromDocument(BuildPolicyDict(form).value).Some?
    ensures var v := ValidateConfig(FromDocument(BuildPolicyDict(form).value).value, zones);
      && (v.Ok? <==> SyntheticReady(form))
      && (v.Ok? ==>
            var start, end := form.calendarStart.value, form.calendarEnd.value;
            var gap, sec := GapRange(form), SecondsRange(form);
            v.value == ValidatedConfig(
              TimestampConfig("synthetic"), ScopeConfig(form.scopeFraction),
              Some(ParsedCalendar(Ordinal(start), Ordinal(end), "UTC", 0)),
              Some(ParsedWorkPatterns(ExpectedBlock(form.weekdays), ExpectedBlock(form.saturday), ExpectedBlock(form.sunday))),
              Some(ParsedRandomness(Some(if form.seed.Some? then form.seed.value else StartSeed(start)),
                                    gap.0, gap.1, sec.0, sec.1))))
  {
    EmittedSyntheticConfig(form);
    var start, end := form.calendarStart.value, form.calendarEnd.value;
    var cfg := FromDocument(BuildPolicyDict(form).value).value;
    assert cfg.timestamp.mode == "synthetic" && AllSyntheticSections(cfg);
    EmittedCalendarValidates(start, end, zones);
    EmittedPatternsValidate(form);
    EmittedRandomnessValidates(form, start);
    var c := ValidateCalendar(cfg.calendar.value, zones);
    var w := ValidateWorkPatterns(cfg.workPatterns.value);
    var n := ValidateRandomness(cfg.randomness.value);
    assert c.Ok? <==> !Before(end, start);
    assert w.Ok? <==> (BlockReady(form.weekdays) && BlockReady(form.saturday) && BlockReady(form.sunday)
                       && (form.weekdays.enabled || form.saturday.enabled || form.sunday.enabled));
    assert n.Ok?;
  }
}
