/** The timestamp engine: copy modes that restore one recorded date from
    the other, and the synthetic mode that walks a calendar, placing each
    commit at a random instant inside an enabled work window, a random gap
    after the previous one. All instants are wall-clock seconds in the
    calendar's zone. */
module Engine {
  import opened Results
  import opened Chrono
  import opened Validation
  import opened Random
  import opened Repo

  datatype EngineFailure = EngineError(message: string) | ValueError(message: string)

  const Exhausted: EngineFailure := EngineError("Synthetic calendar window exhausted")

  /** A `randint` failure surfaces as Python's `ValueError`. */
  function Draw(rng: Rng, lo: int, hi: int): (r: Result<(int, Rng), EngineFailure>)
    ensures r.Ok? <==> lo <= hi
    ensures r.Ok? ==> lo <= r.value.0 <= hi
    ensures r.Ok? ==> r.value.1.source == rng.source && r.value.1.drawn == rng.drawn + 1
    ensures r.Err? ==> r.error.ValueError?
  {
    match RandInt(rng, lo, hi)
    case Ok(v) => Ok(v)
    case Err(msg) => Err(ValueError(msg))
  }

  // ---------------------------------------------------------------------
  // Days and windows
  // ---------------------------------------------------------------------

  /** Monday to Friday use the weekday block; Saturday and Sunday their own. */
  function WorkBlockForDay(day: int, work: ParsedWorkPatterns): (b: ParsedWorkBlock)
    ensures Weekday(day) <= 4 ==> b == work.weekdays
    ensures Weekday(day) == 5 ==> b == work.saturday
    ensures Weekday(day) == 6 ==> b == work.sunday
  {
    var weekday := Weekday(day);
    if weekday <= 4 then work.weekdays
    else if weekday == 5 then work.saturday
    else work.sunday
  }

  /** The block of a day depends only on its weekday: it repeats weekly,
      and 2024-01-01 (a Monday) uses the weekday block. */
  lemma WorkBlockWeekly(day: int, work: ParsedWorkPatterns)
    ensures WorkBlockForDay(day + 7, work) == WorkBlockForDay(day, work)
    ensures WorkBlockForDay(Ordinal(CivilDate(2024, 1, 1)), work) == work.weekdays
    ensures WorkBlockForDay(Ordinal(CivilDate(2024, 1, 6)), work) == work.saturday
    ensures WorkBlockForDay(Ordinal(CivilDate(2024, 1, 7)), work) == work.sunday
  {
    WeekdayStep(day);
    assert Ordinal(CivilDate(2024, 1, 1)) == 738886;
  }

  predicate Enabled(day: int, work: ParsedWorkPatterns) {
    WorkBlockForDay(day, work).enabled
  }

  /** An enabled day that also has hours: one the walk can place a commit in. */
  predicate HasWindow(day: int, work: ParsedWorkPatterns) {
    WorkBlockForDay(day, work).enabled && WorkBlockForDay(day, work).hours.Some?
  }

  /** The first enabled day in `[day, endDay]`. */
  function NextEnabledDay(day: int, endDay: int, work: ParsedWorkPatterns): (r: Result<int, EngineFailure>)
    ensures r.Ok? ==> day <= r.value <= endDay && Enabled(r.value, work)
    ensures r.Ok? ==> forall d :: day <= d < r.value ==> !Enabled(d, work)
    ensures r.Err? <==> forall d :: day <= d <= endDay ==> !Enabled(d, work)
    ensures r.Err? ==> r.error == Exhausted
    decreases endDay - day
  {
    if day > endDay then Err(Exhausted)
    else if Enabled(day, work) then Ok(day)
    else NextEnabledDay(day + 1, endDay, work)
  }

  /** The first and last second of a day's window: the end minute counts
      through its 59th second. */
  function WindowBounds(day: int, hours: ParsedWorkHours): (r: (int, int))
    ensures DayOf(r.0) == day && DayOf(r.1) == day
    ensures SecondOfDay(r.0) == hours.start * 60 && SecondOfDay(r.1) == hours.end * 60 + 59
  {
    (At(day, hours.start * 60), At(day, hours.end * 60 + 59))
  }

  /** `t` lies inside the window of its own day, which has one. */
  predicate InWindow(t: int, work: ParsedWorkPatterns) {
    var d := DayOf(t);
    && HasWindow(d, work)
    && var (lo, hi) := WindowBounds(d, WorkBlockForDay(d, work).hours.value);
    lo <= t <= hi
  }

  /** A time of day inside `[start, end]` (minutes, end inclusive through
      its last second), second field drawn from `[secMin, secMax]`. */
  function PickTimeInWindow(rng: Rng, start: MinuteOfDay, end: MinuteOfDay, secMin: int, secMax: int): (r: Result<(int, Rng), EngineFailure>)
    ensures end < start ==> r == Err(EngineError("Invalid work window: end before start"))
    ensures r.Err? ==> r.error != Exhausted
    ensures start <= end && 0 <= secMin <= secMax <= 59 ==> r.Ok?
    ensures r.Ok? ==>
      && 0 <= r.value.0 < SecondsPerDay
      && start <= r.value.0 / 60 <= end
      && secMin <= r.value.0 % 60 <= secMax
    ensures r.Ok? ==> r.value.1.source == rng.source && r.value.1.drawn == rng.drawn + 2
  {
    var startS := start * 60;
    var endS := end * 60 + 59;
    if endS < startS then
      Err(EngineError("Invalid work window: end before start"))
    else
      var (drawn, rng1) := Draw(rng, startS, endS).value;
      var aligned := drawn - drawn % 60;
      var chosen := Max(startS, Min(aligned, endS));
      var minute := (chosen % 3600) / 60;
      var hour := chosen / 3600;
      AlignToMinute(drawn, start, end);
      HourAndMinute(chosen);
      var (second, rng2) :- Draw(rng1, secMin, secMax);
      if !(0 <= second <= 59) then
        Err(ValueError("second must be in 0..59"))
      else
        MinuteAndSecond(chosen / 60, second);
        Ok((hour * 3600 + minute * 60 + second, rng2))
  }

  /** Rounding a second inside the window down to its minute stays inside. */
  lemma AlignToMinute(drawn: int, start: MinuteOfDay, end: MinuteOfDay)
    requires start * 60 <= drawn <= end * 60 + 59
    ensures var aligned := drawn - drawn % 60;
      aligned == (drawn / 60) * 60 && start * 60 <= aligned <= end * 60 && start <= drawn / 60 <= end
  {
  }

  /** A whole-minute second of the day splits into hour and minute. */
  lemma HourAndMinute(chosen: int)
    requires 0 <= chosen && chosen % 60 == 0
    ensures chosen == (chosen / 3600) * 3600 + ((chosen % 3600) / 60) * 60
  {
  }

  lemma MinuteAndSecond(m: int, second: int)
    requires 0 <= second < 60
    ensures (m * 60 + second) / 60 == m && (m * 60 + second) % 60 == second
  {
  }

  function Min(a: int, b: int): int { if a <= b then a else b }

  function Max(a: int, b: int): int { if a >= b then a else b }

  /** A random instant inside the window of `day`. */
  function RandomDateTimeForDay(day: int, work: ParsedWorkPatterns, rng: Rng, secMin: int, secMax: int): (r: Result<(int, Rng), EngineFailure>)
    ensures !HasWindow(day, work) ==>
      r == Err(EngineError("Internal error: requested random time for a disabled day"))
    ensures r.Ok? ==> DayOf(r.value.0) == day && InWindow(r.value.0, work)
    ensures r.Err? ==> r.error != Exhausted
    ensures r.Ok? ==> r.value.1.source == rng.source && r.value.1.drawn == rng.drawn + 2
    ensures (&& HasWindow(day, work) && ValidHours(WorkBlockForDay(day, work).hours.value)
             && 0 <= secMin <= secMax <= 59) ==> r.Ok?
  {
    var block := WorkBlockForDay(day, work);
    if !block.enabled || block.hours.None? then
      Err(EngineError("Internal error: requested random time for a disabled day"))
    else
      var (sod, rng1) :- PickTimeInWindow(rng, block.hours.value.start, block.hours.value.end, secMin, secMax);
      Ok((At(day, sod), rng1))
  }

  predicate ValidHours(hours: ParsedWorkHours) {
    hours.start <= hours.end
  }

  // ---------------------------------------------------------------------
  // Advancing a candidate
  // ---------------------------------------------------------------------

  /** The candidate is already past the window of day `d`, its own day. */
  predicate Passed(d: int, candidate: int, work: ParsedWorkPatterns)
    requires HasWindow(d, work)
  {
    var (lo, hi) := WindowBounds(d, WorkBlockForDay(d, work).hours.value);
    d == DayOf(candidate) && lo <= candidate && hi < candidate
  }

  /** Day `d` can still take the candidate: it has a window that the
      candidate has not already passed. */
  predicate Usable(d: int, candidate: int, work: ParsedWorkPatterns) {
    HasWindow(d, work) && !Passed(d, candidate, work)
  }

  /** Moves `candidate` forward to the first instant inside an enabled
      window on or before `endDay`. */
  function NextValidDateTime(candidate: int, endDay: int, work: ParsedWorkPatterns, rng: Rng, secMin: int, secMax: int): (r: Result<(int, Rng), EngineFailure>)
    ensures r.Ok? ==> candidate <= r.value.0 && InWindow(r.value.0, work) && DayOf(r.value.0) <= endDay
    ensures r.Ok? ==> forall d :: DayOf(candidate) <= d < DayOf(r.value.0) ==> !Usable(d, candidate, work)
    ensures InWindow(candidate, work) && DayOf(candidate) <= endDay ==>
      r.Ok? && r.value.0 == candidate && r.value.1.drawn == rng.drawn
    ensures r == Err(Exhausted) <==> forall d :: DayOf(candidate) <= d <= endDay ==> !Usable(d, candidate, work)
    ensures r.Ok? ==> r.value.1.source == rng.source
  {
    AdvanceFindsFirstUsableDay(DayOf(candidate), candidate, candidate, endDay, work, rng, secMin, secMax);
    AdvanceExhaustedExactly(DayOf(candidate), candidate, candidate, endDay, work, rng, secMin, secMax);
    Advance(DayOf(candidate), candidate, candidate, endDay, work, rng, secMin, secMax)
  }

  /** One step of the walk on `day`; `current` is the original candidate on
      its own day and midnight on every later day. */
  function Advance(day: int, current: int, original: int, endDay: int, work: ParsedWorkPatterns, rng: Rng, secMin: int, secMax: int): (r: Result<(int, Rng), EngineFailure>)
    requires DayOf(original) <= day && DayOf(current) == day
    requires day == DayOf(original) ==> current == original
    requires day > DayOf(original) ==> current == At(day, 0)
    ensures r.Ok? ==> current <= r.value.0 && InWindow(r.value.0, work) && day <= DayOf(r.value.0) <= endDay
    ensures InWindow(current, work) && day <= endDay ==>
      r.Ok? && r.value.0 == current && r.value.1.drawn == rng.drawn
    ensures r.Ok? ==> r.value.1.source == rng.source
    decreases endDay - day
  {
    if day > endDay then
      Err(Exhausted)
    else
      var block := WorkBlockForDay(day, work);
      if !block.enabled || block.hours.None? then
        Advance(day + 1, At(day + 1, 0), original, endDay, work, rng, secMin, secMax)
      else
        var (windowStart, windowEnd) := WindowBounds(day, block.hours.value);
        if current < windowStart then
          RandomDateTimeForDay(day, work, rng, secMin, secMax)
        else if current <= windowEnd then
          Ok((current, rng))
        else
          Advance(day + 1, At(day + 1, 0), original, endDay, work, rng, secMin, secMax)
  }

  /** The walk stops on the first day that can still take the candidate. */
  lemma {:induction false} AdvanceFindsFirstUsableDay(day: int, current: int, original: int, endDay: int, work: ParsedWorkPatterns, rng: Rng, secMin: int, secMax: int)
    requires DayOf(original) <= day && DayOf(current) == day
    requires day == DayOf(original) ==> current == original
    requires day > DayOf(original) ==> current == At(day, 0)
    ensures var r := Advance(day, current, original, endDay, work, rng, secMin, secMax);
      r.Ok? ==> forall d :: day <= d < DayOf(r.value.0) ==> !Usable(d, original, work)
    decreases endDay - day
  {
    if day <= endDay {
      var block := WorkBlockForDay(day, work);
      var skip := !block.enabled || block.hours.None? ||
        (var (windowStart, windowEnd) := WindowBounds(day, block.hours.value);
         windowEnd < current && windowStart <= current);
      if skip {
        assert !Usable(day, original, work);
        AdvanceFindsFirstUsableDay(day + 1, At(day + 1, 0), original, endDay, work, rng, secMin, secMax);
        SkippedDay(day, current, original, endDay, work, rng, secMin, secMax);
      } else {
        StoppedDay(day, current, original, endDay, work, rng, secMin, secMax);
      }
    }
  }

  /** On a day that can take the candidate the walk ends on that day. */
  lemma StoppedDay(day: int, current: int, original: int, endDay: int, work: ParsedWorkPatterns, rng: Rng, secMin: int, secMax: int)
    requires DayOf(original) <= day <= endDay && DayOf(current) == day
    requires day == DayOf(original) ==> current == original
    requires day > DayOf(original) ==> current == At(day, 0)
    requires var block := WorkBlockForDay(day, work);
      && block.enabled && block.hours.Some?
      && !(var (windowStart, windowEnd) := WindowBounds(day, block.hours.value);
           windowEnd < current && windowStart <= current)
    ensures var r := Advance(day, current, original, endDay, work, rng, secMin, secMax);
      && (r.Ok? ==> DayOf(r.value.0) == day)
      && r != Err(Exhausted)
  {
  }

  /** On a day that cannot take the candidate the walk moves on to the next. */
  lemma SkippedDay(day: int, current: int, original: int, endDay: int, work: ParsedWorkPatterns, rng: Rng, secMin: int, secMax: int)
    requires DayOf(original) <= day <= endDay && DayOf(current) == day
    requires day == DayOf(original) ==> current == original
    requires day > DayOf(original) ==> current == At(day, 0)
    requires var block := WorkBlockForDay(day, work);
      || !block.enabled || block.hours.None?
      || (var (windowStart, windowEnd) := WindowBounds(day, block.hours.value);
          windowEnd < current && windowStart <= current)
    ensures Advance(day, current, original, endDay, work, rng, secMin, secMax)
      == Advance(day + 1, At(day + 1, 0), original, endDay, work, rng, secMin, secMax)
  {
  }

  /** The walk fails with exhaustion exactly when no day up to `endDay`
      can take the candidate. */
  lemma {:induction false} AdvanceExhaustedExactly(day: int, current: int, original: int, endDay: int, work: ParsedWorkPatterns, rng: Rng, secMin: int, secMax: int)
    requires DayOf(original) <= day && DayOf(current) == day
    requires day == DayOf(original) ==> current == original
    requires day > DayOf(original) ==> current == At(day, 0)
    ensures Advance(day, current, original, endDay, work, rng, secMin, secMax) == Err(Exhausted)
      <==> forall d :: day <= d <= endDay ==> !Usable(d, original, work)
    decreases endDay - day
  {
    if day <= endDay {
      var block := WorkBlockForDay(day, work);
      var skip := !block.enabled || block.hours.None? ||
        (var (windowStart, windowEnd) := WindowBounds(day, block.hours.value);
         windowEnd < current && windowStart <= current);
      if skip {
        assert !Usable(day, original, work);
        AdvanceExhaustedExactly(day + 1, At(day + 1, 0), original, endDay, work, rng, secMin, secMax);
        SkippedDay(day, current, original, endDay, work, rng, secMin, secMax);
      } else {
        assert Usable(day, original, work);
        StoppedDay(day, current, original, endDay, work, rng, secMin, secMax);
      }
    }
  }

  // ---------------------------------------------------------------------
  // The synthetic timeline
  // ---------------------------------------------------------------------

  /** A gap of `randint(gapMin, gapMax)` minutes plus `randint(secMin, secMax)` seconds. */
  function RandomGap(rng: Rng, gapMin: int, gapMax: int, secMin: int, secMax: int): (r: Result<(int, Rng), EngineFailure>)
    ensures r.Ok? <==> gapMin <= gapMax && secMin <= secMax
    ensures r.Ok? ==> gapMin * 60 + secMin <= r.value.0 <= gapMax * 60 + secMax
    ensures r.Ok? ==> r.value.1.source == rng.source && r.value.1.drawn == rng.drawn + 2
  {
    var (minutes, rng1) :- Draw(rng, gapMin, gapMax);
    var (seconds, rng2) :- Draw(rng1, secMin, secMax);
    Ok((minutes * 60 + seconds, rng2))
  }

  predicate NonDecreasing(s: seq<int>) {
    forall i, j :: 0 <= i < j < |s| ==> s[i] <= s[j]
  }

  /** Randomness whose smallest gap is not negative. */
  predicate ForwardGaps(rand: ParsedRandomness) {
    rand.gapMinutesMin * 60 + rand.secondsMin >= 0
  }

  /** The instants of the next `n` commits after one placed at `current`:
      each adds a random gap and advances to a valid instant. */
  function Timeline(current: int, n: nat, endDay: int, work: ParsedWorkPatterns, rng: Rng, rand: ParsedRandomness): (r: Result<(seq<int>, Rng), EngineFailure>)
    ensures r.Ok? ==> |r.value.0| == n
    ensures r.Ok? ==> forall i :: 0 <= i < n ==> InWindow(r.value.0[i], work) && DayOf(r.value.0[i]) <= endDay
    ensures r.Ok? && ForwardGaps(rand) && n > 0 ==> current <= r.value.0[0]
    ensures r.Ok? && ForwardGaps(rand) ==> NonDecreasing(r.value.0)
    decreases n
  {
    if n == 0 then Ok(([], rng))
    else
      var (gap, rng1) :- RandomGap(rng, rand.gapMinutesMin, rand.gapMinutesMax, rand.secondsMin, rand.secondsMax);
      var (next, rng2) :- NextValidDateTime(current + gap, endDay, work, rng1, rand.secondsMin, rand.secondsMax);
      var (rest, rng3) :- Timeline(next, n - 1, endDay, work, rng2, rand);
      if ForwardGaps(rand) then
        ConsNonDecreasing(next, rest);
        Ok(([next] + rest, rng3))
      else
        Ok(([next] + rest, rng3))
  }

  lemma ConsNonDecreasing(x: int, s: seq<int>)
    requires NonDecreasing(s) && (|s| > 0 ==> x <= s[0])
    ensures NonDecreasing([x] + s)
  {
    var t := [x] + s;
    forall i, j | 0 <= i < j < |t| ensures t[i] <= t[j] {
      if i == 0 {
        assert t[j] == s[j - 1];
        assert s[0] <= s[j - 1];
      } else {
        assert t[i] == s[i - 1] && t[j] == s[j - 1];
      }
    }
  }

  /** The instants of all commits in synthetic mode, in commit order: the
      first at a random instant of the first enabled day, each later one a
      random gap after its predecessor, moved into a window. */
  function SyntheticTimes(n: nat, calendar: ParsedCalendar, work: ParsedWorkPatterns, rand: ParsedRandomness, rng: Rng): (r: Result<seq<int>, EngineFailure>)
    ensures n == 0 ==> r == Ok([])
    ensures r.Ok? ==> |r.value| == n
    ensures r.Ok? ==> forall i :: 0 <= i < n ==> InWindow(r.value[i], work) && DayOf(r.value[i]) <= calendar.end
    ensures r.Ok? && n > 0 ==> calendar.start <= DayOf(r.value[0])
    ensures r.Ok? && n > 0 ==> NextEnabledDay(calendar.start, calendar.end, work) == Ok(DayOf(r.value[0]))
    ensures r.Ok? && ForwardGaps(rand) ==> NonDecreasing(r.value)
    ensures r.Ok? && ForwardGaps(rand) ==> forall i :: 0 <= i < n ==> WithinCalendar(r.value[i], calendar)
    ensures (forall d :: calendar.start <= d <= calendar.end ==> !Enabled(d, work)) && n > 0 ==> r == Err(Exhausted)
  {
    if n == 0 then Ok([])
    else
      var day0 :- NextEnabledDay(calendar.start, calendar.end, work);
      var (first, rng1) :- RandomDateTimeForDay(day0, work, rng, rand.secondsMin, rand.secondsMax);
      var (rest, _) :- Timeline(first, n - 1, calendar.end, work, rng1, rand);
      var times := [first] + rest;
      if ForwardGaps(rand) then
        ConsNonDecreasing(first, rest);
        FromFirstDayOn(times, calendar);
        Ok(times)
      else
        Ok(times)
  }

  /** The instant falls on a day of the calendar. */
  predicate WithinCalendar(t: int, calendar: ParsedCalendar) {
    calendar.start <= DayOf(t) <= calendar.end
  }

  /** Later instants fall on the same day or later ones. */
  lemma DayOfMonotone(a: int, b: int)
    requires a <= b
    ensures DayOf(a) <= DayOf(b)
  {
  }

  /** A non-decreasing run that starts inside the calendar and never leaves
      its last day stays inside the calendar. */
  lemma {:induction false} FromFirstDayOn(times: seq<int>, calendar: ParsedCalendar)
    requires NonDecreasing(times) && |times| > 0 && calendar.start <= DayOf(times[0])
    requires forall i :: 0 <= i < |times| ==> DayOf(times[i]) <= calendar.end
    ensures forall i :: 0 <= i < |times| ==> WithinCalendar(times[i], calendar)
  {
    forall i | 0 <= i < |times| ensures WithinCalendar(times[i], calendar) {
      if i > 0 {
        DayOfMonotone(times[0], times[i]);
      }
    }
  }

  // ---------------------------------------------------------------------
  // Result maps
  // ---------------------------------------------------------------------

  function Hashes(commits: seq<Commit>): (r: seq<string>)
    ensures |r| == |commits| && forall i :: 0 <= i < |commits| ==> r[i] == commits[i].hash
  {
    seq(|commits|, i requires 0 <= i < |commits| => commits[i].hash)
  }

  /** No later entry repeats the key at position `i`. */
  predicate LastOccurrence(keys: seq<string>, i: int)
    requires 0 <= i < |keys|
  {
    forall j :: i < j < |keys| ==> keys[j] != keys[i]
  }

  /** `results[key] = value` in order: every key present, and each key
      holding the value of its last assignment. */
  function AssignByHash<V>(keys: seq<string>, values: seq<V>): (m: map<string, V>)
    requires |keys| == |values|
    ensures m.Keys == set i | 0 <= i < |keys| :: keys[i]
    ensures forall i :: 0 <= i < |keys| && LastOccurrence(keys, i) ==> m[keys[i]] == values[i]
    decreases |keys|
  {
    if keys == [] then map[]
    else
      var n := |keys| - 1;
      var m0 := AssignByHash(keys[..n], values[..n]);
      AssignKeys(keys, m0, keys[..n], values[n]);
      AssignValues(keys, values, m0, keys[..n], values[..n]);
      m0[keys[n] := values[n]]
  }

  /** The last assignment adds its key to the keys of the earlier ones. */
  lemma {:induction false} AssignKeys<V>(keys: seq<string>, m0: map<string, V>, earlierKeys: seq<string>, v: V)
    requires |keys| > 0 && earlierKeys == keys[..|keys| - 1]
    requires m0.Keys == set i | 0 <= i < |earlierKeys| :: earlierKeys[i]
    ensures m0[keys[|keys| - 1] := v].Keys == set i | 0 <= i < |keys| :: keys[i]
  {
    var n := |keys| - 1;
    assert forall i :: 0 <= i < n ==> earlierKeys[i] == keys[i];
    assert (set i | 0 <= i < |keys| :: keys[i]) == (set i | 0 <= i < n :: earlierKeys[i]) + {keys[n]};
  }

  /** A key not assigned again keeps its earlier value; the last key takes
      the last value. */
  lemma {:induction false} AssignValues<V>(keys: seq<string>, values: seq<V>, m0: map<string, V>,
                                           earlierKeys: seq<string>, earlierValues: seq<V>)
    requires |keys| == |values| && |keys| > 0
    requires earlierKeys == keys[..|keys| - 1] && earlierValues == values[..|keys| - 1]
    requires forall i :: 0 <= i < |earlierKeys| ==> earlierKeys[i] in m0
    requires forall i :: 0 <= i < |earlierKeys| && LastOccurrence(earlierKeys, i) ==>
      m0[earlierKeys[i]] == earlierValues[i]
    ensures var m := m0[keys[|keys| - 1] := values[|keys| - 1]];
      forall i :: 0 <= i < |keys| && LastOccurrence(keys, i) ==> keys[i] in m && m[keys[i]] == values[i]
  {
    var n := |keys| - 1;
    var m := m0[keys[n] := values[n]];
    forall i | 0 <= i < |keys| && LastOccurrence(keys, i)
      ensures keys[i] in m && m[keys[i]] == values[i]
    {
      if i < n {
        assert earlierKeys[i] == keys[i] && earlierValues[i] == values[i];
        assert LastOccurrence(earlierKeys, i);
        assert keys[n] != keys[i];
      }
    }
  }

  /** Author mode: every commit's author date becomes its final date. */
  function AuthorMode(commits: seq<Commit>): (m: map<string, DateTime>)
    ensures m.Keys == set c | c in commits :: c.hash
    ensures forall i :: 0 <= i < |commits| && LastOccurrence(Hashes(commits), i) ==>
      m[commits[i].hash] == commits[i].authorDate
  {
    var hashes := Hashes(commits);
    KeysOfHashes(commits);
    AssignByHash(hashes, seq(|commits|, i requires 0 <= i < |commits| => commits[i].authorDate))
  }

  /** Commit mode: every commit's committer date becomes its final date. */
  function CommitMode(commits: seq<Commit>): (m: map<string, DateTime>)
    ensures m.Keys == set c | c in commits :: c.hash
    ensures forall i :: 0 <= i < |commits| && LastOccurrence(Hashes(commits), i) ==>
      m[commits[i].hash] == commits[i].committerDate
  {
    var hashes := Hashes(commits);
    KeysOfHashes(commits);
    AssignByHash(hashes, seq(|commits|, i requires 0 <= i < |commits| => commits[i].committerDate))
  }

  lemma KeysOfHashes(commits: seq<Commit>)
    ensures (set i | 0 <= i < |Hashes(commits)| :: Hashes(commits)[i]) == set c | c in commits :: c.hash
  {
    var hs := Hashes(commits);
    var fromCommits := set c | c in commits :: c.hash;
    var fromHashes := set i | 0 <= i < |hs| :: hs[i];
    forall h | h in fromCommits ensures h in fromHashes {
      var c :| c in commits && c.hash == h;
      var i :| 0 <= i < |commits| && commits[i] == c;
      assert hs[i] == h;
    }
  }

  /** Synthetic mode: no commits need no configuration; otherwise all
      three synthetic sections are required, and every commit is placed
      in the calendar's zone. */
  function SyntheticMode(commits: seq<Commit>, config: ValidatedConfig, seeding: Option<int> -> Rng): (r: Result<map<string, DateTime>, EngineFailure>)
    ensures commits == [] ==> r == Ok(map[])
    ensures commits != [] && (config.calendar.None? || config.workPatterns.None? || config.randomness.None?) ==>
      r == Err(EngineError("Synthetic mode requires validated calendar, work_patterns, and randomness"))
    ensures r.Ok? ==> r.value.Keys == set c | c in commits :: c.hash
    ensures r.Ok? && commits != [] ==> forall h :: h in r.value ==>
      r.value[h].zone == Some(config.calendar.value.tz) && InWindow(r.value[h].local, config.workPatterns.value)
    ensures r.Ok? && commits != [] ==> forall h :: h in r.value ==>
      DayOf(r.value[h].local) <= config.calendar.value.end
    ensures r.Ok? && commits != [] && ForwardGaps(config.randomness.value) ==> forall h :: h in r.value ==>
      WithinCalendar(r.value[h].local, config.calendar.value)
  {
    if commits == [] then Ok(map[])
    else if config.calendar.None? || config.workPatterns.None? || config.randomness.None? then
      Err(EngineError("Synthetic mode requires validated calendar, work_patterns, and randomness"))
    else
      var calendar := config.calendar.value;
      var rand := config.randomness.value;
      var times :- SyntheticTimes(|commits|, calendar, config.workPatterns.value, rand, seeding(rand.seed));
      Ok(Stamped(commits, times, calendar.tz))
  }

  /** Every commit's hash mapped to the instant at its last occurrence, in
      the zone given. */
  function Stamped(commits: seq<Commit>, times: seq<int>, tz: Offset): (m: map<string, DateTime>)
    requires |times| == |commits|
    ensures m.Keys == set c | c in commits :: c.hash
    ensures forall h :: h in m ==> exists i :: 0 <= i < |times| && m[h] == DateTime(times[i], Some(tz))
    ensures forall i :: 0 <= i < |commits| && LastOccurrence(Hashes(commits), i) ==>
      m[commits[i].hash] == DateTime(times[i], Some(tz))
  {
    KeysOfHashes(commits);
    var m := AssignByHash(Hashes(commits), seq(|times|, i requires 0 <= i < |times| => DateTime(times[i], Some(tz))));
    assert forall h :: h in m ==> exists i :: 0 <= i < |times| && m[h] == DateTime(times[i], Some(tz)) by {
      forall h | h in m ensures exists i :: 0 <= i < |times| && m[h] == DateTime(times[i], Some(tz)) {
        var i := LastIndexOf(Hashes(commits), h);
      }
    }
    m
  }

  /** With gaps that cannot be negative, a later commit never receives an
      earlier synthetic date than an earlier commit. */
  lemma SyntheticFollowsCommitOrder(commits: seq<Commit>, config: ValidatedConfig, seeding: Option<int> -> Rng, i: int, j: int)
    requires SyntheticMode(commits, config, seeding).Ok?
    requires config.randomness.Some? && ForwardGaps(config.randomness.value)
    requires 0 <= i < j < |commits|
    requires LastOccurrence(Hashes(commits), i) && LastOccurrence(Hashes(commits), j)
    ensures var m := SyntheticMode(commits, config, seeding).value;
      m[commits[i].hash].local <= m[commits[j].hash].local
  {
    var calendar := config.calendar.value;
    var rand := config.randomness.value;
    var work := config.workPatterns.value;
    var st := SyntheticTimes(|commits|, calendar, work, rand, seeding(rand.seed));
    assert st.Ok?;
    var m := Stamped(commits, st.value, calendar.tz);
    assert SyntheticMode(commits, config, seeding) == Ok(m);
    assert m[commits[i].hash].local == st.value[i] && m[commits[j].hash].local == st.value[j];
  }

  /** The position of the last occurrence of a present key. */
  function LastIndexOf(keys: seq<string>, k: string): (i: int)
    requires k in keys
    ensures 0 <= i < |keys| && keys[i] == k && LastOccurrence(keys, i)
  {
    if keys[|keys| - 1] == k then |keys| - 1
    else
      assert k in keys[..|keys| - 1] by {
        var j :| 0 <= j < |keys| && keys[j] == k;
        assert keys[..|keys| - 1][j] == k;
      }
      LastIndexOf(keys[..|keys| - 1], k)
  }

  /** `compute_timestamps`: dispatch on the timestamp mode. */
  function ComputeTimestamps(commits: seq<Commit>, config: ValidatedConfig, seeding: Option<int> -> Rng): (r: Result<map<string, DateTime>, EngineFailure>)
    ensures config.timestamp.mode == "author" ==> r == Ok(AuthorMode(commits))
    ensures config.timestamp.mode == "commit" ==> r == Ok(CommitMode(commits))
    ensures config.timestamp.mode == "synthetic" ==> r == SyntheticMode(commits, config, seeding)
    ensures config.timestamp.mode !in {"author", "commit", "synthetic"} ==>
      r == Err(EngineError("Unsupported timestamp mode: " + config.timestamp.mode))
    ensures r.Ok? ==> r.value.Keys == set c | c in commits :: c.hash
  {
    var mode := config.timestamp.mode;
    if mode == "author" then Ok(AuthorMode(commits))
    else if mode == "commit" then Ok(CommitMode(commits))
    else if mode == "synthetic" then SyntheticMode(commits, config, seeding)
    else Err(EngineError("Unsupported timestamp mode: " + mode))
  }
}
