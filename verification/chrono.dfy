/** Calendar arithmetic with the semantics of Python's `datetime` module:
    proleptic Gregorian dates, their day ordinals (0001-01-01 is day 1, a
    Monday), instants as whole seconds, fixed UTC offsets, and the
    `"%Y-%m-%d"` reader of `datetime.strptime`. */
module Chrono {
  import opened Results
  import opened Text
  import opened Decimal

  datatype CivilDate = CivilDate(year: int, month: int, day: int)

  predicate IsLeapYear(y: int) {
    y % 4 == 0 && (y % 100 != 0 || y % 400 == 0)
  }

  function DaysInYear(y: int): int {
    if IsLeapYear(y) then 366 else 365
  }

  function DaysInMonth(y: int, m: int): (n: int)
    requires 1 <= m <= 12
    ensures 28 <= n <= 31
    ensures m == 2 ==> (n == 29 <==> IsLeapYear(y))
  {
    if m == 2 then (if IsLeapYear(y) then 29 else 28)
    else if m == 4 || m == 6 || m == 9 || m == 11 then 30
    else 31
  }

  /** Days of year `y` before the first of month `m` (a table plus the leap day). */
  function DaysBeforeMonth(y: int, m: int): int
    requires 1 <= m <= 12
  {
    var table := [0, 0, 31, 59, 90, 120, 151, 181, 212, 243, 273, 304, 334];
    table[m] + if m > 2 && IsLeapYear(y) then 1 else 0
  }

  /** Days before January 1 of year `y`, counted from 0001-01-01. */
  function DaysBeforeYear(y: int): int
    requires y >= 1
  {
    var p := y - 1;
    p * 365 + p / 4 - p / 100 + p / 400
  }

  /** The dates `datetime.date` can represent. */
  predicate ValidDate(d: CivilDate) {
    && 1 <= d.year <= 9999
    && 1 <= d.month <= 12
    && 1 <= d.day <= DaysInMonth(d.year, d.month)
  }

  /** `date.toordinal()`. */
  function Ordinal(d: CivilDate): (n: int)
    requires ValidDate(d)
    ensures n >= 1
  {
    DaysBeforeYear(d.year) + DaysBeforeMonth(d.year, d.month) + d.day
  }

  /** Python's order on dates: by year, then month, then day. */
  predicate Before(a: CivilDate, b: CivilDate) {
    || a.year < b.year
    || (a.year == b.year && a.month < b.month)
    || (a.year == b.year && a.month == b.month && a.day < b.day)
  }

  lemma MonthStep(y: int, m: int)
    requires 1 <= m < 12
    ensures DaysBeforeMonth(y, m + 1) == DaysBeforeMonth(y, m) + DaysInMonth(y, m)
  {
  }

  lemma YearStep(y: int)
    requires y >= 1
    ensures DaysBeforeYear(y + 1) == DaysBeforeYear(y) + DaysInYear(y)
  {
    var p := y - 1;
    assert (p + 1) / 4 == p / 4 + (if y % 4 == 0 then 1 else 0);
    assert (p + 1) / 100 == p / 100 + (if y % 100 == 0 then 1 else 0);
    assert (p + 1) / 400 == p / 400 + (if y % 400 == 0 then 1 else 0);
  }

  lemma {:induction false} YearsIncrease(y1: int, y2: int)
    requires 1 <= y1 <= y2
    ensures DaysBeforeYear(y1) + (if y1 < y2 then DaysInYear(y1) else 0) <= DaysBeforeYear(y2)
    decreases y2 - y1
  {
    if y1 < y2 {
      YearStep(y1);
      if y1 + 1 < y2 {
        YearsIncrease(y1 + 1, y2);
      }
    }
  }

  lemma {:induction false} MonthsIncrease(y: int, m1: int, m2: int)
    requires 1 <= m1 < m2 <= 12
    ensures DaysBeforeMonth(y, m1) + DaysInMonth(y, m1) <= DaysBeforeMonth(y, m2)
    decreases m2 - m1
  {
    MonthStep(y, m1);
    if m1 + 1 < m2 {
      MonthsIncrease(y, m1 + 1, m2);
    }
  }

  lemma DayWithinYear(d: CivilDate)
    requires ValidDate(d)
    ensures Ordinal(d) <= DaysBeforeYear(d.year) + DaysInYear(d.year)
  {
    if d.month < 12 {
      MonthsIncrease(d.year, d.month, 12);
    }
  }

  /** Day ordinals order dates exactly as Python compares them. */
  lemma OrdinalOrder(a: CivilDate, b: CivilDate)
    requires ValidDate(a) && ValidDate(b)
    ensures Before(a, b) <==> Ordinal(a) < Ordinal(b)
    ensures a == b <==> Ordinal(a) == Ordinal(b)
  {
    BeforeIncreases(a, b);
    BeforeIncreases(b, a);
  }

  lemma BeforeIncreases(a: CivilDate, b: CivilDate)
    requires ValidDate(a) && ValidDate(b)
    ensures Before(a, b) ==> Ordinal(a) < Ordinal(b)
  {
    if a.year < b.year {
      DayWithinYear(a);
      YearsIncrease(a.year, b.year);
    } else if a.year == b.year && a.month < b.month {
      MonthsIncrease(a.year, a.month, b.month);
    }
  }

  /** `date.weekday()` of a day ordinal: Monday is 0, Sunday is 6. */
  function Weekday(ordinal: int): (w: int)
    ensures 0 <= w < 7
  {
    (ordinal + 6) % 7
  }

  /** Consecutive days have consecutive weekdays, and weeks repeat. */
  lemma WeekdayStep(ordinal: int)
    ensures Weekday(ordinal + 1) == (Weekday(ordinal) + 1) % 7
    ensures Weekday(ordinal + 7) == Weekday(ordinal)
  {
  }

  const SecondsPerDay: int := 86400

  /** The day ordinal of 1970-01-01. */
  const UnixEpochDay: int := 719163

  /** A fixed UTC offset in seconds; Python requires it strictly inside one day. */
  type Offset = s: int | -SecondsPerDay < s < SecondsPerDay

  /** A `datetime` to the second: `local` counts wall-clock seconds from the
      midnight that starts day ordinal 0; `zone` is the UTC offset, absent for
      a naive value. */
  datatype DateTime = DateTime(local: int, zone: Option<Offset>)

  function DayOf(t: int): int {
    t / SecondsPerDay
  }

  function SecondOfDay(t: int): (s: int)
    ensures 0 <= s < SecondsPerDay
  {
    t % SecondsPerDay
  }

  /** `datetime.combine(day, time)` on the local time line. */
  function At(day: int, secondOfDay: int): (t: int)
    requires 0 <= secondOfDay < SecondsPerDay
    ensures DayOf(t) == day && SecondOfDay(t) == secondOfDay
  {
    day * SecondsPerDay + secondOfDay
  }

  /** Seconds from 0001-01-01T00:00Z; a naive value counts as UTC. */
  function UtcSeconds(dt: DateTime): int {
    match dt.zone
    case Some(off) => dt.local - off
    case None => dt.local
  }

  /** `dt.timestamp()` for a whole-second aware value. */
  function UnixTime(dt: DateTime): int {
    UtcSeconds(dt) - UnixEpochDay * SecondsPerDay
  }

  /** Python's `==` on datetimes: aware values compare as instants, naive
      values by wall clock, and a naive value never equals an aware one. */
  predicate SameInstant(a: DateTime, b: DateTime) {
    if a.zone.Some? && b.zone.Some? then UtcSeconds(a) == UtcSeconds(b)
    else if a.zone.None? && b.zone.None? then a.local == b.local
    else false
  }

  /** `date.isoformat()`: `YYYY-MM-DD`, zero-padded. */
  function IsoFormat(d: CivilDate): (s: string)
    requires ValidDate(d)
    ensures |s| == 10 && s[4] == '-' && s[7] == '-'
  {
    NatToStringBelow(d.year, 4);
    NatToStringBelow(d.month, 2);
    NatToStringBelow(d.day, 2);
    ZeroPad(d.year, 4) + "-" + ZeroPad(d.month, 2) + "-" + ZeroPad(d.day, 2)
  }

  /** The `%m` alternatives `1[0-2]|0[1-9]|[1-9]` followed by the `-`
      separator: the month and how many characters it consumed. */
  function MonthField(t: string): (r: Option<(int, nat)>)
    ensures r.Some? ==> 1 <= r.value.0 <= 12 && 2 <= r.value.1 <= 3 && r.value.1 <= |t|
  {
    if |t| >= 3 && ((t[0] == '1' && '0' <= t[1] <= '2') || (t[0] == '0' && '1' <= t[1] <= '9')) && t[2] == '-' then
      Some((DigitValue(t[0]) * 10 + DigitValue(t[1]), 3))
    else if |t| >= 2 && '1' <= t[0] <= '9' && t[1] == '-' then
      Some((DigitValue(t[0]), 2))
    else
      None
  }

  /** The first matching `%d` alternative of `3[01]|[12]\d|0[1-9]|[1-9]| [1-9]`:
      the day and how many characters it consumed. */
  function DayField(t: string): (r: Option<(int, nat)>)
    ensures r.Some? ==> 1 <= r.value.0 <= 31 && 1 <= r.value.1 <= 2 && r.value.1 <= |t|
  {
    if |t| >= 2 && t[0] == '3' && (t[1] == '0' || t[1] == '1') then
      Some((30 + DigitValue(t[1]), 2))
    else if |t| >= 2 && (t[0] == '1' || t[0] == '2') && IsAsciiDigit(t[1]) then
      Some((DigitValue(t[0]) * 10 + DigitValue(t[1]), 2))
    else if |t| >= 2 && t[0] == '0' && '1' <= t[1] <= '9' then
      Some((DigitValue(t[1]), 2))
    else if |t| >= 1 && '1' <= t[0] <= '9' then
      Some((DigitValue(t[0]), 1))
    else if |t| >= 2 && t[0] == ' ' && '1' <= t[1] <= '9' then
      Some((DigitValue(t[1]), 2))
    else
      None
  }

  /** `datetime.strptime(s, "%Y-%m-%d").date()`: four year digits, a one- or
      two-digit month, a one- or two-digit day (or a space and one digit),
      nothing left over, and a date that exists. */
  function StrptimeDate(s: string): (r: Option<CivilDate>)
    ensures r.Some? ==> ValidDate(r.value)
    ensures r.Some? ==> 8 <= |s| <= 10 && s[4] == '-'
  {
    if |s| < 5 || !AllDigits(s[..4]) || s[4] != '-' then None
    else
      var rest := s[5..];
      match MonthField(rest)
      case None => None
      case Some(mf) =>
        match DayField(rest[mf.1..])
        case None => None
        case Some(df) =>
          if mf.1 + df.1 != |rest| then None
          else
            var d := CivilDate(DigitsValue(s[..4]), mf.0, df.0);
            if ValidDate(d) then Some(d) else None
  }

  lemma TwoDigits(t: string)
    requires |t| == 2 && AllDigits(t)
    ensures DigitsValue(t) == DigitValue(t[0]) * 10 + DigitValue(t[1])
  {
    var h := t[..1];
    assert h[..0] == [];
    assert DigitsValue(h) == DigitValue(t[0]);
    assert t[..|t| - 1] == h;
  }

  lemma MonthFieldOfPadded(m: int, tail: string)
    requires 1 <= m <= 12
    ensures MonthField(ZeroPad(m, 2) + "-" + tail) == Some((m, 3))
  {
    var p := ZeroPad(m, 2);
    NatToStringBelow(m, 2);
    TwoDigits(p);
    var t := p + "-" + tail;
    assert t[0] == p[0] && t[1] == p[1] && t[2] == '-';
  }

  lemma DayFieldOfPadded(d: int)
    requires 1 <= d <= 31
    ensures DayField(ZeroPad(d, 2)) == Some((d, 2))
  {
    var p := ZeroPad(d, 2);
    NatToStringBelow(d, 2);
    TwoDigits(p);
  }

  /** Reading back what `date.isoformat()` writes gives the same date. */
  lemma IsoFormatRoundTrip(d: CivilDate)
    requires ValidDate(d)
    ensures StrptimeDate(IsoFormat(d)) == Some(d)
  {
    var y := ZeroPad(d.year, 4);
    var m := ZeroPad(d.month, 2);
    var dd := ZeroPad(d.day, 2);
    var rest := m + "-" + dd;
    IsoFormatParts(d);
    MonthFieldOfPadded(d.month, dd);
    assert rest[3..] == dd;
    DayFieldOfPadded(d.day);
    StrptimeOfFields(y, rest, d);
  }

  lemma IsoFormatParts(d: CivilDate)
    requires ValidDate(d)
    ensures IsoFormat(d) == ZeroPad(d.year, 4) + "-" + (ZeroPad(d.month, 2) + "-" + ZeroPad(d.day, 2))
    ensures |ZeroPad(d.year, 4)| == 4 && |ZeroPad(d.month, 2)| == 2 && |ZeroPad(d.day, 2)| == 2
  {
    NatToStringBelow(d.year, 4);
    NatToStringBelow(d.month, 2);
    NatToStringBelow(d.day, 2);
    Regroup(ZeroPad(d.year, 4), ZeroPad(d.month, 2), ZeroPad(d.day, 2));
  }

  lemma {:induction false} Regroup(a: string, b: string, c: string)
    ensures a + "-" + b + "-" + c == a + "-" + (b + "-" + c)
  {
  }

  /** Four year digits, a `-`, and a rest whose month and day fields take
      it all read as that date. */
  lemma {:induction false} StrptimeOfFields(y: string, rest: string, d: CivilDate)
    requires |y| == 4 && AllDigits(y) && DigitsValue(y) == d.year
    requires |rest| == 5 && MonthField(rest) == Some((d.month, 3)) && DayField(rest[3..]) == Some((d.day, 2))
    requires ValidDate(d)
    ensures StrptimeDate(y + "-" + rest) == Some(d)
  {
    var s := y + "-" + rest;
    assert s[..4] == y && s[4] == '-' && s[5..] == rest;
  }
}
