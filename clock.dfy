/**
 * `convert_event_timezone` and the split that follows it in the handler.
 *
 * The API gateway stamps a request as `DD/Mon/YYYY:HH:MM:SS +ZONE`. The
 * handler keeps the text before the first space, parses it with
 * `%d/%b/%Y:%H:%M:%S`, declares it UTC, moves it to Asia/Taipei (a fixed
 * UTC+8 here) and prints it with `%Y-%m-%d %H:%M:%S`; the caller then splits
 * that on the space into a date and a time.
 */
module Clock {
  import opened Wrappers
  import opened Text

  /** A naive proleptic-Gregorian date and time of day, as Python's `datetime`. */
  datatype DateTime = DateTime(year: int, month: int, day: int, hour: int, minute: int, second: int)

  /** The exceptions the conversion can raise. */
  datatype TimeError =
    | ValueError     // strptime rejects the text, or the split does not give two parts
    | OverflowError  // the shifted instant is past 9999-12-31 23:59:59

  const MIN_YEAR := 1
  const MAX_YEAR := 9999
  /** Asia/Taipei is modelled as a fixed UTC+8. */
  const TAIPEI_OFFSET_HOURS := 8
  const SECONDS_PER_DAY := 86400

  const MONTH_ABBREVIATIONS: seq<string> :=
    ["Jan", "Feb", "Mar", "Apr", "May", "Jun", "Jul", "Aug", "Sep", "Oct", "Nov", "Dec"]

  /** Days in the months before month m (1-based), in a common year. */
  const CUMULATIVE_DAYS: seq<nat> := [0, 31, 59, 90, 120, 151, 181, 212, 243, 273, 304, 334, 365]

  // ---------------------------------------------------------------------
  // The calendar
  // ---------------------------------------------------------------------

  predicate IsLeapYear(y: int) {
    y % 4 == 0 && (y % 100 != 0 || y % 400 == 0)
  }

  function DaysInMonth(y: int, m: int): int
    requires 1 <= m <= 12
  {
    if m == 2 then (if IsLeapYear(y) then 29 else 28)
    else if m == 4 || m == 6 || m == 9 || m == 11 then 30
    else 31
  }

  function DaysInYear(y: int): int {
    if IsLeapYear(y) then 366 else 365
  }

  /** What `datetime` accepts: years 1 to 9999, real dates, seconds below 60. */
  predicate Valid(dt: DateTime) {
    && MIN_YEAR <= dt.year <= MAX_YEAR
    && 1 <= dt.month <= 12
    && 1 <= dt.day <= DaysInMonth(dt.year, dt.month)
    && 0 <= dt.hour < 24
    && 0 <= dt.minute < 60
    && 0 <= dt.second < 60
  }

  /** Days in the years 1 .. y-1. */
  function DaysBeforeYear(y: int): nat
    requires y >= 1
    decreases y
  {
    if y == 1 then 0 else DaysBeforeYear(y - 1) + DaysInYear(y - 1)
  }

  /** Days in the months 1 .. m-1 of year y. */
  function DaysBeforeMonth(y: int, m: int): nat
    requires 1 <= m <= 13
  {
    CUMULATIVE_DAYS[m - 1] + (if m > 2 && IsLeapYear(y) then 1 else 0)
  }

  lemma DaysBeforeNextMonth(y: int, m: int)
    requires 1 <= m <= 12
    ensures DaysBeforeMonth(y, m + 1) == DaysBeforeMonth(y, m) + DaysInMonth(y, m)
    ensures DaysBeforeMonth(y, 13) == DaysInYear(y)
  {
  }

  /** The proleptic-Gregorian ordinal: 0001-01-01 is day 1. */
  function Ordinal(dt: DateTime): int
    requires Valid(dt)
  {
    DaysBeforeYear(dt.year) + DaysBeforeMonth(dt.year, dt.month) + dt.day
  }

  /** The instant, in seconds since 0001-01-01 00:00:00 of the same clock. */
  function Instant(dt: DateTime): int
    requires Valid(dt)
  {
    (Ordinal(dt) - 1) * SECONDS_PER_DAY + dt.hour * 3600 + dt.minute * 60 + dt.second
  }

  /** The same time of day on the following calendar day. */
  function NextDay(dt: DateTime): DateTime
    requires Valid(dt)
  {
    if dt.day < DaysInMonth(dt.year, dt.month) then dt.(day := dt.day + 1)
    else if dt.month < 12 then dt.(month := dt.month + 1, day := 1)
    else dt.(year := dt.year + 1, month := 1, day := 1)
  }

  /** `astimezone(Asia/Taipei)` of a UTC datetime: eight hours later on the wall clock. */
  function ShiftToTaipei(dt: DateTime): (t: DateTime)
    requires Valid(dt)
    ensures t.minute == dt.minute && t.second == dt.second
  {
    if dt.hour + TAIPEI_OFFSET_HOURS < 24 then dt.(hour := dt.hour + TAIPEI_OFFSET_HOURS)
    else NextDay(dt).(hour := dt.hour + TAIPEI_OFFSET_HOURS - 24)
  }

  /** The next day is one ordinal later and is still a valid date unless it leaves year 9999. */
  lemma NextDayOrdinal(dt: DateTime)
    requires Valid(dt) && NextDay(dt).year <= MAX_YEAR
    ensures Valid(NextDay(dt))
    ensures Ordinal(NextDay(dt)) == Ordinal(dt) + 1
  {
    var n := NextDay(dt);
    if dt.day < DaysInMonth(dt.year, dt.month) {
    } else if dt.month < 12 {
      DaysBeforeNextMonth(dt.year, dt.month);
    } else {
      DaysBeforeNextMonth(dt.year, 12);
      assert DaysBeforeYear(n.year) == DaysBeforeYear(dt.year) + DaysInYear(dt.year);
    }
  }

  /** The shift overflows exactly in the last eight hours of year 9999. */
  lemma ShiftOverflow(dt: DateTime)
    requires Valid(dt)
    ensures ShiftToTaipei(dt).year > MAX_YEAR <==>
      dt.year == MAX_YEAR && dt.month == 12 && dt.day == 31 && dt.hour >= 24 - TAIPEI_OFFSET_HOURS
  {
  }

  /** The shifted datetime is the input instant plus eight hours, carried across day, month and year. */
  lemma ShiftToTaipeiInstant(dt: DateTime)
    requires Valid(dt) && ShiftToTaipei(dt).year <= MAX_YEAR
    ensures Valid(ShiftToTaipei(dt))
    ensures Instant(ShiftToTaipei(dt)) == Instant(dt) + TAIPEI_OFFSET_HOURS * 3600
  {
    if dt.hour + TAIPEI_OFFSET_HOURS >= 24 {
      NextDayOrdinal(dt);
    }
  }

  /** The carries at the boundaries: into Feb 29 of a leap year, past Feb 28 otherwise, and into a new year. */
  lemma ShiftExamples()
    ensures ShiftToTaipei(DateTime(2024, 2, 28, 20, 15, 9)) == DateTime(2024, 2, 29, 4, 15, 9)
    ensures ShiftToTaipei(DateTime(2023, 2, 28, 20, 15, 9)) == DateTime(2023, 3, 1, 4, 15, 9)
    ensures ShiftToTaipei(DateTime(1900, 2, 28, 16, 0, 0)) == DateTime(1900, 3, 1, 0, 0, 0)
    ensures ShiftToTaipei(DateTime(2000, 2, 29, 23, 59, 59)) == DateTime(2000, 3, 1, 7, 59, 59)
    ensures ShiftToTaipei(DateTime(2023, 12, 31, 16, 30, 5)) == DateTime(2024, 1, 1, 0, 30, 5)
    ensures ShiftToTaipei(DateTime(2023, 6, 30, 15, 59, 59)) == DateTime(2023, 6, 30, 23, 59, 59)
  {
  }

  /** Every valid date falls inside its own year's run of ordinals. */
  lemma OrdinalWithinYear(dt: DateTime)
    requires Valid(dt)
    ensures DaysBeforeYear(dt.year) < Ordinal(dt) <= DaysBeforeYear(dt.year + 1)
  {
    DaysBeforeNextMonth(dt.year, dt.month);
    assert DaysBeforeMonth(dt.year, dt.month + 1) <= DaysBeforeMonth(dt.year, 13);
  }

  lemma {:induction false} DaysBeforeYearMonotone(a: int, b: int)
    requires 1 <= a <= b
    ensures DaysBeforeYear(a) <= DaysBeforeYear(b)
    decreases b - a
  {
    if a < b {
      DaysBeforeYearMonotone(a, b - 1);
    }
  }

  /** Distinct valid datetimes are distinct instants. */
  lemma InstantInjective(a: DateTime, b: DateTime)
    requires Valid(a) && Valid(b) && Instant(a) == Instant(b)
    ensures a == b
  {
    var ta := a.hour * 3600 + a.minute * 60 + a.second;
    var tb := b.hour * 3600 + b.minute * 60 + b.second;
    assert 0 <= ta < SECONDS_PER_DAY && 0 <= tb < SECONDS_PER_DAY;
    assert Ordinal(a) == Ordinal(b);
    assert a.hour == b.hour;
    assert a.minute == b.minute;
    OrdinalWithinYear(a);
    OrdinalWithinYear(b);
    if a.year < b.year {
      DaysBeforeYearMonotone(a.year + 1, b.year);
    } else if b.year < a.year {
      DaysBeforeYearMonotone(b.year + 1, a.year);
    }
    assert a.year == b.year;
    DaysBeforeNextMonth(a.year, a.month);
    DaysBeforeNextMonth(b.year, b.month);
    assert a.month == b.month;
  }

  /** So the shift is the one valid datetime eight hours after the input. */
  lemma ShiftToTaipeiUnique(dt: DateTime, t: DateTime)
    requires Valid(dt) && Valid(t)
    requires Instant(t) == Instant(dt) + TAIPEI_OFFSET_HOURS * 3600
    ensures t == ShiftToTaipei(dt)
  {
    ShiftOverflow(dt);
    if ShiftToTaipei(dt).year > MAX_YEAR {
      assert Instant(t) >= DaysBeforeYear(MAX_YEAR + 1) * SECONDS_PER_DAY by {
        assert Instant(dt) >= (DaysBeforeYear(MAX_YEAR + 1) - 1) * SECONDS_PER_DAY + 16 * 3600;
      }
      OrdinalWithinYear(t);
      DaysBeforeYearMonotone(t.year + 1, MAX_YEAR + 1);
    } else {
      ShiftToTaipeiInstant(dt);
      InstantInjective(t, ShiftToTaipei(dt));
    }
  }

  // ---------------------------------------------------------------------
  // The two text layouts
  // ---------------------------------------------------------------------

  /** `%b`: 1 .. 12 to "Jan" .. "Dec". */
  function MonthAbbreviation(m: int): (name: string)
    requires 1 <= m <= 12
    ensures |name| == 3 && ' ' !in name
  {
    MONTH_ABBREVIATIONS[m - 1]
  }

  /** The month a `%b` field names, if any. */
  function MonthNumber(name: string): (m: Option<int>)
    ensures m.Some? ==> 1 <= m.value <= 12 && MonthAbbreviation(m.value) == name
  {
    if name == "Jan" then Some(1) else if name == "Feb" then Some(2)
    else if name == "Mar" then Some(3) else if name == "Apr" then Some(4)
    else if name == "May" then Some(5) else if name == "Jun" then Some(6)
    else if name == "Jul" then Some(7) else if name == "Aug" then Some(8)
    else if name == "Sep" then Some(9) else if name == "Oct" then Some(10)
    else if name == "Nov" then Some(11) else if name == "Dec" then Some(12)
    else None
  }

  lemma MonthNumberOfAbbreviation(m: int)
    requires 1 <= m <= 12
    ensures MonthNumber(MonthAbbreviation(m)) == Some(m)
  {
  }

  /** The gateway's request time, `%d/%b/%Y:%H:%M:%S`. */
  function FormatRequestTime(dt: DateTime): string
    requires Valid(dt)
  {
    Pad(dt.day, 2) + "/" + MonthAbbreviation(dt.month) + "/" + Pad(dt.year, 4) + ":"
      + Pad(dt.hour, 2) + ":" + Pad(dt.minute, 2) + ":" + Pad(dt.second, 2)
  }

  /**
   * `datetime.strptime(s, '%d/%b/%Y:%H:%M:%S')` on two-digit fields: the
   * layout must match in full and the fields must make a valid datetime.
   */
  function ParseRequestTime(s: string): (r: Result<DateTime, TimeError>)
    ensures r.Ok? ==> Valid(r.value) && |s| == 20
    ensures r.Err? ==> r.error == ValueError
  {
    if |s| != 20 || s[2] != '/' || s[6] != '/' || s[11] != ':' || s[14] != ':' || s[17] != ':' then
      Err(ValueError)
    else
      var day := ParseNat(s[0..2]);
      var month := MonthNumber(s[3..6]);
      var year := ParseNat(s[7..11]);
      var hour := ParseNat(s[12..14]);
      var minute := ParseNat(s[15..17]);
      var second := ParseNat(s[18..20]);
      if day.None? || month.None? || year.None? || hour.None? || minute.None? || second.None? then
        Err(ValueError)
      else
        var dt := DateTime(year.value, month.value, day.value, hour.value, minute.value, second.value);
        if Valid(dt) then Ok(dt) else Err(ValueError)
  }

  /** The request-time layout, for any fields of the right widths. */
  function Layout(d: string, mon: string, y: string, h: string, mi: string, sec: string): string {
    d + "/" + mon + "/" + y + ":" + h + ":" + mi + ":" + sec
  }

  /** Where each field of the layout sits. */
  lemma LayoutSlices(d: string, mon: string, y: string, h: string, mi: string, sec: string)
    requires |d| == 2 && |mon| == 3 && |y| == 4 && |h| == 2 && |mi| == 2 && |sec| == 2
    ensures var s := Layout(d, mon, y, h, mi, sec);
      && |s| == 20 && s[2] == '/' && s[6] == '/' && s[11] == ':' && s[14] == ':' && s[17] == ':'
      && s[0..2] == d && s[3..6] == mon && s[7..11] == y
      && s[12..14] == h && s[15..17] == mi && s[18..20] == sec
  {
    var p2 := d + "/" + mon;
    var p4 := p2 + "/" + y;
    var p6 := p4 + ":" + h;
    var p8 := p6 + ":" + mi;
    var s := p8 + ":" + sec;
    assert s == Layout(d, mon, y, h, mi, sec);
    assert s[..17] == p8 && s[18..20] == sec;
    assert p8[..14] == p6 && p8[15..17] == mi;
    assert p6[..11] == p4 && p6[12..14] == h;
    assert p4[..6] == p2 && p4[7..11] == y;
    assert p2[0..2] == d && p2[3..6] == mon;
  }

  /** A 20-character string is the layout of its own fields. */
  lemma LayoutOfSlices(s: string)
    requires |s| == 20 && s[2] == '/' && s[6] == '/' && s[11] == ':' && s[14] == ':' && s[17] == ':'
    ensures s == Layout(s[0..2], s[3..6], s[7..11], s[12..14], s[15..17], s[18..20])
  {
    var f := Layout(s[0..2], s[3..6], s[7..11], s[12..14], s[15..17], s[18..20]);
    LayoutSlices(s[0..2], s[3..6], s[7..11], s[12..14], s[15..17], s[18..20]);
    forall i | 0 <= i < 20
      ensures s[i] == f[i]
    {
      if i < 2 { assert f[i] == f[0..2][i]; }
      else if 3 <= i < 6 { assert f[i] == f[3..6][i - 3]; }
      else if 7 <= i < 11 { assert f[i] == f[7..11][i - 7]; }
      else if 12 <= i < 14 { assert f[i] == f[12..14][i - 12]; }
      else if 15 <= i < 17 { assert f[i] == f[15..17][i - 15]; }
      else if 18 <= i { assert f[i] == f[18..20][i - 18]; }
    }
  }

  lemma FormatRequestTimeIsLayout(dt: DateTime)
    requires Valid(dt)
    ensures FormatRequestTime(dt) == Layout(Pad(dt.day, 2), MonthAbbreviation(dt.month), Pad(dt.year, 4),
                                            Pad(dt.hour, 2), Pad(dt.minute, 2), Pad(dt.second, 2))
  {
  }

  /** A formatted valid datetime parses back to itself. */
  lemma ParseFormatted(dt: DateTime)
    requires Valid(dt)
    ensures ParseRequestTime(FormatRequestTime(dt)) == Ok(dt)
  {
    FormatRequestTimeIsLayout(dt);
    LayoutSlices(Pad(dt.day, 2), MonthAbbreviation(dt.month), Pad(dt.year, 4),
                 Pad(dt.hour, 2), Pad(dt.minute, 2), Pad(dt.second, 2));
    ParsePad(dt.day, 2);
    ParsePad(dt.year, 4);
    ParsePad(dt.hour, 2);
    ParsePad(dt.minute, 2);
    ParsePad(dt.second, 2);
    MonthNumberOfAbbreviation(dt.month);
  }

  /** Whatever parses is a valid datetime and is exactly that datetime's formatted text. */
  lemma ParsedIsFormatted(s: string, dt: DateTime)
    requires ParseRequestTime(s) == Ok(dt)
    ensures Valid(dt) && s == FormatRequestTime(dt)
  {
    PadParse(s[0..2]);
    PadParse(s[7..11]);
    PadParse(s[12..14]);
    PadParse(s[15..17]);
    PadParse(s[18..20]);
    LayoutOfSlices(s);
    FormatRequestTimeIsLayout(dt);
  }

  /** Parsing accepts exactly the formatted valid datetimes, and gives back the datetime. */
  lemma ParseRequestTimeExact(s: string, dt: DateTime)
    ensures ParseRequestTime(s) == Ok(dt) <==> Valid(dt) && s == FormatRequestTime(dt)
  {
    if Valid(dt) && s == FormatRequestTime(dt) {
      ParseFormatted(dt);
    }
    if ParseRequestTime(s) == Ok(dt) {
      ParsedIsFormatted(s, dt);
    }
  }

  /** `%Y-%m-%d`. */
  function DateString(dt: DateTime): (s: string)
    requires Valid(dt)
    ensures |s| == 10 && s[4] == '-' && s[7] == '-'
  {
    var y, m, d := Pad(dt.year, 4), Pad(dt.month, 2), Pad(dt.day, 2);
    assert (y + "-" + m + "-")[4] == '-';
    y + "-" + m + "-" + d
  }

  /** `%H:%M:%S`. */
  function TimeString(dt: DateTime): (s: string)
    requires Valid(dt)
    ensures |s| == 8 && s[2] == ':' && s[5] == ':'
  {
    var h, m, sec := Pad(dt.hour, 2), Pad(dt.minute, 2), Pad(dt.second, 2);
    assert (h + ":" + m + ":")[2] == ':';
    h + ":" + m + ":" + sec
  }

  /** `strftime('%Y-%m-%d %H:%M:%S')`. */
  function FormatLocal(dt: DateTime): (s: string)
    requires Valid(dt)
    ensures |s| == 19 && s[4] == '-' && s[7] == '-' && s[10] == ' ' && s[13] == ':' && s[16] == ':'
  {
    LocalLayout(DateString(dt), TimeString(dt));
    DateString(dt) + " " + TimeString(dt)
  }

  /** Where the separators of a printed date, a space and a printed time sit. */
  lemma LocalLayout(date: string, time: string)
    requires |date| == 10 && date[4] == '-' && date[7] == '-'
    requires |time| == 8 && time[2] == ':' && time[5] == ':'
    ensures var s := date + " " + time;
      |s| == 19 && s[4] == '-' && s[7] == '-' && s[10] == ' ' && s[13] == ':' && s[16] == ':'
  {
  }

  /** Where each field of the printed local datetime sits, for any fields of the right widths. */
  lemma LocalSlices(y: string, mo: string, d: string, h: string, mi: string, sec: string)
    requires |y| == 4 && |mo| == 2 && |d| == 2 && |h| == 2 && |mi| == 2 && |sec| == 2
    ensures var s := y + "-" + mo + "-" + d + " " + h + ":" + mi + ":" + sec;
      && s[0..4] == y && s[5..7] == mo && s[8..10] == d
      && s[11..13] == h && s[14..16] == mi && s[17..19] == sec
  {
  }

  /**
   * The printed local datetime carries the datetime's own fields: year,
   * month, day, hour, minute and second read back from their positions.
   */
  lemma FormatLocalFields(dt: DateTime)
    requires Valid(dt)
    ensures var s := FormatLocal(dt);
      && ParseNat(s[0..4]) == Some(dt.year) && ParseNat(s[5..7]) == Some(dt.month)
      && ParseNat(s[8..10]) == Some(dt.day) && ParseNat(s[11..13]) == Some(dt.hour)
      && ParseNat(s[14..16]) == Some(dt.minute) && ParseNat(s[17..19]) == Some(dt.second)
  {
    var y, mo, d := Pad(dt.year, 4), Pad(dt.month, 2), Pad(dt.day, 2);
    var h, mi, sec := Pad(dt.hour, 2), Pad(dt.minute, 2), Pad(dt.second, 2);
    assert FormatLocal(dt) == y + "-" + mo + "-" + d + " " + h + ":" + mi + ":" + sec;
    LocalSlices(y, mo, d, h, mi, sec);
    assert Pow10(2) == 100 && Pow10(4) == 10000;
    ParsePad(dt.year, 4);
    ParsePad(dt.month, 2);
    ParsePad(dt.day, 2);
    ParsePad(dt.hour, 2);
    ParsePad(dt.minute, 2);
    ParsePad(dt.second, 2);
  }

  /** The printed date and time are fixed-width and contain no space. */
  lemma LocalPartsHaveNoSpace(dt: DateTime)
    requires Valid(dt)
    ensures |DateString(dt)| == 10 && ' ' !in DateString(dt)
    ensures |TimeString(dt)| == 8 && ' ' !in TimeString(dt)
  {
    DigitsHaveNoSpace(Pad(dt.year, 4));
    DigitsHaveNoSpace(Pad(dt.month, 2));
    DigitsHaveNoSpace(Pad(dt.day, 2));
    DigitsHaveNoSpace(Pad(dt.hour, 2));
    DigitsHaveNoSpace(Pad(dt.minute, 2));
    DigitsHaveNoSpace(Pad(dt.second, 2));
  }

  // ---------------------------------------------------------------------
  // convert_event_timezone and the caller's split
  // ---------------------------------------------------------------------

  /** `convert_event_timezone(dt_str)`. */
  function ConvertEventTimezone(raw: string): (r: Result<string, TimeError>)
    ensures r.Ok? ==> |r.value| == 19 && r.value[10] == ' '
    ensures r.Err? && r.error == OverflowError ==> ParseRequestTime(Split(raw)[0]).Ok?
    ensures ParseRequestTime(Split(raw)[0]).Err? ==> r == Err(ValueError)
  {
    match ParseRequestTime(Split(raw)[0])
    case Err(e) => Err(e)
    case Ok(utc) =>
      var local := ShiftToTaipei(utc);
      if local.year > MAX_YEAR then Err(OverflowError) else Ok(FormatLocal(local))
  }

  /** `event_date, event_time = convert_event_timezone(...).split(' ')`. */
  function EventDateTime(raw: string): (r: Result<(string, string), TimeError>)
    ensures r.Ok? ==> ConvertEventTimezone(raw).Ok? && ' ' !in r.value.0 && ' ' !in r.value.1
    ensures ConvertEventTimezone(raw).Err? ==> r == Err(ConvertEventTimezone(raw).error)
  {
    match ConvertEventTimezone(raw)
    case Err(e) => Err(e)
    case Ok(text) =>
      var parts := Split(text);
      if |parts| == 2 then Ok((parts[0], parts[1])) else Err(ValueError)
  }

  /** Everything after the first space (the `+0000` zone) is ignored. */
  lemma ConvertIgnoresZone(head: string, zone: string)
    requires ' ' !in head
    ensures ConvertEventTimezone(head + " " + zone) == ConvertEventTimezone(head)
  {
    SplitPrefix(head, zone);
    SplitNoSpace(head);
  }

  /**
   * On a gateway timestamp, the conversion prints the Taipei wall clock:
   * the one valid datetime eight hours after the stamped UTC instant, whose
   * fields FormatLocalFields reads back. It fails only with OverflowError.
   */
  lemma ConvertEventTimezoneCorrect(utc: DateTime, zone: string)
    requires Valid(utc)
    ensures var r := ConvertEventTimezone(FormatRequestTime(utc) + " " + zone);
      var local := ShiftToTaipei(utc);
      && (r.Err? <==> local.year > MAX_YEAR)
      && (r.Err? ==> r.error == OverflowError)
      && (r.Ok? ==> Valid(local) && Instant(local) == Instant(utc) + 8 * 3600 && r.value == FormatLocal(local))
  {
    var head := FormatRequestTime(utc);
    DigitsHaveNoSpace(Pad(utc.day, 2));
    DigitsHaveNoSpace(Pad(utc.year, 4));
    DigitsHaveNoSpace(Pad(utc.hour, 2));
    DigitsHaveNoSpace(Pad(utc.minute, 2));
    DigitsHaveNoSpace(Pad(utc.second, 2));
    assert ' ' !in head;
    ConvertIgnoresZone(head, zone);
    SplitNoSpace(head);
    ParseFormatted(utc);
    if ShiftToTaipei(utc).year <= MAX_YEAR {
      ShiftToTaipeiInstant(utc);
    }
  }

  /** A converted text made of two space-free halves splits into exactly those halves. */
  lemma EventDateTimeOfText(raw: string, date: string, time: string)
    requires ' ' !in date && ' ' !in time
    requires ConvertEventTimezone(raw) == Ok(date + " " + time)
    ensures EventDateTime(raw) == Ok((date, time))
  {
    SplitPair(date, time);
  }

  /**
   * The split after a successful conversion never fails: it yields the
   * ten-character date and the eight-character time, and they rejoin with a
   * space to the converted text.
   */
  lemma EventDateTimeSplits(raw: string)
    ensures ConvertEventTimezone(raw).Err? ==> EventDateTime(raw) == Err(ConvertEventTimezone(raw).error)
    ensures ConvertEventTimezone(raw).Ok? ==>
      && EventDateTime(raw).Ok?
      && |EventDateTime(raw).value.0| == 10 && |EventDateTime(raw).value.1| == 8
      && EventDateTime(raw).value.0 + " " + EventDateTime(raw).value.1 == ConvertEventTimezone(raw).value
  {
    var parsed := ParseRequestTime(Split(raw)[0]);
    if parsed.Ok? {
      var local := ShiftToTaipei(parsed.value);
      if local.year <= MAX_YEAR {
        assert ConvertEventTimezone(raw) == Ok(DateString(local) + " " + TimeString(local));
        LocalPartsHaveNoSpace(local);
        EventDateTimeOfText(raw, DateString(local), TimeString(local));
      }
    }
  }
}
