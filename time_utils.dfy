// The Central European clock of the weather-station demos: the CET/CEST
// rule `is_dst`, the conversion `utc_to_berlin`, the string formatters and
// the zone label. The RTC demo and the MQTT demo carry two copies of this
// file that differ only in comment language and in the MQTT copy's test
// module, so one module models both.

module TimeUtils {
  import opened Calendar
  import opened Decimal

  /** Rust's `/` on signed integers: the quotient truncated toward zero. */
  function TruncDiv(a: int, b: int): int
    requires b > 0
  {
    if a >= 0 then a / b else -((-a) / b)
  }

  /** Rust's `%` on signed integers: the remainder takes the dividend's sign. */
  function TruncRem(a: int, b: int): int
    requires b > 0
  {
    a - b * TruncDiv(a, b)
  }

  lemma TruncRemRange(a: int, b: int)
    requires b > 0
    ensures a >= 0 ==> TruncDiv(a, b) == a / b && TruncRem(a, b) == a % b
    ensures a >= 0 ==> 0 <= TruncRem(a, b) < b
    ensures a < 0 ==> -b < TruncRem(a, b) <= 0
  {
  }

  /** The closed form `31 - ((5 * year / 4 + k) % 7)` with Rust's truncating
      operators: k = 4 gives the last Sunday of March, k = 1 that of October. */
  function LastSundayFormula(year: int, k: int): int {
    31 - TruncRem(TruncDiv(5 * year, 4) + k, 7)
  }

  function MarchLastSunday(year: int): int {
    LastSundayFormula(year, 4)
  }

  function OctoberLastSunday(year: int): int {
    LastSundayFormula(year, 1)
  }

  /** The changeover day always lies in 25..37, so the source's `as u32` cast
      keeps its value; for years from 0 on it lies in 25..31. */
  lemma ChangeoverDayRange(year: int, k: int)
    requires k == 1 || k == 4
    ensures 25 <= LastSundayFormula(year, k) <= 37
    ensures year >= 0 ==> 25 <= LastSundayFormula(year, k) <= 31
  {
    TruncRemRange(5 * year, 4);
    TruncRemRange(TruncDiv(5 * year, 4) + k, 7);
  }

  /** `is_dst`: whether the UTC instant (year, month, day, hour) lies in
      summer time. */
  function IsDst(year: int, month: nat, day: nat, hour: nat): bool {
    var marchDay := MarchLastSunday(year);
    var octoberDay := OctoberLastSunday(year);
    if month == 1 || month == 2 then false
    else if month == 3 then
      if day < marchDay then false
      else if day > marchDay then true
      else hour >= 2
    else if 4 <= month <= 9 then true
    else if month == 10 then
      if day < octoberDay then true
      else if day > octoberDay then false
      else hour < 3
    else false
  }

  /** Winter months and month numbers outside 1..12 are never summer time;
      April to September always are. */
  lemma IsDstByMonth(year: int, month: nat, day: nat, hour: nat)
    ensures month in {1, 2, 11, 12} || month == 0 || month > 12 ==> !IsDst(year, month, day, hour)
    ensures 4 <= month <= 9 ==> IsDst(year, month, day, hour)
  {
  }

  /** The March rule: winter time before the changeover day, summer time after
      it, and on that day from 02:00 UTC on. */
  lemma IsDstMarch(year: int, day: nat, hour: nat)
    ensures day < MarchLastSunday(year) ==> !IsDst(year, 3, day, hour)
    ensures day > MarchLastSunday(year) ==> IsDst(year, 3, day, hour)
    ensures day == MarchLastSunday(year) ==> (IsDst(year, 3, day, hour) <==> hour >= 2)
  {
  }

  /** The October rule: summer time before the changeover day, winter time
      after it, and on that day until 03:00 UTC. */
  lemma IsDstOctober(year: int, day: nat, hour: nat)
    ensures day < OctoberLastSunday(year) ==> IsDst(year, 10, day, hour)
    ensures day > OctoberLastSunday(year) ==> !IsDst(year, 10, day, hour)
    ensures day == OctoberLastSunday(year) ==> (IsDst(year, 10, day, hour) <==> hour < 3)
  {
  }

  /** Lexicographic order on (month, day, hour). */
  predicate LexLe(m1: int, d1: int, h1: int, m2: int, d2: int, h2: int) {
    m1 < m2 || (m1 == m2 && (d1 < d2 || (d1 == d2 && h1 <= h2)))
  }

  /** The documented window: summer time runs from the last Sunday of March,
      02:00 UTC, up to (not including) the last Sunday of October, 03:00 UTC,
      both days as the closed form computes them. */
  lemma IsDstWindow(year: int, month: nat, day: nat, hour: nat)
    ensures IsDst(year, month, day, hour) <==>
      LexLe(3, MarchLastSunday(year), 2, month, day, hour)
      && !LexLe(10, OctoberLastSunday(year), 3, month, day, hour)
  {
  }

  /** On each changeover day the hour test switches exactly once: between
      01:00 and 02:00 in March, between 02:00 and 03:00 in October. */
  lemma ChangeoverHourSwitch(year: int, h1: nat, h2: nat)
    ensures h1 <= h2 && IsDst(year, 3, MarchLastSunday(year), h1) ==> IsDst(year, 3, MarchLastSunday(year), h2)
    ensures h1 <= h2 && IsDst(year, 10, OctoberLastSunday(year), h2) ==> IsDst(year, 10, OctoberLastSunday(year), h1)
    ensures IsDst(year, 3, MarchLastSunday(year), h1) != IsDst(year, 3, MarchLastSunday(year), h1 + 1) <==> h1 == 1
    ensures IsDst(year, 10, OctoberLastSunday(year), h1) != IsDst(year, 10, OctoberLastSunday(year), h1 + 1) <==> h1 == 2
  {
    ChangeoverDayRange(year, 4);
    ChangeoverDayRange(year, 1);
  }

  /** The test fixtures of the MQTT copy. */
  lemma DstFixtures()
    ensures !IsDst(2024, 3, 15, 10)
    ensures IsDst(2024, 3, 31, 3)
    ensures IsDst(2024, 7, 15, 12)
    ensures !IsDst(2024, 10, 27, 4)
    ensures !IsDst(2024, 12, 15, 18)
  {
  }

  /** The offset `utc_to_berlin` adds, chosen from the UTC fields. */
  function OffsetSeconds(utc: DateTime): nat {
    if IsDst(utc.year, utc.month, utc.day, utc.hour) then 7200 else 3600
  }

  /** `utc_to_berlin`: the local calendar fields of a non-negative Unix
      timestamp. The result is a valid calendar instant exactly one hour
      (winter time) or two hours (summer time, judged on the UTC fields)
      after the UTC instant. */
  function UtcToBerlin(t: nat): (r: DateTime)
    ensures ValidDateTime(r)
    ensures 1 <= r.month <= 12 && 1 <= r.day <= 31 && r.hour < 24 && r.minute < 60 && r.second < 60
  {
    var utc := FromTimestamp(t);
    FromTimestamp(t + OffsetSeconds(utc))
  }

  /** The local instant lies exactly one hour (winter time) or two hours
      (summer time, judged on the UTC fields) after the UTC instant. */
  lemma UtcToBerlinShift(t: nat)
    ensures ToTimestamp(UtcToBerlin(t)) - t
      == if IsDst(FromTimestamp(t).year, FromTimestamp(t).month, FromTimestamp(t).day, FromTimestamp(t).hour)
         then 7200 else 3600
  {
    ToTimestampOfFromTimestamp(t + OffsetSeconds(FromTimestamp(t)));
  }

  /** The offset is a whole number of hours, so the local second (and minute)
      equal the UTC ones; the once-a-second redraw gate sees UTC seconds. */
  lemma UtcToBerlinKeepsMinuteAndSecond(t: nat)
    ensures UtcToBerlin(t).second == FromTimestamp(t).second
    ensures UtcToBerlin(t).minute == FromTimestamp(t).minute
  {
    var k: nat := if OffsetSeconds(FromTimestamp(t)) == 7200 then 2 else 1;
    assert UtcToBerlin(t) == FromTimestamp(t + 3600 * k);
    ShiftByHoursKeepsMinuteAndSecond(t, k);
  }

  /** `format_time`: "HH:MM:SS", each field `{:02}`. */
  function FormatTime(hour: nat, minute: nat, second: nat): string {
    Pad2(hour) + ":" + Pad2(minute) + ":" + Pad2(second)
  }

  /** `format_date`: "DD.MM." then the year printed with `{}`. */
  function FormatDate(day: nat, month: nat, year: int): string {
    Pad2(day) + "." + Pad2(month) + "." + IntToString(year)
  }

  /** Fields below 100 give an eight-character string with ':' at positions 2
      and 5, from which the three fields can be read back. */
  lemma FormatTimeLayout(hour: nat, minute: nat, second: nat)
    requires hour < 100 && minute < 100 && second < 100
    ensures var s := FormatTime(hour, minute, second);
      |s| == 8 && s[2] == ':' && s[5] == ':'
      && AllDigits(s[0..2]) && AllDigits(s[3..5]) && AllDigits(s[6..8])
      && ParseNat(s[0..2]) == hour && ParseNat(s[3..5]) == minute && ParseNat(s[6..8]) == second
  {
    var s := FormatTime(hour, minute, second);
    Pad2Digits(hour);
    Pad2Digits(minute);
    Pad2Digits(second);
    assert s[0..2] == Pad2(hour);
    assert s[3..5] == Pad2(minute);
    assert s[6..8] == Pad2(second);
    Pad2Parse(hour);
    Pad2Parse(minute);
    Pad2Parse(second);
  }

  /** Distinct clock readings give distinct strings. */
  lemma FormatTimeInjective(h1: nat, m1: nat, s1: nat, h2: nat, m2: nat, s2: nat)
    requires h1 < 100 && m1 < 100 && s1 < 100 && h2 < 100 && m2 < 100 && s2 < 100
    requires FormatTime(h1, m1, s1) == FormatTime(h2, m2, s2)
    ensures h1 == h2 && m1 == m2 && s1 == s2
  {
    FormatTimeLayout(h1, m1, s1);
    FormatTimeLayout(h2, m2, s2);
  }

  /** Day and month below 100 give "DD.MM." followed by the unpadded year;
      a four-digit year gives the ten characters "DD.MM.YYYY". */
  lemma FormatDateLayout(day: nat, month: nat, year: int)
    requires day < 100 && month < 100
    ensures var s := FormatDate(day, month, year);
      |s| == 6 + |IntToString(year)| && s[2] == '.' && s[5] == '.'
      && AllDigits(s[0..2]) && AllDigits(s[3..5])
      && ParseNat(s[0..2]) == day && ParseNat(s[3..5]) == month
      && s[6..] == IntToString(year)
      && (year >= 0 ==> AllDigits(s[6..]) && ParseNat(s[6..]) == year)
      && (1000 <= year <= 9999 ==> |s| == 10)
  {
    var s := FormatDate(day, month, year);
    Pad2Digits(day);
    Pad2Digits(month);
    assert s[0..2] == Pad2(day);
    assert s[3..5] == Pad2(month);
    assert s[6..] == IntToString(year);
    Pad2Parse(day);
    Pad2Parse(month);
    IntToStringShape(year);
    if 1000 <= year <= 9999 {
      FourDigits(year);
    }
  }

  /** `get_timezone_str`: "CEST" exactly when `is_dst` holds on the same
      arguments, "CET" otherwise. */
  function TimezoneStr(year: int, month: nat, day: nat, hour: nat): (s: string)
    ensures s == "CEST" <==> IsDst(year, month, day, hour)
    ensures s == "CET" <==> !IsDst(year, month, day, hour)
  {
    if IsDst(year, month, day, hour) then "CEST" else "CET"
  }

  /** The timestamp of an instant given by its calendar fields. */
  lemma TimestampOf(t: DateTime, days: int, ts: int)
    requires ValidDateTime(t)
    requires DaysFromCivil(DateOf(t)) == days
    requires ts == days * 86400 + t.hour * 3600 + t.minute * 60 + t.second
    ensures ts >= 0 && FromTimestamp(ts) == t
  {
    FromTimestampOfToTimestamp(t);
  }

  /** 1711852800 is 2024-03-31T02:40:00Z, the changeover day, past 02:00 UTC:
      the clock shows 04:40:00 with the label "CEST". */
  lemma ChangeoverMorningExample()
    ensures UtcToBerlin(1711852800) == DateTime(2024, 3, 31, 4, 40, 0)
    ensures TimezoneStr(2024, 3, 31, 4) == "CEST"
  {
    DaysBeforeYearClosedForm(2024);
    assert DaysBeforeYear(2024) == 19723;
    assert MarchLastSunday(2024) == 31;
    TimestampOf(DateTime(2024, 3, 31, 2, 40, 0), 19813, 1711852800);
    assert OffsetSeconds(FromTimestamp(1711852800)) == 7200 by {
      assert IsDst(2024, 3, 31, 2);
    }
    assert UtcToBerlin(1711852800) == FromTimestamp(1711860000);
    TimestampOf(DateTime(2024, 3, 31, 4, 40, 0), 19813, 1711860000);
  }

  /** The main loop labels the zone from the LOCAL fields while the offset is
      chosen from the UTC fields, so near a changeover the label can contradict
      the offset applied. At 2024-10-27T02:30:00Z the offset is still two hours
      (local 04:30) but the label computed from local 04:30 is "CET". */
  lemma LabelCanDisagreeInOctober()
    ensures OffsetSeconds(FromTimestamp(1729996200)) == 7200
    ensures UtcToBerlin(1729996200) == DateTime(2024, 10, 27, 4, 30, 0)
    ensures TimezoneStr(2024, 10, 27, 4) == "CET"
  {
    DaysBeforeYearClosedForm(2024);
    assert DaysBeforeYear(2024) == 19723;
    assert OctoberLastSunday(2024) == 27;
    TimestampOf(DateTime(2024, 10, 27, 2, 30, 0), 20023, 1729996200);
    assert OffsetSeconds(FromTimestamp(1729996200)) == 7200 by {
      assert IsDst(2024, 10, 27, 2);
    }
    assert UtcToBerlin(1729996200) == FromTimestamp(1730003400);
    TimestampOf(DateTime(2024, 10, 27, 4, 30, 0), 20023, 1730003400);
  }

  /** The same at the March changeover: at 2024-03-31T01:30:00Z the offset is
      one hour (local 02:30) but the label computed from local 02:30 is
      "CEST". */
  lemma LabelCanDisagreeInMarch()
    ensures OffsetSeconds(FromTimestamp(1711848600)) == 3600
    ensures UtcToBerlin(1711848600) == DateTime(2024, 3, 31, 2, 30, 0)
    ensures TimezoneStr(2024, 3, 31, 2) == "CEST"
  {
    DaysBeforeYearClosedForm(2024);
    assert DaysBeforeYear(2024) == 19723;
    assert MarchLastSunday(2024) == 31;
    TimestampOf(DateTime(2024, 3, 31, 1, 30, 0), 19813, 1711848600);
    assert OffsetSeconds(FromTimestamp(1711848600)) == 3600 by {
      assert !IsDst(2024, 3, 31, 1);
    }
    assert UtcToBerlin(1711848600) == FromTimestamp(1711852200);
    TimestampOf(DateTime(2024, 3, 31, 2, 30, 0), 19813, 1711852200);
  }

  /** Between 1970 and 2099 the century corrections cancel out... */
  lemma LeapsUntil2099(year: int)
    requires EpochYear <= year <= 2099
    ensures Leaps(year - 1) == (year - 1) / 4 - 15
  {
    if year <= 2000 {
      assert (year - 1) / 100 == 19 && (year - 1) / 400 == 4;
    } else {
      assert (year - 1) / 100 == 20 && (year - 1) / 400 == 5;
    }
  }

  /** ... and every fourth year is a leap year. */
  lemma LeapYearUntil2099(year: int)
    requires EpochYear <= year <= 2099
    ensures IsLeapYear(year) <==> year % 4 == 0
  {
    if year == 2000 {
      assert IsLeapYear(year);
    } else {
      assert year % 100 != 0;
    }
  }

  /** So between 1970 and 2099 the days before a year count one extra day per
      four years. */
  lemma DaysBeforeYearUntil2099(year: int)
    requires EpochYear <= year <= 2099
    ensures DaysBeforeYear(year) == 365 * (year - EpochYear) + (year - 1) / 4 - 492
    ensures IsLeapYear(year) <==> year % 4 == 0
  {
    LeapYearUntil2099(year);
    assert Leaps(EpochYear - 1) == 477 by {
      assert 1969 / 4 == 492 && 1969 / 100 == 19 && 1969 / 400 == 4;
    }
    LeapsUntil2099(year);
    DaysBeforeYearClosedForm(year);
  }

  /** The closed form in non-negative years: `(5 * year / 4 + k) % 7`. */
  lemma LastSundayFormulaNonNegative(year: int, k: int)
    requires year >= 0 && k >= 0
    ensures LastSundayFormula(year, k) == 31 - (year + year / 4 + k) % 7
  {
    TruncRemRange(5 * year, 4);
    assert 5 * year / 4 == year + year / 4;
    TruncRemRange(year + year / 4 + k, 7);
  }

  /** The arithmetic core of `ChangeoverIsSunday`: with 365 = 52 * 7 + 1 the
      year terms cancel modulo seven. */
  lemma ChangeoverArithmetic(year: int, k: int, before: int, z: int)
    requires year >= 1
    requires (k == 4 && before == 59) || (k == 1 && before == 273)
    requires z == 365 * (year - EpochYear) + (year - 1) / 4 - 492 + before
                  + (if year % 4 == 0 then 1 else 0) + 31 - (year + year / 4 + k) % 7 - 1
    ensures (z + 4) % 7 == 0
  {
    var q := year / 4;
    assert year == 4 * q + year % 4;
    var p := (year - 1) / 4;
    assert year - 1 == 4 * p + (year - 1) % 4;
    var leap := if year % 4 == 0 then 1 else 0;
    assert p + leap == q;
    var w, j := (year + q + k) % 7, (year + q + k) / 7;
    assert year + q + k == 7 * j + w;
    assert z + 4 == 7 * (52 * year + j - (if k == 4 then 102779 else 102748));
  }

  /** The day the closed form gives is a Sunday in every year from 1970 to
      2099. */
  lemma ChangeoverIsSunday(year: int, month: nat, k: int)
    requires EpochYear <= year <= 2099
    requires (month == 3 && k == 4) || (month == 10 && k == 1)
    ensures Weekday(DaysFromCivil(Date(year, month, LastSundayFormula(year, k)))) == 0
  {
    DaysBeforeYearUntil2099(year);
    LastSundayFormulaNonNegative(year, k);
    var before := if month == 3 then 59 else 273;
    assert DaysBeforeMonth(year, month) == before + (if year % 4 == 0 then 1 else 0);
    var z := DaysFromCivil(Date(year, month, LastSundayFormula(year, k)));
    ChangeoverArithmetic(year, k, before, z);
  }

  /** For every year from 1970 to 2099 the closed form names a Sunday, and the
      last one of its month, in March and in October. */
  lemma FormulaIsLastSunday(year: int)
    requires EpochYear <= year <= 2099
    ensures Weekday(DaysFromCivil(Date(year, 3, MarchLastSunday(year)))) == 0
    ensures Weekday(DaysFromCivil(Date(year, 10, OctoberLastSunday(year)))) == 0
    ensures 31 - 7 < MarchLastSunday(year) <= 31 && 31 - 7 < OctoberLastSunday(year) <= 31
  {
    ChangeoverDayRange(year, 4);
    ChangeoverDayRange(year, 1);
    ChangeoverIsSunday(year, 3, 4);
    ChangeoverIsSunday(year, 10, 1);
  }

  /** In 2100, not a leap year, the closed form is off: it gives 27 March, a
      Saturday, while the last Sunday of March 2100 is the 28th. */
  lemma LastSundayFormulaFailsIn2100()
    ensures MarchLastSunday(2100) == 27
    ensures Weekday(DaysFromCivil(Date(2100, 3, 27))) == 6
    ensures Weekday(DaysFromCivil(Date(2100, 3, 28))) == 0
  {
    DaysBeforeYearClosedForm(2100);
    assert DaysBeforeYear(2100) == 47482;
  }
}
