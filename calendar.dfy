// The proleptic Gregorian calendar over non-negative Unix timestamps. The
// firmware delegates this to the chrono crate (`Utc.timestamp_opt` and the
// Datelike/Timelike accessors); this module is the replacement: a split of
// a timestamp into calendar fields, the inverse that counts the seconds of
// a calendar instant, and the proof that each undoes the other.

module Calendar {

  const EpochYear: int := 1970
  const SecondsPerDay: nat := 86400

  predicate IsLeapYear(y: int) {
    y % 4 == 0 && (y % 100 != 0 || y % 400 == 0)
  }

  function DaysInYear(y: int): nat {
    if IsLeapYear(y) then 366 else 365
  }

  function DaysInMonth(y: int, m: int): (n: nat)
    requires 1 <= m <= 12
    ensures 28 <= n <= 31
  {
    if m == 2 then (if IsLeapYear(y) then 29 else 28)
    else if m == 4 || m == 6 || m == 9 || m == 11 then 30
    else 31
  }

  /** Days of year `y` that precede the first of month `m` (`m == 13` is the
      end of the year). */
  function DaysBeforeMonth(y: int, m: int): nat
    requires 1 <= m <= 13
  {
    [0, 31, 59, 90, 120, 151, 181, 212, 243, 273, 304, 334, 365][m - 1]
      + (if m > 2 && IsLeapYear(y) then 1 else 0)
  }

  lemma DaysBeforeMonthStep(y: int, m: int)
    requires 1 <= m <= 12
    ensures DaysBeforeMonth(y, m + 1) == DaysBeforeMonth(y, m) + DaysInMonth(y, m)
    ensures DaysBeforeMonth(y, 1) == 0 && DaysBeforeMonth(y, 13) == DaysInYear(y)
  {
  }

  /** Days from 1970-01-01 to the first of January of `y`. */
  function DaysBeforeYear(y: int): nat
    requires y >= EpochYear
    decreases y - EpochYear
  {
    if y == EpochYear then 0 else DaysBeforeYear(y - 1) + DaysInYear(y - 1)
  }

  /** Leap years in 1..n. */
  function Leaps(n: nat): int {
    n / 4 - n / 100 + n / 400
  }

  lemma DivMod4Of(x: int, q: int, r: int)
    requires x == 4 * q + r && 0 <= r < 4
    ensures x / 4 == q && x % 4 == r
  {
  }

  lemma DivMod100Of(x: int, q: int, r: int)
    requires x == 100 * q + r && 0 <= r < 100
    ensures x / 100 == q && x % 100 == r
  {
  }

  lemma DivMod400Of(x: int, q: int, r: int)
    requires x == 400 * q + r && 0 <= r < 400
    ensures x / 400 == q && x % 400 == r
  {
  }

  lemma PredDiv4(y: int)
    requires y >= 1
    ensures (y - 1) / 4 == if y % 4 == 0 then y / 4 - 1 else y / 4
  {
    var q, r := y / 4, y % 4;
    if r == 0 {
      DivMod4Of(y - 1, q - 1, 3);
    } else {
      DivMod4Of(y - 1, q, r - 1);
    }
  }

  lemma PredDiv100(y: int)
    requires y >= 1
    ensures (y - 1) / 100 == if y % 100 == 0 then y / 100 - 1 else y / 100
    ensures y % 100 == 0 ==> y % 4 == 0
  {
    var q, r := y / 100, y % 100;
    if r == 0 {
      DivMod100Of(y - 1, q - 1, 99);
      DivMod4Of(y, 25 * q, 0);
    } else {
      DivMod100Of(y - 1, q, r - 1);
    }
  }

  lemma PredDiv400(y: int)
    requires y >= 1
    ensures (y - 1) / 400 == if y % 400 == 0 then y / 400 - 1 else y / 400
    ensures y % 400 == 0 ==> y % 100 == 0
  {
    var q, r := y / 400, y % 400;
    if r == 0 {
      DivMod400Of(y - 1, q - 1, 399);
      DivMod100Of(y, 4 * q, 0);
    } else {
      DivMod400Of(y - 1, q, r - 1);
    }
  }

  lemma LeapsStep(y: nat)
    requires y >= 1
    ensures Leaps(y) - Leaps(y - 1) == if IsLeapYear(y) then 1 else 0
  {
    PredDiv4(y);
    PredDiv100(y);
    PredDiv400(y);
  }

  /** The count of days before a year in closed form, the usual leap-year
      counting. */
  lemma {:induction false} DaysBeforeYearClosedForm(y: int)
    requires y >= EpochYear
    ensures DaysBeforeYear(y) == 365 * (y - EpochYear) + Leaps(y - 1) - Leaps(EpochYear - 1)
    decreases y - EpochYear
  {
    if y > EpochYear {
      DaysBeforeYearClosedForm(y - 1);
      LeapsStep(y - 1);
    }
  }

  lemma {:induction false} DaysBeforeYearMonotone(a: int, b: int)
    requires EpochYear <= a <= b
    ensures DaysBeforeYear(a) + (b - a) * 365 <= DaysBeforeYear(b)
    decreases b - a
  {
    if a < b {
      DaysBeforeYearMonotone(a, b - 1);
    }
  }

  datatype Date = Date(year: int, month: nat, day: nat)

  predicate ValidDate(d: Date) {
    d.year >= EpochYear && 1 <= d.month <= 12 && 1 <= d.day <= DaysInMonth(d.year, d.month)
  }

  /** Days from 1970-01-01 to `d`: the inverse of `CivilFromDays`. */
  function DaysFromCivil(d: Date): int
    requires d.year >= EpochYear && 1 <= d.month <= 12
  {
    DaysBeforeYear(d.year) + DaysBeforeMonth(d.year, d.month) + d.day - 1
  }

  /** Walks forward a year at a time from `y`, `days` days ahead. */
  function YearOf(days: nat, y: int): (r: (int, nat))
    requires y >= EpochYear
    ensures r.0 >= y && r.1 < DaysInYear(r.0)
    ensures DaysBeforeYear(r.0) + r.1 == DaysBeforeYear(y) + days
    decreases days
  {
    if days < DaysInYear(y) then (y, days) else YearOf(days - DaysInYear(y), y + 1)
  }

  /** Walks forward a month at a time from month `m` of year `y`, `doy` days
      ahead; the result is a month and a day of that month. */
  function MonthOf(y: int, doy: nat, m: int): (r: (int, nat))
    requires 1 <= m <= 12 && DaysBeforeMonth(y, m) + doy < DaysInYear(y)
    ensures m <= r.0 <= 12 && 1 <= r.1 <= DaysInMonth(y, r.0)
    ensures DaysBeforeMonth(y, r.0) + r.1 - 1 == DaysBeforeMonth(y, m) + doy
    decreases 12 - m
  {
    DaysBeforeMonthStep(y, m);
    if m == 12 || doy < DaysInMonth(y, m) then (m, doy + 1)
    else MonthOf(y, doy - DaysInMonth(y, m), m + 1)
  }

  /** The calendar date `z` days after 1970-01-01. */
  function CivilFromDays(z: nat): (d: Date)
    ensures ValidDate(d) && DaysFromCivil(d) == z
  {
    var (y, doy) := YearOf(z, EpochYear);
    DaysBeforeMonthStep(y, 12);
    var (m, day) := MonthOf(y, doy, 1);
    Date(y, m, day)
  }

  /** Where a valid date falls: inside its year and inside its month. */
  lemma DateBounds(d: Date)
    requires ValidDate(d)
    ensures DaysBeforeYear(d.year) <= DaysFromCivil(d) < DaysBeforeYear(d.year + 1)
    ensures DaysBeforeMonth(d.year, d.month) <= DaysFromCivil(d) - DaysBeforeYear(d.year)
              < DaysBeforeMonth(d.year, d.month + 1)
  {
    DaysBeforeMonthStep(d.year, d.month);
    DaysBeforeMonthStep(d.year, 12);
    assert DaysBeforeMonth(d.year, d.month + 1) <= DaysBeforeMonth(d.year, 13) by {
      MonthsMonotone(d.year, d.month + 1, 13);
    }
  }

  lemma {:induction false} MonthsMonotone(y: int, a: int, b: int)
    requires 1 <= a <= b <= 13
    ensures DaysBeforeMonth(y, a) + (b - a) * 28 <= DaysBeforeMonth(y, b)
    decreases b - a
  {
    if a < b {
      MonthsMonotone(y, a, b - 1);
      DaysBeforeMonthStep(y, b - 1);
    }
  }

  /** Distinct valid dates are distinct day counts. */
  lemma DaysFromCivilInjective(d1: Date, d2: Date)
    requires ValidDate(d1) && ValidDate(d2) && DaysFromCivil(d1) == DaysFromCivil(d2)
    ensures d1 == d2
  {
    DateBounds(d1);
    DateBounds(d2);
    if d1.year < d2.year {
      DaysBeforeYearMonotone(d1.year + 1, d2.year);
      assert false;
    } else if d2.year < d1.year {
      DaysBeforeYearMonotone(d2.year + 1, d1.year);
      assert false;
    }
    if d1.month < d2.month {
      MonthsMonotone(d1.year, d1.month + 1, d2.month);
      assert false;
    } else if d2.month < d1.month {
      MonthsMonotone(d1.year, d2.month + 1, d1.month);
      assert false;
    }
  }

  /** Splitting the day count of a valid date gives the date back. */
  lemma CivilFromDaysOfCivil(d: Date)
    requires ValidDate(d)
    ensures DaysFromCivil(d) >= 0 && CivilFromDays(DaysFromCivil(d)) == d
  {
    var z := DaysFromCivil(d);
    DaysFromCivilInjective(CivilFromDays(z), d);
  }

  /** A calendar instant: the fields chrono's Datelike and Timelike report. */
  datatype DateTime = DateTime(year: int, month: nat, day: nat, hour: nat, minute: nat, second: nat)

  function DateOf(t: DateTime): Date {
    Date(t.year, t.month, t.day)
  }

  predicate ValidDateTime(t: DateTime) {
    ValidDate(DateOf(t)) && t.hour < 24 && t.minute < 60 && t.second < 60
  }

  /** Seconds from 1970-01-01T00:00:00 to `t`. */
  function ToTimestamp(t: DateTime): int
    requires t.year >= EpochYear && 1 <= t.month <= 12
  {
    DaysFromCivil(DateOf(t)) * SecondsPerDay + t.hour * 3600 + t.minute * 60 + t.second
  }

  /** The calendar fields of a Unix timestamp (chrono's `Utc.timestamp_opt`
      followed by `year()`, `month()`, `day()`, `hour()`, `minute()`,
      `second()`). */
  function FromTimestamp(t: nat): (r: DateTime)
    ensures ValidDateTime(r)
  {
    var d := CivilFromDays(t / SecondsPerDay);
    var rest := t % SecondsPerDay;
    DateTime(d.year, d.month, d.day, rest / 3600, rest % 3600 / 60, rest % 60)
  }

  /** A second of the day is its hours, minutes and seconds counted back. */
  lemma SplitSecondOfDay(rest: nat)
    ensures rest == rest / 3600 * 3600 + rest % 3600 / 60 * 60 + rest % 60
  {
    var h, c := rest / 3600, rest % 3600;
    var m, sec := c / 60, c % 60;
    Mod60Of(rest, 60 * h + m, sec);
  }

  /** Counting the seconds of the split gives the timestamp back. */
  lemma ToTimestampOfFromTimestamp(t: nat)
    ensures ToTimestamp(FromTimestamp(t)) == t
  {
    var r := FromTimestamp(t);
    var days, rest := t / SecondsPerDay, t % SecondsPerDay;
    assert DaysFromCivil(DateOf(r)) == days;
    assert t == days * SecondsPerDay + rest;
    SplitSecondOfDay(rest);
    assert r.hour * 3600 + r.minute * 60 + r.second == rest;
  }

  /** Splitting the timestamp of a valid instant gives the instant back. */
  lemma FromTimestampOfToTimestamp(t: DateTime)
    requires ValidDateTime(t)
    ensures ToTimestamp(t) >= 0 && FromTimestamp(ToTimestamp(t)) == t
  {
    var z := DaysFromCivil(DateOf(t));
    CivilFromDaysOfCivil(DateOf(t));
    ToTimestampOfFromTimestamp(ToTimestamp(t));
    var secs := t.hour * 3600 + t.minute * 60 + t.second;
    assert 0 <= secs < SecondsPerDay;
    var ts := ToTimestamp(t);
    assert ts == z * SecondsPerDay + secs;
    assert ts / SecondsPerDay == z && ts % SecondsPerDay == secs;
  }

  /** Remainders of a timestamp: the second and minute of the day depend only
      on the timestamp modulo an hour. */
  lemma ModHourFacts(t: nat)
    ensures t % SecondsPerDay % 60 == t % 60
    ensures t % SecondsPerDay % 3600 / 60 == t % 3600 / 60
  {
    var a, r := t / 86400, t % 86400;
    assert t == 86400 * a + r;
    var b, c := r / 3600, r % 3600;
    assert r == 3600 * b + c;
    assert t == 3600 * (24 * a + b) + c;
    assert t % 3600 == c;
    var e, f := c / 60, c % 60;
    assert c == 60 * e + f;
    assert r % 60 == f by {
      assert r == 60 * (60 * b + e) + f;
    }
    assert t == 60 * (1440 * a + 60 * b + e) + f;
  }

  /** Adding whole hours changes neither the remainder modulo a minute nor the
      minute within the hour. */
  lemma Mod60Of(x: int, q: int, r: int)
    requires x == 60 * q + r && 0 <= r < 60
    ensures x % 60 == r
  {
  }

  lemma Mod3600Of(x: int, q: int, r: int)
    requires x == 3600 * q + r && 0 <= r < 3600
    ensures x % 3600 == r
  {
  }

  lemma ModShiftByHours(t: nat, k: nat)
    ensures (t + 3600 * k) % 60 == t % 60
    ensures (t + 3600 * k) % 3600 / 60 == t % 3600 / 60
  {
    Mod60Of(t + 3600 * k, t / 60 + 60 * k, t % 60);
    Mod3600Of(t + 3600 * k, t / 3600 + k, t % 3600);
  }

  /** The minute and second of a timestamp. */
  lemma MinuteAndSecondOf(t: nat)
    ensures FromTimestamp(t).second == t % 60
    ensures FromTimestamp(t).minute == t % 3600 / 60
  {
    ModHourFacts(t);
  }

  /** Shifting a timestamp by whole hours keeps its minute and second. */
  lemma ShiftByHoursKeepsMinuteAndSecond(t: nat, k: nat)
    ensures FromTimestamp(t + 3600 * k).second == FromTimestamp(t).second
    ensures FromTimestamp(t + 3600 * k).minute == FromTimestamp(t).minute
  {
    MinuteAndSecondOf(t);
    MinuteAndSecondOf(t + 3600 * k);
    ModShiftByHours(t, k);
  }

  /** Day of the week of day `z` after 1970-01-01, a Thursday; 0 is Sunday. */
  function Weekday(z: int): nat {
    (z + 4) % 7
  }
}
