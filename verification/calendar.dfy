/** The proleptic Gregorian calendar as ECMAScript `Date` uses it: time
    values are integer milliseconds since 1970-01-01T00:00:00Z, a day is
    exactly 86 400 000 ms (no leap seconds), and the UTC calendar fields of a
    time value are those of the day number `floor(t / msPerDay)`. */
module Calendar {
  import opened Base

  const MsPerSecond: int := 1000
  const MsPerHour: int := 3600000
  const MsPerDay: int := 86400000

  /** A calendar date; `month` runs 1..12 (one more than `getUTCMonth`). */
  datatype Date = Date(year: int, month: int, day: int)

  predicate IsLeapYear(y: int)
  {
    y % 4 == 0 && (y % 100 != 0 || y % 400 == 0)
  }

  function DaysInMonth(y: int, m: int): (r: int)
    requires 1 <= m <= 12
    ensures 28 <= r <= 31
  {
    if m == 2 then (if IsLeapYear(y) then 29 else 28)
    else if m == 4 || m == 6 || m == 9 || m == 11 then 30
    else 31
  }

  predicate ValidDate(d: Date)
  {
    1 <= d.month <= 12 && 1 <= d.day <= DaysInMonth(d.year, d.month)
  }

  /** Days from 1970-01-01 to year `y`, month `m`, day `d`. Days past the end
      of the month (or before its start) count on linearly, which is how
      `Date.UTC` treats an out-of-range day. Years are counted from March so
      that the leap day is the last day of its year; an era is 400 years,
      146 097 days. */
  function DaysFromCivil(y: int, m: int, d: int): int
    requires 1 <= m <= 12
  {
    var yy := if m <= 2 then y - 1 else y;
    var era := yy / 400;
    var yoe := yy - era * 400;
    var mp := if m > 2 then m - 3 else m + 9;
    var doy := (153 * mp + 2) / 5 + d - 1;
    var doe := yoe * 365 + yoe / 4 - yoe / 100 + doy;
    era * 146097 + doe - 719468
  }

  /** The calendar date of day number `z` (days since 1970-01-01): the day
      is split into 400-year eras, then centuries (the last one a day longer),
      four-year groups (the last one of a century short of a day except in the
      last century), and years (the last one of a group a day longer). */
  function CivilFromDays(z: int): (r: Date)
    ensures ValidDate(r)
    ensures DaysFromCivil(r.year, r.month, r.day) == z
  {
    var zz := z + 719468;
    var era := zz / 146097;
    DateOfEraDay(era, zz - era * 146097)
  }

  /** The date of day `doe` of era `era` (eras start on 0000-03-01). */
  function DateOfEraDay(era: int, doe: int): (r: Date)
    requires 0 <= doe < 146097
    ensures ValidDate(r)
    ensures DaysFromCivil(r.year, r.month, r.day) == era * 146097 + doe - 719468
  {
    var parts := SplitEraDay(doe);
    var c, q, yq, doy := parts.0, parts.1, parts.2, parts.3;
    var md := MonthDayOfYearDay(doy);
    var mp, d := md.0, md.1;
    var m := if mp < 10 then mp + 3 else mp - 9;
    var y := 100 * c + 4 * q + yq + era * 400 + (if m <= 2 then 1 else 0);
    DaysFromCivilOfParts(era, c, q, yq, mp, d);
    assert d == 29 && m == 2 ==> IsLeapYear(y) by {
      if d == 29 && m == 2 {
        LeapDayYear(era, c, q);
      }
    }
    Date(y, m, d)
  }

  /** A day of an era split into century, four-year group, year and day of
      year. */
  function SplitEraDay(doe: int): (r: (int, int, int, int))
    requires 0 <= doe < 146097
    ensures 0 <= r.0 <= 3 && 0 <= r.1 <= 24 && 0 <= r.2 <= 3 && 0 <= r.3 <= 365
    ensures doe == 36524 * r.0 + 1461 * r.1 + 365 * r.2 + r.3
    ensures r.3 == 365 ==> r.2 == 3 && (r.1 < 24 || r.0 == 3)
  {
    var c := Min(doe / 36524, 3);
    var doc := doe - 36524 * c;
    assert 0 <= doc <= 36524 && (c < 3 ==> doc <= 36523);
    var q := doc / 1461;
    var doq := doc - 1461 * q;
    assert 0 <= q <= 24 && 0 <= doq <= 1460;
    var yq := Min(doq / 365, 3);
    var doy := doq - 365 * yq;
    assert doy == 365 ==> doq == 1460;
    (c, q, yq, doy)
  }

  /** `DaysFromCivil` of a date given by era, century, four-year group,
      year, March-based month and day adds those parts back up. */
  lemma DaysFromCivilOfParts(era: int, c: int, q: int, yq: int, mp: int, d: int)
    requires 0 <= c <= 3 && 0 <= q <= 24 && 0 <= yq <= 3 && 0 <= mp <= 11
    ensures var m := if mp < 10 then mp + 3 else mp - 9;
            var y := 100 * c + 4 * q + yq + era * 400 + (if m <= 2 then 1 else 0);
            DaysFromCivil(y, m, d)
              == era * 146097 + 36524 * c + 1461 * q + 365 * yq + (153 * mp + 2) / 5 + d - 1 - 719468
  {
    YearOfEraDivisions(era, c, q, yq);
  }

  /** The divisions `DaysFromCivil` performs on a year of an era recover its
      era, century and four-year group. */
  lemma YearOfEraDivisions(era: int, c: int, q: int, yq: int)
    requires 0 <= c <= 3 && 0 <= q <= 24 && 0 <= yq <= 3
    ensures (100 * c + 4 * q + yq + era * 400) / 400 == era
    ensures (100 * c + 4 * q + yq) / 4 == 25 * c + q
    ensures (100 * c + 4 * q + yq) / 100 == c
  {
  }

  /** Month (counted from March, 0..11) and day of month of a day of a
      March-based year. */
  function MonthDayOfYearDay(doy: int): (r: (int, int))
    requires 0 <= doy <= 365
    ensures 0 <= r.0 <= 11 && 1 <= r.1
    ensures (153 * r.0 + 2) / 5 + r.1 - 1 == doy
    ensures r.0 != 11 ==> r.1 <= DaysInMonth(1, if r.0 < 10 then r.0 + 3 else r.0 - 9)
    ensures r.0 == 11 ==> r.1 <= 29 && (r.1 == 29 ==> doy == 365)
  {
    var mp := (5 * doy + 2) / 153;
    (mp, doy - (153 * mp + 2) / 5 + 1)
  }

  /** The year holding the last day of a full four-year group is a leap year. */
  lemma LeapDayYear(era: int, c: int, q: int)
    requires 0 <= c <= 3 && 0 <= q <= 24 && (q == 24 ==> c == 3)
    ensures IsLeapYear(100 * c + 4 * q + 3 + era * 400 + 1)
  {
    var y := 100 * c + 4 * q + 4 + era * 400;
    assert y == 4 * (25 * c + q + 1 + 100 * era);
    if q == 24 {
      assert y == 400 * (era + 1);
    } else {
      assert y == 100 * (c + 4 * era) + (4 * q + 4);
    }
  }

  // ---------------------------------------------------------------------
  // Order of dates

  /** Calendar order: by year, then month, then day. */
  predicate DateBefore(a: Date, b: Date)
  {
    a.year < b.year || (a.year == b.year && (a.month < b.month || (a.month == b.month && a.day < b.day)))
  }

  /** Days from 1970-01-01 to March 1 of year `yy`, less 719 468. */
  function DaysToMarch(yy: int): int
  {
    var era := yy / 400;
    var yoe := yy - era * 400;
    era * 146097 + yoe * 365 + yoe / 4 - yoe / 100
  }

  /** The Gregorian count of days in the years before `yy`: 365 each, plus
      one per multiple of 4, less one per multiple of 100, plus one per
      multiple of 400. */
  lemma DaysToMarchClosedForm(yy: int)
    ensures DaysToMarch(yy) == 365 * yy + yy / 4 - yy / 100 + yy / 400
  {
    var era := yy / 400;
    var yoe := yy - era * 400;
    assert yy / 4 == 100 * era + yoe / 4;
    assert yy / 100 == 4 * era + yoe / 100;
  }

  /** From March 1 of the year before to March 1 of `y` there are 366 days
      when `y` is a leap year (its February has 29 days) and 365 otherwise. */
  lemma DaysToMarchStep(y: int)
    ensures DaysToMarch(y) - DaysToMarch(y - 1) == (if IsLeapYear(y) then 366 else 365)
  {
    DaysToMarchClosedForm(y);
    DaysToMarchClosedForm(y - 1);
    MultipleStep4(y);
    MultipleStep100(y);
    MultipleStep400(y);
    MultiplesNest(y);
  }

  /** `y / 4` moves past `(y - 1) / 4` exactly at a multiple of 4. */
  lemma MultipleStep4(y: int)
    ensures y / 4 - (y - 1) / 4 == (if y % 4 == 0 then 1 else 0)
  {
    var q := y / 4;
    if y % 4 == 0 {
      assert y - 1 == 4 * (q - 1) + 3;
    } else {
      assert y - 1 == 4 * q + (y % 4 - 1);
    }
  }

  /** `y / 100` moves past `(y - 1) / 100` exactly at a multiple of 100. */
  lemma MultipleStep100(y: int)
    ensures y / 100 - (y - 1) / 100 == (if y % 100 == 0 then 1 else 0)
  {
    var q := y / 100;
    if y % 100 == 0 {
      assert y - 1 == 100 * (q - 1) + 99;
    } else {
      assert y - 1 == 100 * q + (y % 100 - 1);
    }
  }

  /** `y / 400` moves past `(y - 1) / 400` exactly at a multiple of 400. */
  lemma MultipleStep400(y: int)
    ensures y / 400 - (y - 1) / 400 == (if y % 400 == 0 then 1 else 0)
  {
    var q := y / 400;
    if y % 400 == 0 {
      assert y - 1 == 400 * (q - 1) + 399;
    } else {
      assert y - 1 == 400 * q + (y % 400 - 1);
    }
  }

  /** A multiple of 400 is a multiple of 100, and a multiple of 100 is a
      multiple of 4. */
  lemma MultiplesNest(y: int)
    ensures y % 400 == 0 ==> y % 100 == 0
    ensures y % 100 == 0 ==> y % 4 == 0
  {
    if y % 100 == 0 {
      assert y == 4 * (25 * (y / 100));
    }
    if y % 400 == 0 {
      assert y == 100 * (4 * (y / 400));
    }
  }

  /** `DaysFromCivil` counts the days of the calendar: the first of the
      next month comes `DaysInMonth` days after the first of this one. */
  lemma {:induction false} MonthLength(y: int, m: int)
    requires 1 <= m <= 11
    ensures DaysFromCivil(y, m + 1, 1) == DaysFromCivil(y, m, 1) + DaysInMonth(y, m)
  {
    assert DaysFromCivil(y, m, 1) == DaysToMarch(if m <= 2 then y - 1 else y) + (153 * (if m > 2 then m - 3 else m + 9) + 2) / 5 - 719468;
    assert DaysFromCivil(y, m + 1, 1) == DaysToMarch(if m + 1 <= 2 then y - 1 else y) + (153 * (if m + 1 > 2 then m - 2 else m + 10) + 2) / 5 - 719468;
    if m == 2 {
      DaysToMarchStep(y);
    }
  }

  /** ... and January 1 comes 31 days after December 1 of the year before. */
  lemma YearLength(y: int)
    ensures DaysFromCivil(y + 1, 1, 1) == DaysFromCivil(y, 12, 1) + 31
  {
  }

  lemma DaysInMonthPositive(y: int, m: int)
    requires 1 <= m <= 12
    ensures 28 <= DaysInMonth(y, m) <= 31
  {
  }

  /** Every day of an earlier month of the same year comes before the first
      of a later month. */
  lemma {:induction false} MonthsIncrease(y: int, m1: int, m2: int)
    requires 1 <= m1 < m2 <= 12
    ensures DaysFromCivil(y, m1, 1) + DaysInMonth(y, m1) <= DaysFromCivil(y, m2, 1)
  {
    MonthLength(y, m2 - 1);
    if m1 < m2 - 1 {
      MonthsIncrease(y, m1, m2 - 1);
      DaysInMonthPositive(y, m2 - 1);
    }
  }

  /** Every day of a year comes before January 1 of any later year. */
  lemma {:induction false} YearsIncrease(y1: int, y2: int)
    requires y1 < y2
    ensures DaysFromCivil(y1, 12, 31) < DaysFromCivil(y2, 1, 1)
    decreases y2 - y1
  {
    YearLength(y2 - 1);
    if y1 < y2 - 1 {
      YearsIncrease(y1, y2 - 1);
      MonthsIncrease(y2 - 1, 1, 12);
      DaysInMonthPositive(y2 - 1, 1);
    }
  }

  /** A day of a year comes before every day of a later year. */
  lemma EarlierYear(a: Date, b: Date)
    requires ValidDate(a) && ValidDate(b) && a.year < b.year
    ensures DaysFromCivil(a.year, a.month, a.day) < DaysFromCivil(b.year, b.month, b.day)
  {
    var lastDay := DaysFromCivil(a.year, 12, 31);
    assert DaysFromCivil(a.year, a.month, a.day) <= lastDay by {
      if a.month < 12 {
        MonthsIncrease(a.year, a.month, 12);
      }
    }
    YearsIncrease(a.year, b.year);
    assert DaysFromCivil(b.year, 1, 1) <= DaysFromCivil(b.year, b.month, b.day) by {
      if b.month > 1 {
        MonthsIncrease(b.year, 1, b.month);
      }
    }
  }

  /** `DaysFromCivil` is strictly increasing in calendar order. */
  lemma DaysFromCivilIncreasing(a: Date, b: Date)
    requires ValidDate(a) && ValidDate(b)
    requires DateBefore(a, b)
    ensures DaysFromCivil(a.year, a.month, a.day) < DaysFromCivil(b.year, b.month, b.day)
  {
    if a.year < b.year {
      EarlierYear(a, b);
    } else if a.month < b.month {
      MonthsIncrease(a.year, a.month, b.month);
    }
  }

  /** A valid date is recovered from its day number. */
  lemma CivilOfDaysFromCivil(date: Date)
    requires ValidDate(date)
    ensures CivilFromDays(DaysFromCivil(date.year, date.month, date.day)) == date
  {
    var r := CivilFromDays(DaysFromCivil(date.year, date.month, date.day));
    if DateBefore(r, date) {
      DaysFromCivilIncreasing(r, date);
    } else if DateBefore(date, r) {
      DaysFromCivilIncreasing(date, r);
    }
  }

  /** Later day numbers are later dates. */
  lemma CivilFromDaysIncreasing(z1: int, z2: int)
    requires z1 < z2
    ensures DateBefore(CivilFromDays(z1), CivilFromDays(z2))
  {
    var a, b := CivilFromDays(z1), CivilFromDays(z2);
    if !DateBefore(a, b) {
      if a != b {
        DaysFromCivilIncreasing(b, a);
      }
    }
  }

  // ---------------------------------------------------------------------
  // Time values

  /** `Day(t)`: the day number of a time value (floor division). */
  function DayOf(ms: int): int
  {
    ms / MsPerDay
  }

  /** The UTC calendar fields of a time value
      (`getUTCFullYear`, `getUTCMonth() + 1`, `getUTCDate`). */
  function UtcDate(ms: int): Date
  {
    CivilFromDays(DayOf(ms))
  }

  /** The UTC fields of any instant of a date's day are that date. */
  lemma UtcDateOfInstant(date: Date, ms: int)
    requires ValidDate(date)
    requires var z := DaysFromCivil(date.year, date.month, date.day);
             z * MsPerDay <= ms < z * MsPerDay + MsPerDay
    ensures UtcDate(ms) == date
  {
    var z := DaysFromCivil(date.year, date.month, date.day);
    DayOfBounds(ms, z);
    CivilOfDaysFromCivil(date);
  }

  /** A second of day `z`, in milliseconds, lies in the span of day `z`. */
  lemma SecondInDay(z: int, seconds: int)
    requires z * 86400 <= seconds < z * 86400 + 86400
    ensures z * MsPerDay <= seconds * MsPerSecond < z * MsPerDay + MsPerDay
  {
  }

  /** An instant lies on the day whose span holds it. */
  lemma DayOfBounds(ms: int, z: int)
    requires z * MsPerDay <= ms < z * MsPerDay + MsPerDay
    ensures DayOf(ms) == z
  {
  }

  /** `getUTCDay`: 0 is Sunday; 1970-01-01 was a Thursday. */
  function WeekDay(day: int): (r: int)
    ensures 0 <= r < 7
  {
    (day + 4) % 7
  }

  /** The weekday cycle: 1970-01-01 was a Thursday, each day's index is one
      past the previous day's (Saturday wrapping to Sunday), and the index
      repeats every seven days. */
  lemma WeekDayCycle(day: int)
    ensures WeekDay(DaysFromCivil(1970, 1, 1)) == 4
    ensures WeekDay(day + 1) == (WeekDay(day) + 1) % 7
    ensures WeekDay(day + 7) == WeekDay(day)
  {
    assert DaysFromCivil(1970, 1, 1) == 0;
  }

  const MonthNames: seq<string> := ["Jan", "Feb", "Mar", "Apr", "May", "Jun", "Jul", "Aug", "Sep", "Oct", "Nov", "Dec"]
  const DayNames: seq<string> := ["Sun", "Mon", "Tue", "Wed", "Thu", "Fri", "Sat"]

  function MonthName(m: int): string
    requires 1 <= m <= 12
  {
    MonthNames[m - 1]
  }

  function DayName(day: int): string
  {
    DayNames[WeekDay(day)]
  }

  /** `Date.UTC(year, month0, day)` with the other fields 0: a two-digit year
      means 19xx, and a month outside 0..11 carries into the year. */
  function DateUtc(year: int, month0: int, day: int): int
  {
    var yr := if 0 <= year <= 99 then 1900 + year else year;
    var ym := yr + month0 / 12;
    var mn := month0 % 12;
    (DaysFromCivil(ym, mn + 1, 1) + day - 1) * MsPerDay
  }

  /** For a year outside 0..99 and a month in range, `Date.UTC` is midnight
      UTC of exactly that date, and reading its UTC fields gives the date
      back. */
  lemma DateUtcOfDate(date: Date)
    requires ValidDate(date)
    requires !(0 <= date.year <= 99)
    ensures DateUtc(date.year, date.month - 1, date.day) == DaysFromCivil(date.year, date.month, date.day) * MsPerDay
  {
  }
}
