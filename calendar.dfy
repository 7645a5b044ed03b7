/** Python `datetime.date` values as day numbers (0 is 1970-01-01) in the
  * proleptic Gregorian calendar, with the year/month/day accessors and the
  * `date(y, m, d)` constructor that raises for an impossible date. */
module Calendar {
  import opened Common

  /** A calendar date, as the number of days since 1970-01-01. */
  type Day = int

  predicate IsLeap(y: int) {
    y % 4 == 0 && (y % 100 != 0 || y % 400 == 0)
  }

  function DaysInMonth(y: int, m: int): int
    requires 1 <= m <= 12
  {
    if m == 2 then (if IsLeap(y) then 29 else 28)
    else if m == 4 || m == 6 || m == 9 || m == 11 then 30
    else 31
  }

  /** Whether `date(y, m, d)` is a valid date (Python raises `ValueError` otherwise). */
  predicate ValidDate(y: int, m: int, d: int) {
    1 <= y <= 9999 && 1 <= m <= 12 && 1 <= d <= DaysInMonth(y, m)
  }

  /** Day number of a valid year/month/day (the civil-to-days conversion):
    * years are counted from March, so that a leap day ends its year. */
  function DaysFromCivil(y: int, m: int, d: int): Day
  {
    var y1 := if m <= 2 then y - 1 else y;
    var era := y1 / 400;
    era * 146097 + DayOfEra(y1 - era * 400, DayOfYear(m, d)) - 719468
  }

  /** The day of the year (counted from March 1) of month `m`, day `d`. */
  function DayOfYear(m: int, d: int): int
  {
    var mp := if m > 2 then m - 3 else m + 9;
    (153 * mp + 2) / 5 + d - 1
  }

  /** The day of the 400-year era of day `doy` of year `yoe` of the era. */
  function DayOfEra(yoe: int, doy: int): int
  {
    yoe * 365 + yoe / 4 - yoe / 100 + doy
  }

  datatype Civil = Civil(year: int, month: int, day: int)

  /** Year, month and day of a day number (the days-to-civil conversion):
    * the 400-year era and the day within it, ... */
  function CivilFromDays(z0: Day): Civil
  {
    var z := z0 + 719468;
    var era := z / 146097;
    CivilOfEra(era, z - era * 146097)
  }

  /** ... then the year (counted from March) and the day within it, ... */
  function CivilOfEra(era: int, doe: int): Civil
  {
    var yoe := (doe - doe / 1460 + doe / 36524 - doe / 146096) / 365;
    var doy := doe - (365 * yoe + yoe / 4 - yoe / 100);
    CivilOfYear(yoe + era * 400, doy)
  }

  /** ... then the month and the day. */
  function CivilOfYear(y: int, doy: int): Civil
  {
    var mp := (5 * doy + 2) / 153;
    var d := doy - (153 * mp + 2) / 5 + 1;
    var m := if mp < 10 then mp + 3 else mp - 9;
    Civil(if m <= 2 then y + 1 else y, m, d)
  }

  function YearOf(d: Day): int { CivilFromDays(d).year }
  function MonthOf(d: Day): int { CivilFromDays(d).month }
  function DayOf(d: Day): int { CivilFromDays(d).day }

  /** `date(y, m, d)`: the day number, or `None` where Python raises `ValueError`. */
  function MakeDate(y: int, m: int, d: int): (r: Option<Day>)
    ensures r.Some? <==> ValidDate(y, m, d)
  {
    if ValidDate(y, m, d) then Some(DaysFromCivil(y, m, d)) else None
  }

  /** The date `date(y, m, d)` builds has year `y`, month `m` and day `d`, so
    * two valid dates are the same day exactly when their parts agree. */
  lemma {:induction false} MakeDateParts(y: int, m: int, d: int)
    requires ValidDate(y, m, d)
    ensures var r := MakeDate(y, m, d).value;
            YearOf(r) == y && MonthOf(r) == m && DayOf(r) == d
  {
    CivilRoundTrip(y, m, d);
  }

  /** Different valid dates have different day numbers. */
  lemma {:induction false} MakeDateInjective(y: int, m: int, d: int, y': int, m': int, d': int)
    requires ValidDate(y, m, d) && ValidDate(y', m', d')
    ensures MakeDate(y, m, d) == MakeDate(y', m', d') <==> y == y' && m == m' && d == d'
  {
    MakeDateParts(y, m, d);
    MakeDateParts(y', m', d');
  }

  /** Converting a valid date to its day number and back gives the date again. */
  lemma {:induction false} CivilRoundTrip(y: int, m: int, d: int)
    requires ValidDate(y, m, d)
    ensures CivilFromDays(DaysFromCivil(y, m, d)) == Civil(y, m, d)
  {
    var y1 := if m <= 2 then y - 1 else y;
    var era := y1 / 400;
    var yoe := y1 - era * 400;
    DaysToEra(y, m, d, era, yoe);
    EraToCivil(y, m, d, era, yoe);
  }

  /** The day number of a date splits into its era and the day of the era. */
  lemma {:induction false} DaysToEra(y: int, m: int, d: int, era: int, yoe: int)
    requires ValidDate(y, m, d)
    requires era == (if m <= 2 then y - 1 else y) / 400
    requires yoe == (if m <= 2 then y - 1 else y) - era * 400
    ensures 0 <= DayOfEra(yoe, DayOfYear(m, d)) < 146097
    ensures CivilFromDays(DaysFromCivil(y, m, d)) == CivilOfEra(era, DayOfEra(yoe, DayOfYear(m, d)))
  {
    MonthOfYear(y, m, d);
    var doe := DayOfEra(yoe, DayOfYear(m, d));
    EraDayBound(yoe, DayOfYear(m, d));
    EraOfDay(DaysFromCivil(y, m, d), era, doe);
  }

  /** The day of the era lies within the era. */
  lemma {:induction false} EraDayBound(yoe: int, doy: int)
    requires 0 <= yoe < 400 && 0 <= doy <= 365
    ensures 0 <= DayOfEra(yoe, doy) < 146097
  {
  }

  /** The day of the era of a date gives the date back. */
  lemma {:induction false} EraToCivil(y: int, m: int, d: int, era: int, yoe: int)
    requires ValidDate(y, m, d)
    requires era * 400 + yoe == (if m <= 2 then y - 1 else y) && 0 <= yoe < 400
    ensures CivilOfEra(era, DayOfEra(yoe, DayOfYear(m, d))) == Civil(y, m, d)
  {
    var doy := DayOfYear(m, d);
    MonthOfYear(y, m, d);
    if doy == 365 {
      LeapDayOfEra(y, m, d, era, yoe);
    }
    YearOfEra(era, yoe, doy);
  }

  /** The last day of a year counted from March is a leap day, which falls
    * in a year of the era whose successor is a leap year. */
  lemma {:induction false} LeapDayOfEra(y: int, m: int, d: int, era: int, yoe: int)
    requires ValidDate(y, m, d) && DayOfYear(m, d) == 365
    requires era * 400 + yoe == (if m <= 2 then y - 1 else y) && 0 <= yoe < 400
    ensures (yoe + 1) % 4 == 0 && ((yoe + 1) % 100 != 0 || yoe == 399)
  {
    MonthOfYear(y, m, d);
    assert y == era * 400 + yoe + 1;
  }

  /** The era and the day within it are recovered from a day number. */
  lemma {:induction false} EraOfDay(z: Day, era: int, doe: int)
    requires 0 <= doe < 146097 && z == era * 146097 + doe - 719468
    ensures CivilFromDays(z) == CivilOfEra(era, doe)
  {
    assert (z + 719468) / 146097 == era;
  }

  /** Within a 400-year era (years counted from March), the year and the
    * day of the year are recovered from the day of the era. */
  lemma {:induction false} YearOfEra(era: int, yoe: int, doy: int)
    requires 0 <= yoe < 400 && 0 <= doy <= 365
    requires doy == 365 ==> (yoe + 1) % 4 == 0 && ((yoe + 1) % 100 != 0 || yoe == 399)
    ensures 0 <= DayOfEra(yoe, doy) < 146097
    ensures CivilOfEra(era, DayOfEra(yoe, doy)) == CivilOfYear(era * 400 + yoe, doy)
  {
    var doe := DayOfEra(yoe, doy);
    YearOfEraDay(yoe, doy);
    var yoe' := (doe - doe / 1460 + doe / 36524 - doe / 146096) / 365;
    assert yoe' == yoe;
    assert doe - (365 * yoe' + yoe' / 4 - yoe' / 100) == doy;
  }

  /** The year of the era, from the day of the era. */
  lemma {:induction false} YearOfEraDay(yoe: int, doy: int)
    requires 0 <= yoe < 400 && 0 <= doy <= 365
    requires doy == 365 ==> (yoe + 1) % 4 == 0 && ((yoe + 1) % 100 != 0 || yoe == 399)
    ensures var doe := DayOfEra(yoe, doy);
            0 <= doe < 146097 && (doe - doe / 1460 + doe / 36524 - doe / 146096) / 365 == yoe
  {
    var c := yoe / 100;
    var q := (yoe % 100) / 4;
    var s := (yoe % 100) % 4;
    assert yoe == 100 * c + 4 * q + s;
    assert yoe / 4 == 25 * c + q && yoe / 100 == c;
    assert doy == 365 ==> s == 3 && (q != 24 || c == 3);
    EraDay(c, q, s, doy);
    assert DayOfEra(yoe, doy) == 36524 * c + 1461 * q + 365 * s + doy;
  }

  /** The day of the era of year `100 * c + 4 * q + s` of the era and day
    * `doy` of that year, and the inverse formula applied to it. */
  lemma {:induction false} EraDay(c: int, q: int, s: int, doy: int)
    requires 0 <= c < 4 && 0 <= q < 25 && 0 <= s < 4 && 0 <= doy <= 365
    requires doy == 365 ==> s == 3 && (q != 24 || c == 3)
    ensures var doe := 36524 * c + 1461 * q + 365 * s + doy;
            0 <= doe < 146097 && (doe - doe / 1460 + doe / 36524 - doe / 146096) / 365 == 100 * c + 4 * q + s
  {
    var doe := 36524 * c + 1461 * q + 365 * s + doy;
    var rest := 24 * c + q + 365 * s + doy;
    CenturyTerms(c, q, s, doy);
    assert 0 <= rest < 2920 && doe == 1460 * (25 * c + q) + rest;
    assert doe / 1460 == 25 * c + q + rest / 1460;
    LeapTerm(c, q, s, doy);
    var f := doe - doe / 1460 + doe / 36524 - doe / 146096;
    assert f == 365 * (100 * c + 4 * q + s) + doy - rest / 1460;
  }

  /** The century terms of the inverse formula cancel down to `c`. */
  lemma {:induction false} CenturyTerms(c: int, q: int, s: int, doy: int)
    requires 0 <= c < 4 && 0 <= q < 25 && 0 <= s < 4 && 0 <= doy <= 365
    requires doy == 365 ==> s == 3 && (q != 24 || c == 3)
    ensures var doe := 36524 * c + 1461 * q + 365 * s + doy;
            0 <= doe < 146097 && doe / 36524 - doe / 146096 == c
  {
    var doe := 36524 * c + 1461 * q + 365 * s + doy;
    if doe == 146096 {
      assert doe / 36524 == 4 && doe / 146096 == 1;
    } else {
      assert 36524 * c <= doe < 36524 * c + 36524;
      assert doe / 36524 == c && doe / 146096 == 0;
    }
  }

  /** The four-year term of the inverse formula takes away at most the
    * day of the year, and at least one on the leap day. */
  lemma {:induction false} LeapTerm(c: int, q: int, s: int, doy: int)
    requires 0 <= c < 4 && 0 <= q < 25 && 0 <= s < 4 && 0 <= doy <= 365
    requires doy == 365 ==> s == 3
    ensures var rest := 24 * c + q + 365 * s + doy;
            0 <= rest < 2920 && doy - 364 <= rest / 1460 <= doy
  {
  }

  /** Within a year counted from March, the month and the day are recovered
    * from the day of the year. */
  lemma {:induction false} MonthOfYear(y: int, m: int, d: int)
    requires ValidDate(y, m, d)
    ensures 0 <= DayOfYear(m, d) <= 365
    ensures DayOfYear(m, d) == 365 ==> m == 2 && d == 29 && IsLeap(y)
    ensures CivilOfYear(if m <= 2 then y - 1 else y, DayOfYear(m, d)) == Civil(y, m, d)
  {
  }

  /** A leap year is never followed by a leap year. */
  lemma {:induction false} LeapYearsAreApart(y: int)
    requires IsLeap(y)
    ensures !IsLeap(y + 1)
  {
  }
}
