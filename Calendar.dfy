/** UTC calendar arithmetic on integer day ordinals.

    A day ordinal counts whole days from 1970-01-01 (ordinal 0), which is what
    `Date.getTime() / 86400000` is for a date string without a time part. The
    UTC components are those of `getUTCFullYear`, `getUTCMonth` (0 = January)
    and `getUTCDate` (1-based). */
module Calendar {

  datatype Date = Date(year: int, month: int, day: int)

  /** Days from 0000-03-01 to 1970-01-01 in the proleptic Gregorian calendar. */
  const EpochShift := 719468
  /** Days in a 400-year era, in a 100-year century that does not end on a
      400-year boundary, in a 4-year block, and in a common year. */
  const DaysPerEra := 146097
  const DaysPerCentury := 36524
  const DaysPerQuad := 1461
  const DaysPerYear := 365
  const MillisPerDay := 86400000

  /** Zero-based March-based month (0 = March, 11 = February) of a 0-based
      day of a March-based year. */
  function MonthOfYearDay(doy: int): int { (5 * doy + 2) / 153 }

  /** First 0-based day (within a March-based year) of a March-based month. */
  function FirstDayOfMonth(mp: int): int { (153 * mp + 2) / 5 }

  /** Gregorian leap years. */
  predicate IsLeapYear(y: int) {
    y % 4 == 0 && (y % 100 != 0 || y % 400 == 0)
  }

  /** Length of a month; `month` is 0-based as `getUTCMonth` returns it. */
  function DaysInMonth(year: int, month: int): int {
    if month == 1 then (if IsLeapYear(year) then 29 else 28)
    else if month == 3 || month == 5 || month == 8 || month == 10 then 30
    else 31
  }

  /** A date that exists in the proleptic Gregorian calendar. */
  predicate ValidDate(dt: Date) {
    0 <= dt.month <= 11 && 1 <= dt.day <= DaysInMonth(dt.year, dt.month)
  }

  /** Days of a 400-year era that precede its year `yoe` (years run March to
      February, so the leap day closes the year). */
  function DaysBeforeYearOfEra(yoe: int): int { 365 * yoe + yoe / 4 - yoe / 100 }

  /** Length of the March-based year `yoe` of an era: it ends with the
      February of calendar year yoe + 1 (the era's years are counted from a
      year divisible by 400, so the leap rule reads the same on yoe + 1). */
  function MarchYearLength(yoe: int): int {
    if IsLeapYear(yoe + 1) then 366 else 365
  }

  /** Splits a day of an era into the year of the era and the day of that
      year: first the century (the last one has the extra leap day), then the
      4-year block, then the year of the block (the last one has the leap day). */
  function SplitEraDay(doe: int): (r: (int, int))
    requires 0 <= doe < DaysPerEra
    ensures 0 <= r.0 <= 399 && 0 <= r.1 < MarchYearLength(r.0)
    ensures DaysBeforeYearOfEra(r.0) + r.1 == doe
  {
    var c := if doe / DaysPerCentury < 3 then doe / DaysPerCentury else 3;
    var doc := doe - DaysPerCentury * c;
    assert 0 <= doc <= DaysPerCentury;
    var q := doc / DaysPerQuad;
    var doq := doc % DaysPerQuad;
    var yq := if doq / DaysPerYear < 3 then doq / DaysPerYear else 3;
    var yoe := 100 * c + 4 * q + yq;
    assert yoe / 4 == 25 * c + q && yoe / 100 == c;
    assert doq - DaysPerYear * yq == 365 ==> yq == 3 && (q < 24 || c == 3);
    (yoe, doq - DaysPerYear * yq)
  }

  /** Consecutive March-based years of an era follow each other without gaps,
      and the last one closes the era. */
  lemma DaysBeforeNextYear(yoe: int)
    requires 0 <= yoe <= 399
    ensures yoe < 399 ==> DaysBeforeYearOfEra(yoe + 1) == DaysBeforeYearOfEra(yoe) + MarchYearLength(yoe)
    ensures yoe == 399 ==> DaysBeforeYearOfEra(yoe) + MarchYearLength(yoe) == DaysPerEra
  {
    if yoe < 399 {
      QuotientStep4(yoe);
      QuotientStep100(yoe);
      assert (yoe + 1) % 400 != 0;
    } else {
      assert DaysBeforeYearOfEra(399) == 145731;
      assert IsLeapYear(400);
    }
  }

  /** How `y / 4` grows from one year to the next. */
  lemma QuotientStep4(y: int)
    ensures (y + 1) / 4 == y / 4 + (if (y + 1) % 4 == 0 then 1 else 0)
  {
  }

  /** How `y / 100` grows from one year to the next; a year divisible by 100
      is divisible by 4. */
  lemma QuotientStep100(y: int)
    ensures (y + 1) / 100 == y / 100 + (if (y + 1) % 100 == 0 then 1 else 0)
    ensures (y + 1) % 100 == 0 ==> (y + 1) % 4 == 0
  {
    if (y + 1) % 100 == 0 {
      assert y + 1 == 4 * (25 * ((y + 1) / 100));
    }
  }

  lemma DaysBeforeMonotone(a: int, b: int)
    requires 0 <= a < b <= 399
    ensures DaysBeforeYearOfEra(a + 1) <= DaysBeforeYearOfEra(b)
  {
    assert b / 100 - (a + 1) / 100 <= b - (a + 1);
  }

  /** Every year of an era and day of that year name a day of the era. */
  lemma EraDayInRange(yoe: int, doy: int)
    requires 0 <= yoe <= 399 && 0 <= doy < MarchYearLength(yoe)
    ensures 0 <= DaysBeforeYearOfEra(yoe) + doy < DaysPerEra
  {
    DaysBeforeNextYear(yoe);
    if yoe < 399 {
      DaysBeforeNextYear(399);
      DaysBeforeMonotone(yoe, 399);
    }
  }

  /** A day of an era has exactly one (year, day-of-year) decomposition. */
  lemma SplitEraDayUnique(yoe: int, doy: int, doe: int)
    requires 0 <= yoe <= 399 && 0 <= doy < MarchYearLength(yoe)
    requires doe == DaysBeforeYearOfEra(yoe) + doy
    ensures 0 <= doe < DaysPerEra
    ensures SplitEraDay(doe) == (yoe, doy)
  {
    EraDayInRange(yoe, doy);
    var r := SplitEraDay(doe);
    EraDayPartsUnique(r.0, r.1, yoe, doy);
  }

  /** Two (year of era, day of year) pairs that count the same day are equal. */
  lemma EraDayPartsUnique(y1: int, d1: int, y2: int, d2: int)
    requires 0 <= y1 <= 399 && 0 <= d1 < MarchYearLength(y1)
    requires 0 <= y2 <= 399 && 0 <= d2 < MarchYearLength(y2)
    requires DaysBeforeYearOfEra(y1) + d1 == DaysBeforeYearOfEra(y2) + d2
    ensures y1 == y2 && d1 == d2
  {
    if y1 < y2 {
      DaysBeforeNextYear(y1);
      DaysBeforeMonotone(y1, y2);
    } else if y2 < y1 {
      DaysBeforeNextYear(y2);
      DaysBeforeMonotone(y2, y1);
    }
  }

  lemma EraShiftMod4(era: int, y: int)
    ensures (400 * era + y) % 4 == y % 4
  {
    assert 400 * era + y == 4 * (100 * era + y / 4) + y % 4;
  }

  lemma EraShiftMod100(era: int, y: int)
    ensures (400 * era + y) % 100 == y % 100
  {
    assert 400 * era + y == 100 * (4 * era + y / 100) + y % 100;
  }

  /** Shifting a year by whole 400-year eras keeps its leap status. */
  lemma LeapYearEraShift(era: int, y: int)
    ensures IsLeapYear(400 * era + y) <==> IsLeapYear(y)
  {
    EraShiftMod4(era, y);
    EraShiftMod100(era, y);
    EraShiftMod400(era, y);
  }

  lemma EraShiftMod400(era: int, y: int)
    ensures (400 * era + y) % 400 == y % 400
  {
    assert 400 * era + y == 400 * (era + y / 400) + y % 400;
  }

  /** The month of a day of a March-based year, and the months' lengths: the
      month starts at or before the day and the next month starts after it. */
  lemma MonthOfYearDayBounds(doy: int)
    requires 0 <= doy <= 365
    ensures var mp := MonthOfYearDay(doy);
      && 0 <= mp <= 11
      && FirstDayOfMonth(mp) <= doy
      && (mp < 11 ==> doy < FirstDayOfMonth(mp + 1))
  {
  }

  /** March to January have the usual fixed lengths; February starts on day 337. */
  lemma MarchYearMonthLengths(mp: int, year: int)
    requires 0 <= mp <= 10
    ensures FirstDayOfMonth(mp + 1) - FirstDayOfMonth(mp)
         == DaysInMonth(year, if mp < 10 then mp + 2 else mp - 10)
    ensures FirstDayOfMonth(11) == 337
  {
  }

  /** The calendar date of day `doy` of year `yoe` of era `era`. */
  function CivilFromParts(era: int, yoe: int, doy: int): (dt: Date)
    requires 0 <= yoe <= 399 && 0 <= doy < MarchYearLength(yoe)
    ensures ValidDate(dt)
  {
    var mp := MonthOfYearDay(doy);
    var d := doy - FirstDayOfMonth(mp) + 1;
    var mo := if mp < 10 then mp + 2 else mp - 10;
    var year := 400 * era + yoe + (if mo <= 1 then 1 else 0);
    MonthOfYearDayBounds(doy);
    LeapYearEraShift(era, yoe + 1);
    MarchYearMonthLengths(if mp < 11 then mp else 0, year);
    Date(year, mo, d)
  }

  /** The UTC calendar date of a day ordinal. */
  function CivilFromDays(z: int): (dt: Date)
    ensures ValidDate(dt)
  {
    var n := z + EpochShift;
    var parts := SplitEraDay(n % DaysPerEra);
    CivilFromParts(n / DaysPerEra, parts.0, parts.1)
  }

  /** The day ordinal of a calendar date (the standard days-from-civil count). */
  function DaysFromCivil(dt: Date): int {
    var y := dt.year - (if dt.month <= 1 then 1 else 0);
    var era := y / 400;
    var yoe := y % 400;
    var mp := if dt.month >= 2 then dt.month - 2 else dt.month + 10;
    var doy := FirstDayOfMonth(mp) + dt.day - 1;
    DaysPerEra * era + DaysBeforeYearOfEra(yoe) + doy - EpochShift
  }

  lemma PartsRoundTrip(era: int, yoe: int, doy: int)
    requires 0 <= yoe <= 399 && 0 <= doy < MarchYearLength(yoe)
    ensures DaysFromCivil(CivilFromParts(era, yoe, doy))
         == DaysPerEra * era + DaysBeforeYearOfEra(yoe) + doy - EpochShift
  {
    var dt := CivilFromParts(era, yoe, doy);
    var y := dt.year - (if dt.month <= 1 then 1 else 0);
    assert y == 400 * era + yoe;
    assert y / 400 == era && y % 400 == yoe;
    var mp := MonthOfYearDay(doy);
    assert 0 <= mp <= 11;
    assert (if dt.month >= 2 then dt.month - 2 else dt.month + 10) == mp;
  }

  /** The era, year of era and day of year that `CivilFromDays` reads off a
      day ordinal, which add back up to that ordinal. */
  lemma OrdinalParts(z: int) returns (era: int, yoe: int, doy: int)
    ensures 0 <= yoe <= 399 && 0 <= doy < MarchYearLength(yoe)
    ensures CivilFromDays(z) == CivilFromParts(era, yoe, doy)
    ensures DaysPerEra * era + DaysBeforeYearOfEra(yoe) + doy - EpochShift == z
  {
    var n := z + EpochShift;
    era := n / DaysPerEra;
    var parts := SplitEraDay(n % DaysPerEra);
    yoe, doy := parts.0, parts.1;
  }

  /** Every day ordinal is recovered from its calendar date. */
  lemma CivilRoundTrip(z: int)
    ensures DaysFromCivil(CivilFromDays(z)) == z
  {
    var era, yoe, doy := OrdinalParts(z);
    PartsRoundTrip(era, yoe, doy);
  }

  /** A day of a month, counted within the March-based year, falls back into
      that month. */
  lemma MonthOfDayInMonth(mp: int, d: int, leap: bool)
    requires 0 <= mp <= 11 && 1 <= d
    requires mp < 11 ==> FirstDayOfMonth(mp) + d <= FirstDayOfMonth(mp + 1)
    requires mp == 11 ==> d <= (if leap then 29 else 28)
    ensures MonthOfYearDay(FirstDayOfMonth(mp) + d - 1) == mp
  {
  }

  /** The day ordinal of day `doy` of year `yoe` of era `era` has that date. */
  lemma CivilFromPartsOrdinal(era: int, yoe: int, doy: int, z: int)
    requires 0 <= yoe <= 399 && 0 <= doy < MarchYearLength(yoe)
    requires z == DaysPerEra * era + DaysBeforeYearOfEra(yoe) + doy - EpochShift
    ensures CivilFromDays(z) == CivilFromParts(era, yoe, doy)
  {
    EraDayInRange(yoe, doy);
    EraDivision(era, DaysBeforeYearOfEra(yoe) + doy, z + EpochShift);
    SplitEraDayUnique(yoe, doy, (z + EpochShift) % DaysPerEra);
  }

  /** Division by the era length splits a day count into its era and its day of the era. */
  lemma EraDivision(era: int, doe: int, n: int)
    requires 0 <= doe < DaysPerEra && n == DaysPerEra * era + doe
    ensures n / DaysPerEra == era && n % DaysPerEra == doe
  {
  }

  /** The era, year of era and day of year that days-from-civil reads off a
      valid date, from which the date is rebuilt unchanged. */
  lemma DateParts(dt: Date) returns (era: int, yoe: int, doy: int)
    requires ValidDate(dt)
    ensures 0 <= yoe <= 399 && 0 <= doy < MarchYearLength(yoe)
    ensures DaysFromCivil(dt) == DaysPerEra * era + DaysBeforeYearOfEra(yoe) + doy - EpochShift
    ensures CivilFromParts(era, yoe, doy) == dt
  {
    var y := dt.year - (if dt.month <= 1 then 1 else 0);
    era := y / 400;
    yoe := y % 400;
    var mp := if dt.month >= 2 then dt.month - 2 else dt.month + 10;
    doy := FirstDayOfMonth(mp) + dt.day - 1;
    LeapYearEraShift(era, yoe + 1);
    assert dt.month == 1 ==> dt.year == 400 * era + yoe + 1;
    MarchYearMonthLengths(if mp < 11 then mp else 0, dt.year);
    MonthOfDayInMonth(mp, dt.day, IsLeapYear(dt.year));
    assert y == 400 * era + yoe;
  }

  /** Every valid calendar date is recovered from its day ordinal. */
  lemma DaysRoundTrip(dt: Date)
    requires ValidDate(dt)
    ensures CivilFromDays(DaysFromCivil(dt)) == dt
  {
    OrdinalOfValid(dt, DaysFromCivil(dt));
  }

  /** A valid date is the date of its day ordinal `z`. */
  lemma OrdinalOfValid(dt: Date, z: int)
    requires ValidDate(dt) && DaysFromCivil(dt) == z
    ensures CivilFromDays(z) == dt
  {
    var era, yoe, doy := DateParts(dt);
    CivilFromPartsOrdinal(era, yoe, doy, z);
  }

  /** Distinct days never share a calendar date. */
  lemma CivilInjective(a: int, b: int)
    requires a != b
    ensures CivilFromDays(a) != CivilFromDays(b)
  {
    CivilRoundTrip(a);
    CivilRoundTrip(b);
  }

  /** The calendar date one day after `dt`: the next day of the month, else
      the first of the next month, else the first of January of the next year.
      This is what adding 86400000 ms to a UTC midnight does. */
  function NextDate(dt: Date): (r: Date)
    ensures r.day == 1 || (r.year == dt.year && r.month == dt.month && r.day == dt.day + 1)
    ensures r.year == dt.year || (r.year == dt.year + 1 && r.month == 0 && r.day == 1)
  {
    if dt.day < DaysInMonth(dt.year, dt.month) then Date(dt.year, dt.month, dt.day + 1)
    else if dt.month < 11 then Date(dt.year, dt.month + 1, 1)
    else Date(dt.year + 1, 0, 1)
  }

  /** The date `n` days after `from`, reached one day at a time. */
  function DateAfter(from: Date, n: nat): Date {
    if n == 0 then from else NextDate(DateAfter(from, n - 1))
  }

  /** Stepping a valid date by one day stays valid and adds one to its day ordinal. */
  lemma NextDateOrdinal(dt: Date)
    requires ValidDate(dt)
    ensures ValidDate(NextDate(dt))
    ensures DaysFromCivil(NextDate(dt)) == DaysFromCivil(dt) + 1
  {
    if dt.day < DaysInMonth(dt.year, dt.month) {
      WithinMonthOrdinal(dt);
    } else if dt.month == 1 {
      EndOfFebruaryOrdinal(dt);
    } else if dt.month < 11 {
      EndOfMonthOrdinal(dt);
    } else {
      EndOfYearOrdinal(dt);
    }
  }

  /** A day before the last of its month is followed by the next day of the month. */
  lemma WithinMonthOrdinal(dt: Date)
    requires ValidDate(dt) && dt.day < DaysInMonth(dt.year, dt.month)
    ensures NextDate(dt) == Date(dt.year, dt.month, dt.day + 1)
    ensures ValidDate(NextDate(dt))
    ensures DaysFromCivil(NextDate(dt)) == DaysFromCivil(dt) + 1
  {
  }

  /** The 31st of December is followed by the first of January of the next year. */
  lemma EndOfYearOrdinal(dt: Date)
    requires ValidDate(dt) && dt.month == 11 && dt.day == DaysInMonth(dt.year, dt.month)
    ensures NextDate(dt) == Date(dt.year + 1, 0, 1)
    ensures ValidDate(NextDate(dt))
    ensures DaysFromCivil(NextDate(dt)) == DaysFromCivil(dt) + 1
  {
    MarchYearMonthLengths(9, dt.year);
  }

  /** The last day of a month other than February or December is followed by
      the first of the next month, one day later. */
  lemma EndOfMonthOrdinal(dt: Date)
    requires ValidDate(dt) && dt.month < 11 && dt.month != 1
    requires dt.day == DaysInMonth(dt.year, dt.month)
    ensures NextDate(dt) == Date(dt.year, dt.month + 1, 1)
    ensures ValidDate(NextDate(dt))
    ensures DaysFromCivil(NextDate(dt)) == DaysFromCivil(dt) + 1
  {
    MarchYearMonthLengths(if dt.month >= 2 then dt.month - 2 else dt.month + 10, dt.year);
  }

  /** The last day of February closes a March-based year: the first of March
      follows it, one day later. */
  lemma EndOfFebruaryOrdinal(dt: Date)
    requires ValidDate(dt) && dt.month == 1 && dt.day == DaysInMonth(dt.year, 1)
    ensures NextDate(dt) == Date(dt.year, 2, 1)
    ensures ValidDate(NextDate(dt))
    ensures DaysFromCivil(NextDate(dt)) == DaysFromCivil(dt) + 1
  {
    var year := dt.year;
    var y := year - 1;
    var era := y / 400;
    var yoe := y % 400;
    assert y == 400 * era + yoe;
    LeapYearEraShift(era, yoe + 1);
    MarchYearMonthLengths(10, year);
    DaysBeforeNextYear(yoe);
    if yoe < 399 {
      assert year / 400 == era && year % 400 == yoe + 1;
    } else {
      assert year / 400 == era + 1 && year % 400 == 0;
    }
  }

  /** Stepping the date of day `z` by one day gives the date of day `z + 1`. */
  lemma NextDateOfCivil(z: int)
    ensures NextDate(CivilFromDays(z)) == CivilFromDays(z + 1)
  {
    CivilRoundTrip(z);
    NextDateOfValid(CivilFromDays(z), z);
  }

  /** The day after a valid date is the date of the next day ordinal. */
  lemma NextDateOfValid(dt: Date, z: int)
    requires ValidDate(dt) && DaysFromCivil(dt) == z
    ensures CivilFromDays(z + 1) == NextDate(dt)
  {
    NextDateOrdinal(dt);
    OrdinalOfValid(NextDate(dt), z + 1);
  }

  /** Walking `n` days from `f(z)` reaches `f(z + n)` for any numbering of
      dates `f` in which each day's successor is the next day's date. */
  lemma {:induction false} DateAfterFollows(f: int -> Date, z: int, n: nat)
    requires forall k :: NextDate(f(k)) == f(k + 1)
    ensures DateAfter(f(z), n) == f(z + n)
  {
    if n > 0 {
      DateAfterFollows(f, z, n - 1);
      assert NextDate(f(z + n - 1)) == f(z + n);
    }
  }

  /** Walking `n` days from the date of day `z` reaches the date of day `z + n`. */
  lemma DateAfterCivil(z: int, n: nat)
    ensures DateAfter(CivilFromDays(z), n) == CivilFromDays(z + n)
  {
    forall k ensures NextDate(CivilFromDays(k)) == CivilFromDays(k + 1) {
      NextDateOfCivil(k);
    }
    DateAfterFollows(CivilFromDays, z, n);
  }

  /** Walking `n` days from a valid date stays valid and adds `n` to its ordinal. */
  lemma {:induction false} DateAfterOrdinal(from: Date, n: nat)
    requires ValidDate(from)
    ensures ValidDate(DateAfter(from, n))
    ensures DaysFromCivil(DateAfter(from, n)) == DaysFromCivil(from) + n
  {
    if n > 0 {
      DateAfterOrdinal(from, n - 1);
      NextDateOrdinal(DateAfter(from, n - 1));
    }
  }

  /** Valid dates with the same ordinal are the same date. */
  lemma DaysFromCivilInjective(a: Date, b: Date)
    requires ValidDate(a) && ValidDate(b)
    requires DaysFromCivil(a) == DaysFromCivil(b)
    ensures a == b
  {
    DaysRoundTrip(a);
    DaysRoundTrip(b);
  }

  /** Day 0 is 1970-01-01, the Unix epoch, so a date's ordinal is its UTC
      midnight in milliseconds divided by 86400000. */
  lemma EpochAnchors()
    ensures CivilFromDays(0) == Date(1970, 0, 1)
    ensures CivilFromDays(-1) == Date(1969, 11, 31)
    ensures CivilFromDays(19723) == Date(2024, 0, 1)
    ensures DaysFromCivil(Date(1970, 0, 1)) == 0
  {
    OrdinalOfValid(Date(1970, 0, 1), 0);
    OrdinalOfValid(Date(1969, 11, 31), -1);
    NewYear2024();
  }

  /** 2024-01-01 is day 19723: day 306 of March-based year 23 of era 5. */
  lemma NewYear2024()
    ensures CivilFromDays(19723) == Date(2024, 0, 1)
  {
    assert 2023 / 400 == 5 && 2023 % 400 == 23;
    assert DaysBeforeYearOfEra(23) == 8400;
    assert FirstDayOfMonth(10) == 306;
    assert DaysFromCivil(Date(2024, 0, 1)) == 19723;
    OrdinalOfValid(Date(2024, 0, 1), 19723);
  }
}
