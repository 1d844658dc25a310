/** Days since 1970-01-01 to a Gregorian date, and the calendar it is checked against. Month lengths and
    leap years are those of section 5.7 and appendix C of RFC 3339. */
module Civil {
  import opened Indexing

  datatype Date = Date(year: int, month: int, day: int)

  // ---- the calendar ----

  predicate IsLeap(year: int) {
    year % 4 == 0 && (year % 100 != 0 || year % 400 == 0)
  }

  function DaysInMonth(year: int, month: int): int {
    if month == 2 then if IsLeap(year) then 29 else 28
    else if month in {4, 6, 9, 11} then 30
    else 31
  }

  predicate IsDate(x: Date) {
    1 <= x.month <= 12 && 1 <= x.day <= DaysInMonth(x.year, x.month)
  }

  function NextDay(x: Date): Date {
    if x.day < DaysInMonth(x.year, x.month) then x.(day := x.day + 1)
    else if x.month < 12 then Date(x.year, x.month + 1, 1)
    else Date(x.year + 1, 1, 1)
  }

  predicate Before(x: Date, y: Date) {
    x.year < y.year || (x.year == y.year && (x.month < y.month || (x.month == y.month && x.day < y.day)))
  }

  /** Days from 1970-01-01 to the first day of a year, counted year by year. */
  function DaysToYear(year: int): int
    decreases if year < 1970 then 1970 - year else year - 1970
  {
    if year == 1970 then 0
    else if year > 1970 then DaysToYear(year - 1) + if IsLeap(year - 1) then 366 else 365
    else DaysToYear(year + 1) - if IsLeap(year) then 366 else 365
  }

  /** Days in the months before `month`. */
  function DaysToMonth(year: int, month: nat): nat {
    if month <= 1 then 0 else DaysToMonth(year, month - 1) + DaysInMonth(year, month - 1)
  }

  function DayNumber(x: Date): int
    requires 1 <= x.month
  {
    DaysToYear(x.year) + DaysToMonth(x.year, x.month) + x.day - 1
  }

  // ---- the algorithm ----

  /** Integer division that truncates toward zero. */
  function Truncate(a: int, b: int): int
    requires b > 0
  {
    if a >= 0 then a / b else -(-a / b)
  }

  function CivilFromDays(days: int): Date {
    var z := days + 719468;
    var era := Truncate(if z >= 0 then z else z - 146096, 146097);
    FromDayOfEra(era, z - era * 146097)
  }

  function FromDayOfEra(era: int, doe: int): Date {
    var yoe := Truncate(doe - Truncate(doe, 1460) + Truncate(doe, 36524) - Truncate(doe, 146096), 365);
    var y := yoe + era * 400;
    var doy := doe - (365 * yoe + Truncate(yoe, 4) - Truncate(yoe, 100));
    var mp := Truncate(5 * doy + 2, 153);
    var d := doy - Truncate(153 * mp + 2, 5) + 1;
    var m := if mp < 10 then mp + 3 else mp - 9;
    Date(if m <= 2 then y + 1 else y, m, d)
  }

  // ---- one 400-year era of years that start in March ----

  function YearOfEra(doe: nat): int {
    (doe - doe / 1460 + doe / 36524 - doe / 146096) / 365
  }

  function DaysBeforeMarchYear(y: int): int {
    365 * y + y / 4 - y / 100
  }

  /** A day of the era as full centuries, 4-year cycles, years and days. Only the last year of a cycle
      has a day 365, and the last cycle of a century has none. */
  ghost predicate Parts(doe: int, c: int, q: int, r: int, d: int) {
    && 0 <= c <= 3 && 0 <= q <= 24 && 0 <= r <= 3 && 0 <= d <= 365
    && (d == 365 ==> r == 3 && q < 24)
    && doe == 36524 * c + 1461 * q + 365 * r + d
  }

  lemma TakeApart(doe: nat) returns (c: int, q: int, r: int, d: int)
    requires doe < 146096
    ensures Parts(doe, c, q, r, d)
  {
    c := doe / 36524;
    var x := doe - 36524 * c;
    q := x / 1461;
    var y := x - 1461 * q;
    r := if y == 1460 then 3 else y / 365;
    d := y - 365 * r;
  }

  /** The formula finds the year and the day of the year from the parts. */
  lemma PartsGiveYear(doe: nat, c: int, q: int, r: int, d: int)
    requires Parts(doe, c, q, r, d)
    ensures YearOfEra(doe) == 100 * c + 4 * q + r
    ensures DaysBeforeMarchYear(YearOfEra(doe)) + d == doe
  {
    var x := 24 * c + q + 365 * r + d;
    var k := if x >= 1460 then 1 else 0;
    ModIs(doe, c, doe - 36524 * c, 36524);
    ModIs(doe, 0, doe, 146096);
    ModIs(doe, 25 * c + q + k, x - 1460 * k, 1460);
    ModIs(doe - doe / 1460 + doe / 36524 - doe / 146096, 100 * c + 4 * q + r, d - k, 365);
    ModIs(100 * c + 4 * q + r, 25 * c + q, r, 4);
    ModIs(100 * c + 4 * q + r, c, 4 * q + r, 100);
  }

  /** The year after year 100c + 4q + r of an era is a leap year when a cycle ends with it, unless a
      century other than the fourth does too. */
  lemma PartsLeap(c: int, q: int, r: int)
    requires 0 <= c <= 3 && 0 <= q <= 24 && 0 <= r <= 3
    ensures IsLeap(100 * c + 4 * q + r + 1) <==> r == 3 && (q < 24 || c == 3)
  {
    var y := 100 * c + 4 * q + r + 1;
    if r < 3 {
      ModIs(y, 25 * c + q, r + 1, 4);
    } else {
      ModIs(y, 25 * c + q + 1, 0, 4);
      if q < 24 {
        ModIs(y, c, 4 * q + 4, 100);
      } else {
        ModIs(y, c + 1, 0, 100);
        ModIs(y, if c == 3 then 1 else 0, if c == 3 then 0 else 100 * c + 100, 400);
      }
    }
  }

  lemma LastDayOfEra()
    ensures YearOfEra(146096) == 399 && DaysBeforeMarchYear(399) + 365 == 146096
  {
  }

  /** Month and day of the doy-th day of a year that starts on March 1. */
  function MonthAndDay(doy: nat): (int, int) {
    var mp := (5 * doy + 2) / 153;
    (if mp < 10 then mp + 3 else mp - 9, doy - (153 * mp + 2) / 5 + 1)
  }

  function Assemble(year: int, doy: nat): Date {
    var (m, d) := MonthAndDay(doy);
    Date(if m <= 2 then year + 1 else year, m, d)
  }

  /** Truncating the shifted quotient is flooring the plain one, for negative days too. */
  lemma EraIsFloor(z: int)
    ensures Truncate(if z >= 0 then z else z - 146096, 146097) == z / 146097
  {
  }

  /** Inside an era every division truncates a non-negative number. */
  lemma InsideEra(era: int, doe: nat)
    requires doe < 146097
    ensures 0 <= YearOfEra(doe) && DaysBeforeMarchYear(YearOfEra(doe)) <= doe
    ensures FromDayOfEra(era, doe) == Assemble(era * 400 + YearOfEra(doe), doe - DaysBeforeMarchYear(YearOfEra(doe)))
  {
    DayOfYearRange(era, doe);
    var yoe := YearOfEra(doe);
    assert Truncate(doe - Truncate(doe, 1460) + Truncate(doe, 36524) - Truncate(doe, 146096), 365) == yoe;
    var doy := doe - DaysBeforeMarchYear(yoe);
    assert doy == doe - (365 * yoe + Truncate(yoe, 4) - Truncate(yoe, 100));
    assert doy >= 0;
  }

  lemma AddMultiple(x: int, k: int, m: int)
    requires m > 0
    ensures (k * m + x) % m == x % m
  {
    assert x == x / m * m + x % m;
    assert (k + x / m) * m == k * m + x / m * m;
    ModIs(k * m + x, k + x / m, x % m, m);
  }

  /** Every era has the same leap years. */
  lemma EraShift(era: int, y: int)
    ensures IsLeap(era * 400 + y) <==> IsLeap(y)
  {
    AddMultiple(y, era, 400);
    AddMultiple(y, era * 4, 100);
    AddMultiple(y, era * 100, 4);
  }

  /** Length of the month that day doy of a March year is in; day 365 is a leap day. */
  function MarchMonthLength(doy: nat): int {
    var m := MonthAndDay(doy).0;
    if m == 2 then if doy == 365 then 29 else 28 else if m in {4, 6, 9, 11} then 30 else 31
  }

  lemma MonthAndDayRange(doy: nat)
    requires doy < 366
    ensures var (m, d) := MonthAndDay(doy);
      1 <= m <= 12 && 1 <= d <= MarchMonthLength(doy) && (m == 2 ==> d == doy - 336)
  {
  }

  /** Month and day advance like the calendar of a year that starts in March. */
  lemma MonthAndDayAdvance(doy: nat)
    requires doy < 364
    ensures var (m, d) := MonthAndDay(doy);
      MonthAndDay(doy + 1) == if d < MarchMonthLength(doy) then (m, d + 1) else (if m == 12 then 1 else m + 1, 1)
  {
  }

  lemma MonthAndDayEnds()
    ensures MonthAndDay(0) == (3, 1) && MonthAndDay(364) == (2, 28) && MonthAndDay(365) == (2, 29)
  {
  }

  /** Inside a year: valid, and the next day of the year is the next date. */
  lemma WithinYear(year: int, doy: nat)
    requires doy < 365 || (doy == 365 && IsLeap(year + 1))
    ensures IsDate(Assemble(year, doy))
    ensures doy < 364 || (doy == 364 && IsLeap(year + 1)) ==> Assemble(year, doy + 1) == NextDay(Assemble(year, doy))
    ensures doy == 365 || (doy == 364 && !IsLeap(year + 1)) ==> Assemble(year + 1, 0) == NextDay(Assemble(year, doy))
  {
    hide MonthAndDay, IsLeap;
    MonthAndDayRange(doy);
    MonthAndDayEnds();
    if doy < 364 {
      MonthAndDayAdvance(doy);
    }
  }

  /** The day of the year within its bounds. */
  lemma DayOfYearRange(era: int, doe: nat)
    requires doe < 146097
    ensures var y := YearOfEra(doe);
      var doy := doe - DaysBeforeMarchYear(y);
      0 <= y <= 399 && 0 <= doy <= 365 && (doy == 365 ==> IsLeap(era * 400 + y + 1))
  {
    hide YearOfEra, DaysBeforeMarchYear, IsLeap;
    EraShift(era, YearOfEra(doe) + 1);
    if doe == 146096 {
      LastDayOfEra();
      PartsLeap(3, 24, 3);
    } else {
      var c, q, r, d := TakeApart(doe);
      PartsGiveYear(doe, c, q, r, d);
      PartsLeap(c, q, r);
    }
  }

  /** From one day of the era to the next: same year, or the first day of the next one. */
  lemma NextDayOfEra(era: int, doe: nat)
    requires doe + 1 < 146097
    ensures var y := YearOfEra(doe);
      var doy := doe - DaysBeforeMarchYear(y);
      if doy < 364 || (doy == 364 && IsLeap(era * 400 + y + 1)) then YearOfEra(doe + 1) == y
      else YearOfEra(doe + 1) == y + 1 && doe + 1 == DaysBeforeMarchYear(y + 1)
  {
    hide YearOfEra, DaysBeforeMarchYear, IsLeap;
    var c, q, r, d := TakeApart(doe);
    EraShift(era, YearOfEra(doe) + 1);
    PartsGiveYear(doe, c, q, r, d);
    PartsLeap(c, q, r);
    if doe + 1 == 146096 {
      LastDayOfEra();
    } else if d < 364 || (d == 364 && r == 3 && q < 24) {
      PartsGiveYear(doe + 1, c, q, r, d + 1);
    } else if r < 3 {
      PartsGiveYear(doe + 1, c, q, r + 1, 0);
    } else if q < 24 {
      PartsGiveYear(doe + 1, c, q + 1, 0, 0);
    } else {
      PartsGiveYear(doe + 1, c + 1, 0, 0, 0);
    }
  }

  /** Every day number gives a date of the calendar. */
  lemma AlwaysADate(days: int)
    ensures IsDate(CivilFromDays(days))
  {
    hide CivilFromDays, FromDayOfEra, Assemble, IsDate, IsLeap, YearOfEra, DaysBeforeMarchYear;
    var era, doe := (days + 719468) / 146097, (days + 719468) % 146097;
    EraAndDay(days, era, doe);
    InsideEra(era, doe);
    DayOfYearRange(era, doe);
    WithinYear(era * 400 + YearOfEra(doe), doe - DaysBeforeMarchYear(YearOfEra(doe)));
  }

  /** Inside an era, the next day of the era is the next date. */
  lemma NextInEra(era: int, doe: nat)
    requires doe + 1 < 146097
    ensures FromDayOfEra(era, doe + 1) == NextDay(FromDayOfEra(era, doe))
  {
    hide FromDayOfEra, Assemble, NextDay, IsDate, IsLeap, YearOfEra, DaysBeforeMarchYear;
    var y := YearOfEra(doe);
    InsideEra(era, doe);
    InsideEra(era, doe + 1);
    DayOfYearRange(era, doe);
    NextDayOfEra(era, doe);
    WithinYear(era * 400 + y, doe - DaysBeforeMarchYear(y));
  }

  lemma EraEnds(era: int)
    ensures IsLeap(era * 400 + 399 + 1)
    ensures YearOfEra(146096) == 399 && 146096 - DaysBeforeMarchYear(399) == 365
    ensures YearOfEra(0) == DaysBeforeMarchYear(0) == 0
  {
    EraShift(era, 400);
  }

  /** An era ends on a leap day. */
  lemma NextEra(era: int)
    ensures FromDayOfEra(era + 1, 0) == NextDay(FromDayOfEra(era, 146096))
  {
    hide FromDayOfEra, Assemble, NextDay, IsDate, IsLeap, YearOfEra, DaysBeforeMarchYear;
    InsideEra(era, 146096);
    InsideEra(era + 1, 0);
    EraEnds(era);
    WithinYear(era * 400 + 399, 365);
  }

  lemma EraAndDay(days: int, era: int, doe: nat)
    requires doe < 146097 && days + 719468 == era * 146097 + doe
    ensures CivilFromDays(days) == FromDayOfEra(era, doe)
  {
    hide FromDayOfEra, Truncate;
    EraIsFloor(days + 719468);
    ModIs(days + 719468, era, doe, 146097);
  }

  /** The next day number gives the next date, for all integers. */
  lemma NextNumberNextDay(days: int)
    ensures CivilFromDays(days + 1) == NextDay(CivilFromDays(days))
  {
    hide FromDayOfEra, CivilFromDays, NextDay;
    var era, doe := (days + 719468) / 146097, (days + 719468) % 146097;
    EraAndDay(days, era, doe);
    if doe + 1 < 146097 {
      EraAndDay(days + 1, era, doe + 1);
      NextInEra(era, doe);
    } else {
      EraAndDay(days + 1, era + 1, 0);
      NextEra(era);
    }
  }

  /** Going to the next number counts one more day. */
  lemma NumberAdvances(days: int)
    ensures IsDate(CivilFromDays(days)) && IsDate(CivilFromDays(days + 1))
    ensures DayNumber(CivilFromDays(days + 1)) == DayNumber(CivilFromDays(days)) + 1
  {
    AlwaysADate(days);
    AlwaysADate(days + 1);
    NextNumberNextDay(days);
    DayNumberOfNext(CivilFromDays(days));
  }

  lemma DayNumberOfNext(x: Date)
    requires IsDate(x)
    ensures DayNumber(NextDay(x)) == DayNumber(x) + 1
  {
    if x.day == DaysInMonth(x.year, x.month) && x.month == 12 {
      YearLength(x.year);
    }
  }

  lemma YearLength(year: int)
    ensures DaysToMonth(year, 12) + 31 == if IsLeap(year) then 366 else 365
    ensures DaysToYear(year + 1) == DaysToYear(year) + DaysToMonth(year, 12) + 31
  {
    var february := DaysInMonth(year, 2);
    assert DaysToMonth(year, 2) == 31 && DaysToMonth(year, 3) == 31 + february;
    assert DaysToMonth(year, 4) == 62 + february && DaysToMonth(year, 5) == 92 + february;
    assert DaysToMonth(year, 6) == 123 + february && DaysToMonth(year, 7) == 153 + february;
    assert DaysToMonth(year, 8) == 184 + february && DaysToMonth(year, 9) == 215 + february;
    assert DaysToMonth(year, 10) == 245 + february && DaysToMonth(year, 11) == 276 + february;
  }

  lemma DayZero()
    ensures CivilFromDays(0) == Date(1970, 1, 1) && DayNumber(Date(1970, 1, 1)) == 0
  {
  }

  /** The date of a day number is that many days from 1970-01-01. */
  lemma {:induction false} DayNumberOfCivil(days: int)
    ensures IsDate(CivilFromDays(days)) && DayNumber(CivilFromDays(days)) == days
    decreases if days < 0 then -days else days
  {
    hide CivilFromDays, DayNumber;
    NumberAdvances(days);
    if days == 0 {
      DayZero();
    } else if days > 0 {
      DayNumberOfCivil(days - 1);
      NumberAdvances(days - 1);
    } else {
      DayNumberOfCivil(days + 1);
    }
  }

  // ---- the bijection ----

  lemma {:induction false} YearsIncrease(a: int, b: int)
    requires a < b
    ensures DaysToYear(a) + DaysToMonth(a, 12) + 31 <= DaysToYear(b)
    decreases b - a
  {
    YearLength(b - 1);
    if a < b - 1 {
      YearsIncrease(a, b - 1);
    } else {
      YearLength(a);
    }
  }

  lemma {:induction false} MonthsIncrease(year: int, a: nat, b: nat)
    requires 1 <= a < b
    ensures DaysToMonth(year, a) + DaysInMonth(year, a) <= DaysToMonth(year, b)
  {
    if a < b - 1 {
      MonthsIncrease(year, a, b - 1);
    }
  }

  /** Later dates have larger numbers. */
  lemma DayNumberIncreases(x: Date, y: Date)
    requires IsDate(x) && IsDate(y) && Before(x, y)
    ensures DayNumber(x) < DayNumber(y)
  {
    if x.year < y.year {
      YearsIncrease(x.year, y.year);
      if x.month < 12 {
        MonthsIncrease(x.year, x.month, 12);
      }
    } else if x.month < y.month {
      MonthsIncrease(x.year, x.month, y.month);
    }
  }

  /** Every date of the calendar is the date of its day number. */
  lemma CivilOfDayNumber(x: Date)
    requires IsDate(x)
    ensures CivilFromDays(DayNumber(x)) == x
  {
    var y := CivilFromDays(DayNumber(x));
    DayNumberOfCivil(DayNumber(x));
    if Before(x, y) {
      DayNumberIncreases(x, y);
    } else if Before(y, x) {
      DayNumberIncreases(y, x);
    }
  }

  /** Larger day numbers give later dates: with the two inverses above, an increasing bijection. */
  lemma CivilIncreases(a: int, b: int)
    ensures a < b <==> Before(CivilFromDays(a), CivilFromDays(b))
  {
    var x, y := CivilFromDays(a), CivilFromDays(b);
    DayNumberOfCivil(a);
    DayNumberOfCivil(b);
    if Before(x, y) {
      DayNumberIncreases(x, y);
    } else if Before(y, x) {
      DayNumberIncreases(y, x);
    }
  }

  // ---- the timestamp ----

  datatype Timestamp = Timestamp(date: Date, hour: int, min: int, sec: int)

  function FromSeconds(secs: nat): Timestamp {
    var timeSecs := secs % 86400;
    Timestamp(CivilFromDays(secs / 86400), timeSecs / 3600, timeSecs % 3600 / 60, timeSecs % 60)
  }

  /** The fields are in range and spell out the number of seconds they came from. */
  lemma TimestampCounts(secs: nat)
    ensures var t := FromSeconds(secs);
      && IsDate(t.date) && 0 <= t.hour < 24 && 0 <= t.min < 60 && 0 <= t.sec < 60
      && DayNumber(t.date) * 86400 + t.hour * 3600 + t.min * 60 + t.sec == secs
  {
    DayNumberOfCivil(secs / 86400);
    ClockFields(secs % 86400);
  }

  lemma ClockFields(t: nat)
    requires t < 86400
    ensures t / 3600 < 24 && t % 3600 / 60 < 60 && t == t / 3600 * 3600 + t % 3600 / 60 * 60 + t % 60
  {
  }
}
