/**
 Calendar dates of legacy records: seconds since 1970 to a UTC date, and back, by two formulas
 ported from different sources. `NextDay` is the Gregorian calendar itself.
 */
module CivilDate {
  import opened Basics

  datatype Date = Date(year: int, month: int, day: int)

  predicate IsLeap(y: int) {
    y % 4 == 0 && (y % 100 != 0 || y % 400 == 0)
  }

  function MonthLength(y: int, m: int): int {
    if m == 2 then if IsLeap(y) then 29 else 28
    else if m == 4 || m == 6 || m == 9 || m == 11 then 30
    else 31
  }

  predicate Valid(d: Date) {
    1 <= d.month <= 12 && 1 <= d.day <= MonthLength(d.year, d.month)
  }

  /** The Gregorian calendar, one day at a time. */
  function NextDay(d: Date): Date {
    if d.day < MonthLength(d.year, d.month) then d.(day := d.day + 1)
    else if d.month < 12 then Date(d.year, d.month + 1, 1)
    else Date(d.year + 1, 1, 1)
  }

  // ---- The two formulas, on days ------------------------------------------------------------------

  /** Years of the 400-year era that start in March: their number, from the day of the era. */
  function YearOfEra(doe: nat): nat {
    (doe - doe / 1460 + doe / 36524 - doe / 146096) / 365
  }

  /** Days before March 1 of year `k` of an era. */
  function DaysBefore(k: nat): nat {
    365 * k + k / 4 - k / 100
  }

  function MonthFromDayOfYear(doy: nat): nat {
    (5 * doy + 2) / 153
  }

  function DaysBeforeMonth(mp: nat): nat {
    (153 * mp + 2) / 5
  }

  /** Division of machine integers, which rounds toward zero. */
  function TruncDiv(n: int, k: nat): int
    requires k > 0
  {
    if n >= 0 then n / k else -(-n / k)
  }

  /** The 400-year era, from March 1 of year 0, of a day. */
  function Era(days: int): int {
    var z := days + 719468;
    TruncDiv(if z >= 0 then z else z - 146096, 146097)
  }

  /** The date `days` days after January 1, 1970, or before it when negative. */
  function FromDays(days: int): Date {
    var era := Era(days);
    var doe := days + 719468 - era * 146097;
    var yoe := YearOfEra(doe);
    var doy := doe - DaysBefore(yoe);
    var mp := (5 * doy + 2) / 153;
    var d := doy - (153 * mp + 2) / 5 + 1;
    var m := if mp < 10 then mp + 3 else mp - 9;
    Date(yoe + era * 400 + (if m <= 2 then 1 else 0), m, d)
  }

  /** Days since January 1, 1970. */
  function ToDays(d: Date): int {
    var carry := if d.month < 3 then 1 else 0;
    var mAdj := d.month - 3 + 12 * carry;
    var yAdj := d.year + 4800 - carry;
    var monthDays := (mAdj * 62719 + 769) / 2048;
    var leapDays := yAdj / 4 - yAdj / 100 + yAdj / 400;
    yAdj * 365 + leapDays + monthDays + (d.day - 1) - 2472632
  }

  // ---- Years of an era --------------------------------------------------------------------------

  /** The number of days of the March-based year `k` of an era. */
  function YearLength(k: nat): nat {
    if IsLeap(k + 1) then 366 else 365
  }

  /**
   A day of an era by century, four-year cycle, year and day: only the last year of a cycle has a
   366th day, and not at the end of a century, unless it ends the era.
   */
  predicate Parts(c: nat, q: nat, y: nat, doy: nat) {
    c <= 3 && q <= 24 && y <= 3 && (doy <= 364 || (doy == 365 && y == 3 && (q < 24 || c == 3)))
  }

  lemma YearOfParts(c: nat, q: nat, y: nat, doy: nat)
    requires Parts(c, q, y, doy)
    ensures YearOfEra(36524 * c + 1461 * q + 365 * y + doy) == 100 * c + 4 * q + y
  {
    var doe := 36524 * c + 1461 * q + 365 * y + doy;
    var e := 24 * c + q + 365 * y + doy;
    var delta := if e >= 1460 then 1 else 0;
    DivIs(doe, 1460, 25 * c + q + delta, e - 1460 * delta);
    if doe == 146096 {
      assert doe / 36524 - doe / 146096 == c;
    } else {
      DivIs(doe, 36524, c, 1461 * q + 365 * y + doy);
      DivIs(doe, 146096, 0, doe);
    }
    DivIs(365 * (100 * c + 4 * q + y) + doy - delta, 365, 100 * c + 4 * q + y, doy - delta);
  }

  lemma DaysBeforeParts(c: nat, q: nat, y: nat)
    requires c <= 3 && q <= 24 && y <= 3
    ensures DaysBefore(100 * c + 4 * q + y) == 36524 * c + 1461 * q + 365 * y
    ensures YearLength(100 * c + 4 * q + y) == if y == 3 && (q < 24 || c == 3) then 366 else 365
  {
    var k := 100 * c + 4 * q + y;
    DivIs(k, 4, 25 * c + q, y);
    DivIs(k, 100, c, 4 * q + y);
  }

  lemma SplitDay(doe: nat) returns (c: nat, q: nat, y: nat, doy: nat)
    requires doe <= 146096
    ensures Parts(c, q, y, doy) && doe == 36524 * c + 1461 * q + 365 * y + doy
  {
    c := if doe / 36524 < 3 then doe / 36524 else 3;
    var r := doe - 36524 * c;
    q := r / 1461;
    var s := r - 1461 * q;
    y := if s / 365 < 3 then s / 365 else 3;
    doy := s - 365 * y;
  }

  lemma YearOfEraIsRight(doe: nat)
    requires doe <= 146096
    ensures var k := YearOfEra(doe);
            k <= 399 && DaysBefore(k) <= doe < DaysBefore(k) + YearLength(k)
  {
    var c, q, y, doy := SplitDay(doe);
    YearOfParts(c, q, y, doy);
    DaysBeforeParts(c, q, y);
  }

  lemma NextYearStarts(k: nat)
    requires k < 399
    ensures DaysBefore(k) + YearLength(k) == DaysBefore(k + 1)
  {
    var c := k / 100;
    var r := k - 100 * c;
    var q := r / 4;
    NextYearOfParts(c, q, r - 4 * q);
  }

  lemma NextYearOfParts(c: nat, q: nat, y: nat)
    requires c <= 3 && q <= 24 && y <= 3 && !(c == 3 && q == 24 && y == 3)
    ensures var k := 100 * c + 4 * q + y;
            DaysBefore(k) + YearLength(k) == DaysBefore(k + 1)
  {
    hide DaysBefore, YearLength;
    DaysBeforeParts(c, q, y);
    if y < 3 {
      DaysBeforeParts(c, q, y + 1);
    } else if q < 24 {
      DaysBeforeParts(c, q + 1, 0);
    } else {
      DaysBeforeParts(c + 1, 0, 0);
    }
  }

  lemma {:induction false} DaysBeforeGrows(k: nat, n: nat)
    requires k <= n <= 399
    ensures DaysBefore(k) <= DaysBefore(n)
    decreases n - k
  {
    if k < n {
      NextYearStarts(k);
      hide DaysBefore;
      DaysBeforeGrows(k + 1, n);
    }
  }

  /** The intervals of days of different years do not overlap. */
  lemma YearsAreDisjoint(k: nat, n: nat, doe: nat)
    requires k <= 399 && n <= 399
    requires DaysBefore(k) <= doe < DaysBefore(k) + YearLength(k)
    requires DaysBefore(n) <= doe < DaysBefore(n) + YearLength(n)
    ensures k == n
  {
    hide DaysBefore, YearLength;
    if k < n {
      NextYearStarts(k);
      DaysBeforeGrows(k + 1, n);
    } else if n < k {
      NextYearStarts(n);
      DaysBeforeGrows(n + 1, k);
    }
  }

  lemma MonthIsRight(doy: nat)
    requires doy <= 365
    ensures var mp := MonthFromDayOfYear(doy);
            mp <= 11 && DaysBeforeMonth(mp) <= doy < DaysBeforeMonth(mp + 1)
  {
  }

  // ---- The two formulas agree with each other and with the calendar -----------------------------

  /** The March-based year, month and day of year of a date. */
  function MarchYear(d: Date): int {
    if d.month < 3 then d.year - 1 else d.year
  }

  function MarchMonth(d: Date): int {
    if d.month < 3 then d.month + 9 else d.month - 3
  }

  lemma MonthDaysAgree(mp: nat)
    requires mp <= 11
    ensures (mp * 62719 + 769) / 2048 == DaysBeforeMonth(mp)
  {
  }

  /** `ToDays` in terms of the era, year of the era and month of a date. */
  lemma ToDaysInEra(d: Date, era: int, k: nat)
    requires Valid(d) && k <= 399 && MarchYear(d) == 400 * era + k
    ensures ToDays(d) + 719468 == era * 146097 + DaysBefore(k) + DaysBeforeMonth(MarchMonth(d)) + d.day - 1
  {
    MonthDaysAgree(MarchMonth(d));
    var yAdj := MarchYear(d) + 4800;
    assert yAdj / 4 == 100 * era + 1200 + k / 4;
    assert yAdj / 100 == 4 * era + 48 + k / 100;
    assert yAdj / 400 == era + 12;
  }

  /** A day of a March-based year is a valid date of its month, and the month formula finds it. */
  lemma MonthOfDate(d: Date)
    requires Valid(d)
    ensures var doy := DaysBeforeMonth(MarchMonth(d)) + d.day - 1;
            && 0 <= doy < (if IsLeap(MarchYear(d) + 1) then 366 else 365)
            && MonthFromDayOfYear(doy) == MarchMonth(d)
  {
  }

  /** A date from its day of the March-based year. */
  lemma DateOfDay(year: int, doy: nat) returns (d: Date)
    requires doy < (if IsLeap(year + 1) then 366 else 365)
    ensures var mp := MonthFromDayOfYear(doy);
            && d == Date(if mp < 10 then year else year + 1, if mp < 10 then mp + 3 else mp - 9, doy - DaysBeforeMonth(mp) + 1)
            && Valid(d) && MarchYear(d) == year && MarchMonth(d) == mp
  {
    var mp := MonthFromDayOfYear(doy);
    d := Date(if mp < 10 then year else year + 1, if mp < 10 then mp + 3 else mp - 9, doy - DaysBeforeMonth(mp) + 1);
  }

  lemma EraIsLeap(era: int, k: nat)
    ensures IsLeap(400 * era + k + 1) == IsLeap(k + 1)
  {
    var j := k + 1;
    DivIs(400 * era + j, 4, 100 * era + j / 4, j % 4);
    DivIs(400 * era + j, 100, 4 * era + j / 100, j % 100);
    DivIs(400 * era + j, 400, era + j / 400, j % 400);
  }

  /** The division that finds the era rounds down, on both sides of year 0. */
  lemma EraIsFloor(days: int, era: int, doe: nat)
    requires doe < 146097 && days + 719468 == era * 146097 + doe
    ensures Era(days) == era
  {
    var z := days + 719468;
    if z >= 0 {
      DivIs(z, 146097, era, doe);
    } else {
      DivIs(146096 - z, 146097, -era, 146096 - doe);
    }
  }

  lemma YearIsFound(k: nat, doy: nat)
    requires k <= 399 && doy < YearLength(k)
    ensures doy <= 365 && DaysBefore(k) + doy < 146097 && YearOfEra(DaysBefore(k) + doy) == k
  {
    var doe := DaysBefore(k) + doy;
    LastDayOfEra(k, doy);
    hide DaysBefore, YearOfEra;
    YearOfEraIsRight(doe);
    YearsAreDisjoint(k, YearOfEra(doe), doe);
  }

  /** `FromDays` once the era, the year of the era and the day of the year are known. */
  lemma FromDaysInEra(days: int, era: int, k: nat, doy: nat)
    requires k <= 399 && doy < YearLength(k) && days + 719468 == era * 146097 + DaysBefore(k) + doy
    ensures var mp := MonthFromDayOfYear(doy);
            FromDays(days) == Date(400 * era + k + (if mp < 10 then 0 else 1), if mp < 10 then mp + 3 else mp - 9,
                                   doy - DaysBeforeMonth(mp) + 1)
  {
    hide DaysBefore, YearOfEra, YearLength, Era;
    YearIsFound(k, doy);
    EraIsFloor(days, era, DaysBefore(k) + doy);
    MonthIsRight(doy);
  }

  /** A day number by era, year and day. */
  lemma SplitDays(days: int) returns (era: int, k: nat, doy: nat)
    ensures k <= 399 && doy < YearLength(k) && days + 719468 == era * 146097 + DaysBefore(k) + doy
  {
    var z := days + 719468;
    era := z / 146097;
    var doe := z % 146097;
    YearOfEraIsRight(doe);
    k := YearOfEra(doe);
    doy := doe - DaysBefore(k);
  }

  /** Each step of `FromDays` stays in its range. */
  lemma StepsStayInRange(days: int)
    ensures var doe := days + 719468 - Era(days) * 146097;
            0 <= doe <= 146096 && YearOfEra(doe) <= 399 &&
            var doy := doe - DaysBefore(YearOfEra(doe));
            0 <= doy <= 365 && MonthFromDayOfYear(doy) <= 11
  {
    hide DaysBefore, YearOfEra, YearLength, Era;
    var era, k, doy := SplitDays(days);
    YearIsFound(k, doy);
    EraIsFloor(days, era, DaysBefore(k) + doy);
    MonthIsRight(doy);
  }

  /** Every day number gives a valid date of the calendar, and back. */
  lemma DaysRoundTrip(days: int)
    ensures Valid(FromDays(days)) && ToDays(FromDays(days)) == days
  {
    hide FromDays, ToDays, DaysBefore, YearOfEra, MonthFromDayOfYear, DaysBeforeMonth, IsLeap, MonthLength;
    var era, k, doy := SplitDays(days);
    FromDaysInEra(days, era, k, doy);
    EraIsLeap(era, k);
    var d := DateOfDay(400 * era + k, doy);
    ToDaysInEra(d, era, k);
  }

  lemma SplitMarchYear(d: Date) returns (era: int, k: nat)
    ensures k <= 399 && MarchYear(d) == 400 * era + k
  {
    era, k := MarchYear(d) / 400, MarchYear(d) % 400;
  }

  /** Every valid date survives the opposite trip. */
  lemma DateRoundTrip(d: Date)
    requires Valid(d)
    ensures FromDays(ToDays(d)) == d
  {
    hide DaysBefore, FromDays, ToDays, MonthFromDayOfYear, DaysBeforeMonth, MonthLength, IsLeap;
    var era, k := SplitMarchYear(d);
    ToDaysInEra(d, era, k);
    MonthOfDate(d);
    EraIsLeap(era, k);
    FromDaysInEra(ToDays(d), era, k, DaysBeforeMonth(MarchMonth(d)) + d.day - 1);
  }

  lemma LastDayOfEra(k: nat, doy: nat)
    requires k <= 399 && doy < YearLength(k)
    ensures DaysBefore(k) + doy <= 146096
  {
    if k < 399 {
      NextYearStarts(k);
      DaysBeforeGrows(k + 1, 399);
    }
  }

  /** The next day is the next day of the same March-based year, or March 1 after its last. */
  lemma NextDayInYear(d: Date)
    requires Valid(d)
    ensures var n := NextDay(d);
            Valid(n) &&
            var doy := DaysBeforeMonth(MarchMonth(d)) + d.day - 1;
            if MarchYear(n) == MarchYear(d) then DaysBeforeMonth(MarchMonth(n)) + n.day - 1 == doy + 1
            else MarchYear(n) == MarchYear(d) + 1 && MarchMonth(n) == 0 && n.day == 1
                 && doy + 1 == if IsLeap(MarchYear(n)) then 366 else 365
  {
  }

  /** `ToDays` counts the days of the Gregorian calendar from January 1, 1970. */
  lemma ToDaysCounts(d: Date)
    requires Valid(d)
    ensures Valid(NextDay(d)) && ToDays(NextDay(d)) == ToDays(d) + 1
    ensures ToDays(Date(1970, 1, 1)) == 0
  {
    assert ToDays(Date(1970, 1, 1)) == 0;
    hide DaysBefore, ToDays, NextDay, MonthLength, IsLeap, DaysBeforeMonth, Valid;
    var n := NextDay(d);
    var era, k := SplitMarchYear(d);
    NextDayInYear(d);
    ToDaysInEra(d, era, k);
    if MarchYear(n) == MarchYear(d) {
      ToDaysInEra(n, era, k);
    } else {
      EraIsLeap(era, k);
      DaysBeforeMarch();
      NextYearToDays(n, era, k);
    }
  }

  /** Moving a date to a later year moves it by at least 364 days a year. */
  lemma YearsApart(d: Date, n: nat)
    ensures ToDays(d.(year := d.year + n)) - ToDays(d) >= 364 * n
  {
    var y := d.year + 4800 - (if d.month < 3 then 1 else 0);
    assert (y + n) / 4 >= y / 4 && (y + n) / 400 >= y / 400 && (y + n) / 100 <= y / 100 + n;
  }

  /** The days of a year lie between its January 1 and the next. */
  lemma DayWithinYear(d: Date)
    requires Valid(d)
    ensures ToDays(Date(d.year, 1, 1)) <= ToDays(d) < ToDays(Date(d.year + 1, 1, 1))
  {
  }

  lemma NextYearToDays(n: Date, era: int, k: nat)
    requires Valid(n) && MarchMonth(n) == 0 && n.day == 1 && k <= 399 && MarchYear(n) == 400 * era + k + 1
    ensures ToDays(n) + 719468 == era * 146097 + DaysBefore(k) + YearLength(k)
  {
    hide ToDays, DaysBefore, YearLength, Valid, DaysBeforeMonth;
    DaysBeforeMarch();
    if k < 399 {
      NextYearStarts(k);
      ToDaysInEra(n, era, k + 1);
    } else {
      ToDaysInEra(n, era + 1, 0);
      EndOfEra();
    }
  }

  lemma DaysBeforeMarch()
    ensures DaysBeforeMonth(0) == 0
  {
  }

  lemma EndOfEra()
    ensures DaysBefore(399) + YearLength(399) == 146097 && DaysBefore(0) == 0
  {
  }
}
