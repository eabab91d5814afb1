/** Dates and seconds since 1970-01-01, and the day of the week. Months and days count from 0. */
module DateTime {

  datatype DateTime = DateTime(sec: nat, min: nat, hour: nat, weekday: nat, day: nat, month: nat, year: nat)

  const SPD: nat := 86400

  predicate IsLeapYear(y: nat) { !(y % 4 != 0 || (y % 100 == 0 && y % 400 != 0)) }

  function DaysPerYear(y: nat): (n: nat) { if IsLeapYear(y) then 366 else 365 }

  const DPM: seq<nat> := [31, 28, 31, 30, 31, 30, 31, 31, 30, 31, 30, 31]
  const DPMLEAP: seq<nat> := [31, 29, 31, 30, 31, 30, 31, 31, 30, 31, 30, 31]

  function MonthTable(y: nat): (t: seq<nat>)
    ensures |t| == 12
  {
    if IsLeapYear(y) then DPMLEAP else DPM
  }

  // ----- meaning ------------------------------------------------------------------------------

  /** Days of the years from 1970 up to y. */
  function DaysBeforeYear(y: nat): (n: nat)
    decreases y
  {
    if y <= 1970 then 0 else DaysBeforeYear(y - 1) + DaysPerYear(y - 1)
  }

  /** Days of the first m months of a table. */
  function DaysBeforeMonth(t: seq<nat>, m: nat): (n: nat)
    requires m <= |t|
    decreases m
  {
    if m == 0 then 0 else DaysBeforeMonth(t, m - 1) + t[m - 1]
  }

  predicate Valid(d: DateTime) {
    && 1970 <= d.year && d.month <= 11 && d.day < MonthTable(d.year)[d.month]
    && d.hour <= 23 && d.min <= 59 && d.sec <= 59
  }

  function Days(d: DateTime): (n: nat)
    requires d.month <= 11
  {
    DaysBeforeYear(d.year) + DaysBeforeMonth(MonthTable(d.year), d.month) + d.day
  }

  function SecondOfDay(d: DateTime): (n: nat) { d.hour * 3600 + d.min * 60 + d.sec }

  function Unix(d: DateTime): (n: nat)
    requires d.month <= 11
  {
    SPD * Days(d) + SecondOfDay(d)
  }

  // ----- to seconds ---------------------------------------------------------------------------

  /** Seconds since 1970, or -1 for a date that does not exist. */
  method DatetimeToUnix(d: DateTime) returns (clock: int)
    ensures clock == if Valid(d) then Unix(d) else -1
  {
    hide MonthTable, IsLeapYear, DaysPerYear;
    if d.year < 1970 { return -1; }
    clock := 0;
    var x := 1970;
    while x != d.year
      invariant 1970 <= x <= d.year && clock == SPD * DaysBeforeYear(x)
    {
      clock := clock + SPD * DaysPerYear(x);
      x := x + 1;
    }
    if d.month > 11 { return -1; }
    var t := MonthTable(d.year);
    x := 0;
    while x != d.month
      invariant 0 <= x <= d.month && clock == SPD * (DaysBeforeYear(d.year) + DaysBeforeMonth(t, x))
    {
      clock := clock + SPD * t[x];
      x := x + 1;
    }
    if d.day >= t[d.month] { return -1; }
    clock := clock + SPD * d.day;
    if d.hour > 23 { return -1; }
    if d.min > 59 { return -1; }
    if d.sec > 59 { return -1; }
    clock := clock + (d.hour * 60 * 60 + d.min * 60 + d.sec);
  }

  // ----- from seconds -------------------------------------------------------------------------

  /** x as a 32-bit two's complement number. */
  function Int32(x: int): (r: int) { (x + 0x8000_0000) % 0x1_0000_0000 - 0x8000_0000 }

  /** The seconds of the day are right although the product wraps around from day 24856 on. */
  lemma {:induction false} SecondsWrap(unixtime: nat)
    ensures Int32(unixtime - Int32(unixtime / SPD * SPD)) == unixtime % SPD
  {
    var p := unixtime / SPD * SPD;
    var s := unixtime % SPD;
    assert unixtime == p + s;
    var k := (p + 0x8000_0000) / 0x1_0000_0000;
    assert Int32(p) == p - 0x1_0000_0000 * k;
    WrapTwice(s, k);
  }

  lemma {:induction false} WrapTwice(s: nat, k: nat)
    requires s < SPD
    ensures Int32(s + 0x1_0000_0000 * k) == s
  {}

  lemma {:induction false} YearTotal(t: seq<nat>, y: nat)
    requires t == MonthTable(y)
    ensures DaysBeforeMonth(t, 12) == DaysPerYear(y) && forall m :: 0 <= m < 12 ==> 0 < t[m]
  {
    assert DaysBeforeMonth(t, 3) == t[0] + t[1] + t[2];
    assert DaysBeforeMonth(t, 6) == DaysBeforeMonth(t, 3) + t[3] + t[4] + t[5];
    assert DaysBeforeMonth(t, 9) == DaysBeforeMonth(t, 6) + t[6] + t[7] + t[8];
    assert DaysBeforeMonth(t, 12) == DaysBeforeMonth(t, 9) + t[9] + t[10] + t[11];
  }

  /** Division and remainder of C, towards zero. */
  function Quotient(x: int, y: nat): (q: int)
    requires 0 < y
  {
    if x >= 0 then x / y else -(-x / y)
  }

  function Remainder(x: int, y: nat): (r: int)
    requires 0 < y
  {
    x - y * Quotient(x, y)
  }

  /** The date of a time; -1 for times before 1970. The month never leaves 0..11. The number of days is kept
      in 32 bits and the year in 16: the date is right exactly for the times before the year 65536. */
  method UnixToDatetime(unixtime: int) returns (rtn: int, d: DateTime)
    ensures rtn == if unixtime < 0 then -1 else 0
    ensures rtn == 0 ==> d.month <= 11 && (unixtime / SPD < DaysBeforeYear(65536) <==> Valid(d) && Unix(d) == unixtime)
    ensures rtn == 0 && unixtime / SPD < 0x8000_0000 ==> d.weekday == (unixtime / SPD + 4) % 7
  {
    hide MonthTable, IsLeapYear, DaysPerYear, CalcDayOfWeek, Int32, DaysBeforeYear, DaysBeforeMonth, Quotient, Unix, Valid;
    d := DateTime(0, 0, 0, 0, 0, 0, 0);
    if unixtime < 0 { return -1, d; }
    var days := Int32(unixtime / SPD);
    var secOfDay := Int32(unixtime - Int32(days * SPD));
    var hourOfDay := Quotient(secOfDay, 3600);
    var secOfHour := secOfDay - hourOfDay * 3600;
    var minOfHour := Quotient(secOfHour, 60);
    var secOfMin := secOfHour - minOfHour * 60;
    var year, month, day := SplitDays(days);
    var weekday := CalcDayOfWeek(year, month, day);
    d := DateTime(secOfMin % 256, minOfHour % 256, hourOfDay % 256, weekday % 256, day % 256, month, year % 65536);
    if unixtime / SPD < 0x8000_0000 {
      KeptDays(unixtime / SPD);
      SecondsWrap(unixtime);
      InTime(unixtime, year, month, day, hourOfDay, secOfHour, minOfHour, secOfMin, weekday, d);
    } else {
      SmallYears();
      TooLate(d, unixtime);
    }
    rtn := 0;
  }

  lemma {:induction false} InTime(unixtime: nat, year: nat, month: nat, day: nat, hour: int, rest: int, min: int, sec: int, weekday: int, d: DateTime)
    requires month <= 11 && 1970 <= year && day < MonthTable(year)[month]
    requires DaysBeforeYear(year) + DaysBeforeMonth(MonthTable(year), month) + day == unixtime / SPD
    requires hour == Quotient(unixtime % SPD, 3600) && rest == unixtime % SPD - hour * 3600 && min == Quotient(rest, 60) && sec == rest - min * 60
    requires weekday == CalcDayOfWeek(year, month, day)
    requires d == DateTime(sec % 256, min % 256, hour % 256, weekday % 256, day % 256, month, year % 65536)
    ensures unixtime / SPD < DaysBeforeYear(65536) <==> Valid(d) && Unix(d) == unixtime
    ensures d.weekday == (unixtime / SPD + 4) % 7
  {
    hide MonthTable, IsLeapYear, DaysPerYear, CalcDayOfWeek, DaysBeforeYear, DaysBeforeMonth, Quotient, Unix;
    TimeOfDay(unixtime % SPD, hour, rest, min, sec);
    ShortMonth(year, month);
    var full := DateTime(sec, min, hour, 0, day, month, year);
    WeekdayIs(full);
    Stored(full, d, unixtime);
  }

  lemma {:induction false} KeptDays(n: nat)
    requires n < 0x8000_0000
    ensures Int32(n) == n
  {}

  lemma {:induction false} TimeOfDay(s: nat, hour: int, rest: int, min: int, sec: int)
    requires s < SPD && hour == Quotient(s, 3600) && rest == s - hour * 3600 && min == Quotient(rest, 60) && sec == rest - min * 60
    ensures 0 <= hour <= 23 && 0 <= min <= 59 && 0 <= sec <= 59 && hour * 3600 + min * 60 + sec == s
  {}

  lemma {:induction false} ShortMonth(y: nat, m: nat)
    requires m <= 11
    ensures MonthTable(y)[m] <= 31
  {}

  /** Year, month and day of a number of days since 1970; the loops do nothing for negative numbers. */
  method SplitDays(n: int) returns (year: nat, month: nat, day: int)
    ensures 1970 <= year && month <= 11
    ensures 0 <= n ==> 0 <= day < MonthTable(year)[month] && DaysBeforeYear(year) + DaysBeforeMonth(MonthTable(year), month) + day == n
    ensures n < 0 ==> year == 1970 && month == 0 && day == n
  {
    hide MonthTable, IsLeapYear, DaysPerYear;
    day := n;
    year := 1970;
    while day >= DaysPerYear(year)
      invariant 1970 <= year && (n < 0 ==> year == 1970 && day == n) && (0 <= n ==> 0 <= day && DaysBeforeYear(year) + day == n)
      decreases day
    {
      YearLength(year);
      day := day - DaysPerYear(year);
      year := year + 1;
    }
    var t := MonthTable(year);
    YearTotal(t, year);
    month := 0;
    while day >= t[month]
      invariant 0 <= month <= 11 && (n < 0 ==> month == 0 && day == n)
      invariant 0 <= n ==> 0 <= day && day + DaysBeforeMonth(t, month) < DaysBeforeMonth(t, 12)
      invariant 0 <= n ==> DaysBeforeYear(year) + DaysBeforeMonth(t, month) + day == n
      decreases 11 - month
    {
      day := day - t[month];
      month := month + 1;
    }
  }

  lemma {:induction false} SmallYears()
    ensures DaysBeforeYear(65536) < 0x8000_0000
  {
    hide DaysBeforeYear;
    DaysBeforeYearIs(65536);
  }

  /** No date with a 16-bit year stands for a later time. */
  lemma {:induction false} TooLate(d: DateTime, unixtime: nat)
    requires d.year < 65536 && d.month <= 11 && DaysBeforeYear(65536) <= unixtime / SPD
    ensures !(Valid(d) && Unix(d) == unixtime)
  {
    hide MonthTable, IsLeapYear, DaysPerYear, DaysBeforeYear, DaysBeforeMonth;
    if Valid(d) {
      WithinYear(d);
      YearsMonotone(d.year, 65536);
      assert SecondOfDay(d) < SPD;
      WholeDays(Days(d), SecondOfDay(d));
    }
  }

  lemma {:induction false} WholeDays(n: nat, s: nat)
    requires s < SPD
    ensures (SPD * n + s) / SPD == n
  {}

  /** Storing the year in 16 bits keeps the date exactly when the year is below 65536. */
  lemma {:induction false} Stored(full: DateTime, d: DateTime, unixtime: nat)
    requires Valid(full) && SecondOfDay(full) == unixtime % SPD && Days(full) == unixtime / SPD
    requires d == full.(year := full.year % 65536, weekday := d.weekday)
    ensures unixtime / SPD < DaysBeforeYear(65536) <==> Valid(d) && Unix(d) == unixtime
  {
    hide MonthTable, IsLeapYear, DaysPerYear, DaysBeforeYear, DaysBeforeMonth;
    WithinYear(full);
    if full.year < 65536 {
      YearsMonotone(full.year, 65536);
    } else {
      if full.year > 65536 { YearsMonotone(65536, full.year); }
      TooLate(d, unixtime);
    }
  }

  lemma {:induction false} YearLength(y: nat) ensures 365 <= DaysPerYear(y) <= 366 {}

  // ----- day of the week ----------------------------------------------------------------------

  const SAKAMOTO: seq<nat> := [0, 3, 2, 5, 0, 3, 5, 1, 4, 6, 2, 4]

  function CalcDayOfWeek(y: nat, m: nat, d: int): (w: int)
    requires 1 <= y && m < 12
  {
    var y' := if m + 1 < 3 then y - 1 else y;
    Remainder(y' + y' / 4 - y' / 100 + y' / 400 + SAKAMOTO[m] + (d + 1), 7)
  }

  /** Leap years up to and including y, since the year 0. */
  function Leaps(y: nat): (n: int) { y / 4 - y / 100 + y / 400 }

  lemma {:induction false} LeapStep(y: nat)
    requires 0 < y
    ensures Leaps(y) == Leaps(y - 1) + if IsLeapYear(y) then 1 else 0
  {
    assert y / 4 - (y - 1) / 4 == if y % 4 == 0 then 1 else 0;
    assert y / 100 - (y - 1) / 100 == if y % 100 == 0 then 1 else 0;
    assert y / 400 - (y - 1) / 400 == if y % 400 == 0 then 1 else 0;
    assert y % 100 == 0 ==> y % 4 == 0;
    assert y % 400 == 0 ==> y % 100 == 0;
  }

  /** Days before a year, in closed form. */
  lemma {:induction false} DaysBeforeYearIs(y: nat)
    requires 1970 <= y
    ensures DaysBeforeYear(y) == 365 * (y - 1970) + Leaps(y - 1) - 477
    decreases y
  {
    hide IsLeapYear;
    if y == 1970 {
      assert Leaps(1969) == 477;
    } else {
      DaysBeforeYearIs(y - 1);
      LeapStep(y - 1);
    }
  }

  /** Where the months start. */
  lemma {:induction false} MonthStarts(y: nat)
    ensures var t, l := MonthTable(y), if IsLeapYear(y) then 1 else 0;
            && DaysBeforeMonth(t, 0) == 0 && DaysBeforeMonth(t, 1) == 31 && DaysBeforeMonth(t, 2) == 59 + l && DaysBeforeMonth(t, 3) == 90 + l
            && DaysBeforeMonth(t, 4) == 120 + l && DaysBeforeMonth(t, 5) == 151 + l && DaysBeforeMonth(t, 6) == 181 + l
            && DaysBeforeMonth(t, 7) == 212 + l && DaysBeforeMonth(t, 8) == 243 + l && DaysBeforeMonth(t, 9) == 273 + l
            && DaysBeforeMonth(t, 10) == 304 + l && DaysBeforeMonth(t, 11) == 334 + l && DaysBeforeMonth(t, 12) == 365 + l
  {}

  /** The table of the formula: seven times `k` days less than the days before a month, but for a shift. */
  lemma {:induction false} MonthShift(y: nat, m: nat) returns (k: nat)
    requires m < 12
    ensures |SAKAMOTO| == 12 && DaysBeforeMonth(MonthTable(y), m) == SAKAMOTO[m] + 7 * k + if m < 2 then 0 else if IsLeapYear(y) then 2 else 1
  {
    hide IsLeapYear, MonthTable, DaysBeforeMonth;
    MonthStarts(y);
    match m
    case 0 => k := 0;
    case 1 => k := 4;
    case 2 => k := 8;
    case 3 => k := 12;
    case 4 => k := 17;
    case 5 => k := 21;
    case 6 => k := 25;
    case 7 => k := 30;
    case 8 => k := 34;
    case 9 => k := 38;
    case 10 => k := 43;
    case 11 => k := 47;
  }

  lemma {:induction false} SameWeekday(a: int, b: int, k: int)
    requires b == a + 7 * k
    ensures a % 7 == b % 7
  {}

  /** The formula counts the days since 1970-01-01, which was a Thursday. */
  lemma {:induction false} WeekdayIs(d: DateTime)
    requires 1970 <= d.year && d.month < 12
    ensures CalcDayOfWeek(d.year, d.month, d.day) == (Days(d) + 4) % 7
  {
    hide IsLeapYear, MonthTable, DaysBeforeMonth, DaysBeforeYear;
    var y, m := d.year, d.month;
    var k := MonthShift(y, m);
    DaysBeforeYearIs(y);
    LeapStep(y);
    LeapsPositive(if m < 2 then y - 1 else y);
    var y' := if m < 2 then y - 1 else y;
    SameWeekday(y' + Leaps(y') + SAKAMOTO[m] + (d.day + 1), Days(d) + 4, 52 * (y as int) - 102789 + k);
  }

  lemma {:induction false} LeapsPositive(y: nat)
    ensures Leaps(y) >= 0
  {}

  // ----- inverses -----------------------------------------------------------------------------

  lemma {:induction false} YearsMonotone(y: nat, y': nat)
    requires 1970 <= y < y'
    ensures DaysBeforeYear(y) + DaysPerYear(y) <= DaysBeforeYear(y')
    decreases y'
  {
    hide IsLeapYear, DaysPerYear;
    if y + 1 < y' { YearsMonotone(y, y' - 1); }
  }

  lemma {:induction false} MonthsMonotone(t: seq<nat>, m: nat, m': nat)
    requires m < m' <= |t|
    ensures DaysBeforeMonth(t, m) + t[m] <= DaysBeforeMonth(t, m')
    decreases m'
  {
    if m + 1 < m' { MonthsMonotone(t, m, m' - 1); }
  }

  /** A valid date lies within its year. */
  lemma {:induction false} WithinYear(d: DateTime)
    requires Valid(d)
    ensures DaysBeforeYear(d.year) <= Days(d) < DaysBeforeYear(d.year) + DaysPerYear(d.year)
  {
    hide IsLeapYear, MonthTable, DaysBeforeMonth, DaysBeforeYear;
    MonthStarts(d.year);
    MonthsMonotone(MonthTable(d.year), d.month, 12);
  }

  /** Different dates have different days, different times different seconds: the seconds since 1970
      determine everything but the weekday. */
  lemma {:induction false} UnixUnique(d: DateTime, e: DateTime)
    requires Valid(d) && Valid(e) && Unix(d) == Unix(e)
    ensures d.(weekday := 0) == e.(weekday := 0)
  {
    hide IsLeapYear, MonthTable, DaysBeforeMonth, DaysBeforeYear, DaysPerYear;
    SameSecond(d, e);
    WithinYear(d);
    WithinYear(e);
    if d.year < e.year { YearsMonotone(d.year, e.year); }
    if e.year < d.year { YearsMonotone(e.year, d.year); }
    var t := MonthTable(d.year);
    if d.month < e.month { MonthsMonotone(t, d.month, e.month); }
    if e.month < d.month { MonthsMonotone(t, e.month, d.month); }
  }

  lemma {:induction false} SameSecond(d: DateTime, e: DateTime)
    requires Valid(d) && Valid(e) && Unix(d) == Unix(e)
    ensures Days(d) == Days(e) && d.hour == e.hour && d.min == e.min && d.sec == e.sec
  {
    hide MonthTable, Days;
    assert SecondOfDay(d) < SPD && SecondOfDay(e) < SPD;
  }
}
