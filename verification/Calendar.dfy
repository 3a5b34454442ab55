/**
 Julian day numbers of the Gregorian calendar: base/date.cc.

 `JulianDay` and `FromJulianDay` are the program's formulas with C's truncating division.  They are compared with
 the calendar itself: leap years, month lengths and the day after a day.  `DayNumber` and `DateOf` are the same
 formulas with flooring division, which are right for every day; the program's agree with them from
 -4800-03-01 on and not before.
 */
module Calendar {
  import opened CDivision

  datatype Date = Date(year: int, month: int, day: int)

  // getJulianDayNumber.
  function JulianDay(t: Date): int {
    var a := TruncDiv(14 - t.month, 12);
    var y := t.year + 4800 - a;
    var m := t.month + 12 * a - 3;
    t.day + TruncDiv(153 * m + 2, 5) + y * 365 + TruncDiv(y, 4) - TruncDiv(y, 100) + TruncDiv(y, 400) - 32045
  }

  // getYearMonthDay: first the year from March and the day in it, then the month.
  function FromJulianDay(n: int): Date {
    MonthOf(YearOf(n + 32044))
  }

  // A day is day `e` of the year that begins in March of year `y - 4800`.
  datatype March = March(y: int, e: int)

  function YearOf(a: int): March {
    var b := TruncDiv(4 * a + 3, 146097);
    var c := a - TruncDiv(b * 146097, 4);
    var d := TruncDiv(4 * c + 3, 1461);
    March(b * 100 + d, c - TruncDiv(1461 * d, 4))
  }

  function MonthOf(p: March): Date {
    var m := TruncDiv(5 * p.e + 2, 153);
    Date(p.y - 4800 + TruncDiv(m, 10), m + 3 - 12 * TruncDiv(m, 10), p.e - TruncDiv(153 * m + 2, 5) + 1)
  }

  // Date::weekDay.
  function WeekDay(n: int): int {
    TruncMod(n + 1, 7)
  }

  // ---------- The calendar ----------

  predicate IsLeap(year: int) {
    year % 4 == 0 && (year % 100 != 0 || year % 400 == 0)
  }

  function DaysIn(year: int, month: int): int {
    if month == 2 then (if IsLeap(year) then 29 else 28)
    else if month in {4, 6, 9, 11} then 30
    else 31
  }

  predicate IsDate(t: Date) {
    1 <= t.month <= 12 && 1 <= t.day <= DaysIn(t.year, t.month)
  }

  function NextDate(t: Date): Date {
    if t.day < DaysIn(t.year, t.month) then t.(day := t.day + 1)
    else if t.month < 12 then Date(t.year, t.month + 1, 1)
    else Date(t.year + 1, 1, 1)
  }

  predicate Before(s: Date, t: Date) {
    s.year < t.year || (s.year == t.year && (s.month < t.month || (s.month == t.month && s.day < t.day)))
  }

  const FIRST := Date(-4800, 3, 1)

  // ---------- Years that begin in March ----------

  function YearStart(y: int): int {
    365 * y + y / 4 - y / 100 + y / 400
  }

  function MonthStart(m: int): int {
    (153 * m + 2) / 5
  }

  function YearLength(y: int): int {
    if IsLeap(y - 4799) then 366 else 365
  }

  function ToMarch(t: Date): March {
    if t.month <= 2 then March(t.year + 4799, MonthStart(t.month + 9) + t.day - 1)
    else March(t.year + 4800, MonthStart(t.month - 3) + t.day - 1)
  }

  function DayNumber(t: Date): int {
    YearStart(ToMarch(t).y) + ToMarch(t).e - 32044
  }

  // One more year is one more multiple of 4, 100 or 400 exactly when it is divisible.
  lemma Quotients(y: int)
    ensures y / 4 == (y - 1) / 4 + (if y % 4 == 0 then 1 else 0)
    ensures y / 100 == (y - 1) / 100 + (if y % 100 == 0 then 1 else 0)
    ensures y / 400 == (y - 1) / 400 + (if y % 400 == 0 then 1 else 0)
  {
  }

  lemma Divisible(a: int, b: int)
    ensures 100 * a % 100 == 0 && 4 * b % 4 == 0
  {
  }

  lemma Multiples(y: int)
    ensures y % 400 == 0 ==> y % 100 == 0
    ensures y % 100 == 0 ==> y % 4 == 0
  {
    Divisible(4 * (y / 400), 25 * (y / 100));
  }

  lemma YearLengthIs(y: int)
    ensures YearStart(y + 1) == YearStart(y) + YearLength(y)
  {
    Quotients(y + 1);
    Multiples(y + 1);
    assert (y - 4799) % 400 == (y + 1) % 400 && (y - 4799) % 100 == (y + 1) % 100 && (y - 4799) % 4 == (y + 1) % 4;
  }

  lemma YearStartGrows(y: int, z: int)
    requires y < z
    ensures YearStart(y) + YearLength(y) <= YearStart(z)
  {
    YearLengthIs(y);
    assert z == y + 1 || YearStart(y + 1) <= YearStart(z);
  }

  lemma MarchRange(t: Date)
    requires IsDate(t)
    ensures 0 <= ToMarch(t).e < YearLength(ToMarch(t).y)
  {
    hide IsLeap;
  }

  lemma MarchNext(t: Date)
    requires IsDate(t)
    ensures
      var s, u := ToMarch(t), ToMarch(NextDate(t));
      u == (if s.e + 1 < YearLength(s.y) then March(s.y, s.e + 1) else March(s.y + 1, 0))
  {
    hide IsLeap;
    assert t.month in {1, 2, 3, 4, 5, 6, 7, 8, 9, 10, 11, 12};
  }

  lemma MarchOrder(s: Date, t: Date)
    requires IsDate(s) && IsDate(t) && Before(s, t)
    ensures
      var p, q := ToMarch(s), ToMarch(t);
      p.y < q.y || (p.y == q.y && p.e < q.e)
  {
  }

  predicate InMarch(p: March) {
    0 <= p.e < YearLength(p.y)
  }

  function FromMarch(p: March): Date {
    var m := (5 * p.e + 2) / 153;
    Date(p.y - 4800 + m / 10, m + 3 - 12 * (m / 10), p.e - MonthStart(m) + 1)
  }

  // The year and day of a day counted from -4800-03-01, by centuries and four-year periods.
  function SplitDays(a: int): March {
    var b := (4 * a + 3) / 146097;
    var c := a - CenturyStart(b);
    var d := (4 * c + 3) / 1461;
    March(100 * b + d, c - 1461 * d / 4)
  }

  function CenturyStart(b: int): int {
    146097 * b / 4
  }

  function DateOf(n: int): Date {
    FromMarch(SplitDays(n + 32044))
  }

  lemma FromMarchIs(p: March)
    requires InMarch(p)
    ensures IsDate(FromMarch(p)) && ToMarch(FromMarch(p)) == p
  {
    hide IsLeap;
    var m := (5 * p.e + 2) / 153;
    assert m in {0, 1, 2, 3, 4, 5, 6, 7, 8, 9, 10, 11};
  }

  lemma ToMarchIs(t: Date)
    requires IsDate(t)
    ensures FromMarch(ToMarch(t)) == t
  {
    hide IsLeap;
    assert t.month in {1, 2, 3, 4, 5, 6, 7, 8, 9, 10, 11, 12};
  }

  lemma CenturyOf(a: int)
    ensures
      var b := (4 * a + 3) / 146097;
      CenturyStart(b) <= a < CenturyStart(b + 1)
  {
    var b := (4 * a + 3) / 146097;
    assert 146097 * b <= 4 * a + 3 < 146097 * (b + 1);
  }

  lemma CenturyLength(b: int)
    ensures CenturyStart(b + 1) == CenturyStart(b) + (if b % 4 == 3 then 36525 else 36524)
  {
    assert 146097 * b == 4 * (36524 * b) + b;
    assert 146097 * (b + 1) == 4 * (36524 * (b + 1)) + (b + 1);
  }

  lemma CenturyYear(b: int, d: int)
    requires 0 <= d < 100
    ensures YearStart(100 * b + d) == CenturyStart(b) + 1461 * d / 4
  {
    var y := 100 * b + d;
    assert y / 100 == b;
    assert y / 4 == 25 * b + d / 4;
    assert y / 400 == b / 4;
    assert 146097 * b == 4 * (36524 * b) + b;
    assert 1461 * d == 4 * (365 * d) + d;
  }

  lemma LeapParts(k: int, r: int)
    requires 0 <= r < 100
    ensures IsLeap(100 * k + r) <==> r % 4 == 0 && (r == 0 ==> k % 4 == 0)
  {
    HundredParts(k, r);
    FourHundredParts(k / 4, k % 4, r);
    assert 100 * k + r == 400 * (k / 4) + 100 * (k % 4) + r;
  }

  lemma HundredParts(k: int, r: int)
    requires 0 <= r < 100
    ensures (100 * k + r) % 100 == r && (100 * k + r) % 4 == r % 4
  {
    assert 100 * k + r == 4 * (25 * k) + r;
  }

  lemma FourHundredParts(q: int, t: int, r: int)
    requires 0 <= t < 4 && 0 <= r < 100
    ensures (400 * q + 100 * t + r) % 400 == 100 * t + r
  {
  }

  lemma CenturyLeap(b: int, d: int)
    requires 0 <= d < 100
    ensures IsLeap(100 * b + d - 4799) <==> d % 4 == 3 && (d == 99 ==> b % 4 == 3)
  {
    hide IsLeap;
    if d == 99 {
      LeapParts(b - 47, 0);
    } else {
      LeapParts(b - 48, d + 1);
    }
  }

  lemma SplitIs(a: int)
    ensures InMarch(SplitDays(a)) && YearStart(SplitDays(a).y) + SplitDays(a).e == a
  {
    hide IsLeap, YearStart, CenturyStart;
    var b := (4 * a + 3) / 146097;
    CenturyOf(a);
    CenturyLength(b);
    var c := a - CenturyStart(b);
    var d := (4 * c + 3) / 1461;
    assert 0 <= d < 100;
    CenturyYear(b, d);
    CenturyLeap(b, d);
  }

  lemma SplitOnly(p: March)
    requires InMarch(p)
    ensures SplitDays(YearStart(p.y) + p.e) == p
  {
    hide IsLeap, YearStart, SplitDays, YearLength;
    var q := SplitDays(YearStart(p.y) + p.e);
    SplitIs(YearStart(p.y) + p.e);
    if p.y < q.y {
      YearStartGrows(p.y, q.y);
    } else if q.y < p.y {
      YearStartGrows(q.y, p.y);
    }
  }

  // ---------- Day numbers with flooring division: right for every day ----------

  lemma DateOfIs(n: int)
    ensures IsDate(DateOf(n)) && DayNumber(DateOf(n)) == n
  {
    hide IsLeap, YearStart, SplitDays, ToMarch, FromMarch;
    SplitIs(n + 32044);
    FromMarchIs(SplitDays(n + 32044));
  }

  lemma DayNumberIs(t: Date)
    requires IsDate(t)
    ensures DateOf(DayNumber(t)) == t
  {
    hide IsLeap, YearStart, SplitDays, ToMarch, FromMarch;
    MarchRange(t);
    SplitOnly(ToMarch(t));
    ToMarchIs(t);
  }

  lemma DayNumberNext(t: Date)
    requires IsDate(t)
    ensures IsDate(NextDate(t)) && DayNumber(NextDate(t)) == DayNumber(t) + 1
  {
    hide IsLeap, YearStart, ToMarch;
    MarchRange(t);
    MarchNext(t);
    YearLengthIs(ToMarch(t).y);
  }

  lemma DayNumberOrder(s: Date, t: Date)
    requires IsDate(s) && IsDate(t)
    ensures Before(s, t) <==> DayNumber(s) < DayNumber(t)
  {
    hide IsLeap, YearStart, ToMarch, IsDate;
    if Before(s, t) {
      Later(s, t);
    } else if s != t {
      Later(t, s);
    }
  }

  lemma Later(s: Date, t: Date)
    requires IsDate(s) && IsDate(t) && Before(s, t)
    ensures DayNumber(s) < DayNumber(t)
  {
    hide IsLeap, YearStart, ToMarch;
    MarchOrder(s, t);
    MarchRange(s);
    MarchRange(t);
    if ToMarch(s).y < ToMarch(t).y {
      YearStartGrows(ToMarch(s).y, ToMarch(t).y);
    }
  }

  // ---------- The program's formulas ----------

  lemma EncodeAgrees(t: Date)
    requires 1 <= t.month <= 12 && !Before(t, FIRST) && t.day >= 1
    ensures JulianDay(t) == DayNumber(t)
  {
    assert TruncDiv(14 - t.month, 12) == if t.month <= 2 then 1 else 0;
  }

  lemma TruncIs(x: int, y: int)
    requires x >= 0 && y > 0
    ensures TruncDiv(x, y) == x / y && x / y >= 0
  {
  }

  lemma YearAgrees(a: int)
    requires a >= 0
    ensures YearOf(a) == SplitDays(a)
  {
    hide TruncDiv;
    var b := (4 * a + 3) / 146097;
    CenturyOf(a);
    TruncIs(4 * a + 3, 146097);
    assert b * 146097 == 146097 * b;
    TruncIs(146097 * b, 4);
    var c := a - CenturyStart(b);
    TruncIs(4 * c + 3, 1461);
    TruncIs(1461 * ((4 * c + 3) / 1461), 4);
  }

  lemma DecodeAgrees(n: int)
    requires n >= -32044
    ensures FromJulianDay(n) == DateOf(n)
  {
    hide YearOf, SplitDays, YearLength, YearStart;
    YearAgrees(n + 32044);
    SplitIs(n + 32044);
  }

  // Truncating division loses the day: what the program computes is not a date.
  lemma DecodeBelow(n: int)
    requires n < -32044
    ensures FromJulianDay(n).day <= 0
  {
    var a := n + 32044;
    var b := TruncDiv(4 * a + 3, 146097);
    var c := a - TruncDiv(b * 146097, 4);
    Remainder(a, 146097);
    Remainder(c, 1461);
    var d := TruncDiv(4 * c + 3, 1461);
    var e := c - TruncDiv(1461 * d, 4);
    assert e < 0;
    var m := TruncDiv(5 * e + 2, 153);
    assert 153 * m >= 5 * e + 2;
    assert m <= 0;
  }

  lemma Remainder(a: int, period: int)
    requires a < 0 < period
    ensures a - TruncDiv(TruncDiv(4 * a + 3, period) * period, 4) < 0
  {
    var q := (-(4 * a + 3)) / period;
    assert TruncDiv(4 * a + 3, period) == -q;
    assert q * period <= -(4 * a + 3);
    assert TruncDiv(-q * period, 4) == -(q * period / 4);
  }

  lemma EncodeBelow(t: Date)
    requires IsDate(t) && Before(t, FIRST)
    ensures JulianDay(t) <= -32044
  {
    hide IsLeap;
    MarchRange(t);
    var y := ToMarch(t).y;
    assert y < 0;
    assert TruncDiv(14 - t.month, 12) == if t.month <= 2 then 1 else 0;
    assert JulianDay(t) + 32044 == ToMarch(t).e + 365 * y - (-y) / 4 + (-y) / 100 - (-y) / 400;
  }

  // A day number decodes to a date, and back, exactly from -4800-03-01 on.
  lemma DecodeExact(n: int)
    ensures IsDate(FromJulianDay(n)) <==> n >= -32044
    ensures n >= -32044 ==> JulianDay(FromJulianDay(n)) == n && !Before(FromJulianDay(n), FIRST)
  {
    hide IsLeap, JulianDay, FromJulianDay, DayNumber, DateOf;
    if n >= -32044 {
      DecodeAgrees(n);
      DateOfIs(n);
      FirstNumber();
      DayNumberOrder(DateOf(n), FIRST);
      EncodeAgrees(DateOf(n));
    } else {
      DecodeBelow(n);
    }
  }

  lemma FirstNumber()
    ensures IsDate(FIRST) && DayNumber(FIRST) == -32044
  {
  }

  // A date is recovered from its day number exactly from -4800-03-01 on.
  lemma EncodeExact(t: Date)
    requires IsDate(t)
    ensures FromJulianDay(JulianDay(t)) == t <==> !Before(t, FIRST)
  {
    hide IsLeap, JulianDay, FromJulianDay, DayNumber, DateOf;
    FirstNumber();
    DayNumberOrder(t, FIRST);
    if Before(t, FIRST) {
      EncodeBelow(t);
      DecodeExact(JulianDay(t));
    } else {
      EncodeAgrees(t);
      DayNumberIs(t);
      DecodeAgrees(JulianDay(t));
    }
  }

  // The same day number twice: the last day before -4800-03-01 and that day.
  lemma DayNumberRepeated()
    ensures IsDate(Date(-4800, 2, 29)) && JulianDay(Date(-4800, 2, 29)) == JulianDay(FIRST)
  {
  }

  lemma JulianDayOrder(s: Date, t: Date)
    requires IsDate(s) && IsDate(t) && !Before(s, FIRST) && !Before(t, FIRST)
    ensures Before(s, t) <==> JulianDay(s) < JulianDay(t)
  {
    hide IsLeap, JulianDay, DayNumber, DateOf;
    EncodeAgrees(s);
    EncodeAgrees(t);
    DayNumberOrder(s, t);
  }

  // Day numbers count days: the next date has the next number; 1970-01-01 is day 2440588, a Thursday.
  lemma JulianDayCounts(t: Date)
    requires IsDate(t) && !Before(t, FIRST)
    ensures JulianDay(NextDate(t)) == JulianDay(t) + 1
    ensures JulianDay(Date(1970, 1, 1)) == EPOCH && WeekDay(EPOCH) == 4
  {
    hide IsLeap, DayNumber, JulianDay;
    EncodeAgrees(t);
    DayNumberNext(t);
    EncodeAgrees(NextDate(t));
    EpochIs();
  }

  lemma EpochIs()
    ensures JulianDay(Date(1970, 1, 1)) == EPOCH && WeekDay(EPOCH) == 4
  {
  }

  const EPOCH := 2440588

  // Week days follow each other; the number is in range exactly when the remainder does not go negative.
  lemma WeekDayCycles(n: int)
    ensures 0 <= WeekDay(n) < 7 <==> n >= -1 || (n + 1) % 7 == 0
    ensures n >= -1 ==> WeekDay(n + 1) == (WeekDay(n) + 1) % 7
  {
    if n < -1 {
      var q := (-(n + 1)) / 7;
      assert WeekDay(n) == n + 1 + 7 * q && -7 < WeekDay(n) <= 0;
      assert WeekDay(n) == 0 <==> (n + 1) % 7 == 0;
    }
  }

  // ---------- 32-bit arithmetic ----------

  predicate Int32(x: int) {
    -0x8000_0000 <= x < 0x8000_0000
  }

  // No intermediate value of getYearMonthDay overflows an int.
  predicate DecodeFits(n: int) {
    var a := n + 32044;
    var b := TruncDiv(4 * a + 3, 146097);
    var c := a - TruncDiv(b * 146097, 4);
    var d := TruncDiv(4 * c + 3, 1461);
    var e := c - TruncDiv(1461 * d, 4);
    var m := TruncDiv(5 * e + 2, 153);
    && Int32(n) && Int32(a) && Int32(4 * a) && Int32(4 * a + 3) && Int32(b * 146097) && Int32(c)
    && Int32(4 * c + 3) && Int32(1461 * d) && Int32(5 * e + 2) && Int32(153 * m + 2) && Int32(b * 100 + d - 4800)
  }

  const EARLIEST := -536902956
  const LAST := 536838867

  // Exactly for these day numbers getYearMonthDay stays within 32 bits.
  lemma DecodeFitsExact(n: int)
    ensures DecodeFits(n) <==> EARLIEST <= n <= LAST
  {
    hide YearOf, MonthOf;
    if -32044 <= n <= LAST {
      FitsAbove(n);
    } else if EARLIEST <= n < -32044 {
      FitsBelow(n);
    }
  }

  lemma FitsAbove(n: int)
    requires -32044 <= n <= LAST
    ensures DecodeFits(n)
  {
    var a := n + 32044;
    CenturyOf(a);
    CenturyLength((4 * a + 3) / 146097);
    var c := a - CenturyStart((4 * a + 3) / 146097);
    var d := (4 * c + 3) / 1461;
    assert 0 <= d < 100 && 0 <= c - 1461 * d / 4 < 366;
  }

  // What truncating division leaves of a negative number of days is negative and shorter than a period.
  lemma Leftover(a: int, period: int)
    requires a < 0 < period && (period == 146097 || period == 1461)
    ensures
      var q := TruncDiv(4 * a + 3, period);
      -period < a - TruncDiv(q * period, 4) < 0 && 4 * a + 3 <= q * period <= 0 && 4 * a + 3 <= q <= 0
  {
    var q := (-(4 * a + 3)) / period;
    assert TruncDiv(4 * a + 3, period) == -q;
    assert 0 <= q * period <= -(4 * a + 3) < (q + 1) * period;
    assert q <= q * period;
    assert TruncDiv(-q * period, 4) == -(q * period / 4);
  }

  lemma FitsBelow(n: int)
    requires EARLIEST <= n < -32044
    ensures DecodeFits(n)
  {
    hide TruncDiv;
    var a := n + 32044;
    Leftover(a, 146097);
    var b := TruncDiv(4 * a + 3, 146097);
    var c := a - TruncDiv(b * 146097, 4);
    Leftover(c, 1461);
    var d := TruncDiv(4 * c + 3, 1461);
    var e := c - TruncDiv(1461 * d, 4);
    assert 1461 * d == d * 1461;
    MonthFits(e);
  }

  lemma MonthFits(e: int)
    requires -1461 < e < 0
    ensures -7305 <= 153 * TruncDiv(5 * e + 2, 153) <= 0
  {
  }

  // No intermediate value of getJulianDayNumber overflows an int.
  predicate EncodeFits(t: Date) {
    var a := TruncDiv(14 - t.month, 12);
    var y := t.year + 4800 - a;
    var m := t.month + 12 * a - 3;
    var days := t.day + TruncDiv(153 * m + 2, 5);
    && Int32(t.year + 4800) && Int32(y) && Int32(153 * m + 2) && Int32(y * 365) && Int32(days + y * 365)
    && Int32(days + y * 365 + TruncDiv(y, 4)) && Int32(JulianDay(t) + 32045) && Int32(JulianDay(t))
  }

  // Encoding what was decoded without overflow does not overflow either.
  lemma EncodeFitsToo(n: int)
    requires -32044 <= n <= LAST
    ensures EncodeFits(FromJulianDay(n))
  {
    hide YearOf, MonthOf, IsLeap, DateOf;
    DecodeAgrees(n);
    DecodeExact(n);
    DateOfIs(n);
    var t := FromJulianDay(n);
    MarchRange(t);
    assert TruncDiv(14 - t.month, 12) == if t.month <= 2 then 1 else 0;
    var y := ToMarch(t).y;
    assert y >= 0 && 365 * y <= n + 32044;
  }
}
