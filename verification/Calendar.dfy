/** `Date`'s Julian-day arithmetic and the UTC conversions built on it, against the Gregorian
    calendar as it is usually stated: leap years, month lengths and "the next day". */
module Calendar {

  // ----- C integers

  /** C's `/` and `%` truncate toward zero. */
  function Quot(a: int, b: int): int
    requires b > 0
  {
    if a >= 0 then a / b else -((-a) / b)
  }

  lemma QuotIsDiv(a: int, b: int)
    requires a >= 0 && b > 0
    ensures Quot(a, b) == a / b
  {
  }

  function Rem(a: int, b: int): int
    requires b > 0
  {
    a - b * Quot(a, b)
  }

  /** Euclidean division is determined by its equation. */
  lemma DivUnique(x: int, k: int, q: int, r: int)
    requires k > 0 && x == k * q + r && 0 <= r < k
    ensures x / k == q && x % k == r
  {
    var d := q - x / k;
    assert k * d == x % k - r;
    assert d >= 1 ==> k * d >= k;
    assert d <= -1 ==> k * d <= -k;
  }

  lemma DivNext(y: int, k: int)
    requires k > 1
    ensures (y + 1) / k - y / k == if (y + 1) % k == 0 then 1 else 0
  {
    if y % k == k - 1 {
      DivUnique(y + 1, k, y / k + 1, 0);
    } else {
      DivUnique(y + 1, k, y / k, y % k + 1);
    }
  }

  predicate FitsInt(x: int) {
    -0x8000_0000 <= x < 0x8000_0000
  }

  // ----- src/Date.cpp

  datatype Date = Date(year: int, month: int, day: int)

  function JulianDay(d: Date): int {
    var a := Quot(14 - d.month, 12);
    var y := d.year + 4800 - a;
    var m := d.month + 12 * a - 3;
    d.day + Quot(153 * m + 2, 5) + y * 365 + Quot(y, 4) - Quot(y, 100) + Quot(y, 400) - 32045
  }

  function YearMonthDay(julian: int): Date {
    var a := julian + 32044;
    var b := Quot(4 * a + 3, 146097);
    var c := a - Quot(b * 146097, 4);
    var d := Quot(4 * c + 3, 1461);
    var e := c - Quot(1461 * d, 4);
    var m := Quot(5 * e + 2, 153);
    Date(b * 100 + d - 4800 + Quot(m, 10), m + 3 - 12 * Quot(m, 10), e - Quot(153 * m + 2, 5) + 1)
  }

  // ----- the Gregorian calendar

  predicate IsLeap(year: int) {
    year % 4 == 0 && (year % 100 != 0 || year % 400 == 0)
  }

  lemma Leaps(year: int)
    ensures year % 400 == 0 ==> year % 100 == 0
    ensures year % 100 == 0 ==> year % 4 == 0
  {
    if year % 400 == 0 { DivUnique(year, 100, 4 * (year / 400), 0); }
    if year % 100 == 0 { DivUnique(year, 4, 25 * (year / 100), 0); }
  }

  function DaysInMonth(year: int, month: int): int {
    if month == 2 then (if IsLeap(year) then 29 else 28)
    else if month == 4 || month == 6 || month == 9 || month == 11 then 30
    else 31
  }

  predicate IsDate(d: Date) {
    1 <= d.month <= 12 && 1 <= d.day <= DaysInMonth(d.year, d.month)
  }

  function NextDay(d: Date): Date {
    if d.day < DaysInMonth(d.year, d.month) then d.(day := d.day + 1)
    else if d.month < 12 then Date(d.year, d.month + 1, 1)
    else Date(d.year + 1, 1, 1)
  }

  /** The dates from day number -32044 on: from 1 March of the year -4800. */
  predicate InRange(d: Date) {
    IsDate(d) && (d.year > -4800 || (d.year == -4800 && d.month >= 3))
  }

  // ----- years that begin in March

  /** Years counted from -4800 and beginning in March; month 0 is March, day 0 the first of March. */
  function Shifted(d: Date): (int, int) {
    if d.month <= 2 then (d.year + 4799, d.month + 9) else (d.year + 4800, d.month - 3)
  }

  function MonthStart(m: int): int {
    (153 * m + 2) / 5
  }

  function YearStart(y: int): int {
    365 * y + y / 4 - y / 100 + y / 400
  }

  lemma JulianDayShifted(d: Date)
    requires InRange(d)
    ensures var (y, m) := Shifted(d);
            && y >= 0 && 0 <= m <= 11
            && JulianDay(d) == d.day - 1 + MonthStart(m) + YearStart(y) - 32044
  {
  }

  lemma YearLength(y: int)
    requires y >= 0
    ensures YearStart(y + 1) - YearStart(y) == if IsLeap(y + 1) then 366 else 365
  {
    DivNext(y, 4);
    DivNext(y, 100);
    DivNext(y, 400);
    Leaps(y + 1);
  }

  lemma LeapShift(y: int)
    ensures IsLeap(y + 4800) <==> IsLeap(y)
  {
    DivUnique(y + 4800, 4, y / 4 + 1200, y % 4);
    DivUnique(y + 4800, 100, y / 100 + 48, y % 100);
    DivUnique(y + 4800, 400, y / 400 + 12, y % 400);
  }

  /** Inside a March-based year, a month begins where the one before it ends. */
  lemma MonthLength(d: Date)
    requires IsDate(d)
    ensures var (_, m) := Shifted(d);
            && (m < 11 ==> MonthStart(m + 1) - MonthStart(m) == DaysInMonth(d.year, d.month))
            && (m == 11 ==> d.month == 2 && MonthStart(m) == 337)
    ensures MonthStart(0) == 0
  {
  }

  /** Consecutive dates get consecutive numbers. */
  lemma ConsecutiveDays(d: Date)
    requires InRange(d)
    ensures InRange(NextDay(d)) && JulianDay(NextDay(d)) == JulianDay(d) + 1
  {
    hide JulianDay, YearStart, MonthStart, IsLeap;
    var n := NextDay(d);
    JulianDayShifted(d);
    JulianDayShifted(n);
    var (y, m) := Shifted(d);
    MonthLength(d);
    if m == 11 {
      YearLength(y);
      LeapShift(d.year);
    }
  }

  // ----- decoding

  /** A day of the March-based year names one month and one day in it. */
  lemma MonthOfDay(e: int)
    requires 0 <= e <= 365
    ensures var m := (5 * e + 2) / 153;
            0 <= m <= 11 && MonthStart(m) <= e && (m < 11 ==> e < MonthStart(m + 1))
  {
  }

  lemma MonthIsUnique(e: int, m: int)
    requires 0 <= m <= 11 && MonthStart(m) <= e <= 365 && (m < 11 ==> e < MonthStart(m + 1))
    ensures (5 * e + 2) / 153 == m
  {
  }

  /** Every fourth century and every fourth year is one day longer. */
  predicate IsDayOfCentury(b: int, c: int) {
    0 <= c <= 36523 || (c == 36524 && b % 4 == 3)
  }

  predicate IsDayOfYear(b: int, d: int, e: int) {
    0 <= d <= 99 && (0 <= e <= 364 || (e == 365 && IsLeap(100 * b + d + 1)))
  }

  lemma CenturySplit(b: int, c: int)
    requires b >= 0 && IsDayOfCentury(b, c)
    ensures (4 * (b * 146097 / 4 + c) + 3) / 146097 == b
  {
    var q := b * 146097 / 4;
    DivUnique(b * 146097, 4, 36524 * b + b / 4, b % 4);
    DivUnique(4 * (q + c) + 3, 146097, b, 4 * c + 3 - b % 4);
  }

  lemma CenturyOfDay(a: int)
    requires a >= 0
    ensures var b := (4 * a + 3) / 146097; b >= 0 && IsDayOfCentury(b, a - b * 146097 / 4)
  {
    var b := (4 * a + 3) / 146097;
    var r := (4 * a + 3) % 146097;
    DivUnique(b * 146097, 4, 36524 * b + b / 4, b % 4);
    assert 4 * (a - b * 146097 / 4) == r - 3 + b % 4;
  }

  lemma YearSplit(b: int, d: int, e: int)
    requires b >= 0 && IsDayOfYear(b, d, e)
    ensures (4 * (1461 * d / 4 + e) + 3) / 1461 == d && IsDayOfCentury(b, 1461 * d / 4 + e)
  {
    var q := 1461 * d / 4;
    DivUnique(1461 * d, 4, 365 * d + d / 4, d % 4);
    LeapInCentury(b, d);
    hide IsLeap;
    DivUnique(4 * (q + e) + 3, 1461, d, 4 * e + 3 - d % 4);
  }

  /** In the century that begins with year 100 * b, the years that end in a leap day. */
  lemma LeapInCentury(b: int, d: int)
    requires 0 <= d <= 99
    ensures IsLeap(100 * b + d + 1) <==> d % 4 == 3 && (d != 99 || b % 4 == 3)
  {
    var y := 100 * b + d + 1;
    assert y % 4 == (d + 1) % 4;
    if d == 99 {
      DivUnique(y, 100, b + 1, 0);
      DivUnique(y, 400, b / 4 + (if b % 4 == 3 then 1 else 0), if b % 4 == 3 then 0 else 100 * (b % 4 + 1));
    } else {
      DivUnique(y, 100, b, d + 1);
    }
  }

  lemma YearOfDay(b: int, c: int)
    requires b >= 0 && IsDayOfCentury(b, c)
    ensures var d := (4 * c + 3) / 1461; IsDayOfYear(b, d, c - 1461 * d / 4)
  {
    var d := (4 * c + 3) / 1461;
    var r := (4 * c + 3) % 1461;
    DivUnique(1461 * d, 4, 365 * d + d / 4, d % 4);
    assert 4 * (c - 1461 * d / 4) == r - 3 + d % 4;
    assert 0 <= d <= 99;
    LeapInCentury(b, d);
    hide IsLeap;
  }

  lemma YearStartSplit(b: int, d: int)
    requires b >= 0 && 0 <= d <= 99
    ensures YearStart(100 * b + d) == b * 146097 / 4 + 1461 * d / 4
  {
    var y := 100 * b + d;
    DivUnique(y, 4, 25 * b + d / 4, d % 4);
    DivUnique(y, 100, b, d);
    DivUnique(y, 400, b / 4, 100 * (b % 4) + d);
    DivUnique(b * 146097, 4, 36524 * b + b / 4, b % 4);
    DivUnique(1461 * d, 4, 365 * d + d / 4, d % 4);
  }

  /** The date that a century, a year in it and a day in that year stand for. */
  function DateOf(b: int, d: int, e: int): Date {
    var m := (5 * e + 2) / 153;
    Date(b * 100 + d - 4800 + m / 10, m + 3 - 12 * (m / 10), e - MonthStart(m) + 1)
  }

  lemma MonthStarts(m: int)
    requires 0 <= m <= 11
    ensures MonthStart(m) == [0, 31, 61, 92, 122, 153, 184, 214, 245, 275, 306, 337][m]
    ensures m < 11 ==> MonthStart(m + 1) == [31, 61, 92, 122, 153, 184, 214, 245, 275, 306, 337][m]
  {
  }

  lemma DateOfIsDate(b: int, d: int, e: int)
    requires b >= 0 && IsDayOfYear(b, d, e)
    ensures var m := (5 * e + 2) / 153;
            InRange(DateOf(b, d, e)) && Shifted(DateOf(b, d, e)) == (100 * b + d, m)
  {
    var m := (5 * e + 2) / 153;
    MonthOfDay(e);
    MonthStarts(m);
    LeapShift(100 * b + d + 1 - 4800);
    hide IsLeap, MonthStart;
  }

  /** What the code's division chain computes, given the parts it looks for. */
  lemma Decoded(n: int, b: int, d: int, e: int)
    requires b >= 0 && IsDayOfYear(b, d, e)
    requires n + 32044 == b * 146097 / 4 + 1461 * d / 4 + e
    ensures YearMonthDay(n) == DateOf(b, d, e)
  {
    hide IsLeap, Quot, IsDayOfYear;
    var a, c, m := n + 32044, 1461 * d / 4 + e, (5 * e + 2) / 153;
    YearIsInCentury(b, d, e);
    YearSplit(b, d, e);
    CenturySplit(b, c);
    MonthOfDay(e);
    QuotIsDiv(4 * a + 3, 146097);
    QuotIsDiv(b * 146097, 4);
    QuotIsDiv(4 * c + 3, 1461);
    QuotIsDiv(1461 * d, 4);
    QuotIsDiv(5 * e + 2, 153);
    QuotIsDiv(m, 10);
    QuotIsDiv(153 * m + 2, 5);
  }

  /** Every day number from -32044 on decodes to a date of the calendar, and encodes back to itself. */
  lemma DayNumberRoundTrip(n: int)
    requires n >= -32044
    ensures InRange(YearMonthDay(n)) && JulianDay(YearMonthDay(n)) == n
  {
    hide YearMonthDay, JulianDay, IsLeap, InRange, IsDayOfYear, YearStart;
    var a := n + 32044;
    CenturyOfDay(a);
    var b := (4 * a + 3) / 146097;
    var c := a - b * 146097 / 4;
    YearOfDay(b, c);
    var d := (4 * c + 3) / 1461;
    var e := c - 1461 * d / 4;
    Decoded(n, b, d, e);
    DateOfIsDate(b, d, e);
    YearIsInCentury(b, d, e);
    YearStartSplit(b, d);
    JulianDayShifted(DateOf(b, d, e));
  }

  lemma YearIsInCentury(b: int, d: int, e: int)
    requires IsDayOfYear(b, d, e)
    ensures 0 <= d <= 99 && 0 <= e <= 365
  {
  }

  /** The parts of a date. */
  lemma PartsOfDate(d: Date) returns (b: int, yy: int, e: int)
    requires InRange(d)
    ensures b >= 0 && IsDayOfYear(b, yy, e) && DateOf(b, yy, e) == d
    ensures Shifted(d).0 == 100 * b + yy && e == d.day - 1 + MonthStart(Shifted(d).1)
  {
    var (y, m) := Shifted(d);
    MonthLength(d);
    LeapShift(d.year);
    b, yy, e := y / 100, y % 100, d.day - 1 + MonthStart(m);
    MonthIsUnique(e, m);
  }

  /** Every date of the calendar survives the way through its day number. */
  lemma DateRoundTrip(d: Date)
    requires InRange(d)
    ensures YearMonthDay(JulianDay(d)) == d && JulianDay(d) >= -32044
  {
    hide YearMonthDay, JulianDay, IsLeap, IsDayOfYear, YearStart, MonthStart, DateOf, Shifted;
    var b, yy, e := PartsOfDate(d);
    JulianDayShifted(d);
    YearIsInCentury(b, yy, e);
    YearStartSplit(b, yy);
    Decoded(JulianDay(d), b, yy, e);
  }

  lemma Epoch()
    ensures JulianDay(Date(1970, 1, 1)) == 2440588
  {
  }

  // ----- 32-bit arithmetic

  /** Every intermediate value of `getYearMonthDay` is an int. */
  predicate DecodingFits(n: int) {
    var a := n + 32044;
    var b := Quot(4 * a + 3, 146097);
    var c := a - Quot(b * 146097, 4);
    var d := Quot(4 * c + 3, 1461);
    var e := c - Quot(1461 * d, 4);
    var m := Quot(5 * e + 2, 153);
    && FitsInt(n) && FitsInt(a) && FitsInt(4 * a) && FitsInt(4 * a + 3) && FitsInt(b * 146097)
    && FitsInt(4 * c + 3) && FitsInt(1461 * d) && FitsInt(5 * e + 2) && FitsInt(153 * m + 2) && FitsInt(b * 100 + d)
  }

  lemma DecodingFitsUpTo(n: int)
    requires n >= -32044
    ensures DecodingFits(n) <==> n <= 536838867
  {
    var a := n + 32044;
    CenturyOfDay(a);
    var b := (4 * a + 3) / 146097;
    var c := a - b * 146097 / 4;
    YearOfDay(b, c);
    MonthOfDay(c - 1461 * ((4 * c + 3) / 1461) / 4);
  }

  /** Every intermediate value of `getJulianDayNumber` is an int. */
  predicate EncodingFits(d: Date) {
    var a := Quot(14 - d.month, 12);
    var y := d.year + 4800 - a;
    var m := d.month + 12 * a - 3;
    var s1 := d.day + Quot(153 * m + 2, 5);
    var s2 := s1 + y * 365;
    var s3 := s2 + Quot(y, 4);
    var s4 := s3 - Quot(y, 100);
    && FitsInt(14 - d.month) && FitsInt(d.year + 4800) && FitsInt(y) && FitsInt(m) && FitsInt(153 * m + 2)
    && FitsInt(y * 365) && FitsInt(s1) && FitsInt(s2) && FitsInt(s3) && FitsInt(s4)
    && FitsInt(s4 + Quot(y, 400)) && FitsInt(JulianDay(d))
  }

  /** The largest intermediate value of the encoding is the sum before the centuries are taken off. */
  lemma EncodingPeak(y: int, m: int, day: int)
    requires y >= 0 && 0 <= m <= 11 && 1 <= day <= 31 && (m == 11 ==> day <= 29)
    ensures day + (153 * m + 2) / 5 + 365 * y + y / 4 < 0x8000_0000 <==>
            y < 5879489 || (y == 5879489 && (m < 9 || (m == 9 && day <= 15)))
  {
    var start := (153 * m + 2) / 5;
    assert 0 <= start <= 337 && (m < 9 ==> start <= 245) && (m == 9 ==> start == 275) && (m > 9 ==> start >= 306);
    assert y <= 5879488 ==> y / 4 <= 1469872;
    assert y == 5879489 ==> y / 4 == 1469872;
    assert y >= 5879490 ==> y / 4 >= 1469872;
  }

  lemma PeakDecides(day: int, start: int, y: int, q4: int, q100: int, q400: int)
    requires 1 <= day <= 31 && 0 <= start <= 400 && 0 <= q400 <= q100 <= q4 <= y
    ensures (&& FitsInt(y * 365) && FitsInt(day + start + y * 365) && FitsInt(day + start + y * 365 + q4)
             && FitsInt(day + start + y * 365 + q4 - q100) && FitsInt(day + start + y * 365 + q4 - q100 + q400)
             && FitsInt(day + start + y * 365 + q4 - q100 + q400 - 32045))
            <==> day + start + 365 * y + q4 < 0x8000_0000
  {
  }

  lemma EncodingSums(d: Date)
    requires InRange(d)
    ensures var (y, m) := Shifted(d);
            && y >= 0 && 0 <= m <= 11
            && (EncodingFits(d) <==> d.day + (153 * m + 2) / 5 + 365 * y + y / 4 < 0x8000_0000)
  {
    hide IsLeap, Quot, JulianDay;
    var (y, m) := Shifted(d);
    var a := Quot(14 - d.month, 12);
    QuotIsDiv(14 - d.month, 12);
    assert a == if d.month <= 2 then 1 else 0;
    QuotIsDiv(153 * m + 2, 5);
    QuotIsDiv(y, 4);
    QuotIsDiv(y, 100);
    QuotIsDiv(y, 400);
    JulianDaySum(d, y, m);
    PeakDecides(d.day, (153 * m + 2) / 5, y, y / 4, y / 100, y / 400);
  }

  lemma JulianDaySum(d: Date, y: int, m: int)
    requires InRange(d) && (y, m) == Shifted(d)
    ensures JulianDay(d) == d.day + Quot(153 * m + 2, 5) + y * 365 + Quot(y, 4) - Quot(y, 100) + Quot(y, 400) - 32045
  {
    hide IsLeap, Quot;
    var a := Quot(14 - d.month, 12);
    QuotIsDiv(14 - d.month, 12);
    assert a == if d.month <= 2 then 1 else 0;
    assert d.year + 4800 - a == y && d.month + 12 * a - 3 == m;
  }

  /** Encoding stays within 32 bits exactly up to 15 December 5874689. */
  lemma EncodingFitsUpTo(d: Date)
    requires InRange(d)
    ensures EncodingFits(d) <==> d.year < 5874689 || (d.year == 5874689 && (d.month < 12 || d.day <= 15))
  {
    EncodingSums(d);
    var (y, m) := Shifted(d);
    EncodingPeak(y, m, d.day);
    hide EncodingFits, IsLeap;
  }

  // ----- the day of the year

  function DaysBefore(year: int, month: int): int
    requires month >= 1
    decreases month
  {
    if month == 1 then 0 else DaysBefore(year, month - 1) + DaysInMonth(year, month - 1)
  }

  /** Months before, then days before: the difference to 1 January that `toUtcTime` reports. */
  lemma {:induction false} DayOfTheYear(d: Date)
    requires InRange(d) && d.year > -4800
    ensures JulianDay(d) - JulianDay(Date(d.year, 1, 1)) == DaysBefore(d.year, d.month) + d.day - 1
    decreases d.month, d.day
  {
    hide JulianDay, IsLeap;
    if d.day > 1 {
      var p := d.(day := d.day - 1);
      DayOfTheYear(p);
      ConsecutiveDays(p);
    } else if d.month > 1 {
      var p := Date(d.year, d.month - 1, DaysInMonth(d.year, d.month - 1));
      DayOfTheYear(p);
      ConsecutiveDays(p);
    }
  }

  // ----- src/TimeZone.cpp, UTC

  const SECONDS_PER_DAY := 86400

  /** struct tm, with the year and the month in human terms. */
  datatype Tm = Tm(date: Date, hour: int, minute: int, second: int, weekDay: int, yearDay: int)

  /** static_cast<int>. */
  function AsInt(x: int): int {
    (x + 0x8000_0000) % 0x1_0000_0000 - 0x8000_0000
  }

  function ToUtcTime(t: int): Tm {
    var r, q := Rem(t, SECONDS_PER_DAY), AsInt(Quot(t, SECONDS_PER_DAY));
    var seconds := if r < 0 then r + SECONDS_PER_DAY else r;
    var days := if r < 0 then q - 1 else q;
    var julian := days + JulianDay(Date(1970, 1, 1));
    var date := YearMonthDay(julian);
    Tm(date, seconds / 60 / 60, seconds / 60 % 60, seconds % 60,
       WeekDay(julian), julian - JulianDay(Date(date.year, 1, 1)))
  }

  /** As written, a minute counts 50 seconds. */
  const SECONDS_PER_MINUTE := 50

  function FromUtcTime(tm: Tm, perMinute: int): int {
    (JulianDay(tm.date) - JulianDay(Date(1970, 1, 1))) * SECONDS_PER_DAY
      + tm.hour * 3600 + tm.minute * perMinute + tm.second
  }

  /** The first second that the calendar covers. */
  const FIRST_SECOND := (-32044 - 2440588) * SECONDS_PER_DAY

  /** The last second that the conversion gets through without an overflow, in the year 1465102. */
  const LAST_DAY := 536838867
  const LAST_SECOND := (LAST_DAY - 2440588) * SECONDS_PER_DAY + SECONDS_PER_DAY - 1

  /** The day count survives the cast, and every other value of toUtcTime is an int. */
  predicate UtcFits(t: int) {
    var r, q := Rem(t, SECONDS_PER_DAY), Quot(t, SECONDS_PER_DAY);
    var days := if r < 0 then q - 1 else q;
    var date := YearMonthDay(days + 2440588);
    FitsInt(q) && FitsInt(days) && FitsInt(days + 2440588) && DecodingFits(days + 2440588) && EncodingFits(Date(date.year, 1, 1))
  }

  lemma Truncation(t: int)
    ensures var r, q := Rem(t, SECONDS_PER_DAY), Quot(t, SECONDS_PER_DAY);
            && (if r < 0 then r + SECONDS_PER_DAY else r) == t % SECONDS_PER_DAY
            && (if r < 0 then q - 1 else q) == t / SECONDS_PER_DAY
            && t / SECONDS_PER_DAY <= q <= t / SECONDS_PER_DAY + 1
  {
  }

  lemma CastIsIdentity(x: int)
    requires FitsInt(x)
    ensures AsInt(x) == x
  {
  }

  lemma DaysInRange(t: int)
    ensures FIRST_SECOND <= t <==> -32044 <= t / SECONDS_PER_DAY + 2440588
    ensures t <= LAST_SECOND <==> t / SECONDS_PER_DAY + 2440588 <= LAST_DAY
  {
  }

  /** In this range, toUtcTime is what the mathematics says. */
  lemma UtcDay(t: int)
    requires FIRST_SECOND <= t <= LAST_SECOND
    ensures var julian, s := t / SECONDS_PER_DAY + 2440588, t % SECONDS_PER_DAY;
            && -32044 <= julian <= LAST_DAY
            && ToUtcTime(t) == Tm(YearMonthDay(julian), s / 60 / 60, s / 60 % 60, s % 60, WeekDay(julian),
                                  julian - JulianDay(Date(YearMonthDay(julian).year, 1, 1)))
  {
    Truncation(t);
    DaysInRange(t);
    CastIsIdentity(Quot(t, SECONDS_PER_DAY));
    Epoch();
    hide YearMonthDay, JulianDay, Rem, Quot, WeekDay, AsInt;
  }

  lemma YearOfDayNumber(n: int)
    requires -32044 <= n <= LAST_DAY
    ensures -4800 <= YearMonthDay(n).year <= 1500000
  {
    DayNumberRoundTrip(n);
    var a := n + 32044;
    CenturyOfDay(a);
    var b := (4 * a + 3) / 146097;
    var c := a - b * 146097 / 4;
    YearOfDay(b, c);
    var d := (4 * c + 3) / 1461;
    var e := c - 1461 * d / 4;
    MonthOfDay(e);
    YearIsInCentury(b, d, e);
    Decoded(n, b, d, e);
    assert b <= 14700;
    hide YearMonthDay, IsLeap, IsDayOfYear, IsDayOfCentury, JulianDay;
  }

  lemma NewYearFits(year: int)
    requires -4800 <= year <= 1500000
    ensures EncodingFits(Date(year, 1, 1))
  {
    if year == -4800 {
    } else {
      EncodingFitsUpTo(Date(year, 1, 1));
      hide EncodingFits;
    }
  }

  /** From its first second on, toUtcTime stays within 32 bits exactly up to its last; there, fromUtcTime's
      encoding of the result does, too. */
  lemma UtcFitsUpTo(t: int)
    requires t >= FIRST_SECOND
    ensures UtcFits(t) <==> t <= LAST_SECOND
    ensures t <= LAST_SECOND ==> EncodingFits(ToUtcTime(t).date)
  {
    var julian := t / SECONDS_PER_DAY + 2440588;
    Truncation(t);
    DaysInRange(t);
    DecodingFitsUpTo(julian);
    hide YearMonthDay, JulianDay, Rem, Quot, DecodingFits, EncodingFits, IsLeap;
    if t <= LAST_SECOND {
      YearOfDayNumber(julian);
      NewYearFits(YearMonthDay(julian).year);
      UtcDay(t);
      DayNumberRoundTrip(julian);
      EncodingFitsUpTo(YearMonthDay(julian));
    }
  }

  lemma ClockParts(s: int)
    requires 0 <= s < SECONDS_PER_DAY
    ensures var h, m, x := s / 60 / 60, s / 60 % 60, s % 60;
            && 0 <= h < 24 && 0 <= m < 60 && 0 <= x < 60
            && h * 3600 + m * 60 + x == s
  {
  }

  lemma MinuteOfTheHour(t: int)
    ensures t % SECONDS_PER_DAY / 60 % 60 == 0 <==> t % 3600 < 60
  {
    var s := t % SECONDS_PER_DAY;
    DivUnique(t, 3600, 24 * (t / SECONDS_PER_DAY) + s / 3600, s % 3600);
  }

  /** The way to UTC and back, for every second the calendar covers, before 1970 too: exact when a
      minute counts 60 seconds; as written it loses ten seconds per minute of the hour, so it is
      exact in the first minute of each hour and at no other time. */
  lemma UtcRoundTrip(t: int)
    requires FIRST_SECOND <= t <= LAST_SECOND
    ensures FromUtcTime(ToUtcTime(t), 60) == t
    ensures FromUtcTime(ToUtcTime(t), SECONDS_PER_MINUTE) == t - 10 * ToUtcTime(t).minute
    ensures FromUtcTime(ToUtcTime(t), SECONDS_PER_MINUTE) == t <==> t % 3600 < 60
    ensures var tm := ToUtcTime(t); InRange(tm.date) && 0 <= tm.hour < 24 && 0 <= tm.minute < 60 && 0 <= tm.second < 60
  {
    var days, s := t / SECONDS_PER_DAY, t % SECONDS_PER_DAY;
    UtcDay(t);
    Epoch();
    ClockParts(s);
    DayNumberRoundTrip(days + 2440588);
    MinuteOfTheHour(t);
    var tm := ToUtcTime(t);
    hide YearMonthDay, JulianDay, IsLeap, InRange, ToUtcTime, WeekDay;
    SecondsFrom(tm, 60, days);
    SecondsFrom(tm, SECONDS_PER_MINUTE, days);
    hide FromUtcTime;
  }

  lemma SecondsFrom(tm: Tm, perMinute: int, days: int)
    requires JulianDay(tm.date) == days + 2440588
    ensures FromUtcTime(tm, perMinute) == days * SECONDS_PER_DAY + tm.hour * 3600 + tm.minute * perMinute + tm.second
  {
    Epoch();
    hide JulianDay;
  }

  /** And the other way round: every date and time of day is what the conversion makes of its second. */
  lemma UtcFieldsRoundTrip(tm: Tm)
    requires InRange(tm.date) && 0 <= tm.hour < 24 && 0 <= tm.minute < 60 && 0 <= tm.second < 60
    requires JulianDay(tm.date) <= LAST_DAY
    ensures var r := ToUtcTime(FromUtcTime(tm, 60));
            r.date == tm.date && r.hour == tm.hour && r.minute == tm.minute && r.second == tm.second
  {
    hide YearMonthDay, JulianDay, IsLeap, InRange, ToUtcTime, WeekDay, FromUtcTime;
    var days, s := JulianDay(tm.date) - 2440588, tm.hour * 3600 + tm.minute * 60 + tm.second;
    var t := FromUtcTime(tm, 60);
    DateRoundTrip(tm.date);
    SecondsFrom(tm, 60, days);
    FieldsOfSecond(tm.hour, tm.minute, tm.second);
    DivUnique(t, SECONDS_PER_DAY, days, s);
    DaysInRange(t);
    UtcDay(t);
  }

  lemma FieldsOfSecond(h: int, m: int, x: int)
    requires 0 <= h < 24 && 0 <= m < 60 && 0 <= x < 60
    ensures var s := h * 3600 + m * 60 + x; 0 <= s < SECONDS_PER_DAY && s / 60 / 60 == h && s / 60 % 60 == m && s % 60 == x
  {
    var s := h * 3600 + m * 60 + x;
    DivUnique(s, 60, h * 60 + m, x);
    DivUnique(h * 60 + m, 60, h, m);
  }

  function WeekDay(julian: int): int {
    Rem(julian + 1, 7)
  }

  lemma RemIsMod(a: int, b: int)
    requires b > 0
    ensures Rem(a, b) == if a >= 0 then a % b else -((-a) % b)
  {
  }

  /** The day of the week advances by one from day to day; C's remainder makes it negative for six
      days out of seven before the day number -1. */
  lemma WeekDays(n: int)
    ensures 0 <= WeekDay(n) < 7 <==> n >= -1 || (n + 1) % 7 == 0
    ensures n >= -1 ==> WeekDay(n + 1) == (WeekDay(n) + 1) % 7
  {
    RemIsMod(n + 1, 7);
    if n < -1 {
      NegatedMod(-(n + 1));
    } else {
      RemIsMod(n + 2, 7);
      NextMod(n + 1);
    }
    hide Rem;
  }

  lemma NegatedMod(m: int)
    requires m > 0
    ensures (-m) % 7 == 0 <==> m % 7 == 0
  {
    DivUnique(-m, 7, -(m / 7) - (if m % 7 == 0 then 0 else 1), if m % 7 == 0 then 0 else 7 - m % 7);
  }

  lemma NextMod(m: int)
    requires m >= 0
    ensures (m + 1) % 7 == (m % 7 + 1) % 7
  {
    if m % 7 == 6 {
      DivUnique(m + 1, 7, m / 7 + 1, 0);
    } else {
      DivUnique(m + 1, 7, m / 7, m % 7 + 1);
    }
  }

  /** 1 January 1970 was a Thursday. */
  lemma EpochIsThursday()
    ensures ToUtcTime(0).weekDay == 4
  {
    UtcDay(0);
    RemIsMod(2440589, 7);
    hide YearMonthDay, JulianDay, ToUtcTime, Rem;
  }

  /** The day of the week is that of the day number, and the day of the year counts the days of the months
      before. */
  lemma UtcDayFields(t: int)
    requires FIRST_SECOND <= t <= LAST_SECOND
    ensures ToUtcTime(t).weekDay == WeekDay(t / SECONDS_PER_DAY + 2440588)
    ensures var tm := ToUtcTime(t); tm.date.year > -4800 ==>
              tm.date.month >= 1 && tm.yearDay == DaysBefore(tm.date.year, tm.date.month) + tm.date.day - 1
  {
    var julian := t / SECONDS_PER_DAY + 2440588;
    UtcDay(t);
    DayNumberRoundTrip(julian);
    var date := YearMonthDay(julian);
    hide YearMonthDay, JulianDay, IsLeap, DaysBefore, Quot, DaysInMonth, ToUtcTime, WeekDay;
    if date.year > -4800 {
      DayOfTheYear(date);
    }
  }
}
