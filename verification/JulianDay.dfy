/** muduo's Date.cc: dates of the proleptic Gregorian calendar to Julian day numbers and back, in 32-bit ints. */
module JulianDay {
  type int32 = x: int | -0x8000_0000 <= x <= 0x7FFF_FFFF

  datatype Date = Date(year: int, month: int, day: int)

  /** The division of C: towards zero. */
  function Div(a: int, b: int): int
    requires b > 0
  {
    if a >= 0 then a / b else -(-a / b)
  }

  // The years all of whose dates getJulianDayNumber takes without leaving the 32 bits.
  const MIN_YEAR := -5_884_289
  const MAX_YEAR := 5_874_688
  // The numbers that getYearMonthDay takes without leaving the 32 bits.
  const MIN_NUMBER := -536_902_956
  const MAX_NUMBER := 536_838_867

  /** getJulianDayNumber; every product and every partial sum is an int32, so nothing overflows. */
  function GetJulianDayNumber(year: int32, month: int32, day: int32): (n: int32)
    requires MIN_YEAR <= year <= MAX_YEAR && 1 <= month <= 12 && 1 <= day <= 31
  {
    var a: int32 := Div(14 - month, 12);
    var y: int32 := year + 4800 - a;
    var m: int32 := month + 12 * a - 3;
    var months: int32 := 153 * m + 2;
    var days: int32 := y * 365;
    var sum1: int32 := day + Div(months, 5);
    var sum2: int32 := sum1 + days;
    var sum3: int32 := sum2 + Div(y, 4);
    var sum4: int32 := sum3 - Div(y, 100);
    var sum5: int32 := sum4 + Div(y, 400);
    sum5 - 32045
  }

  /** getYearMonthDay */
  function GetYearMonthDay(julianDayNumber: int32): Date
    requires MIN_NUMBER <= julianDayNumber <= MAX_NUMBER
  {
    var a: int32 := julianDayNumber + 32044;
    var a4: int32 := 4 * a + 3;
    var b: int32 := Div(a4, 146097);
    var b4: int32 := b * 146097;
    var c: int32 := a - Div(b4, 4);
    var c4: int32 := 4 * c + 3;
    var d: int32 := Div(c4, 1461);
    var d4: int32 := 1461 * d;
    var e: int32 := c - Div(d4, 4);
    var e5: int32 := 5 * e + 2;
    var m: int32 := Div(e5, 153);
    var m5: int32 := 153 * m + 2;
    Date(b * 100 + d - 4800 + Div(m, 10), m + 3 - 12 * Div(m, 10), e - Div(m5, 5) + 1)
  }

  // ---------- the calendar ----------

  predicate IsLeap(year: int) { (year % 4 == 0 && year % 100 != 0) || year % 400 == 0 }

  function MonthLength(year: int, month: int): int
    requires 1 <= month <= 12
  {
    if month == 2 then (if IsLeap(year) then 29 else 28)
    else if month == 4 || month == 6 || month == 9 || month == 11 then 30
    else 31
  }

  predicate IsDate(d: Date) { 1 <= d.month <= 12 && 1 <= d.day <= MonthLength(d.year, d.month) }

  function NextDay(d: Date): Date
    requires IsDate(d)
  {
    if d.day < MonthLength(d.year, d.month) then d.(day := d.day + 1)
    else if d.month < 12 then Date(d.year, d.month + 1, 1)
    else Date(d.year + 1, 1, 1)
  }

  /** The dates from 1 March 4801 BC on, where the count of days begins. */
  predicate InEra(d: Date) { d.year > -4800 || (d.year == -4800 && d.month >= 3) }

  /** A date that getJulianDayNumber takes. */
  predicate Fits(d: Date) { IsDate(d) && MIN_YEAR <= d.year <= MAX_YEAR }

  predicate InRange(d: Date) { Fits(d) && InEra(d) }

  // ---------- years that begin in March ----------

  /** Year 100 * century + year of the era, month counted from March, and day; day 0 is the first of March of year 0. */
  datatype March = March(century: int, year: int, month: int, day: int)

  function DayOfYear(month: int, day: int): int { day - 1 + (153 * month + 2) / 5 }

  function DayCount(t: March): int { 146097 * t.century / 4 + (1461 * t.year / 4 + DayOfYear(t.month, t.day)) }

  function ToMarch(d: Date): March {
    var early := if d.month <= 2 then 1 else 0;
    var y := d.year + 4800 - early;
    March(y / 100, y % 100, d.month + 12 * early - 3, d.day)
  }

  function FromMarch(t: March): Date {
    var late := t.month / 10;
    Date(t.century * 100 + t.year - 4800 + late, t.month + 3 - 12 * late, t.day)
  }

  /** Length of the months counted from March; the last one, February, has its leap day. */
  function MarchLength(t: March): int {
    if t.month == 11 then (if t.year % 4 == 3 && (t.year != 99 || t.century % 4 == 3) then 29 else 28)
    else if t.month == 1 || t.month == 3 || t.month == 6 || t.month == 8 then 30
    else 31
  }

  predicate IsMarch(t: March) {
    0 <= t.century && 0 <= t.year < 100 && 0 <= t.month < 12 && 1 <= t.day <= MarchLength(t)
  }

  lemma Years(y: int)
    requires y >= 0
    ensures var c, z := y / 100, y % 100;
            365 * y + y / 4 - y / 100 + y / 400 == 146097 * c / 4 + 1461 * z / 4
  {
    var c, z := y / 100, y % 100;
    assert y == 100 * c + z;
    assert y / 4 == 25 * c + z / 4;
    assert y / 400 == c / 4;
    assert 146097 * c / 4 == 36524 * c + c / 4;
    assert 1461 * z / 4 == 365 * z + z / 4;
  }

  /** The formula of getJulianDayNumber is the day count of the March date. */
  lemma NumberIsDayCount(d: Date)
    requires InRange(d)
    ensures GetJulianDayNumber(d.year, d.month, d.day) == DayCount(ToMarch(d)) - 32044
  {
    var early := if d.month <= 2 then 1 else 0;
    assert Div(14 - d.month, 12) == early;
    Years(d.year + 4800 - early);
  }

  lemma Mod4(q: int, r: int)
    ensures (4 * q + r) % 4 == r % 4
  {
  }

  lemma Mod100(q: int, r: int)
    ensures (100 * q + r) % 100 == r % 100
  {
  }

  lemma Mod400(q: int, r: int)
    ensures (400 * q + r) % 400 == r % 400
  {
  }

  lemma LeapInMarchYears(c: int, z: int)
    requires 0 <= c && 0 <= z < 100
    ensures IsLeap(100 * c + z - 4800 + 1) <==> z % 4 == 3 && (z != 99 || c % 4 == 3)
  {
    var y := 100 * c + z - 4800 + 1;
    Mod4(25 * c - 1200, z + 1);
    Mod100(c - 48, z + 1);
    if z == 99 {
      var q, r := c / 4, c % 4;
      assert y == 400 * (q - 12) + 100 * (r + 1);
      Mod400(q - 12, 100 * (r + 1));
    } else {
      MultipleOf400(y);
    }
  }

  lemma MultipleOf400(y: int)
    ensures y % 400 == 0 ==> y % 100 == 0
  {
    if y % 400 == 0 {
      Mod100(4 * (y / 400), 0);
    }
  }

  lemma MarchOfDate(d: Date)
    requires InRange(d)
    ensures IsMarch(ToMarch(d)) && FromMarch(ToMarch(d)) == d
  {
    var t := ToMarch(d);
    LeapInMarchYears(t.century, t.year);
  }

  lemma DateOfMarch(t: March)
    requires IsMarch(t)
    ensures IsDate(FromMarch(t)) && ToMarch(FromMarch(t)) == t
  {
    LeapInMarchYears(t.century, t.year);
    var y := 100 * t.century + t.year;
    assert y / 100 == t.century && y % 100 == t.year;
  }

  // ---------- taking a day count apart ----------

  predicate FitsCentury(c: int, r: int) { 0 <= r <= 36523 || (r == 36524 && c % 4 == 3) }

  predicate FitsYear(z: int, d: int) { 0 <= d <= 364 || (d == 365 && z % 4 == 3) }

  lemma CenturyBack(c: int, r: int)
    requires 0 <= c && FitsCentury(c, r)
    ensures (4 * (146097 * c / 4 + r) + 3) / 146097 == c
  {
    var q := 146097 * c / 4;
    assert 146097 * c - 3 <= 4 * q <= 146097 * c;
    assert c % 4 == 3 ==> 4 * q == 146097 * c - 3;
    Between(4 * (q + r) + 3, 146097, c);
  }

  lemma Between(n: int, k: int, q: int)
    requires k > 0 && k * q <= n < k * q + k
    ensures n / k == q
  {
    var d := n / k;
    assert k * q + k == k * (q + 1) && k * d + k == k * (d + 1);
    Cancel(k, q, d + 1);
    Cancel(k, d, q + 1);
  }

  lemma Cancel(k: int, a: int, b: int)
    requires k > 0 && k * a < k * b
    ensures a < b
  {
  }

  lemma YearBack(z: int, d: int)
    requires 0 <= z < 100 && FitsYear(z, d)
    ensures (4 * (1461 * z / 4 + d) + 3) / 1461 == z
  {
    var q := 1461 * z / 4;
    assert 1461 * z - 3 <= 4 * q <= 1461 * z;
    assert z % 4 == 3 ==> 4 * q == 1461 * z - 3;
    Between(4 * (q + d) + 3, 1461, z);
  }

  lemma MonthBack(t: March)
    requires IsMarch(t)
    ensures (5 * DayOfYear(t.month, t.day) + 2) / 153 == t.month
    ensures FitsYear(t.year, DayOfYear(t.month, t.day))
    ensures FitsCentury(t.century, 1461 * t.year / 4 + DayOfYear(t.month, t.day))
  {
    var m := t.month;
    assert m == 0 || m == 1 || m == 2 || m == 3 || m == 4 || m == 5
        || m == 6 || m == 7 || m == 8 || m == 9 || m == 10 || m == 11;
  }

  /** getYearMonthDay of the number of a March date is that date. */
  lemma NumberTakenApart(t: March, n: int32)
    requires IsMarch(t) && n == DayCount(t) - 32044 && 0 <= DayCount(t) && n <= MAX_NUMBER
    ensures GetYearMonthDay(n) == FromMarch(t)
  {
    hide MarchLength, Div;
    var e := DayOfYear(t.month, t.day);
    var c := 1461 * t.year / 4 + e;
    MonthBack(t);
    CenturyBack(t.century, c);
    YearBack(t.year, e);
    DivIsQuotient(4 * (n + 32044) + 3, 146097);
    DivIsQuotient(t.century * 146097, 4);
    DivIsQuotient(4 * c + 3, 1461);
    DivIsQuotient(1461 * t.year, 4);
    DivIsQuotient(5 * e + 2, 153);
    DivIsQuotient(153 * t.month + 2, 5);
    DivIsQuotient(t.month, 10);
  }

  lemma DivIsQuotient(a: int, b: int)
    requires a >= 0 && b > 0
    ensures Div(a, b) == a / b
  {
  }

  lemma CenturyOf(count: int)
    requires count >= 0
    ensures var c := (4 * count + 3) / 146097; 0 <= c && FitsCentury(c, count - 146097 * c / 4)
  {
    var c := (4 * count + 3) / 146097;
    var q := 146097 * c / 4;
    assert 146097 * c <= 4 * count + 3 < 146097 * c + 146097;
    assert 146097 * c - 3 <= 4 * q <= 146097 * c;
  }

  lemma YearOf(c: int, r: int)
    requires FitsCentury(c, r)
    ensures var z := (4 * r + 3) / 1461; 0 <= z < 100 && FitsYear(z, r - 1461 * z / 4)
  {
    var z := (4 * r + 3) / 1461;
    var p := 1461 * z / 4;
    assert 1461 * z <= 4 * r + 3 < 1461 * z + 1461;
    assert 1461 * z - 3 <= 4 * p <= 1461 * z;
  }

  /** Any day count is the day count of a March date. */
  lemma CountHasMarch(count: int) returns (t: March)
    requires count >= 0
    ensures IsMarch(t) && DayCount(t) == count
  {
    hide FitsCentury, FitsYear, IsMarch;
    var c := (4 * count + 3) / 146097;
    var r := count - 146097 * c / 4;
    CenturyOf(count);
    var z := (4 * r + 3) / 1461;
    var e := r - 1461 * z / 4;
    YearOf(c, r);
    var m := (5 * e + 2) / 153;
    t := March(c, z, m, e - (153 * m + 2) / 5 + 1);
    MonthFits(t, e, r);
  }

  lemma MonthFits(t: March, e: int, r: int)
    requires 0 <= t.century && 0 <= t.year < 100 && FitsYear(t.year, e) && FitsCentury(t.century, r)
    requires r == 1461 * t.year / 4 + e && t.month == (5 * e + 2) / 153 && t.day == e - (153 * t.month + 2) / 5 + 1
    ensures IsMarch(t)
  {
    var m := t.month;
    assert m == 0 || m == 1 || m == 2 || m == 3 || m == 4 || m == 5
        || m == 6 || m == 7 || m == 8 || m == 9 || m == 10 || m == 11;
  }

  // ---------- the promises ----------

  lemma CountNotNegative(t: March)
    requires IsMarch(t)
    ensures DayCount(t) >= 0
  {
    hide MarchLength;
    MonthBack(t);
  }

  /** Before the era the count is at most that of its first day. */
  lemma NumberBeforeEra(d: Date)
    requires Fits(d) && !InEra(d)
    ensures GetJulianDayNumber(d.year, d.month, d.day) <= -32044
  {
    var early := if d.month <= 2 then 1 else 0;
    assert Div(14 - d.month, 12) == early;
    var w := -(d.year + 4800 - early);
    assert w >= 1 && w / 4 - w / 100 + w / 400 >= 0;
    assert d.day + (153 * (d.month + 12 * early - 3) + 2) / 5 <= 366;
  }

  /** A date turned into a number and back is the same date, if and only if it is from the era. */
  lemma DateRoundTrip(d: Date)
    requires Fits(d)
    requires MIN_NUMBER <= GetJulianDayNumber(d.year, d.month, d.day) <= MAX_NUMBER
    ensures GetYearMonthDay(GetJulianDayNumber(d.year, d.month, d.day)) == d <==> InEra(d)
  {
    hide GetJulianDayNumber, GetYearMonthDay, DayCount, ToMarch, FromMarch, IsMarch;
    var n := GetJulianDayNumber(d.year, d.month, d.day);
    if InEra(d) {
      NumberIsDayCount(d);
      MarchOfDate(d);
      CountNotNegative(ToMarch(d));
      NumberTakenApart(ToMarch(d), n);
    } else {
      NumberBeforeEra(d);
      if n == -32044 {
        NumberInEra(n);
      } else {
        NoDateBefore(n);
      }
    }
  }

  /** Every number from -32044 on is turned into a valid date, and that date has this number. */
  lemma NumberInEra(n: int32)
    requires -32044 <= n <= MAX_NUMBER
    ensures var d := GetYearMonthDay(n);
            InRange(d) && GetJulianDayNumber(d.year, d.month, d.day) == n
  {
    var t := CountHasMarch(n + 32044);
    NumberTakenApart(t, n);
    DateOfMarch(t);
    YearBound(t, n);
    NumberIsDayCount(FromMarch(t));
  }

  lemma YearBound(t: March, n: int)
    requires IsMarch(t) && DayCount(t) == n + 32044 && n <= MAX_NUMBER
    ensures InRange(FromMarch(t))
  {
    DateOfMarch(t);
    MonthBack(t);
    assert 146097 * t.century / 4 <= n + 32044;
    assert t.century <= 14699;
  }

  /** Truncation leaves a negative rest of a negative count. */
  lemma RestOfCenturies(a: int)
    requires a < 0
    ensures a - Div(Div(4 * a + 3, 146097) * 146097, 4) < 0
  {
  }

  lemma RestOfYears(c: int)
    requires c < 0
    ensures c - Div(1461 * Div(4 * c + 3, 1461), 4) < 0
  {
  }

  lemma RestOfMonths(e: int)
    requires e < 0
    ensures e - Div(153 * Div(5 * e + 2, 153) + 2, 5) + 1 <= 0
  {
  }

  lemma NoDateBefore(n: int32)
    requires MIN_NUMBER <= n < -32044
    ensures GetYearMonthDay(n).day <= 0
  {
    hide Div;
    var a := n + 32044;
    RestOfCenturies(a);
    var c := a - Div(Div(4 * a + 3, 146097) * 146097, 4);
    RestOfYears(c);
    RestOfMonths(c - Div(1461 * Div(4 * c + 3, 1461), 4));
  }

  /** A number is turned into a valid date, which then has this number, if and only if it is at least -32044; below
      that, truncating division gives a day of the month that is zero or negative. */
  lemma NumberRoundTrip(n: int32)
    requires MIN_NUMBER <= n <= MAX_NUMBER
    ensures IsDate(GetYearMonthDay(n)) <==> n >= -32044
    ensures var d := GetYearMonthDay(n);
            n >= -32044 ==> InRange(d) && GetJulianDayNumber(d.year, d.month, d.day) == n
    ensures n < -32044 ==> GetYearMonthDay(n).day <= 0
  {
    if n >= -32044 {
      NumberInEra(n);
    } else {
      NoDateBefore(n);
    }
  }

  /** The first of them: one day before the era. */
  lemma BeforeTheRange()
    ensures GetYearMonthDay(-32045) == Date(-4800, 3, 0) && !IsDate(GetYearMonthDay(-32045))
  {
    hide Div;
    DivIsZero(-1, 146097);
    DivIsZero(0, 4);
    DivIsZero(-1, 1461);
    DivIsZero(-3, 153);
    DivIsZero(2, 5);
    DivIsZero(0, 10);
  }

  lemma DivIsZero(a: int, b: int)
    requires -b < a < b
    ensures Div(a, b) == 0
  {
    Between(if a >= 0 then a else -a, b, 0);
  }

  function NextMarch(t: March): March
    requires IsMarch(t)
  {
    if t.day < MarchLength(t) then t.(day := t.day + 1)
    else if t.month < 11 then t.(month := t.month + 1, day := 1)
    else if t.year < 99 then March(t.century, t.year + 1, 0, 1)
    else March(t.century + 1, 0, 0, 1)
  }

  lemma NextMarchCount(t: March)
    requires IsMarch(t)
    ensures DayCount(NextMarch(t)) == DayCount(t) + 1
  {
    if t.day == MarchLength(t) {
      if t.month < 11 {
        var m := t.month;
        assert m == 0 || m == 1 || m == 2 || m == 3 || m == 4 || m == 5
            || m == 6 || m == 7 || m == 8 || m == 9 || m == 10;
      } else {
        YearLengths(t.century, t.year);
      }
    }
  }

  lemma YearLengths(c: int, z: int)
    requires 0 <= c && 0 <= z < 100
    ensures 1461 * (z + 1) / 4 - 1461 * z / 4 == if z % 4 == 3 then 366 else 365
    ensures 146097 * (c + 1) / 4 - 146097 * c / 4 == if c % 4 == 3 then 36525 else 36524
    ensures 1461 * 99 / 4 == 36159
  {
    var q, r := c / 4, c % 4;
    assert 146097 * c == 4 * (146097 * q) + 146097 * r;
  }

  lemma NextDayIsNextMarch(d: Date)
    requires InRange(d)
    ensures IsMarch(ToMarch(d)) && ToMarch(NextDay(d)) == NextMarch(ToMarch(d))
  {
    MarchOfDate(d);
    var t := ToMarch(d);
    LeapInMarchYears(t.century, t.year);
    var y := 100 * t.century + t.year;
    if t.year < 99 {
      assert (y + 1) / 100 == t.century && (y + 1) % 100 == t.year + 1;
    } else {
      assert (y + 1) / 100 == t.century + 1 && (y + 1) % 100 == 0;
    }
  }

  /** The day after a date has the next number. */
  lemma NextDayHasNextNumber(d: Date)
    requires InRange(d) && InRange(NextDay(d))
    ensures var e := NextDay(d);
            GetJulianDayNumber(e.year, e.month, e.day) == GetJulianDayNumber(d.year, d.month, d.day) + 1
  {
    hide GetJulianDayNumber, DayCount, ToMarch, NextMarch, IsMarch, NextDay;
    NumberIsDayCount(d);
    NumberIsDayCount(NextDay(d));
    NextDayIsNextMarch(d);
    NextMarchCount(ToMarch(d));
  }

  /** kJulianDayOf1970_01_01 and the weekday formula of Date.h agree with the calendar: that day was a Thursday. */
  lemma Epoch()
    ensures GetJulianDayNumber(1970, 1, 1) == 2440588
    ensures (GetJulianDayNumber(1970, 1, 1) + 1) % 7 == 4
  {
  }
}
