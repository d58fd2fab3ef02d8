/**
 The log time stamp: seconds since the epoch turned into a civil date and time in UTC+8 by
 a closed form in 32-bit arithmetic, against the calendar as everyone knows it.
 */
module CivilDate {

  // ----- The calendar -----

  datatype Date = Date(year: int, month: int, day: int)

  predicate IsLeap(year: int) {
    year % 4 == 0 && (year % 100 != 0 || year % 400 == 0)
  }

  function DaysInMonth(year: int, month: int): int {
    if month == 2 then if IsLeap(year) then 29 else 28
    else if month == 4 || month == 6 || month == 9 || month == 11 then 30
    else 31
  }

  predicate IsDate(d: Date) {
    1 <= d.month <= 12 && 1 <= d.day <= DaysInMonth(d.year, d.month)
  }

  function NextDay(d: Date): Date {
    if d.day < DaysInMonth(d.year, d.month) then Date(d.year, d.month, d.day + 1)
    else if d.month < 12 then Date(d.year, d.month + 1, 1)
    else Date(d.year + 1, 1, 1)
  }

  /** The date n days after 1 January 1970. */
  function DateOfDay(n: nat): Date {
    if n == 0 then Date(1970, 1, 1) else NextDay(DateOfDay(n - 1))
  }

  // ----- The closed form, over the days since 1 March 4801 BC -----

  const EPOCH: nat := 2472632

  function Century(a: int): int { (4 * a + 3) / 146097 }
  function CenturyStart(b: int): int { b * 146097 / 4 }
  function YearOfCentury(c: int): int { (4 * c + 3) / 1461 }
  function YearStart(d: int): int { d * 1461 / 4 }
  function MonthOfYear(e: int): int { (5 * e + 2) / 153 }
  function MonthStart(m: int): int { (153 * m + 2) / 5 }

  lemma CenturyStep(a: nat)
    ensures
      var b := Century(a);
      var len := if b % 4 == 3 then 36525 else 36524;
      && CenturyStart(b) <= a < CenturyStart(b) + len
      && (a + 1 < CenturyStart(b) + len ==> Century(a + 1) == b)
      && (a + 1 == CenturyStart(b) + len ==> Century(a + 1) == b + 1 && CenturyStart(b + 1) == a + 1)
  {
  }

  lemma YearStep(c: nat)
    requires c < 36525
    ensures
      var d := YearOfCentury(c);
      var len := if d % 4 == 3 then 366 else 365;
      && d < 100 && YearStart(d) <= c < YearStart(d) + len
      && (c + 1 < YearStart(d) + len ==> YearOfCentury(c + 1) == d)
      && (c + 1 == YearStart(d) + len ==> YearOfCentury(c + 1) == d + 1 && YearStart(d + 1) == c + 1)
  {
  }

  lemma MonthStep(e: nat)
    requires e < 366
    ensures
      var m := MonthOfYear(e);
      && 0 <= m < 12 && MonthStart(m) <= e < MonthStart(m + 1)
      && (e + 1 < MonthStart(m + 1) ==> MonthOfYear(e + 1) == m)
      && (e + 1 == MonthStart(m + 1) ==> MonthOfYear(e + 1) == m + 1)
  {
  }

  /** The March-based year, month and day that a date is read from. */
  function Assemble(b: int, d: int, m: int, day: int): Date {
    Date(100 * b + d - 4800 + m / 10, m + 3 - 12 * (m / 10), day)
  }

  /** Days in March-based year d of century b: the last year of a century is long only every 400 years. */
  function YearLength(b: nat, d: nat): nat {
    if (if d == 99 then b % 4 == 3 else d % 4 == 3) then 366 else 365
  }

  /** February closes the March-based year, and its length follows the leap-year rule. */
  lemma LeapRule(b: nat, d: nat)
    requires d < 100
    ensures IsLeap(100 * b + d - 4800 + 1) <==> YearLength(b, d) == 366
  {
  }

  lemma MonthLength(b: nat, d: nat, m: nat, day: int)
    requires d < 100 && m < 12
    ensures
      var date := Assemble(b, d, m, day);
      DaysInMonth(date.year, date.month) == (if m < 11 then MonthStart(m + 1) else YearLength(b, d)) - MonthStart(m)
  {
    LeapRule(b, d);
  }

  /** Year, month and day of the day after, by position in month, year and century. */
  lemma Successor(b: nat, d: nat, m: nat, e: nat)
    requires d < 100 && m < 12 && MonthStart(m) <= e < MonthStart(m + 1) && e < YearLength(b, d)
    ensures
      var date := Assemble(b, d, m, e - MonthStart(m) + 1);
      && IsDate(date)
      && NextDay(date) == if e + 1 == YearLength(b, d) then
                            (if d == 99 then Assemble(b + 1, 0, 0, 1) else Assemble(b, d + 1, 0, 1))
                          else if e + 1 < MonthStart(m + 1) then Assemble(b, d, m, e - MonthStart(m) + 2)
                          else Assemble(b, d, m + 1, 1)
  {
    MonthLength(b, d, m, e - MonthStart(m) + 1);
  }

  /** Day e of March-based year d of century b, as the divisions of the closed form give it for day a. */
  ghost predicate At(a: nat, b: nat, d: nat, e: nat) {
    && b == Century(a) && CenturyStart(b) <= a
    && d == YearOfCentury(a - CenturyStart(b))
    && e == a - CenturyStart(b) - YearStart(d)
  }

  function DateAt(b: int, d: int, e: int): Date {
    Assemble(b, d, MonthOfYear(e), e - MonthStart(MonthOfYear(e)) + 1)
  }

  /** Where the next day falls: in the same year, the next year or the next century. */
  lemma InYear(a: nat, b: nat, c: nat, d: nat, e: nat)
    requires b == Century(a) && CenturyStart(b) + c == a && d == YearOfCentury(c) && YearStart(d) + e == c
    ensures c < 36525 && d < 100 && e < YearLength(b, d)
    ensures if e + 1 < YearLength(b, d) then Century(a + 1) == b && YearOfCentury(c + 1) == d
            else if d < 99 then Century(a + 1) == b && YearOfCentury(c + 1) == d + 1 && YearStart(d + 1) == c + 1
            else Century(a + 1) == b + 1 && CenturyStart(b + 1) == a + 1
  {
    CenturyStep(a);
    YearStep(c);
  }

  lemma Locate(a: nat) returns (b: nat, d: nat, e: nat)
    ensures At(a, b, d, e) && d < 100 && e < YearLength(b, d)
  {
    b := Century(a);
    CenturyStep(a);
    d := YearOfCentury(a - CenturyStart(b));
    YearStep(a - CenturyStart(b));
    e := a - CenturyStart(b) - YearStart(d);
    InYear(a, b, a - CenturyStart(b), d, e);
  }

  lemma NextPlace(a: nat, b: nat, d: nat, e: nat)
    requires At(a, b, d, e)
    ensures d < 100 && e < YearLength(b, d)
    ensures if e + 1 < YearLength(b, d) then At(a + 1, b, d, e + 1)
            else if d < 99 then At(a + 1, b, d + 1, 0)
            else At(a + 1, b + 1, 0, 0)
  {
    InYear(a, b, a - CenturyStart(b), d, e);
  }

  lemma PlaceIsUnique(a: nat, b: nat, d: nat, e: nat, b': nat, d': nat, e': nat)
    requires At(a, b, d, e) && At(a, b', d', e')
    ensures b == b' && d == d' && e == e'
  {
  }

  /** From one day to the next the closed form moves as the calendar does. */
  lemma NextDate(b: nat, d: nat, e: nat)
    requires d < 100 && e < YearLength(b, d)
    ensures IsDate(DateAt(b, d, e))
    ensures NextDay(DateAt(b, d, e)) == if e + 1 < YearLength(b, d) then DateAt(b, d, e + 1)
                                        else if d < 99 then DateAt(b, d + 1, 0)
                                        else DateAt(b + 1, 0, 0)
  {
    hide IsDate, NextDay, Assemble, MonthStart, MonthOfYear;
    MonthStep(e);
    FirstOfYear();
    Successor(b, d, MonthOfYear(e), e);
  }

  lemma FirstOfYear()
    ensures MonthOfYear(0) == 0 && MonthStart(0) == 0
  {
  }

  lemma StepMatches(a: nat, b0: nat, d0: nat, e0: nat, b: nat, d: nat, e: nat)
    requires At(a, b0, d0, e0) && At(a + 1, b, d, e)
    ensures IsDate(DateAt(b0, d0, e0)) && DateAt(b, d, e) == NextDay(DateAt(b0, d0, e0))
  {
    NextPlace(a, b0, d0, e0);
    NextDate(b0, d0, e0);
    if e0 + 1 < YearLength(b0, d0) {
      PlaceIsUnique(a + 1, b, d, e, b0, d0, e0 + 1);
    } else if d0 < 99 {
      PlaceIsUnique(a + 1, b, d, e, b0, d0 + 1, 0);
    } else {
      PlaceIsUnique(a + 1, b, d, e, b0 + 1, 0, 0);
    }
  }

  lemma EpochIsNewYear(b: nat, d: nat, e: nat)
    requires At(EPOCH, b, d, e)
    ensures DateAt(b, d, e) == Date(1970, 1, 1)
  {
    assert b == 67 && d == 69 && e == 306;
    assert MonthOfYear(306) == 10 && MonthStart(10) == 306;
  }

  /** The closed form is the calendar date, on every day from the epoch on. */
  lemma {:induction false} ClosedFormIsCalendar(n: nat, b: nat, d: nat, e: nat)
    requires At(EPOCH + n, b, d, e)
    ensures DateAt(b, d, e) == DateOfDay(n)
    decreases n
  {
    if n == 0 {
      EpochIsNewYear(b, d, e);
    } else {
      var b0, d0, e0 := Locate(EPOCH + n - 1);
      ClosedFormIsCalendar(n - 1, b0, d0, e0);
      StepMatches(EPOCH + n - 1, b0, d0, e0, b, d, e);
    }
  }

  lemma DatesAreDates(n: nat)
    ensures IsDate(DateOfDay(n))
  {
    var b, d, e := Locate(EPOCH + n);
    ClosedFormIsCalendar(n, b, d, e);
    NextDate(b, d, e);
  }

  /** Dates in calendar order. */
  function Ordinal(d: Date): int {
    d.year * 400 + d.month * 32 + d.day
  }

  lemma {:induction false} DatesIncrease(k1: nat, k2: nat)
    requires k1 < k2
    ensures Ordinal(DateOfDay(k1)) < Ordinal(DateOfDay(k2))
    decreases k2
  {
    if k1 < k2 - 1 { DatesIncrease(k1, k2 - 1); }
    DatesAreDates(k2 - 1);
    NextIsLater(DateOfDay(k2 - 1));
  }

  lemma NextIsLater(d: Date)
    requires IsDate(d)
    ensures Ordinal(d) < Ordinal(NextDay(d))
  {
  }

  // ----- The program -----

  /** A C++ `int`; Dafny checks that no operation leaves its range. */
  newtype int32 = x: int | -0x8000_0000 <= x < 0x8000_0000

  /** Division of C++, toward zero, and its remainder. */
  function Quo(x: int32, y: int32): int32
    requires 0 < y
  {
    if 0 <= x then x / y else (-(-(x as int) / (y as int))) as int32
  }

  function Rem(x: int32, y: int32): int32
    requires 0 < y
  {
    if 0 <= x then x % y else (-(-(x as int) % (y as int))) as int32
  }

  /** Conversion of a 64-bit count to `int`: the low 32 bits, read as signed. */
  function ToInt32(x: int): int32 {
    var low := x % 0x1_0000_0000;
    (if low < 0x8000_0000 then low else low - 0x1_0000_0000) as int32
  }

  datatype Tm = Tm(sec: int32, min: int32, hour: int32, mday: int32, mon: int32, year: int32)

  const TIME_ZONE: int32 := 8

  function DateOf(tm: Tm): Date {
    Date(tm.year as int + 1900, tm.mon as int + 1, tm.mday as int)
  }

  /** tm is the civil date and time of the instant in UTC+8. */
  ghost predicate IsCivilTime(tm: Tm, unixSec: nat) {
    var local := unixSec + 8 * 3600;
    && DateOf(tm) == DateOfDay(local / 86400)
    && 0 <= tm.hour < 24 && 0 <= tm.min < 60 && 0 <= tm.sec < 60
    && tm.hour as int * 3600 + tm.min as int * 60 + tm.sec as int == local % 86400
  }

  /** What the date part gives for day number `day`: the date from the epoch on, an early year before it. */
  ghost predicate IsStamp(day: int, date: Date) {
    if 0 <= day then date == DateOfDay(day) else date.year <= 2000
  }

  lemma StampOf(a: nat, b: nat, d: nat, e: nat)
    requires At(a, b, d, e) && d < 100 && e < 366
    ensures IsStamp(a - EPOCH, DateAt(b, d, e))
  {
    if EPOCH <= a {
      ClosedFormIsCalendar(a - EPOCH, b, d, e);
    } else {
      MonthStep(e);
      assert b <= 67;
    }
  }

  /** b: the century of day a, c: the day in it. */
  method SplitCentury(a: int32) returns (b: int32, c: int32)
    requires 0 <= a < 4_000_000
    ensures 0 <= b < 110 && b as int == Century(a as int)
    ensures 0 <= c < 36525 && CenturyStart(b as int) + c as int == a as int
  {
    CenturyStep(a as int);
    b := Quo(a * 4 + 3, 146097);
    c := Quo(-b * 146097, 4) + a;
  }

  /** d: the March-based year of day c of a century, e: the day in it. */
  method SplitYear(c: int32) returns (d: int32, e: int32)
    requires 0 <= c < 36525
    ensures 0 <= d < 100 && d as int == YearOfCentury(c as int)
    ensures 0 <= e < 366 && YearStart(d as int) + e as int == c as int
  {
    YearStep(c as int);
    d := Quo(c * 4 + 3, 1461);
    e := -d * 1461;
    e := Quo(e, 4) + c;
  }

  /** m: the month, counted from March, of day e of a March-based year. */
  method MonthNumber(e: int32) returns (m: int32)
    requires 0 <= e < 366
    ensures 0 <= m < 12 && m as int == MonthOfYear(e as int)
  {
    m := Quo(5 * e + 2, 153);
  }

  /** The day of the month. */
  method DayField(m: int32, e: int32) returns (mday: int32)
    requires 0 <= m < 12 && 0 <= e < 366
    ensures mday as int == e as int - MonthStart(m as int) + 1
  {
    mday := Quo(-(153 * m + 2), 5) + e + 1;
  }

  /** The year and the month; January and February belong to the next calendar year. */
  method YearFields(b: int32, d: int32, m: int32) returns (year: int32, mon: int32)
    requires 0 <= b < 110 && 0 <= d < 100 && 0 <= m < 12
    ensures year as int + 1900 == 100 * b as int + d as int - 4800 + m as int / 10
    ensures mon as int + 1 == m as int + 3 - 12 * (m as int / 10)
  {
    mon := Quo(-m, 10) * 12 + m + 2;
    year := b * 100 + d - 6700 + Quo(m, 10);
  }

  /** The year, month and day fields for day e of March-based year d of century b. */
  method Fields(b: int32, d: int32, e: int32) returns (year: int32, mon: int32, mday: int32)
    requires 0 <= b < 110 && 0 <= d < 100 && 0 <= e < 366
    ensures Date(year as int + 1900, mon as int + 1, mday as int) == DateAt(b as int, d as int, e as int)
  {
    hide MonthOfYear, MonthStart;
    var m := MonthNumber(e);
    mday := DayField(m, e);
    year, mon := YearFields(b, d, m);
  }

  /** The date part: days since 1 March 4801 BC become the year, month and day fields of `tm`. */
  method DateParts(a: int32) returns (year: int32, mon: int32, mday: int32)
    requires 0 <= a < 4_000_000
    ensures IsStamp(a as int - EPOCH, Date(year as int + 1900, mon as int + 1, mday as int))
  {
    var b, c := SplitCentury(a);
    var d, e := SplitYear(c);
    StampOf(a as int, b as int, d as int, e as int);
    year, mon, mday := Fields(b, d, e);
  }

  // ----- When the time stamp is right -----

  /** Different day numbers have different stamps, and the right one is the date. */
  lemma StampIsDayIff(day: int, date: Date, n: nat)
    requires IsStamp(day, date) && (0 <= day || 1_000_000 <= n)
    ensures date == DateOfDay(n) <==> day == n
  {
    if day < 0 {
      LateDates(n);
    } else {
      if day < n { DatesIncrease(day, n); }
      if n < day { DatesIncrease(n, day); }
    }
  }

  lemma LateDates(n: nat)
    requires 1_000_000 <= n
    ensures 2000 < DateOfDay(n).year
  {
    var b, d, e := Locate(EPOCH + n);
    ClosedFormIsCalendar(n, b, d, e);
    MonthStep(e);
    assert b >= 90;
  }

  /** Minute and hour arithmetic in UTC+8 is exact for a minute count i that is not negative. */
  lemma ClockIsExact(i: nat, sec: nat)
    requires sec < 60
    ensures
      var h := i / 60 + 8;
      var local := i * 60 + sec + 8 * 3600;
      h / 24 == local / 86400 && h % 24 * 3600 + i % 60 * 60 + sec == local % 86400
  {
  }

  /** The clock fields and the day number, from the minute count as it was converted to `int`. */
  method ClockParts(total: int32) returns (min: int32, hour: int32, day: int32)
    ensures 0 <= total ==>
              var h := total as int / 60 + 8;
              min as int == total as int % 60 && hour as int == h % 24 && day as int == h / 24
    ensures -1_491_309 <= day <= 1_491_308
    ensures total <= 0 ==> day <= 0
  {
    min := Rem(total, 60);
    var i := Quo(total, 60);
    hour := Rem(i + TIME_ZONE, 24);
    day := Quo(i + TIME_ZONE, 24);
  }

  /** With these fields the stamp is right exactly if the converted minute count i is the true one. */
  lemma StampRightIff(tm: Tm, i: int, day: int, unixSec: nat)
    requires tm.sec as int == unixSec % 60
    requires i == unixSec / 60 || (i < 0x8000_0000 <= unixSec / 60)
    requires 0 <= i ==> tm.min as int == i % 60 && tm.hour as int == (i / 60 + 8) % 24 && day == (i / 60 + 8) / 24
    requires i <= 0 ==> day <= 0
    requires DateOf(tm) == DateOfDay((unixSec + 8 * 3600) / 86400) <==> day == (unixSec + 8 * 3600) / 86400
    ensures IsCivilTime(tm, unixSec) <==> i == unixSec / 60
  {
    var u, sec := unixSec / 60, unixSec % 60;
    assert unixSec == u * 60 + sec;
    ClockIsExact(u, sec);
    if 0 <= i { ClockIsExact(i, sec); }
  }

  lemma ConvertedIff(unixSec: nat)
    ensures ToInt32(unixSec / 60) as int == unixSec / 60 <==> unixSec < 60 * 0x8000_0000
  {
  }

  /** The calendar day of an instant in UTC+8, as a number of days since the epoch. */
  function LocalDay(unixSec: nat): nat {
    (unixSec + 8 * 3600) / 86400
  }

  /** `Getnow` / `GetNow` before formatting: the stamp is the civil time exactly while minutes fit an `int`. */
  method GetNow(unixSec: nat) returns (tm: Tm)
    ensures IsCivilTime(tm, unixSec) <==> unixSec < 60 * 0x8000_0000
  {
    ConvertedIff(unixSec);
    var sec := (unixSec % 60) as int32;
    var i := ToInt32(unixSec / 60);
    var min, hour, day := ClockParts(i);
    var a := day + 2472632;
    var year, mon, mday := DateParts(a);
    tm := Tm(sec, min, hour, mday, mon, year);
    StampIsDayIff(day as int, DateOf(tm), LocalDay(unixSec));
    StampRightIff(tm, i as int, day as int, unixSec);
  }
}
