/** Local calendar days as the daily log uses them: the proleptic Gregorian
    calendar from 0001-01-01 to 9999-12-31, the day of the week as
    `getDay` numbers it (0 = Sunday .. 6 = Saturday), the day before, and the
    zero-padded `yyyy-MM-dd` key the log store is indexed by. */
module Calendar {
  import opened Text

  datatype Date = Date(year: nat, month: nat, day: nat)

  predicate IsLeapYear(y: int) {
    (y % 4 == 0 && y % 100 != 0) || y % 400 == 0
  }

  function DaysInMonth(y: int, m: int): (n: nat)
    requires 1 <= m <= 12
    ensures 28 <= n <= 31
    ensures n == 31 <==> m in {1, 3, 5, 7, 8, 10, 12}
    ensures n == 29 <==> m == 2 && IsLeapYear(y)
  {
    if m == 2 then (if IsLeapYear(y) then 29 else 28)
    else if m == 4 || m == 6 || m == 9 || m == 11 then 30
    else 31
  }

  function YearLength(y: int): nat {
    if IsLeapYear(y) then 366 else 365
  }

  /** The month and day are in range and the year is at most four digits
      (year 0 is admitted so that the day before 0001-01-01 has a key). */
  predicate WellFormed(d: Date) {
    d.year <= 9999 && 1 <= d.month <= 12 && 1 <= d.day <= DaysInMonth(d.year, d.month)
  }

  /** A calendar day the date picker can supply. */
  predicate ValidDate(d: Date) {
    WellFormed(d) && 1 <= d.year
  }

  /** Days in the years before `y`; `/` is floor division for these positive divisors. */
  function DaysBeforeYear(y: int): int {
    365 * (y - 1) + (y - 1) / 4 - (y - 1) / 100 + (y - 1) / 400
  }

  /** Days in the months of year `y` before month `m`. */
  function DaysBeforeMonth(y: int, m: int): nat
    requires 1 <= m <= 12
  {
    var base :=
      if m == 1 then 0 else if m == 2 then 31 else if m == 3 then 59
      else if m == 4 then 90 else if m == 5 then 120 else if m == 6 then 151
      else if m == 7 then 181 else if m == 8 then 212 else if m == 9 then 243
      else if m == 10 then 273 else if m == 11 then 304 else 334;
    if m > 2 && IsLeapYear(y) then base + 1 else base
  }

  /** Serial number of a day: 0001-01-01 is day 1. */
  function DayNumber(d: Date): int
    requires 1 <= d.month <= 12
  {
    DaysBeforeYear(d.year) + DaysBeforeMonth(d.year, d.month) + d.day
  }

  /** `getDay(date)`: 0 = Sunday .. 6 = Saturday (0001-01-01 was a Monday). */
  function DayOfWeek(d: Date): (w: nat)
    requires 1 <= d.month <= 12
    ensures w < 7
  {
    DayNumber(d) % 7
  }

  /** `d` comes strictly before `e` in the calendar. */
  predicate Before(d: Date, e: Date) {
    d.year < e.year || (d.year == e.year && (d.month < e.month || (d.month == e.month && d.day < e.day)))
  }

  /** The day before `d` (`setDate(getDate() - 1)`): its day number is one
      less, it is well-formed, and it is a valid date unless `d` is the
      first day of the calendar. */
  function PrevDay(d: Date): (p: Date)
    requires ValidDate(d)
    ensures WellFormed(p)
    ensures DayNumber(p) == DayNumber(d) - 1
    ensures ValidDate(p) <==> d != Date(1, 1, 1)
    ensures Before(p, d)
  {
    if d.day > 1 then Date(d.year, d.month, d.day - 1)
    else if d.month > 1 then
      assert DaysBeforeMonth(d.year, d.month) == DaysBeforeMonth(d.year, d.month - 1) + DaysInMonth(d.year, d.month - 1);
      Date(d.year, d.month - 1, DaysInMonth(d.year, d.month - 1))
    else
      YearStep(d.year - 1);
      Date(d.year - 1, 12, 31)
  }

  /** Consecutive years are one year-length apart. */
  lemma YearStep(y: int)
    ensures DaysBeforeYear(y + 1) == DaysBeforeYear(y) + YearLength(y)
  {
    FloorStep4(y);
    FloorStep100(y);
    FloorStep400(y);
    Divisibility(y);
    assert DaysBeforeYear(y + 1) - DaysBeforeYear(y)
      == 365 + (y / 4 - (y - 1) / 4) - (y / 100 - (y - 1) / 100) + (y / 400 - (y - 1) / 400);
  }

  /** A multiple of 400 is a multiple of 100, which is a multiple of 4. */
  lemma Divisibility(y: int)
    ensures y % 400 == 0 ==> y % 100 == 0
    ensures y % 100 == 0 ==> y % 4 == 0
  {
    if y % 400 == 0 {
      Mod100(y, 4 * (y / 400), 0);
    }
    if y % 100 == 0 {
      Mod4(y, 25 * (y / 100), 0);
    }
  }

  lemma Mod100(y: int, q: int, r: int)
    requires y == 100 * q + r && 0 <= r < 100
    ensures y % 100 == r
  {
  }

  lemma Mod4(y: int, q: int, r: int)
    requires y == 4 * q + r && 0 <= r < 4
    ensures y % 4 == r
  {
  }

  lemma FloorStep4(y: int)
    ensures y / 4 - (y - 1) / 4 == if y % 4 == 0 then 1 else 0
  {
    var q, r := (y - 1) / 4, (y - 1) % 4;
    if r == 3 { assert y == 4 * (q + 1); } else { assert y == 4 * q + (r + 1); }
  }

  lemma FloorStep100(y: int)
    ensures y / 100 - (y - 1) / 100 == if y % 100 == 0 then 1 else 0
  {
    var q, r := (y - 1) / 100, (y - 1) % 100;
    if r == 99 { assert y == 100 * (q + 1); } else { assert y == 100 * q + (r + 1); }
  }

  lemma FloorStep400(y: int)
    ensures y / 400 - (y - 1) / 400 == if y % 400 == 0 then 1 else 0
  {
    var q, r := (y - 1) / 400, (y - 1) % 400;
    if r == 399 { assert y == 400 * (q + 1); } else { assert y == 400 * q + (r + 1); }
  }

  lemma WeekStepBack(n: int)
    ensures (n - 1) % 7 == (n % 7 + 6) % 7
  {
    var q, r := n / 7, n % 7;
    if r == 0 { assert n - 1 == 7 * (q - 1) + 6; } else { assert n - 1 == 7 * q + (r - 1); }
  }

  lemma {:induction false} DaysBeforeYearMonotone(y: int, z: int)
    requires y < z
    ensures DaysBeforeYear(y) + YearLength(y) <= DaysBeforeYear(z)
    decreases z - y
  {
    YearStep(y);
    if y + 1 < z {
      DaysBeforeYearMonotone(y + 1, z);
    }
  }

  lemma MonthBounds(y: int, m: int, n: int)
    requires 1 <= m < n <= 12
    ensures DaysBeforeMonth(y, m) + DaysInMonth(y, m) <= DaysBeforeMonth(y, n)
  {
  }

  /** Calendar order and day-number order agree. */
  lemma {:induction false} BeforeIsDayNumberOrder(d: Date, e: Date)
    requires WellFormed(d) && WellFormed(e)
    ensures Before(d, e) <==> DayNumber(d) < DayNumber(e)
    ensures d == e <==> DayNumber(d) == DayNumber(e)
  {
    if d.year < e.year {
      DaysBeforeYearMonotone(d.year, e.year);
      assert DaysBeforeMonth(d.year, d.month) + d.day <= YearLength(d.year);
    } else if e.year < d.year {
      DaysBeforeYearMonotone(e.year, d.year);
      assert DaysBeforeMonth(e.year, e.month) + e.day <= YearLength(e.year);
    } else if d.month < e.month {
      MonthBounds(d.year, d.month, e.month);
    } else if e.month < d.month {
      MonthBounds(d.year, e.month, d.month);
    }
  }

  /** The weekday steps back by one (modulo 7) from a day to the day before. */
  lemma PrevDayWeekday(d: Date)
    requires ValidDate(d)
    ensures DayOfWeek(PrevDay(d)) == (DayOfWeek(d) + 6) % 7
  {
    WeekStepBack(DayNumber(d));
  }

  /** Anchors the weekday numbering to the calendar: 2024-01-01 was a Monday,
      2024-01-03 a Wednesday. */
  lemma KnownWeekdays()
    ensures DayOfWeek(Date(2024, 1, 1)) == 1
    ensures DayOfWeek(Date(2024, 1, 3)) == 3
  {
  }

  // ---------------------------------------------------------------
  // The `yyyy-MM-dd` key

  function Pow10(w: nat): (p: nat)
    ensures p >= 1
  {
    if w == 0 then 1 else 10 * Pow10(w - 1)
  }

  function DigitChar(k: nat): (c: char)
    requires k < 10
    ensures '0' <= c <= '9'
  {
    (48 + k) as char
  }

  predicate IsDigit(c: char) {
    '0' <= c <= '9'
  }

  /** `n` written in exactly `w` decimal digits, zero-padded on the left
      (the lowest `w` digits when `n` is wider). */
  function Digits(n: nat, w: nat): (r: string)
    ensures |r| == w
    ensures forall i :: 0 <= i < |r| ==> IsDigit(r[i])
  {
    if w == 0 then "" else Digits(n / 10, w - 1) + [DigitChar(n % 10)]
  }

  /** The number a string of decimal digits denotes. */
  function DigitsValue(s: string): nat
    requires forall i :: 0 <= i < |s| ==> IsDigit(s[i])
  {
    if s == [] then 0
    else
      assert IsDigit(s[|s| - 1]);
      10 * DigitsValue(s[..|s| - 1]) + ((s[|s| - 1] as int) - 48)
  }

  /** Reading back a padded number that fits its width gives the number. */
  lemma {:induction false} DigitsRoundTrip(n: nat, w: nat)
    requires n < Pow10(w)
    ensures DigitsValue(Digits(n, w)) == n
  {
    if w > 0 {
      assert n == 10 * (n / 10) + n % 10;
      assert n / 10 < Pow10(w - 1);
      DigitsRoundTrip(n / 10, w - 1);
      var s := Digits(n, w);
      assert s[..|s| - 1] == Digits(n / 10, w - 1);
    }
  }

  /** Padded numbers of one width compare as strings the way the numbers compare. */
  lemma {:induction false} DigitsOrder(n: nat, m: nat, w: nat)
    requires n < Pow10(w) && m < Pow10(w)
    ensures LexLess(Digits(n, w), Digits(m, w)) <==> n < m
    ensures Digits(n, w) == Digits(m, w) <==> n == m
  {
    DigitsRoundTrip(n, w);
    DigitsRoundTrip(m, w);
    if w > 0 {
      var p := Pow10(w - 1);
      assert n / 10 < p && m / 10 < p;
      DigitsOrder(n / 10, m / 10, w - 1);
      LexLessAppend(Digits(n / 10, w - 1), [DigitChar(n % 10)], Digits(m / 10, w - 1), [DigitChar(m % 10)]);
      assert n == 10 * (n / 10) + n % 10 && m == 10 * (m / 10) + m % 10;
    }
  }

  /** `format(date, 'yyyy-MM-dd')`. */
  function DateKey(d: Date): (k: string)
    requires WellFormed(d)
    ensures |k| == 10 && k[4] == '-' && k[7] == '-'
    ensures forall i :: 0 <= i < 10 && i != 4 && i != 7 ==> IsDigit(k[i])
  {
    Digits(d.year, 4) + ("-" + (Digits(d.month, 2) + ("-" + Digits(d.day, 2))))
  }

  /** Key order is date order, and distinct dates have distinct keys: a string
      comparison of two keys is a comparison of the two days. */
  lemma KeyOrder(d: Date, e: Date)
    requires WellFormed(d) && WellFormed(e)
    ensures LexLess(DateKey(d), DateKey(e)) <==> Before(d, e)
    ensures DateKey(d) == DateKey(e) <==> d == e
  {
    assert Pow10(2) == 100 && Pow10(4) == 10000;
    DigitsOrder(d.year, e.year, 4);
    DigitsOrder(d.month, e.month, 2);
    DigitsOrder(d.day, e.day, 2);
    var dm, em := Digits(d.month, 2), Digits(e.month, 2);
    var dd, ed := Digits(d.day, 2), Digits(e.day, 2);
    LexLessAppend(Digits(d.year, 4), "-" + (dm + ("-" + dd)), Digits(e.year, 4), "-" + (em + ("-" + ed)));
    LexLessAppend("-", dm + ("-" + dd), "-", em + ("-" + ed));
    LexLessAppend(dm, "-" + dd, em, "-" + ed);
    LexLessAppend("-", dd, "-", ed);
    assert "-" + dd == "-" + ed ==> dd == ed by {
      if "-" + dd == "-" + ed { assert dd == ("-" + dd)[1..]; }
    }
    assert dm + ("-" + dd) == em + ("-" + ed) ==> dm == em && "-" + dd == "-" + ed by {
      if dm + ("-" + dd) == em + ("-" + ed) {
        assert dm == (dm + ("-" + dd))[..2];
        assert "-" + dd == (dm + ("-" + dd))[2..];
      }
    }
    assert DateKey(d) == DateKey(e) ==> Digits(d.year, 4) == Digits(e.year, 4) && "-" + (dm + ("-" + dd)) == "-" + (em + ("-" + ed)) by {
      if DateKey(d) == DateKey(e) {
        assert Digits(d.year, 4) == DateKey(d)[..4];
        assert "-" + (dm + ("-" + dd)) == DateKey(d)[4..];
      }
    }
    assert "-" + (dm + ("-" + dd)) == "-" + (em + ("-" + ed)) ==> dm + ("-" + dd) == em + ("-" + ed) by {
      if "-" + (dm + ("-" + dd)) == "-" + (em + ("-" + ed)) {
        assert dm + ("-" + dd) == ("-" + (dm + ("-" + dd)))[1..];
      }
    }
    LexLessIrreflexive("-");
  }
}
