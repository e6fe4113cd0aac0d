/** Calendar dates of the streak service: the `YYYY-MM-DD` test, day numbers, and the
    agreement of string order with day order.

    `Date.UTC` and the `getUTC` accessors follow section 21.4.1 of ECMA-262; `Date.UTC` maps
    the years 0 to 99 to 1900 to 1999 (section 21.4.3.4). */
module Calendar {
  import opened Text

  const MS_PER_DAY := 86_400_000

  predicate Leap(y: int) {
    y % 4 == 0 && (y % 100 != 0 || y % 400 == 0)
  }

  function DaysInYear(y: int): int {
    if Leap(y) then 366 else 365
  }

  /** The day number of 1 January, counted year by year from 1970. */
  function DayFromYear(y: int): int
    decreases if y < 1970 then 1970 - y else y - 1970
  {
    if y == 1970 then 0
    else if y > 1970 then DayFromYear(y - 1) + DaysInYear(y - 1)
    else DayFromYear(y + 1) - DaysInYear(y)
  }

  /** Days of the year before zero-based month `m`. */
  function DaysBefore(m: int, leap: bool): int
    requires 0 <= m <= 12
  {
    [0, 31, 59, 90, 120, 151, 181, 212, 243, 273, 304, 334, 365][m] + (if leap && m >= 2 then 1 else 0)
  }

  function DaysInMonth(y: int, m: int): int
    requires 0 <= m < 12
  {
    DaysBefore(m + 1, Leap(y)) - DaysBefore(m, Leap(y))
  }

  /** `MakeDay`: months overflow into years, days into months. */
  function MakeDay(y: int, m: int, d: int): int {
    var ym := y + m / 12;
    DayFromYear(ym) + DaysBefore(m % 12, Leap(ym)) + d - 1
  }

  function UtcDay(y: int, m: int, d: int): int {
    MakeDay(if 0 <= y <= 99 then 1900 + y else y, m, d)
  }

  function DateUtc(y: int, m: int, d: int): int {
    MS_PER_DAY * UtcDay(y, m, d)
  }

  lemma YearStep(y: int)
    ensures DayFromYear(y + 1) == DayFromYear(y) + DaysInYear(y)
  {
  }

  lemma FloorStep(x: int)
    ensures (x + 1) / 4 == x / 4 + (if (x + 1) % 4 == 0 then 1 else 0)
    ensures (x + 1) / 100 == x / 100 + (if (x + 1) % 100 == 0 then 1 else 0)
    ensures (x + 1) / 400 == x / 400 + (if (x + 1) % 400 == 0 then 1 else 0)
  {
  }

  lemma CenturyOfLeap(y: int)
    ensures y % 100 == 0 ==> y % 4 == 0
    ensures y % 400 == 0 ==> y % 100 == 0
  {
    if y % 100 == 0 { assert y == 4 * (25 * (y / 100)); }
    if y % 400 == 0 { assert y == 100 * (4 * (y / 400)); }
  }

  /** `DayFromYear` in the closed form of section 21.4.1 of ECMA-262. */
  function ClosedDayFromYear(y: int): int {
    365 * (y - 1970) + (y - 1969) / 4 - (y - 1901) / 100 + (y - 1601) / 400
  }

  lemma ClosedStep(y: int)
    ensures ClosedDayFromYear(y + 1) == ClosedDayFromYear(y) + DaysInYear(y)
  {
    var leap4, leap100, leap400 := y % 4 == 0, y % 100 == 0, y % 400 == 0;
    assert (y - 1968) / 4 == (y - 1969) / 4 + (if leap4 then 1 else 0) by {
      FloorStep(y - 1969);
    }
    assert (y - 1900) / 100 == (y - 1901) / 100 + (if leap100 then 1 else 0) by {
      FloorStep(y - 1901);
    }
    assert (y - 1600) / 400 == (y - 1601) / 400 + (if leap400 then 1 else 0) by {
      FloorStep(y - 1601);
    }
    CenturyOfLeap(y);
  }

  lemma {:induction false} ClosedForm(y: int)
    ensures DayFromYear(y) == ClosedDayFromYear(y)
    decreases if y < 1970 then 1970 - y else y - 1970
  {
    if y > 1970 {
      ClosedStep(y - 1);
      ClosedForm(y - 1);
    } else if y < 1970 {
      ClosedStep(y);
      ClosedForm(y + 1);
    }
  }

  lemma {:induction false} YearsMonotone(y: int, z: int)
    requires y < z
    ensures DayFromYear(y) + DaysInYear(y) <= DayFromYear(z)
    decreases z - y
  {
    YearStep(z - 1);
    if y < z - 1 { YearsMonotone(y, z - 1); }
  }

  /** The year whose days include day `n`, searched from year `y`. */
  function YearFrom(n: int, y: int): (r: int)
    ensures DayFromYear(r) <= n < DayFromYear(r + 1)
    decreases if n < DayFromYear(y) then DayFromYear(y) - n else n - DayFromYear(y)
  {
    YearStep(y);
    YearStep(y - 1);
    if n < DayFromYear(y) then
      if DayFromYear(y - 1) <= n then y - 1 else YearFrom(n, y - 1)
    else if n >= DayFromYear(y + 1) then YearFrom(n, y + 1)
    else y
  }

  function UtcFullYear(ms: int): (y: int)
    ensures DayFromYear(y) <= ms / MS_PER_DAY < DayFromYear(y + 1)
  {
    YearFrom(ms / MS_PER_DAY, 1970)
  }

  function UtcMonth(ms: int): (m: int)
    ensures 0 <= m < 12
    ensures var y := UtcFullYear(ms);
      var inYear := ms / MS_PER_DAY - DayFromYear(y);
      DaysBefore(m, Leap(y)) <= inYear < DaysBefore(m + 1, Leap(y))
  {
    var y := UtcFullYear(ms);
    YearStep(y);
    MonthFrom(ms / MS_PER_DAY - DayFromYear(y), Leap(y), 0)
  }

  function MonthFrom(inYear: int, leap: bool, m: int): (r: int)
    requires 0 <= m < 12 && DaysBefore(m, leap) <= inYear < DaysBefore(12, leap)
    ensures m <= r < 12 && DaysBefore(r, leap) <= inYear < DaysBefore(r + 1, leap)
    decreases 12 - m
  {
    if inYear < DaysBefore(m + 1, leap) then m else MonthFrom(inYear, leap, m + 1)
  }

  function UtcDate(ms: int): int {
    ms / MS_PER_DAY - DayFromYear(UtcFullYear(ms)) - DaysBefore(UtcMonth(ms), Leap(UtcFullYear(ms))) + 1
  }

  predicate Civil(y: int, m: int, d: int) {
    1 <= m <= 12 && 1 <= d <= DaysInMonth(y, m - 1)
  }

  lemma MonthsMonotone(m: int, k: int, leap: bool)
    requires 0 <= m < k <= 12
    ensures DaysBefore(m, leap) < DaysBefore(k, leap)
  {
  }

  /** A day number inside a year belongs to that year only. */
  lemma YearUnique(n: int, y: int, z: int)
    requires DayFromYear(y) <= n < DayFromYear(y + 1) && DayFromYear(z) <= n < DayFromYear(z + 1)
    ensures y == z
  {
    YearStep(y);
    YearStep(z);
    if y < z { YearsMonotone(y, z); }
    if z < y { YearsMonotone(z, y); }
  }

  /** A day number lies in its own year. */
  lemma DayInYear(y: int, m: int, d: int)
    requires Civil(y, m, d)
    ensures DayFromYear(y) <= MakeDay(y, m - 1, d) < DayFromYear(y + 1)
    ensures MakeDay(y, m - 1, d) == DayFromYear(y) + DaysBefore(m - 1, Leap(y)) + d - 1
  {
    YearStep(y);
    if m < 12 { MonthsMonotone(m, 12, Leap(y)); }
    if m > 1 { MonthsMonotone(0, m - 1, Leap(y)); }
  }

  /** The accessors invert `MakeDay` exactly on calendar dates. */
  lemma AccessorsInvert(y: int, m: int, d: int)
    requires Civil(y, m, d)
    ensures var ms := MS_PER_DAY * MakeDay(y, m - 1, d);
      UtcFullYear(ms) == y && UtcMonth(ms) == m - 1 && UtcDate(ms) == d
  {
    var n := MakeDay(y, m - 1, d);
    var ms := MS_PER_DAY * n;
    WholeDays(n);
    DayInYear(y, m, d);
    YearUnique(n, y, UtcFullYear(ms));
    var k := UtcMonth(ms);
    if k < m - 1 { MonthsMonotone(k, m - 1, Leap(y)); if k + 1 < m - 1 { MonthsMonotone(k + 1, m - 1, Leap(y)); } }
    if m - 1 < k { MonthsMonotone(m - 1, k, Leap(y)); if m < k { MonthsMonotone(m, k, Leap(y)); } }
  }

  // ----- the text form -----

  predicate IsDigit(c: char) {
    '0' <= c <= '9'
  }

  /** `/^\d{4}-\d{2}-\d{2}$/` */
  predicate DateShaped(s: string) {
    |s| == 10 && s[4] == '-' && s[7] == '-' && forall i :: 0 <= i < 10 && i != 4 && i != 7 ==> IsDigit(s[i])
  }

  function Digit(c: char): (v: int)
    requires IsDigit(c)
    ensures 0 <= v <= 9
  {
    c as int - '0' as int
  }

  function Year(s: string): int
    requires DateShaped(s)
  {
    1000 * Digit(s[0]) + 100 * Digit(s[1]) + 10 * Digit(s[2]) + Digit(s[3])
  }

  function Month(s: string): int
    requires DateShaped(s)
  {
    10 * Digit(s[5]) + Digit(s[6])
  }

  function Day(s: string): int
    requires DateShaped(s)
  {
    10 * Digit(s[8]) + Digit(s[9])
  }

  /** `Date.UTC` read back through the accessors gives the same fields. */
  predicate ReadsBack(y: int, m: int, d: int) {
    var ms := DateUtc(y, m - 1, d);
    UtcFullYear(ms) == y && UtcMonth(ms) == m - 1 && UtcDate(ms) == d
  }

  predicate IsValidDate(s: string) {
    DateShaped(s) && ReadsBack(Year(s), Month(s), Day(s))
  }

  /** `Math.round` of a quotient by a day, halves upwards. */
  function RoundDays(ms: int): int {
    (2 * ms + MS_PER_DAY) / (2 * MS_PER_DAY)
  }

  function DaysBetween(first: string, second: string): int
    requires DateShaped(first) && DateShaped(second)
  {
    RoundDays(DateUtc(Year(second), Month(second) - 1, Day(second)) - DateUtc(Year(first), Month(first) - 1, Day(first)))
  }

  /** The day number of a date text. */
  function DayNumber(s: string): int
    requires DateShaped(s)
  {
    UtcDay(Year(s), Month(s) - 1, Day(s))
  }

  /** The round trip through `Date` accepts exactly the real dates of the years from 100 on:
      overflowing months and days are refused, and so are the years `Date.UTC` remaps. */
  lemma ReadsBackExactly(y: int, m: int, d: int)
    requires 0 <= y
    ensures ReadsBack(y, m, d) <==> 100 <= y && Civil(y, m, d)
  {
    if 100 <= y && Civil(y, m, d) {
      AccessorsInvert(y, m, d);
    }
    if ReadsBack(y, m, d) {
      AcceptedIsCivil(DateUtc(y, m - 1, d), y, m, d);
      if y < 100 { RemappedYear(y, m, d); }
    }
  }

  lemma ValidDateExactly(s: string)
    requires DateShaped(s)
    ensures IsValidDate(s) <==> 100 <= Year(s) && Civil(Year(s), Month(s), Day(s))
    ensures IsValidDate(s) ==> DayNumber(s) == MakeDay(Year(s), Month(s) - 1, Day(s))
  {
    ReadsBackExactly(Year(s), Month(s), Day(s));
  }

  /** Whatever the accessors report is a real date. */
  lemma AcceptedIsCivil(ms: int, y: int, m: int, d: int)
    requires UtcFullYear(ms) == y && UtcMonth(ms) == m - 1 && UtcDate(ms) == d
    ensures Civil(y, m, d) && d <= 31
  {
  }

  /** 19xx never reads back as xx. */
  lemma RemappedYear(y: int, m: int, d: int)
    requires 0 <= y < 100 && 1 <= m <= 12 && 1 <= d <= 31
    ensures UtcFullYear(DateUtc(y, m - 1, d)) != y
  {
    var z := 1900 + y;
    var n := MakeDay(z, m - 1, d);
    WholeDays(n);
    assert n >= DayFromYear(z);
    YearStep(y);
    YearsMonotone(y, z);
  }

  lemma WholeDays(n: int)
    ensures MS_PER_DAY * n / MS_PER_DAY == n && RoundDays(MS_PER_DAY * n) == n
  {
  }

  lemma DifferenceOfDays(first: string, second: string)
    requires DateShaped(first) && DateShaped(second)
    ensures DaysBetween(first, second) == DayNumber(second) - DayNumber(first)
  {
    WholeDaysApart(DayNumber(first), DayNumber(second));
  }

  lemma WholeDaysApart(f: int, g: int)
    ensures RoundDays(MS_PER_DAY * g - MS_PER_DAY * f) == g - f
  {
    assert MS_PER_DAY * g - MS_PER_DAY * f == MS_PER_DAY * (g - f);
    WholeDays(g - f);
  }

  lemma LaterInYear(leap: bool, m: int, d: int, m': int, d': int)
    requires 1 <= m <= 12 && 1 <= m' <= 12 && 1 <= d' && d <= DaysBefore(m, leap) - DaysBefore(m - 1, leap)
    requires m < m' || (m == m' && d < d')
    ensures DaysBefore(m - 1, leap) + d < DaysBefore(m' - 1, leap) + d'
  {
    if m < m' - 1 { MonthsMonotone(m, m' - 1, leap); }
  }

  /** Earlier in the calendar means an earlier day number. */
  lemma CivilMonotone(y: int, m: int, d: int, y': int, m': int, d': int)
    requires Civil(y, m, d) && Civil(y', m', d')
    requires y < y' || (y == y' && (m < m' || (m == m' && d < d')))
    ensures MakeDay(y, m - 1, d) < MakeDay(y', m' - 1, d')
  {
    DayInYear(y, m, d);
    DayInYear(y', m', d');
    if y < y' {
      LaterYear(y, y', MakeDay(y, m - 1, d), MakeDay(y', m' - 1, d'));
    } else {
      LaterInYear(Leap(y), m, d, m', d');
    }
  }

  lemma LaterYear(y: int, z: int, n: int, k: int)
    requires y < z && n < DayFromYear(y + 1) && DayFromYear(z) <= k
    ensures n < k
  {
    YearStep(y);
    YearsMonotone(y, z);
  }

  /** Zero padding makes text order the calendar order. */
  lemma TextOrder(a: string, b: string, k: nat)
    requires DateShaped(a) && DateShaped(b) && k < 10 && a[..k] == b[..k] && a[k] < b[k]
    ensures var (y, m, d, y', m', d') := (Year(a), Month(a), Day(a), Year(b), Month(b), Day(b));
      y < y' || (y == y' && (m < m' || (m == m' && d < d')))
  {
    assert forall i :: 0 <= i < k ==> a[i] == a[..k][i] == b[..k][i] == b[i];
  }

  /** On valid dates, text order, day order and `daysBetween` say the same. */
  lemma OrderAgrees(a: string, b: string)
    requires IsValidDate(a) && IsValidDate(b)
    ensures Less(a, b) <==> DaysBetween(a, b) > 0
    ensures Less(b, a) <==> DaysBetween(a, b) < 0
    ensures a == b <==> DaysBetween(a, b) == 0
    ensures DaysBetween(a, b) == DayNumber(b) - DayNumber(a)
  {
    DifferenceOfDays(a, b);
    LessIrreflexive(a);
    if a != b {
      var k := FirstDifference(a, b);
      if a[k] < b[k] {
        EarlierText(a, b, k);
      } else {
        EarlierText(b, a, k);
      }
    }
  }

  lemma EarlierText(a: string, b: string, k: nat)
    requires IsValidDate(a) && IsValidDate(b) && k < 10 && a[..k] == b[..k] && a[k] < b[k]
    ensures Less(a, b) && !Less(b, a) && DayNumber(a) < DayNumber(b)
  {
    hide MakeDay, ReadsBack, UtcDay, DateUtc;
    LessAt(a, b, k);
    if Less(b, a) { LessTransitive(a, b, a); LessIrreflexive(a); }
    TextOrder(a, b, k);
    ValidDateExactly(a);
    ValidDateExactly(b);
    CivilMonotone(Year(a), Month(a), Day(a), Year(b), Month(b), Day(b));
  }

  lemma DaysBetweenAdditive(a: string, b: string, c: string)
    requires IsValidDate(a) && IsValidDate(b) && IsValidDate(c)
    ensures DaysBetween(a, c) == DaysBetween(a, b) + DaysBetween(b, c)
    ensures DaysBetween(b, a) == -DaysBetween(a, b)
  {
    DifferenceOfDays(a, b);
    DifferenceOfDays(b, c);
    DifferenceOfDays(a, c);
    DifferenceOfDays(b, a);
  }

  // ----- day numbers back to text, as the database prints a `date` column -----

  const FIRST_DAY := DayFromYear(100)
  const LAST_DAY := DayFromYear(10000) - 1

  predicate IsDay(n: int) {
    FIRST_DAY <= n <= LAST_DAY
  }

  function DigitChar(v: int): (c: char)
    requires 0 <= v <= 9
    ensures IsDigit(c) && Digit(c) == v
  {
    '0' + v as char
  }

  function Pad2(v: int): (s: string)
    requires 0 <= v < 100
    ensures |s| == 2 && IsDigit(s[0]) && IsDigit(s[1]) && 10 * Digit(s[0]) + Digit(s[1]) == v
  {
    [DigitChar(v / 10), DigitChar(v % 10)]
  }

  /** The text of the day `n`; the year of a day in range has four digits. */
  function DateText(n: int): string {
    var ms := MS_PER_DAY * n;
    var (y, m, d) := (UtcFullYear(ms), UtcMonth(ms) + 1, UtcDate(ms));
    if 0 <= y < 10000 && 0 <= d < 100 then Pad2(y / 100) + Pad2(y % 100) + "-" + Pad2(m) + "-" + Pad2(d) else ""
  }

  lemma YearInRange(n: int, y: int)
    requires IsDay(n) && DayFromYear(y) <= n < DayFromYear(y + 1)
    ensures 100 <= y < 10000
  {
    YearStep(y);
    if y < 100 { YearsMonotone(y, 100); }
    if 10000 <= y && y != 10000 { YearsMonotone(10000, y); YearStep(10000); }
  }

  lemma PaddedShape(y: int, m: int, d: int)
    requires 0 <= y < 10000 && 0 <= m < 100 && 0 <= d < 100
    ensures var t := Pad2(y / 100) + Pad2(y % 100) + "-" + Pad2(m) + "-" + Pad2(d);
      DateShaped(t) && Year(t) == y && Month(t) == m && Day(t) == d
  {
    hide Pad2;
  }

  lemma DayFields(n: int)
    requires IsDay(n)
    ensures var ms := MS_PER_DAY * n;
      100 <= UtcFullYear(ms) < 10000 && 1 <= UtcMonth(ms) + 1 <= 12 && 1 <= UtcDate(ms) <= 31
  {
    var ms := MS_PER_DAY * n;
    WholeDays(n);
    YearInRange(n, UtcFullYear(ms));
    AcceptedIsCivil(ms, UtcFullYear(ms), UtcMonth(ms) + 1, UtcDate(ms));
    hide UtcFullYear, UtcMonth, UtcDate;
  }

  lemma DateTextShape(n: int)
    requires IsDay(n)
    ensures var t := DateText(n);
      var ms := MS_PER_DAY * n;
      DateShaped(t) && Year(t) == UtcFullYear(ms) && Month(t) == UtcMonth(ms) + 1 && Day(t) == UtcDate(ms) && 100 <= Year(t)
  {
    hide UtcFullYear, UtcMonth, UtcDate, Pad2, DateShaped, Year, Month, Day, IsDay;
    var ms := MS_PER_DAY * n;
    DayFields(n);
    PaddedShape(UtcFullYear(ms), UtcMonth(ms) + 1, UtcDate(ms));
  }

  /** Printing a day and reading the text back is the identity, */
  lemma DayRoundTrip(n: int)
    requires IsDay(n)
    ensures IsValidDate(DateText(n)) && DayNumber(DateText(n)) == n
  {
    var t := DateText(n);
    var ms := MS_PER_DAY * n;
    DateTextShape(n);
    WholeDays(n);
    AcceptedIsCivil(ms, Year(t), Month(t), Day(t));
    ValidDateExactly(t);
    DayInYear(Year(t), Month(t), Day(t));
  }

  /** and so is reading a valid date and printing its day. */
  lemma TextRoundTrip(s: string)
    requires IsValidDate(s)
    ensures IsDay(DayNumber(s)) && DateText(DayNumber(s)) == s
  {
    var n := DayNumber(s);
    ValidDateExactly(s);
    DayInYear(Year(s), Month(s), Day(s));
    FourDigitYear(n, Year(s));
    DayRoundTrip(n);
    OrderAgrees(s, DateText(n));
  }

  lemma FourDigitYear(n: int, y: int)
    requires 100 <= y < 10000 && DayFromYear(y) <= n < DayFromYear(y + 1)
    ensures IsDay(n)
  {
    if 100 < y { YearsMonotone(100, y); YearStep(100); }
    if y < 9999 { YearsMonotone(y + 1, 10000); YearStep(y + 1); }
  }
}
