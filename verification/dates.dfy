/** Calendar dates without clocks or time zones. A JavaScript `Date` at local
    midnight is modelled as its year, month (1-12) and day of month; the
    proleptic Gregorian calendar is numbered from 0001-01-01 (day 0, a
    Monday), and every piece of date arithmetic the program does with
    `setDate`, `getDay` or millisecond differences is stated over those day
    numbers. */
module Dates {
  import opened Wrappers
  import opened Text

  datatype Ymd = Ymd(year: int, month: int, day: int)

  predicate IsLeapYear(y: int) {
    y % 4 == 0 && (y % 100 != 0 || y % 400 == 0)
  }

  function DaysInMonth(y: int, m: int): (n: int)
    requires 1 <= m <= 12
    ensures 28 <= n <= 31
  {
    if m == 2 then (if IsLeapYear(y) then 29 else 28)
    else if m == 4 || m == 6 || m == 9 || m == 11 then 30
    else 31
  }

  predicate ValidYmd(d: Ymd) {
    1 <= d.month <= 12 && 1 <= d.day <= DaysInMonth(d.year, d.month)
  }

  /** A real calendar day. */
  type Date = d: Ymd | ValidYmd(d) witness Ymd(1970, 1, 1)

  function DaysInYear(y: int): int {
    if IsLeapYear(y) then 366 else 365
  }

  /** Days from 0001-01-01 to January 1 of year `y` (negative before year 1). */
  function DaysBeforeYear(y: int): int {
    var p := y - 1;
    365 * p + p / 4 - p / 100 + p / 400
  }

  /** Days from January 1 to the first of month `m` in year `y`. */
  function DaysBeforeMonth(y: int, m: int): int
    requires 1 <= m <= 12
  {
    var common :=
      if m == 1 then 0 else if m == 2 then 31 else if m == 3 then 59
      else if m == 4 then 90 else if m == 5 then 120 else if m == 6 then 151
      else if m == 7 then 181 else if m == 8 then 212 else if m == 9 then 243
      else if m == 10 then 273 else if m == 11 then 304 else 334;
    common + (if m > 2 && IsLeapYear(y) then 1 else 0)
  }

  /** The day number: days elapsed since 0001-01-01. */
  function DayNumber(d: Date): int {
    DaysBeforeYear(d.year) + DaysBeforeMonth(d.year, d.month) + d.day - 1
  }

  /** Chronological order on dates: year, then month, then day. */
  predicate Before(a: Date, b: Date) {
    a.year < b.year
    || (a.year == b.year && (a.month < b.month || (a.month == b.month && a.day < b.day)))
  }

  // ---------------------------------------------------------------------
  // Day numbers are a faithful numbering of the calendar
  // ---------------------------------------------------------------------

  /** Stepping the numerator by one moves a quotient exactly at multiples. */
  lemma DivStep(p: int)
    ensures (p + 1) / 4 == p / 4 + (if (p + 1) % 4 == 0 then 1 else 0)
    ensures (p + 1) / 100 == p / 100 + (if (p + 1) % 100 == 0 then 1 else 0)
    ensures (p + 1) / 400 == p / 400 + (if (p + 1) % 400 == 0 then 1 else 0)
  {
  }

  lemma MultipleMod(k: int)
    ensures (100 * k) % 100 == 0 && (4 * k) % 4 == 0
  {
  }

  /** Multiples of 400 are multiples of 100, which are multiples of 4. */
  lemma DivisorChain(y: int)
    ensures y % 400 == 0 ==> y % 100 == 0
    ensures y % 100 == 0 ==> y % 4 == 0
  {
    var q, r := y / 400, y / 100;
    MultipleMod(4 * q);
    MultipleMod(25 * r);
    assert y % 400 == 0 ==> y == 100 * (4 * q);
    assert y % 100 == 0 ==> y == 4 * (25 * r);
  }

  lemma YearStep(y: int)
    ensures DaysBeforeYear(y + 1) == DaysBeforeYear(y) + DaysInYear(y)
  {
    var p := y - 1;
    DivStep(p);
    DivisorChain(y);
    var a := if y % 4 == 0 then 1 else 0;
    var b := if y % 100 == 0 then 1 else 0;
    var c := if y % 400 == 0 then 1 else 0;
    assert a - b + c == DaysInYear(y) - 365;
    assert DaysBeforeYear(y + 1) == 365 * p + 365 + (p / 4 + a) - (p / 100 + b) + (p / 400 + c);
  }

  lemma {:induction false} YearsApart(y1: int, y2: int)
    requires y1 < y2
    ensures DaysBeforeYear(y1) + DaysInYear(y1) <= DaysBeforeYear(y2)
    decreases y2 - y1
  {
    YearStep(y1);
    if y1 + 1 < y2 {
      YearsApart(y1 + 1, y2);
    }
  }

  lemma MonthsApart(y: int, m1: int, m2: int)
    requires 1 <= m1 < m2 <= 12
    ensures DaysBeforeMonth(y, m1) + DaysInMonth(y, m1) <= DaysBeforeMonth(y, m2)
  {
  }

  lemma DayOfYearBounds(d: Date)
    ensures 0 <= DayNumber(d) - DaysBeforeYear(d.year) < DaysInYear(d.year)
  {
  }

  /** Day numbers order dates exactly as the calendar does. */
  lemma DayNumberOrder(a: Date, b: Date)
    ensures DayNumber(a) < DayNumber(b) <==> Before(a, b)
  {
    DayOfYearBounds(a);
    DayOfYearBounds(b);
    if a.year < b.year {
      YearsApart(a.year, b.year);
    } else if b.year < a.year {
      YearsApart(b.year, a.year);
    } else if a.month < b.month {
      MonthsApart(a.year, a.month, b.month);
    } else if b.month < a.month {
      MonthsApart(a.year, b.month, a.month);
    }
  }

  /** The last 31 days of a year are in December, the first 31 in January. */
  lemma MonthFromDayOfYear(d: Date)
    ensures DayNumber(d) - DaysBeforeYear(d.year) >= DaysInYear(d.year) - 31 ==> d.month == 12
    ensures DayNumber(d) - DaysBeforeYear(d.year) < 31 ==> d.month == 1
  {
  }

  /** Distinct dates have distinct day numbers. */
  lemma DayNumberInjective(a: Date, b: Date)
    ensures DayNumber(a) == DayNumber(b) <==> a == b
  {
    DayNumberOrder(a, b);
    DayNumberOrder(b, a);
  }

  // ---------------------------------------------------------------------
  // Moving by days: `d.setDate(d.getDate() + k)`
  // ---------------------------------------------------------------------

  function NextDay(d: Date): (r: Date)
    ensures DayNumber(r) == DayNumber(d) + 1
  {
    if d.day < DaysInMonth(d.year, d.month) then Ymd(d.year, d.month, d.day + 1)
    else if d.month < 12 then Ymd(d.year, d.month + 1, 1)
    else
      YearStep(d.year);
      Ymd(d.year + 1, 1, 1)
  }

  function PrevDay(d: Date): (r: Date)
    ensures DayNumber(r) == DayNumber(d) - 1
  {
    if d.day > 1 then Ymd(d.year, d.month, d.day - 1)
    else if d.month > 1 then Ymd(d.year, d.month - 1, DaysInMonth(d.year, d.month - 1))
    else
      YearStep(d.year - 1);
      Ymd(d.year - 1, 12, 31)
  }

  /** The date `k` days after `d` (before it when `k` is negative), as the
      overflow of `setDate` produces it. */
  function AddDays(d: Date, k: int): (r: Date)
    ensures DayNumber(r) == DayNumber(d) + k
    decreases if k < 0 then -k else k
  {
    if k == 0 then d
    else if k > 0 then AddDays(NextDay(d), k - 1)
    else AddDays(PrevDay(d), k + 1)
  }

  /** Shifting is additive, and shifting back undoes a shift. */
  lemma AddDaysAdd(d: Date, j: int, k: int)
    ensures AddDays(AddDays(d, j), k) == AddDays(d, j + k)
  {
    DayNumberInjective(AddDays(AddDays(d, j), k), AddDays(d, j + k));
  }

  /** The day count from `a` to `b` is the shift that carries `a` to `b`. */
  lemma AddDaysDifference(a: Date, b: Date)
    ensures AddDays(a, DayNumber(b) - DayNumber(a)) == b
  {
    DayNumberInjective(AddDays(a, DayNumber(b) - DayNumber(a)), b);
  }

  // ---------------------------------------------------------------------
  // Weekday: `getDay()`, 0 = Sunday ... 6 = Saturday
  // ---------------------------------------------------------------------

  function Weekday(d: Date): (w: int)
    ensures 0 <= w < 7
  {
    (DayNumber(d) + 1) % 7
  }

  /** 1 January 2026 was a Thursday. */
  lemma WeekdayAnchor()
    ensures Weekday(Ymd(2026, 1, 1)) == 4
  {
  }

  lemma ModSeven(n: int, k: int)
    ensures (n + k) % 7 == (n % 7 + k) % 7
  {
  }

  lemma ModSevenClose(a: int, b: int)
    requires (a + 1) % 7 == (b + 1) % 7
    requires a - 7 < b < a + 7
    ensures a == b
  {
  }

  lemma ModSevenWeek(n: int)
    ensures (n + 7) % 7 == n % 7 && (n - 7) % 7 == n % 7
  {
  }

  /** Two dates less than a week apart on the same weekday are the same date. */
  lemma SameWeekdayWithinWeek(a: Date, b: Date)
    requires Weekday(a) == Weekday(b)
    requires DayNumber(a) - 7 < DayNumber(b) < DayNumber(a) + 7
    ensures a == b
  {
    ModSevenClose(DayNumber(a), DayNumber(b));
    DayNumberInjective(a, b);
  }

  /** A week's shift keeps the weekday. */
  lemma WeekdayAddWeek(d: Date)
    ensures Weekday(AddDays(d, 7)) == Weekday(d)
    ensures Weekday(AddDays(d, -7)) == Weekday(d)
  {
    ModSevenWeek(DayNumber(d) + 1);
  }

  lemma WeekdayAddDays(d: Date, k: int)
    ensures Weekday(AddDays(d, k)) == (Weekday(d) + k) % 7
  {
    ModSeven(DayNumber(d) + 1, k);
  }

  // ---------------------------------------------------------------------
  // 'YYYY-MM-DD' formatting (`formatDate`, `getTodayString`)
  // ---------------------------------------------------------------------

  /** `${getFullYear()}-${pad2(getMonth() + 1)}-${pad2(getDate())}`: the year
      is not padded, month and day are padded to two digits. For a
      four-digit year the text reads back as the same date. */
  function FormatDate(d: Date): (s: string)
    ensures FourDigitYear(d) ==> ParseDate(s) == Some(d)
  {
    var s := IntToString(d.year) + "-" + Pad2(d.month) + "-" + Pad2(d.day);
    if FourDigitYear(d) then
      JoinedReadsBack(d);
      s
    else s
  }

  /** Reads a 'YYYY-MM-DD' string as the calendar day it names; anything
      else, including a day the month does not have, reads as nothing. */
  function ParseDate(s: string): (r: Option<Date>)
    ensures r.Some? ==> |s| == 10 && s[4] == '-' && s[7] == '-'
  {
    if |s| == 10 && s[4] == '-' && s[7] == '-'
       && AllDigits(s[..4]) && AllDigits(s[5..7]) && AllDigits(s[8..]) then
      var d := Ymd(ParseNat(s[..4]), ParseNat(s[5..7]), ParseNat(s[8..]));
      if ValidYmd(d) then Some(d) else None
    else None
  }

  lemma JoinedReadsBack(d: Date)
    requires FourDigitYear(d)
    ensures ParseDate(IntToString(d.year) + "-" + Pad2(d.month) + "-" + Pad2(d.day)) == Some(d)
  {
    NatToStringHasWidth(d.year, 4);
    Pad2IsDigits(d.month);
    Pad2IsDigits(d.day);
    var y, m, dd := Digits(d.year, 4), Digits(d.month, 2), Digits(d.day, 2);
    ParseNatDigits(d.year, 4);
    ParseNatDigits(d.month, 2);
    ParseNatDigits(d.day, 2);
    DashedParts(y, m, dd);
  }

  /** The pieces of a dashed 4-2-2 string sit at fixed positions, and
      such a string reads back as the numbers its pieces spell. */
  lemma DashedParts(y: string, m: string, dd: string)
    requires |y| == 4 && |m| == 2 && |dd| == 2
    requires AllDigits(y) && AllDigits(m) && AllDigits(dd)
    ensures var s := y + "-" + m + "-" + dd;
      var d := Ymd(ParseNat(y), ParseNat(m), ParseNat(dd));
      ParseDate(s) == if ValidYmd(d) then Some(d) else None
  {
    var s := y + "-" + m + "-" + dd;
    assert s[4] == '-' && s[7] == '-';
    assert s[..4] == y && s[5..7] == m && s[8..] == dd;
  }

  /** Years JavaScript prints with exactly four digits. */
  predicate FourDigitYear(d: Date) {
    1000 <= d.year <= 9999
  }

  /** With a four-digit year the string is the zero-padded 10-character form. */
  lemma FormatDateShape(d: Date)
    requires FourDigitYear(d)
    ensures FormatDate(d) == Digits(d.year, 4) + ['-'] + Digits(d.month, 2) + ['-'] + Digits(d.day, 2)
    ensures |FormatDate(d)| == 10
    ensures FormatDate(d)[4] == '-' && FormatDate(d)[7] == '-'
  {
    NatToStringHasWidth(d.year, 4);
    Pad2IsDigits(d.month);
    Pad2IsDigits(d.day);
  }

  lemma DashDigitsOrder(x: nat, y: nat)
    requires x < 100 && y < 100
    ensures Less(['-'] + Digits(x, 2), ['-'] + Digits(y, 2)) <==> x < y
    ensures ['-'] + Digits(x, 2) == ['-'] + Digits(y, 2) <==> x == y
  {
    DigitsOrder(x, y, 2);
    LessAppend(['-'], Digits(x, 2), ['-'], Digits(y, 2));
    if ['-'] + Digits(x, 2) == ['-'] + Digits(y, 2) {
      assert Digits(x, 2) == (['-'] + Digits(x, 2))[1..];
    }
  }

  /** The "-MM-DD" tail of a formatted date. */
  function MonthDayTail(m: nat, d: nat): string {
    ['-'] + Digits(m, 2) + (['-'] + Digits(d, 2))
  }

  lemma MonthDayTailOrder(m1: nat, d1: nat, m2: nat, d2: nat)
    requires m1 < 100 && d1 < 100 && m2 < 100 && d2 < 100
    ensures Less(MonthDayTail(m1, d1), MonthDayTail(m2, d2)) <==> m1 < m2 || (m1 == m2 && d1 < d2)
    ensures MonthDayTail(m1, d1) == MonthDayTail(m2, d2) <==> m1 == m2 && d1 == d2
  {
    DashDigitsOrder(m1, m2);
    DashDigitsOrder(d1, d2);
    var p, q := ['-'] + Digits(m1, 2), ['-'] + Digits(m2, 2);
    var s, t := ['-'] + Digits(d1, 2), ['-'] + Digits(d2, 2);
    LessAppend(p, s, q, t);
    if p + s == q + t {
      assert p == (p + s)[..3] && q == (q + t)[..3];
      assert s == (p + s)[3..] && t == (q + t)[3..];
    }
  }

  lemma FormatDateSplit(d: Date)
    requires FourDigitYear(d)
    ensures FormatDate(d) == Digits(d.year, 4) + MonthDayTail(d.month, d.day)
  {
    FormatDateShape(d);
    DashedRegroup(Digits(d.year, 4), Digits(d.month, 2), Digits(d.day, 2));
  }

  lemma DashedRegroup(y: string, m: string, dd: string)
    ensures y + ['-'] + m + ['-'] + dd == y + (['-'] + m + (['-'] + dd))
  {
  }

  /** String order on formatted dates is chronological order, which the
      weekly view relies on when it compares stored date strings. */
  lemma FormatDateOrder(a: Date, b: Date)
    requires FourDigitYear(a) && FourDigitYear(b)
    ensures Less(FormatDate(a), FormatDate(b)) <==> DayNumber(a) < DayNumber(b)
    ensures FormatDate(a) == FormatDate(b) <==> a == b
  {
    FormatDateSplit(a);
    FormatDateSplit(b);
    DayNumberOrder(a, b);
    DayNumberInjective(a, b);
    var ya, yb := Digits(a.year, 4), Digits(b.year, 4);
    var ta, tb := MonthDayTail(a.month, a.day), MonthDayTail(b.month, b.day);
    DigitsOrder(a.year, b.year, 4);
    MonthDayTailOrder(a.month, a.day, b.month, b.day);
    LessAppend(ya, ta, yb, tb);
    if ya + ta == yb + tb {
      assert ya == (ya + ta)[..4] && yb == (yb + tb)[..4];
      assert ta == (ya + ta)[4..] && tb == (yb + tb)[4..];
    }
  }
}
