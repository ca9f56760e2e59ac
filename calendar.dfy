/**
 * The proleptic Gregorian calendar as PHP's DateTime sees it: month
 * lengths, the ISO day of the week, the `Y-m-d` / `Y-m` formats, and the way
 * `DateTime::createFromFormat` carries out-of-range months and days over
 * instead of failing.
 */
module Calendar {
  import opened Strings

  datatype Date = Date(year: int, month: int, day: int)

  datatype YearMonth = YearMonth(year: int, month: int)

  predicate IsLeap(y: int)
  {
    (y % 4 == 0 && y % 100 != 0) || y % 400 == 0
  }

  /** `format('t')`. */
  function DaysInMonth(y: int, m: int): (n: int)
    requires 1 <= m <= 12
    ensures 28 <= n <= 31
    ensures n == 29 <==> m == 2 && IsLeap(y)
  {
    if m == 2 then (if IsLeap(y) then 29 else 28)
    else if m == 4 || m == 6 || m == 9 || m == 11 then 30
    else 31
  }

  predicate ValidDate(d: Date)
  {
    1 <= d.month <= 12 && 1 <= d.day <= DaysInMonth(d.year, d.month)
  }

  predicate ValidMonth(ym: YearMonth)
  {
    1 <= ym.month <= 12
  }

  function MonthOf(d: Date): YearMonth
  {
    YearMonth(d.year, d.month)
  }

  /** Month carry: month 0 is December of the year before, month 13 January of the next. */
  function CarryMonth(y: int, m: int): (r: YearMonth)
    ensures ValidMonth(r)
    ensures 12 * r.year + r.month == 12 * y + m
  {
    YearMonth(y + (m - 1) / 12, (m - 1) % 12 + 1)
  }

  /**
   * The date `createFromFormat` builds from year, month and day fields that
   * may be out of range: surplus months carry into the year, then surplus
   * days into the following months; day 0 is the last day of the month before.
   */
  function Normalize(y: int, m: int, d: nat): (r: Date)
    ensures ValidDate(r)
    ensures ValidDate(Date(y, m, d)) ==> r == Date(y, m, d)
    decreases d
  {
    var ym := CarryMonth(y, m);
    if d == 0 then
      var p := CarryMonth(ym.year, ym.month - 1);
      Date(p.year, p.month, DaysInMonth(p.year, p.month))
    else if d <= DaysInMonth(ym.year, ym.month) then
      Date(ym.year, ym.month, d)
    else
      var n := CarryMonth(ym.year, ym.month + 1);
      Normalize(n.year, n.month, d - DaysInMonth(ym.year, ym.month))
  }

  /** The day after `d` in the calendar. */
  function NextDay(d: Date): (r: Date)
    requires ValidDate(d)
    ensures ValidDate(r)
  {
    if d.day < DaysInMonth(d.year, d.month) then Date(d.year, d.month, d.day + 1)
    else if d.month < 12 then Date(d.year, d.month + 1, 1)
    else Date(d.year + 1, 1, 1)
  }

  /** `format('N')`: the ISO-8601 day of the week, Monday 1 through Sunday 7. */
  function Weekday(d: Date): (w: int)
    requires ValidDate(d)
    ensures 1 <= w <= 7
  {
    var s := SundayBased(d);
    if s == 0 then 7 else s
  }

  /** Sakamoto's rule: 0 for Sunday through 6 for Saturday. */
  function SundayBased(d: Date): (s: int)
    requires ValidDate(d)
    ensures 0 <= s < 7
  {
    (SakamotoSum(d.year, d.month) + d.day) % 7
  }

  function SakamotoSum(year: int, month: int): int
    requires 1 <= month <= 12
  {
    var t := [0, 3, 2, 5, 0, 3, 5, 1, 4, 6, 2, 4];
    YearTerm(if month < 3 then year - 1 else year) + t[month - 1]
  }

  function YearTerm(y: int): int
  {
    y + y / 4 - y / 100 + y / 400
  }

  /** The leap-year terms of Sakamoto's rule advance by one more going into a leap year. */
  lemma YearTermStep(y: int)
    ensures YearTerm(y) - YearTerm(y - 1) == if IsLeap(y) then 2 else 1
  {
    DivStep4(y);
    DivStep100(y);
    DivStep400(y);
  }

  lemma DivStep4(y: int)
    ensures y / 4 - (y - 1) / 4 == if y % 4 == 0 then 1 else 0
  {
  }

  lemma DivStep100(y: int)
    ensures y / 100 - (y - 1) / 100 == if y % 100 == 0 then 1 else 0
  {
  }

  lemma DivStep400(y: int)
    ensures y / 400 - (y - 1) / 400 == if y % 400 == 0 then 1 else 0
  {
  }

  /** Moving to the first of the next month shifts the rule's sum by the month's length, less whole weeks. */
  lemma MonthStep(y: int, m: int)
    requires 1 <= m <= 12
    ensures var n := if m < 12 then YearMonth(y, m + 1) else YearMonth(y + 1, 1);
      SakamotoSum(n.year, n.month) - SakamotoSum(y, m) - DaysInMonth(y, m)
        == -7 * (if m == 4 || m == 7 || m == 10 || m == 12 then 5 else 4)
  {
    if m == 2 {
      YearTermStep(y);
    }
  }

  /** Whole weeks the rule's sum drops by between `d` and the next day. */
  function StepWeeks(d: Date): int
    requires ValidDate(d)
  {
    if d.day < DaysInMonth(d.year, d.month) then 0
    else if d.month == 4 || d.month == 7 || d.month == 10 || d.month == 12 then 5
    else 4
  }

  lemma SumStep(d: Date)
    requires ValidDate(d)
    ensures var n := NextDay(d);
      SakamotoSum(n.year, n.month) + n.day == SakamotoSum(d.year, d.month) + d.day + 1 - 7 * StepWeeks(d)
  {
    if d.day == DaysInMonth(d.year, d.month) {
      MonthStep(d.year, d.month);
    }
  }

  /** Sunday-based, the day after is one further round the week. */
  lemma SundayStep(d: Date)
    requires ValidDate(d)
    ensures SundayBased(NextDay(d)) == (SundayBased(d) + 1) % 7
  {
    var n := NextDay(d);
    SumStep(d);
    ModShift(SakamotoSum(d.year, d.month) + d.day, SakamotoSum(n.year, n.month) + n.day, StepWeeks(d));
  }

  /**
   * The day of the week and the month lengths agree: the day after any date
   * falls on the next day of the week.
   */
  lemma WeekdayAdvances(d: Date)
    requires ValidDate(d)
    ensures Weekday(NextDay(d)) == Weekday(d) % 7 + 1
  {
    SundayStep(d);
    WeekdayFromSunday(SundayBased(d), SundayBased(NextDay(d)));
  }

  lemma WeekdayFromSunday(sd: int, sn: int)
    requires 0 <= sd < 7 && sn == (sd + 1) % 7
    ensures (if sn == 0 then 7 else sn) == (if sd == 0 then 7 else sd) % 7 + 1
  {
  }

  lemma ModShift(a: int, b: int, c: int)
    requires b == a + 1 - 7 * c
    ensures b % 7 == (a % 7 + 1) % 7
  {
  }

  /** `format('Y')`: at least four digits, with a leading `-` before year 1. */
  function FormatYear(y: int): (r: string)
    ensures |r| >= 4
  {
    if y < 0 then "-" + PadNat(-y, 4) else PadNat(y, 4)
  }

  /** `format('Y-m-d')`, and `sprintf('%04d-%02d-%02d')` for years 0 to 9999. */
  function FormatYmd(d: Date): (r: string)
    requires ValidDate(d)
    ensures |r| >= 10
  {
    FormatYear(d.year) + "-" + PadNat(d.month, 2) + "-" + PadNat(d.day, 2)
  }

  /** `format('Y-m')`. */
  function FormatYm(ym: YearMonth): (r: string)
    requires ValidMonth(ym)
    ensures |r| >= 7
  {
    FormatYear(ym.year) + "-" + PadNat(ym.month, 2)
  }

  /** `format('F')`. */
  function MonthName(m: int): string
    requires 1 <= m <= 12
  {
    ["January", "February", "March", "April", "May", "June", "July",
     "August", "September", "October", "November", "December"][m - 1]
  }

  /** Exactly `dddd-dd-dd`. */
  predicate DateShape(s: string)
  {
    |s| == 10 && AllDigits(s[..4]) && s[4] == '-' && AllDigits(s[5..7]) && s[7] == '-' && AllDigits(s[8..])
  }

  /** Exactly `dddd-dd`. */
  predicate MonthShape(s: string)
  {
    |s| == 7 && AllDigits(s[..4]) && s[4] == '-' && AllDigits(s[5..])
  }

  function DateFields(s: string): (d: Date)
    requires DateShape(s)
    ensures 0 <= d.year < 10000 && 0 <= d.month < 100 && 0 <= d.day < 100
  {
    DigitsBound(s[..4]); DigitsBound(s[5..7]); DigitsBound(s[8..]);
    Date(DigitsValue(s[..4]), DigitsValue(s[5..7]), DigitsValue(s[8..]))
  }

  function MonthFields(s: string): (ym: YearMonth)
    requires MonthShape(s)
    ensures 0 <= ym.year < 10000 && 0 <= ym.month < 100
  {
    DigitsBound(s[..4]); DigitsBound(s[5..]);
    YearMonth(DigitsValue(s[..4]), DigitsValue(s[5..]))
  }

  lemma {:induction false} DigitsBound(s: string)
    requires AllDigits(s)
    ensures DigitsValue(s) < Pow10(|s|)
  {
    if s != [] {
      DigitsBound(s[..|s| - 1]);
    }
  }

  /** Writing back the number an all-digit string spells, at its own width, gives the string. */
  lemma {:induction false} PadDigits(s: string)
    requires AllDigits(s) && |s| >= 1
    ensures PadNat(DigitsValue(s), |s|) == s
  {
    var v := DigitsValue(s);
    var w := |s|;
    if w == 1 {
      assert s[..0] == [] && DigitsValue(s[..0]) == 0;
      assert v == DigitValue(s[0]) < 10;
    } else {
      var init := s[..w - 1];
      DigitsBound(init);
      PadDigits(init);
      assert v / 10 == DigitsValue(init) && v % 10 == DigitValue(s[w - 1]);
      if v < 10 {
        assert DigitsValue(init) == 0;
      }
      assert s == init + [s[w - 1]];
    }
  }

  /** A four-character year field can only come from a year 0 to 9999. */
  lemma YearWidth(y: int)
    requires |FormatYear(y)| == 4
    ensures 0 <= y < 10000 && FormatYear(y) == PadNat(y, 4)
  {
    if y >= 10000 {
      PadNatLonger(y, 4);
    }
  }

  /**
   * For a string of shape `dddd-dd-dd`, a valid date formats to it exactly
   * when it is the date its fields spell.
   */
  lemma FormatYmdMatches(s: string, d: Date)
    requires DateShape(s) && ValidDate(d)
    ensures FormatYmd(d) == s <==> d == DateFields(s)
  {
    var f := DateFields(s);
    if d == f {
      PadDigits(s[..4]); PadDigits(s[5..7]); PadDigits(s[8..]);
      assert FormatYmd(d) == s;
    }
    if FormatYmd(d) == s {
      var y, m, dd := FormatYear(d.year), PadNat(d.month, 2), PadNat(d.day, 2);
      assert |y| == 4 && |m| == 2 && |dd| == 2;
      YearWidth(d.year);
      assert s[..4] == y && s[5..7] == m && s[8..] == dd;
      PadNatValue(d.year, 4); PadNatValue(d.month, 2); PadNatValue(d.day, 2);
    }
  }

  /** The same for a string of shape `dddd-dd` and a month. */
  lemma FormatYmMatches(s: string, ym: YearMonth)
    requires MonthShape(s) && ValidMonth(ym)
    ensures FormatYm(ym) == s <==> ym == MonthFields(s)
  {
    var f := MonthFields(s);
    if ym == f {
      PadDigits(s[..4]); PadDigits(s[5..]);
      assert FormatYm(ym) == s;
    }
    if FormatYm(ym) == s {
      var y, m := FormatYear(ym.year), PadNat(ym.month, 2);
      assert |y| == 4 && |m| == 2;
      YearWidth(ym.year);
      assert s[..4] == y && s[5..] == m;
      PadNatValue(ym.year, 4); PadNatValue(ym.month, 2);
    }
  }
}
