/**
 * The query-string filters of the archive page (`blog_valid_date_filter`,
 * `blog_valid_month_filter`): a strict regular expression followed by a
 * `createFromFormat` / `format` round trip.
 */
module Filters {
  import opened Wrappers
  import opened Strings
  import opened Calendar

  /**
   * PCRE `^\d{4}-\d{2}-\d{2}$`. Without the D modifier `$` also matches
   * just before a final newline.
   */
  predicate MatchesDatePattern(s: string)
  {
    DateShape(s) || (|s| == 11 && s[10] == '\n' && DateShape(s[..10]))
  }

  /** PCRE `^\d{4}-\d{2}$`, with the same final-newline allowance. */
  predicate MatchesMonthPattern(s: string)
  {
    MonthShape(s) || (|s| == 8 && s[7] == '\n' && MonthShape(s[..7]))
  }

  /**
   * `DateTime::createFromFormat('Y-m-d', s)` on strings that passed the
   * pattern: trailing data (the newline) makes it fail, otherwise the fields
   * are read and carried over into a real date. Only the strict `dddd-dd-dd`
   * shape the pattern lets through is modelled; PHP also reads shorter fields
   * such as `2024-2-5`, which never reach this parse.
   */
  function CreateFromYmd(s: string): (r: Option<Date>)
    ensures r.Some? ==> ValidDate(r.value)
  {
    if DateShape(s) then
      var f := DateFields(s);
      Some(Normalize(f.year, f.month, f.day))
    else None
  }

  /**
   * `DateTime::createFromFormat('Y-m', s)`: the day of the month is not in
   * the format, so it is taken from the current date, `day`. As above, only
   * the strict `dddd-dd` shape is modelled.
   */
  function CreateFromYm(s: string, day: nat): (r: Option<Date>)
    ensures r.Some? ==> ValidDate(r.value)
  {
    if MonthShape(s) then
      var f := MonthFields(s);
      Some(Normalize(f.year, f.month, day))
    else None
  }

  /** Parsing the first of a month always gives a first of a month. */
  lemma CreateFromFirst(month: string)
    ensures CreateFromYmd(month + "-01").Some? ==> CreateFromYmd(month + "-01").value.day == 1
  {
    var s := month + "-01";
    if DateShape(s) {
      assert s[8..] == "01";
      DigitsValue2('0', '1');
    }
  }

  /** `blog_valid_date_filter`: `value` is None when the parameter is absent or not a string. */
  function DateFilter(value: Option<string>): (r: Option<string>)
    ensures r.Some? ==> r == value && DateShape(r.value)
  {
    if value.None? || !MatchesDatePattern(value.value) then None
    else match CreateFromYmd(value.value)
      case None => None
      case Some(dt) => if FormatYmd(dt) == value.value then value else None
  }

  /**
   * The filter accepts exactly the strings of shape `dddd-dd-dd` that name a
   * real calendar date, and gives them back unchanged; everything else,
   * including an absent parameter, becomes None.
   */
  lemma DateFilterExact(value: Option<string>)
    ensures DateFilter(value).Some? ==> DateFilter(value) == value
    ensures DateFilter(value).Some? <==>
      value.Some? && DateShape(value.value) && ValidDate(DateFields(value.value))
  {
    if value.Some? && DateShape(value.value) {
      var s := value.value;
      var f := DateFields(s);
      FormatYmdMatches(s, Normalize(f.year, f.month, f.day));
    }
  }

  /** Every real date between the years 0 and 9999, written `Y-m-d`, passes the filter unchanged. */
  lemma DateFilterRoundTrip(d: Date)
    requires ValidDate(d) && 0 <= d.year < 10000
    ensures DateShape(FormatYmd(d))
    ensures DateFilter(Some(FormatYmd(d))) == Some(FormatYmd(d))
  {
    var s := FormatYmd(d);
    PadNatLength(d.year, 4); PadNatLength(d.month, 2); PadNatLength(d.day, 2);
    assert s[..4] == PadNat(d.year, 4) && s[5..7] == PadNat(d.month, 2) && s[8..] == PadNat(d.day, 2);
    assert DateShape(s);
    FormatYmdMatches(s, d);
    DateFilterExact(Some(s));
  }

  /** 30 February 2024 does not exist: the carried-over date is 1 March, so the round trip fails. */
  lemma DateFilterRejectsFebruary30()
    ensures DateFilter(Some("2024-02-30")) == None
  {
    var s := "2024-02-30";
    assert s[..4] == "2024" && s[5..7] == "02" && s[8..] == "30";
    DigitsValue2('0', '2'); DigitsValue2('3', '0');
    assert DateFields(s).month == 2 && DateFields(s).day == 30;
    DateFilterExact(Some(s));
  }

  /**
   * The month filter as the source has it: a string matching the pattern is
   * kept when its `createFromFormat('Y-m')` date, taken on day `day` of that
   * month, formats back to it; anything else gives the current month.
   */
  function MonthFilterOnDay(value: Option<string>, day: nat, current: YearMonth): (r: string)
    requires ValidMonth(current)
    ensures (value.Some? && r == value.value && MonthShape(r)) || r == FormatYm(current)
  {
    if value.None? || !MatchesMonthPattern(value.value) then FormatYm(current)
    else match CreateFromYm(value.value, day)
      case None => FormatYm(current)
      case Some(dt) => if FormatYm(MonthOf(dt)) == value.value then value.value else FormatYm(current)
  }

  /** `blog_valid_month_filter` as written: the day is today's. */
  function MonthFilterAsWritten(value: Option<string>, today: Date): (r: string)
    requires ValidDate(today)
    ensures (value.Some? && r == value.value && MonthShape(r)) || r == FormatYm(MonthOf(today))
  {
    MonthFilterOnDay(value, today.day, MonthOf(today))
  }

  /**
   * The month filter as evidently intended: the month is read on its first
   * day (`createFromFormat('!Y-m')`), so no month overflows.
   */
  function MonthFilter(value: Option<string>, today: Date): (r: string)
    requires ValidDate(today)
    ensures (value.Some? && r == value.value && MonthShape(r)) || r == FormatYm(MonthOf(today))
  {
    MonthFilterOnDay(value, 1, MonthOf(today))
  }

  /** Reading the month at `day` keeps it exactly when the month is real and has that day. */
  lemma MonthKeptOnDay(s: string, day: nat, current: YearMonth)
    requires ValidMonth(current) && MonthShape(s)
    ensures var f := MonthFields(s);
      ValidMonth(f) && 1 <= day <= DaysInMonth(f.year, f.month) ==> MonthFilterOnDay(Some(s), day, current) == s
    ensures var f := MonthFields(s);
      MonthFilterOnDay(Some(s), day, current) == s && s != FormatYm(current) ==>
        ValidMonth(f) && 1 <= day <= DaysInMonth(f.year, f.month)
  {
    var f := MonthFields(s);
    var dt := Normalize(f.year, f.month, day);
    FormatYmMatches(s, MonthOf(dt));
    if MonthOf(dt) == f {
      assert ValidMonth(f);
      if !(1 <= day <= DaysInMonth(f.year, f.month)) {
        NormalizeMovesOut(f.year, f.month, day);
      }
    }
  }

  /** A day that the month does not have carries the date into another month. */
  lemma NormalizeMovesOut(y: int, m: int, d: nat)
    requires 1 <= m <= 12 && !(1 <= d <= DaysInMonth(y, m))
    ensures MonthOf(Normalize(y, m, d)) != YearMonth(y, m)
  {
    NormalizeMonthIndex(y, m, d);
  }

  function MonthIndex(y: int, m: int): int
  {
    12 * y + m
  }

  /** Day 0 lands in the month before; surplus days land in a later month. */
  lemma {:induction false} NormalizeMonthIndex(y: int, m: int, d: nat)
    ensures var r := Normalize(y, m, d); var ym := CarryMonth(y, m);
      && (d == 0 ==> MonthIndex(r.year, r.month) == MonthIndex(ym.year, ym.month) - 1)
      && (d > 0 ==> MonthIndex(r.year, r.month) >= MonthIndex(ym.year, ym.month))
      && (d > DaysInMonth(ym.year, ym.month) ==> MonthIndex(r.year, r.month) > MonthIndex(ym.year, ym.month))
    decreases d
  {
    var ym := CarryMonth(y, m);
    var r := Normalize(y, m, d);
    if d == 0 {
      var p := CarryMonth(ym.year, ym.month - 1);
      assert r == Date(p.year, p.month, DaysInMonth(p.year, p.month));
    } else if d <= DaysInMonth(ym.year, ym.month) {
      assert r == Date(ym.year, ym.month, d);
    } else {
      var n := CarryMonth(ym.year, ym.month + 1);
      var rest := d - DaysInMonth(ym.year, ym.month);
      assert r == Normalize(n.year, n.month, rest);
      NormalizeMonthIndex(n.year, n.month, rest);
      var nn := CarryMonth(n.year, n.month);
      assert MonthIndex(nn.year, nn.month) == MonthIndex(ym.year, ym.month) + 1;
    }
  }

  /**
   * The intended filter accepts exactly the `dddd-dd` strings naming months
   * 01 to 12 and otherwise falls back to the current month.
   */
  lemma MonthFilterExact(value: Option<string>, today: Date)
    requires ValidDate(today)
    ensures value.Some? && MonthShape(value.value) && ValidMonth(MonthFields(value.value)) ==>
      MonthFilter(value, today) == value.value
    ensures !(value.Some? && MonthShape(value.value) && ValidMonth(MonthFields(value.value))) ==>
      MonthFilter(value, today) == FormatYm(MonthOf(today))
  {
    if value.Some? && MonthShape(value.value) {
      MonthKeptOnDay(value.value, 1, MonthOf(today));
    }
  }

  /**
   * Until the 28th of the month the filter as written agrees with the
   * intended one, for every input.
   */
  lemma MonthFilterAgreesEarly(value: Option<string>, today: Date)
    requires ValidDate(today) && today.day <= 28
    ensures MonthFilterAsWritten(value, today) == MonthFilter(value, today)
  {
    MonthFilterExact(value, today);
    if value.Some? && MonthShape(value.value) {
      MonthKeptOnDay(value.value, today.day, MonthOf(today));
    }
  }

  /**
   * On 30 May 2024 the filter as written turns February 2023 away: the date it
   * builds is 30 February 2023, which carries over into 2 March, so the page
   * shows May 2024 instead; the intended filter keeps February 2023.
   */
  lemma MonthFilterRejectsFebruaryLate()
    ensures MonthFilterAsWritten(Some("2023-02"), Date(2024, 5, 30)) == FormatYm(YearMonth(2024, 5))
  {
    var s := "2023-02";
    assert s[..4] == "2023" && s[5..] == "02";
    DigitsValue2('0', '2'); DigitsValue4('2', '0', '2', '3');
    assert MonthFields(s) == YearMonth(2023, 2);
    assert MonthShape(s);
    assert !IsLeap(2023) && DaysInMonth(2023, 2) == 28;
    assert CarryMonth(2023, 2) == YearMonth(2023, 2);
    assert CarryMonth(2023, 3) == YearMonth(2023, 3);
    assert Normalize(2023, 3, 2) == Date(2023, 3, 2);
    assert Normalize(2023, 2, 30) == Date(2023, 3, 2);
    assert CreateFromYm(s, 30) == Some(Date(2023, 3, 2));
    FormatYmMatches(s, YearMonth(2023, 3));
    assert FormatYm(YearMonth(2023, 3)) != s;
  }

  lemma MonthFilterKeepsFebruary()
    ensures MonthFilter(Some("2023-02"), Date(2024, 5, 30)) == "2023-02"
  {
    var s := "2023-02";
    assert s[..4] == "2023" && s[5..] == "02";
    DigitsValue2('0', '2'); DigitsValue4('2', '0', '2', '3');
    assert MonthFields(s) == YearMonth(2023, 2);
    MonthFilterExact(Some(s), Date(2024, 5, 30));
  }

  lemma DigitsValue2(a: char, b: char)
    requires IsDigit(a) && IsDigit(b)
    ensures DigitsValue([a, b]) == 10 * DigitValue(a) + DigitValue(b)
  {
    assert [a, b][..1] == [a];
    assert [a][..0] == [];
    assert DigitsValue([a]) == DigitValue(a);
  }

  lemma DigitsValue4(a: char, b: char, c: char, d: char)
    requires IsDigit(a) && IsDigit(b) && IsDigit(c) && IsDigit(d)
    ensures DigitsValue([a, b, c, d]) == 1000 * DigitValue(a) + 100 * DigitValue(b) + 10 * DigitValue(c) + DigitValue(d)
  {
    assert [a, b, c, d][..3] == [a, b, c];
    assert [a, b, c][..2] == [a, b];
    DigitsValue2(a, b);
  }
}
