/**
 * The archive page (`index.php`): every post in publication order, narrowed
 * to one day when a valid `date` is asked for, the per-day and per-month
 * counts of all posts, and the calendar of the month asked for.
 */
module Archive {
  import opened Wrappers
  import opened Strings
  import opened Calendar
  import opened Filters
  import opened Posts
  import opened CalendarGrid

  /** What the page shows. */
  datatype Page = Page(posts: seq<Post>, selectedDate: Option<string>, selectedMonth: string,
                       byDay: Tally, byMonth: Tally, calendar: MonthGrid)

  /**
   * The posts listed: all of them in ascending publication time, narrowed to
   * the selected day when there is one.
   */
  method SelectPosts(stored: seq<Post>, selectedDate: Option<string>, clock: Clock)
    returns (all: seq<Post>, shown: seq<Post>)
    ensures all == SortPosts(stored, "asc", clock.parse)
    ensures shown == if selectedDate.Some? then PostsOnDay(all, clock, selectedDate.value) else all
    ensures forall p :: (multiset(shown)[p] ==
                           if selectedDate.Some? && !OnDay(p, clock, selectedDate.value) then 0
                           else multiset(stored)[p])
    ensures forall i, j :: 0 <= i < j < |shown| ==> PostTime(shown[i], clock.parse) <= PostTime(shown[j], clock.parse)
  {
    all := SortPosts(stored, "asc", clock.parse);
    shown := all;
    if selectedDate.Some? {
      shown := PostsOnDay(all, clock, selectedDate.value);
      PostsOnDayOrdered(all, clock, selectedDate.value, "asc");
    }
  }

  /**
   * `index.php` on the stored posts `stored`, the `date` and `month` query
   * parameters (None when absent) and the current date `today`. The month is
   * read with the filter as written, which takes today's day of the month.
   */
  method Index(stored: seq<Post>, dateParam: Option<string>, monthParam: Option<string>, clock: Clock, today: Date)
    returns (page: Page)
    requires ValidDate(today)
    ensures page.selectedDate == DateFilter(dateParam)
    ensures page.selectedMonth == MonthFilterAsWritten(monthParam, today)
    ensures var all := SortPosts(stored, "asc", clock.parse);
      page.posts == if page.selectedDate.Some? then PostsOnDay(all, clock, page.selectedDate.value) else all
    ensures today.day <= 28 ==> page.selectedMonth == MonthFilter(monthParam, today)
    ensures forall p :: (multiset(page.posts)[p] ==
                           if page.selectedDate.Some? && !OnDay(p, clock, page.selectedDate.value) then 0
                           else multiset(stored)[p])
    ensures forall i, j :: 0 <= i < j < |page.posts| ==>
      PostTime(page.posts[i], clock.parse) <= PostTime(page.posts[j], clock.parse)
    ensures var all := SortPosts(stored, "asc", clock.parse);
      && Describes(page.byDay, DayKeys(all, clock)) && Total(page.byDay.keys, page.byDay.counts) == |stored|
      && Describes(page.byMonth, MonthKeys(all, clock)) && Total(page.byMonth.keys, page.byMonth.counts) == |stored|
    ensures forall i :: 0 <= i < |page.calendar.weeks| ==> |page.calendar.weeks[i]| == 7
    ensures Flatten(page.calendar.weeks) == Layout(StartOf(page.selectedMonth, today), page.byDay.counts, today)
    ensures 0 <= today.year < 10000 ==> page.calendar.month == page.selectedMonth
  {
    var selectedDate := DateFilter(dateParam);
    var selectedMonth := MonthFilterAsWritten(monthParam, today);
    var all, shown := SelectPosts(stored, selectedDate, clock);
    assert |all| == |stored| by {
      assert |multiset(all)| == |multiset(stored)|;
    }
    var byDay := PostsByDay(all, clock);
    var byMonth := PostsByMonth(all, clock);
    var calendar := CalendarMatrix(selectedMonth, byDay.counts, today);
    page := Page(shown, selectedDate, selectedMonth, byDay, byMonth, calendar);
    if 0 <= today.year < 10000 {
      CalendarShowsSelectedMonth(monthParam, today);
    }
    if today.day <= 28 {
      MonthFilterAgreesEarly(monthParam, today);
    }
  }

  /** The first day of a month written `dddd-dd` with a real month, and that month written back. */
  lemma StartOfMonthString(s: string, today: Date)
    requires ValidDate(today) && MonthShape(s) && ValidMonth(MonthFields(s))
    ensures var f := MonthFields(s);
      StartOf(s, today) == Date(f.year, f.month, 1) && FormatYm(f) == s
  {
    var f := MonthFields(s);
    var d := s + "-01";
    assert d[..4] == s[..4] && d[5..7] == s[5..] && d[8..] == "01";
    DigitsValue2('0', '1');
    assert DateShape(d);
    assert DateFields(d) == Date(f.year, f.month, 1);
    FormatYmMatches(s, f);
  }

  /** The current month, written `Y-m`, is itself a `dddd-dd` month that names a real month. */
  lemma CurrentMonthShape(today: Date)
    requires ValidDate(today) && 0 <= today.year < 10000
    ensures var m := FormatYm(MonthOf(today)); MonthShape(m) && ValidMonth(MonthFields(m))
  {
    var m := FormatYm(MonthOf(today));
    PadNatLength(today.year, 4);
    PadNatLength(today.month, 2);
    assert m[..4] == PadNat(today.year, 4) && m[5..] == PadNat(today.month, 2);
    assert MonthShape(m);
    FormatYmMatches(m, MonthOf(today));
  }

  /** Whatever day the month is read on, the month the filter settles on starts the calendar and is written back unchanged. */
  lemma ShownMonthOnDay(monthParam: Option<string>, day: nat, today: Date)
    requires ValidDate(today) && 0 <= today.year < 10000
    ensures var m := MonthFilterOnDay(monthParam, day, MonthOf(today));
      FormatYm(MonthOf(StartOf(m, today))) == m
  {
    var current := MonthOf(today);
    var m := MonthFilterOnDay(monthParam, day, current);
    if m == FormatYm(current) {
      CurrentMonthShape(today);
    } else {
      MonthKeptOnDay(m, day, current);
    }
    StartOfMonthString(m, today);
  }

  /**
   * The calendar always shows the month the filter settled on: its `month`
   * field is the selected month (for current years 0 to 9999), with the
   * filter as written and with the intended one.
   */
  lemma CalendarShowsSelectedMonth(monthParam: Option<string>, today: Date)
    requires ValidDate(today) && 0 <= today.year < 10000
    ensures var m := MonthFilterAsWritten(monthParam, today);
      FormatYm(MonthOf(StartOf(m, today))) == m
    ensures var m := MonthFilter(monthParam, today);
      FormatYm(MonthOf(StartOf(m, today))) == m
  {
    ShownMonthOnDay(monthParam, today.day, today);
    ShownMonthOnDay(monthParam, 1, today);
  }

  /**
   * The counts and the day filter read an unparsable `published_at`
   * differently: the counts file it under the current day (`?: time()`), the
   * filter under the day of timestamp 0 (`?: 0`). So when those two days
   * differ, the post is counted on today's calendar cell but not listed when
   * today is selected.
   */
  lemma UnparsableDateDisagrees(p: Post, clock: Clock)
    requires clock.parse(p.publishedAt).None?
    requires clock.dayKey(0) != clock.dayKey(clock.now)
    ensures DayOf(p, clock) == clock.dayKey(clock.now)
    ensures !OnDay(p, clock, DayOf(p, clock))
  {
  }
}
