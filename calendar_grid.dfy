/**
 * `blog_calendar_matrix`: the Monday-first month grid of the archive page,
 * one row of seven cells per week, with the post count of each day.
 */
module CalendarGrid {
  import opened Wrappers
  import opened Calendar
  import opened Filters

  datatype Cell =
    | Blank
    | Day(day: int, date: string, hasPost: bool, count: nat, isToday: bool)

  datatype MonthGrid = MonthGrid(caption: string, month: string, prev: string, next: string,
                                 weeks: seq<seq<Cell>>)

  /**
   * The first day of the month shown: `createFromFormat('Y-m-d', $month . '-01')`,
   * or the first day of the current month when that fails. It is meant for the
   * `dddd-dd` month the month filter returns; other spellings PHP would also
   * read, such as `2024-2`, fall back to the current month here.
   */
  function StartOf(month: string, today: Date): (d: Date)
    requires ValidDate(today)
    ensures ValidDate(d) && d.day == 1
  {
    CreateFromFirst(month);
    match CreateFromYmd(month + "-01")
    case Some(dt) => dt
    case None => Date(today.year, today.month, 1)
  }

  /** The cell of day `day` of the month of `start`. */
  function DayCell(start: Date, day: int, postsByDay: map<string, nat>, today: Date): (c: Cell)
    requires ValidDate(start) && ValidDate(today) && 1 <= day <= DaysInMonth(start.year, start.month)
    ensures c.Day? && c.day == day
  {
    var key := FormatYmd(Date(start.year, start.month, day));
    Day(day, key, key in postsByDay, if key in postsByDay then postsByDay[key] else 0, key == FormatYmd(today))
  }

  /** The cells of days 1 to `n`. */
  function DayCells(start: Date, n: nat, postsByDay: map<string, nat>, today: Date): (r: seq<Cell>)
    requires ValidDate(start) && ValidDate(today) && n <= DaysInMonth(start.year, start.month)
    ensures |r| == n
  {
    seq(n, i requires 0 <= i < n => DayCell(start, i + 1, postsByDay, today))
  }

  function Blanks(n: nat): (r: seq<Cell>)
    ensures |r| == n && forall k :: 0 <= k < n ==> r[k] == Blank
  {
    seq(n, _ => Blank)
  }

  /** The weeks' cells, row after row. */
  function Flatten(weeks: seq<seq<Cell>>): seq<Cell>
  {
    if weeks == [] then [] else Flatten(weeks[..|weeks| - 1]) + weeks[|weeks| - 1]
  }

  /** Blank cells before the 1st: Monday is column 0. */
  function Lead(start: Date): (n: nat)
    requires ValidDate(start)
    ensures n < 7
  {
    Weekday(start) - 1
  }

  /** Blank cells after the last day, up to the end of its week. */
  function Trailing(start: Date): (n: nat)
    requires ValidDate(start)
    ensures n < 7 && (Lead(start) + DaysInMonth(start.year, start.month) + n) % 7 == 0
  {
    var used := Lead(start) + DaysInMonth(start.year, start.month);
    PadToWeek(used);
    (7 - used % 7) % 7
  }

  lemma PadToWeek(x: int)
    ensures 0 <= (7 - x % 7) % 7 < 7 && (x + (7 - x % 7) % 7) % 7 == 0
  {
    var r := x % 7;
    var q := x / 7;
    assert x == 7 * q + r && 0 <= r < 7;
    if r == 0 {
      assert (7 - r) % 7 == 0;
    } else {
      assert (7 - r) % 7 == 7 - r;
      assert x + (7 - r) == 7 * (q + 1);
    }
  }

  /**
   * The cells of the month in reading order: the leading blanks, the days,
   * then the blanks that complete the last week.
   */
  function Layout(start: Date, postsByDay: map<string, nat>, today: Date): seq<Cell>
    requires ValidDate(start) && ValidDate(today)
  {
    Blanks(Lead(start)) + DayCells(start, DaysInMonth(start.year, start.month), postsByDay, today)
      + Blanks(Trailing(start))
  }

  method CalendarMatrix(month: string, postsByDay: map<string, nat>, today: Date) returns (g: MonthGrid)
    requires ValidDate(today)
    ensures var start := StartOf(month, today);
      && (forall i :: 0 <= i < |g.weeks| ==> |g.weeks[i]| == 7)
      && Flatten(g.weeks) == Layout(start, postsByDay, today)
      && g.month == FormatYm(MonthOf(start))
      && g.prev == FormatYm(CarryMonth(start.year, start.month - 1))
      && g.next == FormatYm(CarryMonth(start.year, start.month + 1))
      && g.caption == MonthName(start.month) + " " + FormatYear(start.year)
  {
    var start := StartOf(month, today);
    var weeks := FillWeeks(start, postsByDay, today);
    g := MonthGrid(MonthName(start.month) + " " + FormatYear(start.year),
                   FormatYm(MonthOf(start)),
                   FormatYm(CarryMonth(start.year, start.month - 1)),
                   FormatYm(CarryMonth(start.year, start.month + 1)),
                   weeks);
  }

  /** The rows of the grid: blanks before the 1st, the days, and blanks closing the last row. */
  method FillWeeks(start: Date, postsByDay: map<string, nat>, today: Date) returns (weeks: seq<seq<Cell>>)
    requires ValidDate(start) && start.day == 1 && ValidDate(today)
    ensures forall i :: 0 <= i < |weeks| ==> |weeks[i]| == 7
    ensures Flatten(weeks) == Layout(start, postsByDay, today)
  {
    var daysInMonth := DaysInMonth(start.year, start.month);
    var firstWeekday := Weekday(start);
    weeks := [];
    var week: seq<Cell> := [];

    var i := 1;
    while i < firstWeekday
      invariant 1 <= i <= firstWeekday
      invariant week == Blanks(i - 1)
    {
      week := week + [Blank];
      i := i + 1;
    }

    var day := 1;
    while day <= daysInMonth
      invariant 1 <= day <= daysInMonth + 1
      invariant |week| < 7
      invariant forall i :: 0 <= i < |weeks| ==> |weeks[i]| == 7
      invariant Flatten(weeks) + week == Blanks(Lead(start)) + DayCells(start, day - 1, postsByDay, today)
    {
      var cell := DayCell(start, day, postsByDay, today);
      DayCellsStep(start, day, postsByDay, today, Lead(start), Flatten(weeks), week);
      week := week + [cell];
      if |week| == 7 {
        FlattenAppend(weeks, week);
        weeks := weeks + [week];
        week := [];
      }
      day := day + 1;
    }

    ghost var partial := week;
    if week != [] {
      while |week| < 7
        invariant |partial| <= |week| <= 7
        invariant week == partial + Blanks(|week| - |partial|)
      {
        week := week + [Blank];
      }
      FlattenAppend(weeks, week);
      weeks := weeks + [week];
    }
    FinishLayout(start, postsByDay, today, weeks, partial);
  }

  lemma DayCellsStep(start: Date, day: int, postsByDay: map<string, nat>, today: Date,
                     lead: nat, done: seq<Cell>, week: seq<Cell>)
    requires ValidDate(start) && ValidDate(today) && 1 <= day <= DaysInMonth(start.year, start.month)
    requires done + week == Blanks(lead) + DayCells(start, day - 1, postsByDay, today)
    ensures done + (week + [DayCell(start, day, postsByDay, today)])
         == Blanks(lead) + DayCells(start, day, postsByDay, today)
  {
    var c := DayCell(start, day, postsByDay, today);
    assert DayCells(start, day, postsByDay, today) == DayCells(start, day - 1, postsByDay, today) + [c];
    assert done + (week + [c]) == (done + week) + [c];
  }

  /**
   * Once the days are laid out and the last, partly filled row (if any) is
   * padded to seven cells, the padding is exactly `Trailing(start)`.
   */
  lemma FinishLayout(start: Date, postsByDay: map<string, nat>, today: Date,
                     weeks: seq<seq<Cell>>, partial: seq<Cell>)
    requires ValidDate(start) && ValidDate(today) && |partial| < 7
    requires forall i :: 0 <= i < |weeks| ==> |weeks[i]| == 7
    requires var cells := Blanks(Lead(start)) + DayCells(start, DaysInMonth(start.year, start.month), postsByDay, today);
      Flatten(weeks) == if partial == [] then cells else cells + Blanks(7 - |partial|)
    ensures Flatten(weeks) == Layout(start, postsByDay, today)
  {
    FlattenLength(weeks);
    var n := Lead(start) + DaysInMonth(start.year, start.month);
    var pad := if partial == [] then 0 else 7 - |partial|;
    PadIsTrailing(n, pad, |weeks|);
    assert pad == Trailing(start);
    if partial == [] {
      assert Blanks(0) == [];
    }
  }

  /** The only padding below a week that completes a multiple of seven is the closed form. */
  lemma PadIsTrailing(n: nat, pad: nat, rows: nat)
    requires pad < 7 && n + pad == 7 * rows
    ensures pad == (7 - n % 7) % 7
  {
    if pad == 0 {
      assert n % 7 == 0;
    } else {
      assert n == 7 * (rows - 1) + (7 - pad);
      assert n % 7 == 7 - pad;
    }
  }

  lemma FlattenAppend(weeks: seq<seq<Cell>>, w: seq<Cell>)
    ensures Flatten(weeks + [w]) == Flatten(weeks) + w
  {
    assert (weeks + [w])[..|weeks|] == weeks;
  }

  lemma {:induction false} FlattenLength(weeks: seq<seq<Cell>>)
    requires forall i :: 0 <= i < |weeks| ==> |weeks[i]| == 7
    ensures |Flatten(weeks)| == 7 * |weeks|
  {
    if weeks != [] {
      FlattenLength(weeks[..|weeks| - 1]);
    }
  }

  /** Row `r`, column `c` of a grid of full weeks is cell `7 * r + c` of its reading order. */
  lemma {:induction false} FlattenIndex(weeks: seq<seq<Cell>>, r: nat, c: nat)
    requires forall i :: 0 <= i < |weeks| ==> |weeks[i]| == 7
    requires r < |weeks| && c < 7
    ensures 7 * r + c < |Flatten(weeks)| && Flatten(weeks)[7 * r + c] == weeks[r][c]
  {
    var init := weeks[..|weeks| - 1];
    FlattenLength(init);
    if r < |weeks| - 1 {
      FlattenIndex(init, r, c);
    }
  }

  /** Day `d` sits `Lead(start) + d - 1` cells in: its column is its ISO weekday, Monday first. */
  lemma {:induction false} DayColumn(start: Date, d: int)
    requires ValidDate(start) && start.day == 1 && 1 <= d <= DaysInMonth(start.year, start.month)
    ensures (Lead(start) + d - 1) % 7 == Weekday(Date(start.year, start.month, d)) - 1
  {
    if d > 1 {
      var prev := Date(start.year, start.month, d - 1);
      DayColumn(start, d - 1);
      assert NextDay(prev) == Date(start.year, start.month, d);
      WeekdayAdvances(prev);
      ModShift(Lead(start) + d - 2, Lead(start) + d - 1, 0);
    }
  }

  /**
   * In a grid laid out as `Layout`, day `d` is found in row `(Lead(start) + d - 1) / 7`
   * under the column of its weekday.
   */
  lemma DayInGrid(start: Date, postsByDay: map<string, nat>, today: Date, weeks: seq<seq<Cell>>, d: int)
    requires ValidDate(start) && start.day == 1 && ValidDate(today)
    requires forall i :: 0 <= i < |weeks| ==> |weeks[i]| == 7
    requires Flatten(weeks) == Layout(start, postsByDay, today)
    requires 1 <= d <= DaysInMonth(start.year, start.month)
    ensures var r := (Lead(start) + d - 1) / 7;
      var c := Weekday(Date(start.year, start.month, d)) - 1;
      r < |weeks| && weeks[r][c] == DayCell(start, d, postsByDay, today)
  {
    var k := Lead(start) + d - 1;
    var r, c := k / 7, Weekday(Date(start.year, start.month, d)) - 1;
    DayColumn(start, d);
    LayoutDay(start, postsByDay, today, d);
    GridIndex(weeks, Layout(start, postsByDay, today), k);
  }

  /** Cell `k` of the reading order of full weeks is row `k / 7`, column `k % 7`. */
  lemma GridIndex(weeks: seq<seq<Cell>>, cells: seq<Cell>, k: nat)
    requires forall i :: 0 <= i < |weeks| ==> |weeks[i]| == 7
    requires Flatten(weeks) == cells && k < |cells|
    ensures k / 7 < |weeks| && weeks[k / 7][k % 7] == cells[k]
  {
    FlattenLength(weeks);
    RowAndColumn(k, |weeks|);
    FlattenIndex(weeks, k / 7, k % 7);
  }

  lemma RowAndColumn(k: nat, rows: int)
    requires k < 7 * rows
    ensures k == 7 * (k / 7) + k % 7 && k / 7 < rows && k % 7 < 7
  {
  }

  /** Cell `Lead(start) + d - 1` of the layout is day `d`. */
  lemma LayoutDay(start: Date, postsByDay: map<string, nat>, today: Date, d: int)
    requires ValidDate(start) && ValidDate(today) && 1 <= d <= DaysInMonth(start.year, start.month)
    ensures var k := Lead(start) + d - 1;
      k < |Layout(start, postsByDay, today)| && Layout(start, postsByDay, today)[k] == DayCell(start, d, postsByDay, today)
  {
    var days := DayCells(start, DaysInMonth(start.year, start.month), postsByDay, today);
    assert days[d - 1] == DayCell(start, d, postsByDay, today);
    IndexMiddle(Blanks(Lead(start)), days, Blanks(Trailing(start)), d - 1);
  }

  lemma IndexMiddle(a: seq<Cell>, b: seq<Cell>, c: seq<Cell>, i: nat)
    requires i < |b|
    ensures |a| + i < |a + b + c| && (a + b + c)[|a| + i] == b[i]
  {
  }

  /**
   * A day cell's date is `Y-m-d` of that day: the date filter accepts it unchanged, and
   * the cell is marked as today exactly for today's date.
   */
  lemma DayCellDate(start: Date, d: int, postsByDay: map<string, nat>, today: Date)
    requires ValidDate(start) && ValidDate(today) && 1 <= d <= DaysInMonth(start.year, start.month)
    requires 0 <= start.year < 10000 && 0 <= today.year < 10000
    ensures var c := DayCell(start, d, postsByDay, today);
      && DateFilter(Some(c.date)) == Some(c.date)
      && (c.isToday <==> Date(start.year, start.month, d) == today)
      && (c.hasPost <==> c.date in postsByDay)
  {
    var date := Date(start.year, start.month, d);
    DateFilterRoundTrip(date);
    DateFilterRoundTrip(today);
    FormatYmdMatches(FormatYmd(today), date);
    FormatYmdMatches(FormatYmd(today), today);
  }

  /** February 2024 begins on a Thursday: three blanks, 29 days and three blanks, five rows. */
  lemma February2024()
    ensures var start := Date(2024, 2, 1);
      Lead(start) == 3 && Trailing(start) == 3
  {
  }
}
