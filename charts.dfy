/**
 * The figures the expense charts compute (`src/components/ExpenseCharts.tsx`):
 * the current week's and month's windows, the records in each, their totals
 * and counts, the per-category pie data, and the per-weekday data (computed,
 * but not rendered by the component).
 *
 * The instant `new Date()` returns is the parameter `clock`. Each window is
 * a start instant, and a window holds the records dated at or after it.
 */
module Charts {
  import opened ExpenseModel
  import opened Calendar
  import opened Aggregation

  /**
   * What the component computes: the figures of the two summary cards, the
   * data of the weekly and monthly category pies, and `weeklyByDay`, which
   * is computed but never rendered.
   */
  datatype ChartData = ChartData(
    weeklyTotal: real,
    monthlyTotal: real,
    weeklyCount: int,
    monthlyCount: int,
    weeklyByCategory: seq<Entry>,
    monthlyByCategory: seq<Entry>,
    weeklyByDay: seq<Entry>)

  /** The chart data for the records `expenses` and the window starts `weekStart` and `monthStart`. */
  function Summary(expenses: seq<Expense>, weekStart: int, monthStart: int): ChartData {
    var weekly := Since(expenses, weekStart);
    var monthly := Since(expenses, monthStart);
    ChartData(
      Total(weekly), Total(monthly), |weekly|, |monthly|,
      Grouped(weekly, CategoryOf), Grouped(monthly, CategoryOf), Grouped(weekly, DayOf))
  }

  /** The window filters, the aggregations and the `reduce` totals, for given window starts. */
  method Summarize(expenses: seq<Expense>, weekStart: int, monthStart: int) returns (data: ChartData)
    ensures data == Summary(expenses, weekStart, monthStart)
  {
    var weekly := Since(expenses, weekStart);
    var monthly := Since(expenses, monthStart);
    var weeklyByCategory := AggregateByCategory(weekly);
    var monthlyByCategory := AggregateByCategory(monthly);
    var weeklyByDay := AggregateByDay(weekly);
    data := ChartData(
      Total(weekly), Total(monthly), |weekly|, |monthly|,
      weeklyByCategory, monthlyByCategory, weeklyByDay);
  }

  /**
   * The component as written. `now.setDate(...)` moves `now` itself to the
   * week start, keeping the clock's time of day, and the month start is then
   * taken from the moved `now`: the first of the month holding the week
   * start, not the first of the current month.
   */
  method ExpenseCharts(expenses: seq<Expense>, clock: int) returns (data: ChartData)
    ensures data == Summary(expenses, WeekStart(clock), MonthStart(WeekStart(clock)))
  {
    var now := new JsDate(clock);
    var shifted := now.SetDate(now.GetDate() - now.GetDay());
    assert shifted == WeekStart(clock);
    var currentWeekStart := new JsDate(shifted);
    var currentMonthStart := new JsDate(MonthStart(now.time));
    data := Summarize(expenses, currentWeekStart.time, currentMonthStart.time);
  }

  /**
   * The component with the windows its cards name: the week from Sunday
   * midnight, on a copy of `now`, and the month from the first of the month
   * holding `now`.
   */
  method ExpenseChartsCorrected(expenses: seq<Expense>, clock: int) returns (data: ChartData)
    ensures data == Summary(expenses, WeekStartMidnight(clock), MonthStart(clock))
  {
    var now := new JsDate(clock);
    var currentWeekStart := new JsDate(clock);
    var _ := currentWeekStart.SetDate(now.GetDate() - now.GetDay());
    assert currentWeekStart.time == WeekStart(clock);
    currentWeekStart.SetMidnight();
    MidnightOfWeekStart(clock);
    var currentMonthStart := new JsDate(MonthStart(now.time));
    data := Summarize(expenses, currentWeekStart.time, currentMonthStart.time);
  }

  /**
   * No amount is negative. Nothing in the storage or chart code enforces
   * this; the lemmas that need it take it as a premise.
   */
  predicate NonNegative(xs: seq<Expense>) {
    forall i :: 0 <= i < |xs| ==> xs[i].amount >= 0.0
  }

  /** Widening the window (an earlier start) can only add to the total of non-negative amounts. */
  lemma {:induction false} TotalSinceMonotone(xs: seq<Expense>, early: int, late: int)
    requires early <= late && NonNegative(xs)
    ensures Total(Since(xs, late)) <= Total(Since(xs, early))
  {
    if xs != [] {
      var p, e := xs[..|xs| - 1], xs[|xs| - 1];
      assert NonNegative(p) by {
        forall i | 0 <= i < |p| ensures p[i].amount >= 0.0 {
          assert p[i] == xs[i];
        }
      }
      TotalSinceMonotone(p, early, late);
      TotalAppend(Since(p, late), if e.date >= late then [e] else []);
      TotalAppend(Since(p, early), if e.date >= early then [e] else []);
    }
  }

  /**
   * In the component as written the month window always contains the week
   * window: the weekly records are exactly the monthly ones dated from the
   * week start on, so the weekly count never exceeds the monthly one, nor,
   * with non-negative amounts, the weekly total the monthly one.
   */
  lemma WeekWithinMonthAsWritten(expenses: seq<Expense>, clock: int)
    ensures var w, m := WeekStart(clock), MonthStart(WeekStart(clock));
      && m <= w <= clock
      && Since(Since(expenses, m), w) == Since(expenses, w)
    ensures var data := Summary(expenses, WeekStart(clock), MonthStart(WeekStart(clock)));
      && data.weeklyCount <= data.monthlyCount
      && (NonNegative(expenses) ==> data.weeklyTotal <= data.monthlyTotal)
  {
    var w, m := WeekStart(clock), MonthStart(WeekStart(clock));
    WeekStartIsSundaySameTime(clock);
    SinceNested(expenses, m, w);
    SinceMembers(Since(expenses, m), w);
    if NonNegative(expenses) {
      TotalSinceMonotone(expenses, m, w);
    }
  }

  /**
   * Each category pie shows "No expenses this week/month" exactly when its
   * window holds no records. The same holds of the computed (unrendered)
   * `weeklyByDay` data: it is empty exactly when the week is.
   */
  lemma EmptyChartsIffNoRecords(expenses: seq<Expense>, weekStart: int, monthStart: int)
    ensures var data := Summary(expenses, weekStart, monthStart);
      && (data.weeklyByCategory == [] <==> data.weeklyCount == 0)
      && (data.weeklyByDay == [] <==> data.weeklyCount == 0)
      && (data.monthlyByCategory == [] <==> data.monthlyCount == 0)
  {
    GroupedEntries(Since(expenses, weekStart), CategoryOf);
    GroupedEntries(Since(expenses, weekStart), DayOf);
    GroupedEntries(Since(expenses, monthStart), CategoryOf);
  }

  /**
   * The slices of each category pie add up to the total on the matching
   * card, up to half a cent of rounding per slice; the entries of the
   * unrendered `weeklyByDay` data add up to the weekly total within 3.5 cents.
   */
  lemma ChartsMatchCards(expenses: seq<Expense>, weekStart: int, monthStart: int)
    ensures var data := Summary(expenses, weekStart, monthStart);
      && -0.005 * |data.weeklyByCategory| as real <= EntriesTotal(data.weeklyByCategory) - data.weeklyTotal
         <= 0.005 * |data.weeklyByCategory| as real
      && -0.005 * |data.monthlyByCategory| as real <= EntriesTotal(data.monthlyByCategory) - data.monthlyTotal
         <= 0.005 * |data.monthlyByCategory| as real
      && -0.035 <= EntriesTotal(data.weeklyByDay) - data.weeklyTotal <= 0.035
  {
    GroupedTotalNear(Since(expenses, weekStart), CategoryOf);
    GroupedTotalNear(Since(expenses, monthStart), CategoryOf);
    GroupedTotalNear(Since(expenses, weekStart), DayOf);
    DayChartAtMostSeven(Since(expenses, weekStart));
  }

  /**
   * With the corrected windows, the week holds every record from Sunday
   * midnight on and the month every record from midnight on the first: both
   * windows contain `clock`, start at a midnight, and start no earlier than
   * the Sunday or the first of the month that `clock` falls after.
   */
  lemma CorrectedWindows(expenses: seq<Expense>, clock: int)
    ensures var w, m := WeekStartMidnight(clock), MonthStart(clock);
      && w <= clock < w + 7 * 86_400_000 && DayOfWeek(w) == 0 && TimeOfDay(w) == 0
      && m <= clock && DayOfMonth(m) == 1 && TimeOfDay(m) == 0
      && (forall s :: m + 86_400_000 <= s <= clock ==> DayOfMonth(s) >= 2)
    ensures forall e :: e in expenses && WeekStartMidnight(clock) <= e.date ==> e in Since(expenses, WeekStartMidnight(clock))
    ensures (forall e :: e in expenses && MonthStart(clock) <= e.date ==> e in Since(expenses, MonthStart(clock)))
  {
    WeekStartMidnightIsSunday(clock);
    MonthStartIsFirstOfMonth(clock);
    SinceMembers(expenses, WeekStartMidnight(clock));
    SinceMembers(expenses, MonthStart(clock));
  }

  /** Where the week starts in the current month, the two month starts agree. */
  lemma MonthWindowAgreesMidMonth(clock: int)
    requires DayOfWeek(clock) < DayOfMonth(clock)
    ensures MonthStart(WeekStart(clock)) == MonthStart(clock)
  {
    var w := DayOfWeek(clock);
    DayOfMonthBack(DayNumber(clock), w);
    DayNumberBack(clock, w);
  }

  /**
   * Where the week starts before the current month's first day, the month
   * window as written starts in an earlier month: strictly before the first
   * of the current month.
   */
  lemma MonthWindowStartsEarlier(clock: int)
    requires DayOfWeek(clock) >= DayOfMonth(clock)
    ensures MonthStart(WeekStart(clock)) < MonthStart(clock)
  {
    WeekStartIsSundaySameTime(clock);
    assert DayNumber(WeekStart(clock)) == DayNumber(clock) - DayOfWeek(clock);
  }

  /**
   * The week window as written drops the week's earlier hours: at noon on
   * Wednesday 7 January 1970 a record dated Sunday 4 January at midnight is
   * not counted this week, while the corrected window counts it.
   */
  lemma WeekWindowDropsSundayMorning(e: Expense)
    requires e.date == 3 * 86_400_000
    ensures var clock := 6 * 86_400_000 + 43_200_000;
      && DayOfWeek(e.date) == 0 && clock - e.date < 7 * 86_400_000
      && Summary([e], WeekStart(clock), MonthStart(WeekStart(clock))).weeklyCount == 0
      && Summary([e], WeekStartMidnight(clock), MonthStart(clock)).weeklyCount == 1
  {
    var clock := 6 * 86_400_000 + 43_200_000;
    assert DayNumber(clock) == 6;
    assert DayOfWeek(clock) == 3;
    assert DayNumber(e.date) == 3;
    assert WeekStart(clock) == 3 * 86_400_000 + 43_200_000;
    assert WeekStartMidnight(clock) == 3 * 86_400_000;
    assert Since([e], WeekStart(clock)) == Since([], WeekStart(clock));
    assert Since([e], WeekStartMidnight(clock)) == Since([], WeekStartMidnight(clock)) + [e];
  }

  lemma DecemberTwentyEighth()
    ensures DayOfMonth(-4 * 86_400_000) == 28
  {
    assert DayNumber(-4 * 86_400_000) == -4;
    assert (-4 + 719468) % 146097 == 135076;
    assert DayOfEraYear(135076) == 302;
  }

  lemma JanuaryFirst()
    ensures DayOfMonth(0) == 1
  {
    assert DayNumber(0) == 0;
    assert (0 + 719468) % 146097 == 135080;
    assert DayOfEraYear(135080) == 306;
  }

  /** On Thursday 1 January 1970 the week began on Sunday 28 December and the month on 1 January. */
  lemma EpochWindows()
    ensures WeekStart(0) == -4 * 86_400_000
    ensures MonthStart(WeekStart(0)) == -31 * 86_400_000
    ensures MonthStart(0) == 0
  {
    assert DayOfWeek(0) == 4;
    DecemberTwentyEighth();
    JanuaryFirst();
  }

  /**
   * The month window as written can start in the previous month: on
   * Thursday 1 January 1970 "this month" starts on 1 December 1969 and
   * counts a record of 12 December; the corrected window starts on 1
   * January and does not.
   */
  lemma MonthWindowReachesLastMonth(e: Expense)
    requires e.date == -20 * 86_400_000
    ensures Summary([e], WeekStart(0), MonthStart(WeekStart(0))).monthlyCount == 1
    ensures Summary([e], WeekStartMidnight(0), MonthStart(0)).monthlyCount == 0
  {
    EpochWindows();
    assert Since([e], -31 * 86_400_000) == Since([], -31 * 86_400_000) + [e];
    assert Since([e], 0) == Since([], 0);
  }
}
