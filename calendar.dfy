/**
 * The slice of JavaScript's `Date` that the expense charts rely on.
 *
 * An instant is an integer number of milliseconds since 1970-01-01 00:00 in
 * the browser's local time (the zone offset is folded into the number), so the
 * local calendar fields `getDay()` and `getDate()` are functions of the
 * instant. The proleptic Gregorian calendar is computed with the usual
 * days-to-civil conversion (400-year eras of 146097 days, years starting on
 * 1 March). Every day is 86_400_000 ms long: there are no daylight-saving
 * shifts in this model.
 */
module Calendar {

  /** Number of the local day holding instant `t`; day 0 is 1970-01-01. */
  function DayNumber(t: int): int {
    t / 86_400_000
  }

  /** Milliseconds elapsed since local midnight. */
  function TimeOfDay(t: int): (r: int)
    ensures 0 <= r < 86_400_000
    ensures t == DayNumber(t) * 86_400_000 + r
  {
    t % 86_400_000
  }

  /** `Date.prototype.getDay`: 0 for Sunday up to 6 for Saturday (1970-01-01 was a Thursday). */
  function DayOfWeek(t: int): (r: int)
    ensures 0 <= r < 7
  {
    (DayNumber(t) + 4) % 7
  }

  /**
   * Day of the century (0 .. 36524) of day `doe` of a 400-year era. Day 0
   * of an era is 1 March of a year divisible by 400; the era splits into four
   * centuries of 36524 days, the last one a day longer.
   */
  function DayOfCentury(doe: int): (r: int)
    requires 0 <= doe < 146097
    ensures 0 <= r <= doe && r <= 36524
  {
    doe - 36524 * (if doe / 36524 < 3 then doe / 36524 else 3)
  }

  /**
   * Day of the 4-year cycle (0 .. 1460) of day `doc` of a century: a century
   * is made of cycles of 1461 days (its last cycle is a day short when the
   * century year is not a leap year; that day is never reached).
   */
  function DayOfCycle(doc: int): (r: int)
    requires 0 <= doc
    ensures 0 <= r <= doc && r < 1461
  {
    doc % 1461
  }

  /**
   * Day of the March-based year (0 .. 365) of day `dcy` of a 4-year cycle:
   * three years of 365 days, then one of 366 that ends on 29 February.
   */
  function DayOfCycleYear(dcy: int): (r: int)
    requires 0 <= dcy < 1461
    ensures 0 <= r <= dcy && r <= 365
  {
    dcy - 365 * (if dcy / 365 < 3 then dcy / 365 else 3)
  }

  /** Day of the March-based year (0 .. 365) of day `doe` of a 400-year era. */
  function DayOfEraYear(doe: int): (r: int)
    requires 0 <= doe < 146097
    ensures 0 <= r <= 365
  {
    DayOfCycleYear(DayOfCycle(DayOfCentury(doe)))
  }

  /** Day of the year counted from 1 March of the local day `days` (day 0 is 1970-01-01). */
  function DayOfMarchYear(days: int): (r: int)
    ensures 0 <= r <= 365
  {
    DayOfEraYear((days + 719468) % 146097)
  }

  lemma DayOfCenturyBack(doe: int, k: int)
    requires 0 <= doe < 146097
    requires 0 <= k <= DayOfCentury(doe)
    ensures DayOfCentury(doe - k) == DayOfCentury(doe) - k
  {
  }

  lemma DayOfCycleBack(doc: int, k: int)
    requires 0 <= doc
    requires 0 <= k <= DayOfCycle(doc)
    ensures DayOfCycle(doc - k) == DayOfCycle(doc) - k
  {
  }

  lemma DayOfCycleYearBack(dcy: int, k: int)
    requires 0 <= dcy < 1461
    requires 0 <= k <= DayOfCycleYear(dcy)
    ensures DayOfCycleYear(dcy - k) == DayOfCycleYear(dcy) - k
  {
  }

  /** Going back `k` days within an era, no further than 1 March, stays in the same year. */
  lemma DayOfEraYearBack(doe: int, k: int)
    requires 0 <= doe < 146097
    requires 0 <= k <= DayOfEraYear(doe)
    ensures 0 <= doe - k && DayOfEraYear(doe - k) == DayOfEraYear(doe) - k
  {
    var doc := DayOfCentury(doe);
    var dcy := DayOfCycle(doc);
    DayOfCycleYearBack(dcy, k);
    DayOfCycleBack(doc, k);
    DayOfCenturyBack(doe, k);
  }

  /** Subtracting no more than the remainder lowers the remainder by that much. */
  lemma ModBack(a: int, k: int)
    requires 0 <= k <= a % 146097
    ensures (a - k) % 146097 == a % 146097 - k
  {
    var q, r := a / 146097, a % 146097;
    assert a - k == q * 146097 + (r - k);
    assert (q * 146097 + (r - k)) / 146097 == q;
  }

  /** Going back `k` days, no further than 1 March, stays in the same March-based year. */
  lemma DayOfMarchYearBack(days: int, k: int)
    requires 0 <= k <= DayOfMarchYear(days)
    ensures DayOfMarchYear(days - k) == DayOfMarchYear(days) - k
  {
    var doe := (days + 719468) % 146097;
    DayOfEraYearBack(doe, k);
    ModBack(days + 719468, k);
  }

  /**
   * Day of the month (1 .. 31) of day `doy` of a March-based year: months of
   * 31, 30, 31, 30, 31, 31, 30, 31, 30, 31, 31 days from March on, and
   * February last.
   */
  function MonthDay(doy: int): (r: int)
    requires 0 <= doy <= 365
    ensures 1 <= r <= 31 && r <= doy + 1
  {
    var mp := (5 * doy + 2) / 153;
    doy - (153 * mp + 2) / 5 + 1
  }

  /** `Date.prototype.getDate`: the day of the month, 1 .. 31. */
  function DayOfMonth(t: int): (r: int)
    ensures 1 <= r <= 31
  {
    MonthDay(DayOfMarchYear(DayNumber(t)))
  }

  /**
   * `new Date(d.getFullYear(), d.getMonth(), 1)`: local midnight on the first
   * day of the month holding `t`, i.e. midnight of `t`'s day moved back by
   * `getDate() - 1` whole days.
   */
  function MonthStart(t: int): (r: int)
    ensures r <= t < r + 31 * 86_400_000
    ensures TimeOfDay(r) == 0
  {
    (DayNumber(t) - (DayOfMonth(t) - 1)) * 86_400_000
  }

  /** Moving back `j` whole days moves the day number back by `j`. */
  lemma DayNumberBack(t: int, j: int)
    ensures DayNumber(t - j * 86_400_000) == DayNumber(t) - j
  {
    var n, r := DayNumber(t), TimeOfDay(t);
    assert t - j * 86_400_000 == (n - j) * 86_400_000 + r;
  }

  /** Midnight of day `n` is on day `n`. */
  lemma DayNumberOfMidnight(n: int)
    ensures DayNumber(n * 86_400_000) == n
  {
  }

  /** Going back within the month lowers the day of the month by as much. */
  lemma MonthDayBack(doy: int, j: int)
    requires 0 <= doy <= 365
    requires 0 <= j < MonthDay(doy)
    ensures MonthDay(doy - j) == MonthDay(doy) - j
  {
    var mp := (5 * doy + 2) / 153;
    assert (5 * (doy - j) + 2) / 153 == mp;
  }

  /** Walking back through the month: `j` days before day `n` the day of the month is `j` lower. */
  lemma DayOfMonthBack(n: int, j: int)
    requires 0 <= j < MonthDay(DayOfMarchYear(n))
    ensures MonthDay(DayOfMarchYear(n - j)) == MonthDay(DayOfMarchYear(n)) - j
  {
    DayOfMarchYearBack(n, j);
    MonthDayBack(DayOfMarchYear(n), j);
  }

  /**
   * `MonthStart(t)` is midnight of the latest first-of-the-month not after
   * `t`: it is day 1, and every later day up to `t` is a day 2 or more.
   */
  lemma MonthStartIsFirstOfMonth(t: int)
    ensures DayOfMonth(MonthStart(t)) == 1
    ensures forall s :: MonthStart(t) + 86_400_000 <= s <= t ==> DayOfMonth(s) >= 2
  {
    var n, d := DayNumber(t), DayOfMonth(t);
    DayNumberOfMidnight(n - (d - 1));
    DayOfMonthBack(n, d - 1);
    forall s | MonthStart(t) + 86_400_000 <= s <= t ensures DayOfMonth(s) >= 2 {
      var j := n - DayNumber(s);
      assert DayNumber(s) >= n - (d - 1) + 1 by {
        DayNumberOfMidnight(n - (d - 1) + 1);
      }
      DayOfMonthBack(n, j);
    }
  }

  /**
   * The instant `d.setDate(d.getDate() - d.getDay())` leaves in `d`: the same
   * local time of day, `getDay()` whole days earlier.
   */
  function WeekStart(t: int): int {
    t - DayOfWeek(t) * 86_400_000
  }

  /** The week start is the Sunday on or before `t`, at `t`'s own time of day (not midnight). */
  lemma WeekStartIsSundaySameTime(t: int)
    ensures WeekStart(t) <= t < WeekStart(t) + 7 * 86_400_000
    ensures DayOfWeek(WeekStart(t)) == 0
    ensures TimeOfDay(WeekStart(t)) == TimeOfDay(t)
  {
    var w := DayOfWeek(t);
    var n := DayNumber(t);
    assert WeekStart(t) == (n - w) * 86_400_000 + TimeOfDay(t);
    assert DayNumber(WeekStart(t)) == n - w;
  }

  /** Local midnight of the Sunday on or before `t`: the start of `t`'s week. */
  function WeekStartMidnight(t: int): int {
    (DayNumber(t) - DayOfWeek(t)) * 86_400_000
  }

  /** The week's start is a Sunday midnight, at most seven days before `t`. */
  lemma WeekStartMidnightIsSunday(t: int)
    ensures WeekStartMidnight(t) <= t < WeekStartMidnight(t) + 7 * 86_400_000
    ensures DayOfWeek(WeekStartMidnight(t)) == 0
    ensures TimeOfDay(WeekStartMidnight(t)) == 0
  {
    assert DayNumber(WeekStartMidnight(t)) == DayNumber(t) - DayOfWeek(t);
  }

  /** Midnight of the day `WeekStart` lands on is the week's start. */
  lemma MidnightOfWeekStart(t: int)
    ensures DayNumber(WeekStart(t)) * 86_400_000 == WeekStartMidnight(t)
  {
    WeekStartIsSundaySameTime(t);
    assert DayNumber(WeekStart(t)) == DayNumber(t) - DayOfWeek(t);
  }

  /** The en-US short weekday names, indexed by `getDay()`. */
  const WeekdayLabels: seq<string> := ["Sun", "Mon", "Tue", "Wed", "Thu", "Fri", "Sat"]

  /** `toLocaleDateString("en-US", { weekday: "short" })`. */
  function WeekdayLabel(t: int): string {
    WeekdayLabels[DayOfWeek(t)]
  }

  /** Inverse of the weekday labels: the `getDay()` number a short label stands for, -1 for other strings. */
  function WeekdayIndex(name: string): int {
    if name == "Sun" then 0 else if name == "Mon" then 1 else if name == "Tue" then 2
    else if name == "Wed" then 3 else if name == "Thu" then 4 else if name == "Fri" then 5
    else if name == "Sat" then 6 else -1
  }

  /** The label determines the weekday: reading the label back gives `getDay()`. */
  lemma WeekdayLabelRoundTrip(t: int)
    ensures WeekdayIndex(WeekdayLabel(t)) == DayOfWeek(t)
  {
    var d := DayOfWeek(t);
    if d == 0 { assert WeekdayLabel(t) == "Sun"; }
    else if d == 1 { assert WeekdayLabel(t) == "Mon"; }
    else if d == 2 { assert WeekdayLabel(t) == "Tue"; }
    else if d == 3 { assert WeekdayLabel(t) == "Wed"; }
    else if d == 4 { assert WeekdayLabel(t) == "Thu"; }
    else if d == 5 { assert WeekdayLabel(t) == "Fri"; }
    else { assert WeekdayLabel(t) == "Sat"; }
  }

  /** Two instants get the same short weekday label exactly when they fall on the same weekday. */
  lemma WeekdayLabelInjective(s: int, t: int)
    ensures WeekdayLabel(s) == WeekdayLabel(t) <==> DayOfWeek(s) == DayOfWeek(t)
  {
    WeekdayLabelRoundTrip(s);
    WeekdayLabelRoundTrip(t);
  }

  /**
   * A JavaScript `Date` object: a mutable cell holding one instant. The chart
   * code calls `setDate` on it, which changes the object in place.
   */
  class JsDate {
    var time: int

    constructor (t: int)
      ensures time == t
    {
      time := t;
    }

    function GetDay(): int
      reads this
    {
      DayOfWeek(time)
    }

    function GetDate(): int
      reads this
    {
      DayOfMonth(time)
    }

    /** `setHours(0, 0, 0, 0)`: moves the object back to local midnight of its day. */
    method SetMidnight()
      modifies this
      ensures time == DayNumber(old(time)) * 86_400_000
      ensures time <= old(time) < time + 86_400_000
    {
      time := time - TimeOfDay(time);
    }

    /**
     * `setDate(date)`: moves the object to day `date` of its current month,
     * keeping the time of day; values outside 1 .. 31 roll into the
     * neighbouring months. Returns the new instant.
     */
    method SetDate(date: int) returns (newTime: int)
      modifies this
      ensures time == old(time) + (date - DayOfMonth(old(time))) * 86_400_000
      ensures TimeOfDay(time) == TimeOfDay(old(time))
      ensures newTime == time
    {
      var shift := date - DayOfMonth(time);
      time := time + shift * 86_400_000;
      newTime := time;
    }
  }
}
