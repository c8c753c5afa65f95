/**
 * Calendar helpers: the half-open range of a calendar month, and the date
 * of a weekday inside a teaching week.  Calendar dates are (year, month,
 * day) triples here; inside a week dates are day numbers.
 */
module Calendar {
  import opened Wrappers

  datatype CivilDate = CivilDate(year: int, month: int, day: int)

  /** The earliest and latest year a calendar date may carry. */
  const MinYear: int := 1
  const MaxYear: int := 9999

  /** Calendar order: by year, then month, then day. */
  predicate DateLe(a: CivilDate, b: CivilDate)
  {
    a.year < b.year
    || (a.year == b.year && (a.month < b.month || (a.month == b.month && a.day <= b.day)))
  }

  predicate DateLt(a: CivilDate, b: CivilDate)
  {
    DateLe(a, b) && a != b
  }

  /** Months counted from the start of year 0. */
  function MonthIndex(d: CivilDate): int
  {
    d.year * 12 + d.month - 1
  }

  /**
   * The first day of the month and the first day of the next month.
   * `None` where such a date cannot be formed: a month outside 1..12, a
   * year outside 1..9999, or December 9999, whose next month is past the
   * last representable year.
   */
  function MonthRange(year: int, month: int): (r: Option<(CivilDate, CivilDate)>)
    ensures r.Some? <==> 1 <= month <= 12 && MinYear <= year <= MaxYear && !(year == MaxYear && month == 12)
    ensures r.Some? ==> r.value.0 == CivilDate(year, month, 1) && r.value.1.day == 1
    ensures r.Some? ==> MonthIndex(r.value.1) == MonthIndex(r.value.0) + 1
  {
    if !(1 <= month <= 12) || !(MinYear <= year <= MaxYear) then None
    else if month == 12 then
      if year + 1 > MaxYear then None else Some((CivilDate(year, 12, 1), CivilDate(year + 1, 1, 1)))
    else Some((CivilDate(year, month, 1), CivilDate(year, month + 1, 1)))
  }

  /**
   * The range holds exactly the dates of the requested month: a date with a
   * month in 1..12 and a positive day lies in [start, end) if and only if it
   * has that year and month.
   */
  lemma MonthRangeHoldsTheMonth(year: int, month: int, x: CivilDate)
    requires MonthRange(year, month).Some?
    requires 1 <= x.month <= 12 && x.day >= 1
    ensures var (start, end) := MonthRange(year, month).value;
            DateLe(start, x) && DateLt(x, end) <==> x.year == year && x.month == month
  {
  }

  /** Consecutive months give adjacent ranges: one ends where the next starts. */
  lemma MonthRangesAdjacent(year: int, month: int)
    requires MonthRange(year, month).Some?
    ensures var next := if month == 12 then MonthRange(year + 1, 1) else MonthRange(year, month + 1);
            (year, month) != (MaxYear, 11) ==>
              next.Some? && next.value.0 == MonthRange(year, month).value.1
  {
  }

  /** A teaching week: its first and last day (day numbers) and whether it is open. */
  datatype Week = Week(start: int, end: int, active: bool)

  datatype WeekDateError = WeekUnavailable | WeekdayOutOfRange | OutsideWeek

  /**
   * The date of `weekday` (0 is Monday) in `week`: the week must exist and
   * be open, the weekday must be in 0..6, and the date it gives must lie
   * between the week's first and last day.
   */
  function WeekDate(week: Option<Week>, weekday: int): (r: Result<int, WeekDateError>)
    ensures r.Ok? <==> week.Some? && week.value.active && 0 <= weekday <= 6
                       && week.value.start + weekday <= week.value.end
    ensures r.Ok? ==> r.value - week.value.start == weekday
    ensures r.Ok? ==> week.value.start <= r.value <= week.value.end
  {
    match week
    case None => Err(WeekUnavailable)
    case Some(w) =>
      if !w.active then Err(WeekUnavailable)
      else if weekday < 0 || weekday > 6 then Err(WeekdayOutOfRange)
      else
        var d := w.start + weekday;
        if d < w.start || d > w.end then Err(OutsideWeek) else Ok(d)
  }

  /**
   * Once the weekday is in 0..6 the derived date is never before the
   * week's start, so only a week shorter than seven days can reject it.
   */
  lemma OnlyShortWeeksReject(w: Week, weekday: int)
    requires w.active && 0 <= weekday <= 6
    ensures WeekDate(Some(w), weekday) == Err(OutsideWeek) <==> w.end - w.start < weekday
  {
  }

  /**
   * A week that accepts a weekday accepts every earlier one, and earlier
   * weekdays give earlier dates.
   */
  lemma WeekDateMonotone(w: Week, a: int, b: int)
    requires 0 <= a <= b && WeekDate(Some(w), b).Ok?
    ensures WeekDate(Some(w), a).Ok?
    ensures WeekDate(Some(w), a).value <= WeekDate(Some(w), b).value
    ensures a < b ==> WeekDate(Some(w), a).value < WeekDate(Some(w), b).value
  {
  }

  /**
   * Every day of an open week within its first seven days is the date of
   * exactly one weekday: the number of days since the week's start.
   */
  lemma WeekdaysCoverTheWeek(w: Week, d: int)
    requires w.active && w.start <= d <= w.end && d - w.start <= 6
    ensures WeekDate(Some(w), d - w.start) == Ok(d)
    ensures forall k :: WeekDate(Some(w), k) == Ok(d) ==> k == d - w.start
  {
  }
}
