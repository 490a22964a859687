/**
 * The schedule-settings form: its default values, the rule that moves the
 * end date when the start date passes it, the end-date and interval
 * validation, and the payload it submits.  Dates are calendar days as
 * dayjs handles them; "today" is a parameter.
 */
module TimerSettings {
  import opened Wrappers
  import opened Calendar
  import ScheduleModel

  /** A real day of its month, in any year from 1 on. */
  predicate CalendarDay(d: Date)
  {
    1 <= d.year && 1 <= d.month <= 12 && 1 <= d.day <= DaysInMonth(d.year, d.month)
  }

  /** `dayjs(d).add(1, "day")`. */
  function NextDay(d: Date): (r: Date)
    requires CalendarDay(d)
    ensures CalendarDay(r) && IsAfter(r, d)
  {
    if d.day < DaysInMonth(d.year, d.month) then Date(d.year, d.month, d.day + 1)
    else if d.month < 12 then Date(d.year, d.month + 1, 1)
    else Date(d.year + 1, 1, 1)
  }

  /** No calendar day lies strictly between a day and the next one. */
  lemma NextDayIsNext(d: Date, e: Date)
    requires CalendarDay(d) && CalendarDay(e) && IsAfter(e, d)
    ensures !IsAfter(NextDay(d), e)
  {
  }

  /**
   * `dayjs(d).add(1, "month")`: a day of the next month (of the next year
   * after December), the same day of the month, or the last day of the
   * next month when that one is shorter.
   */
  function AddMonth(d: Date): (r: Date)
    requires CalendarDay(d)
    ensures CalendarDay(r) && IsAfter(r, d)
    ensures d.month < 12 ==> r.year == d.year && r.month == d.month + 1
    ensures d.month == 12 ==> r.year == d.year + 1 && r.month == 1
    ensures r.day <= d.day && (r.day == d.day || r.day == DaysInMonth(r.year, r.month))
  {
    var y := if d.month == 12 then d.year + 1 else d.year;
    var m := if d.month == 12 then 1 else d.month + 1;
    var last := DaysInMonth(y, m);
    Date(y, m, if d.day <= last then d.day else last)
  }

  /** The values the form holds. */
  datatype TimerValues = TimerValues(
    startDate: Date, endDate: Date, daysBetween: int, timeOfDay: TimeOfDay,
    skipHolidays: bool, skipWeekends: bool)

  /** The settings the form submits and the stored schedule it starts from. */
  datatype ScheduleSettings = ScheduleSettings(
    startDate: Date, endDate: Option<Date>, daysBetween: int,
    skipHolidays: bool, skipWeekends: bool, timesOfDay: seq<TimeOfDay>)

  /** `"08:00"`. */
  const DefaultTime: TimeOfDay := TimeOfDay(8, 0)

  /**
   * `defaultValues`: from the stored schedule where it has a value, else
   * tomorrow, a month from today, 1, "08:00", and both skips off.
   */
  function Defaults(schedule: Option<ScheduleSettings>, today: Date): TimerValues
    requires CalendarDay(today)
  {
    match schedule
    case None => TimerValues(NextDay(today), AddMonth(today), 1, DefaultTime, false, false)
    case Some(s) =>
      TimerValues(
        s.startDate,
        if s.endDate.Some? then s.endDate.value else AddMonth(today),
        s.daysBetween,
        if |s.timesOfDay| > 0 then s.timesOfDay[0] else DefaultTime,
        s.skipHolidays, s.skipWeekends)
  }

  /** The end-date rule: strictly after the start date. */
  predicate EndDateValid(v: TimerValues)
  {
    IsAfter(v.endDate, v.startDate)
  }

  /** The interval rule: 1 to 365 days. */
  predicate DaysBetweenValid(n: int)
  {
    1 <= n <= 365
  }

  /** With no stored schedule the defaults pass both rules. */
  lemma DefaultsValid(today: Date)
    requires CalendarDay(today)
    ensures EndDateValid(Defaults(None, today)) && DaysBetweenValid(Defaults(None, today).daysBetween)
  {
    var t, m := NextDay(today), AddMonth(today);
    assert DaysInMonth(m.year, m.month) >= 28;
  }

  /** An interval the form accepts is one for which the backend's projection loop ends. */
  lemma DaysBetweenRuleTerminates(info: ScheduleModel.ScheduleInfo, today: Ordinal)
    requires DaysBetweenValid(info.daysBetween)
    ensures ScheduleModel.Terminates(info, today)
  {
  }

  /**
   * The start date's `onChange`: the new start is taken, and when it is
   * after the end date the end moves to a month after it.
   */
  function StartChanged(v: TimerValues, newStart: Date): (r: TimerValues)
    requires CalendarDay(newStart)
  {
    v.(startDate := newStart, endDate := if IsAfter(newStart, v.endDate) then AddMonth(newStart) else v.endDate)
  }

  /**
   * After a start-date change the end is never before the start, it is
   * valid whenever the end had to move, and only the two dates change.
   */
  lemma StartChangeKeepsOrder(v: TimerValues, newStart: Date)
    requires CalendarDay(newStart)
    ensures var r := StartChanged(v, newStart);
      && r.startDate == newStart
      && !IsAfter(r.startDate, r.endDate)
      && (IsAfter(newStart, v.endDate) ==> EndDateValid(r))
      && (!IsAfter(newStart, v.endDate) ==> r.endDate == v.endDate)
      && r.daysBetween == v.daysBetween && r.timeOfDay == v.timeOfDay
      && r.skipHolidays == v.skipHolidays && r.skipWeekends == v.skipWeekends
  {
  }

  /** 2024-12-01 chosen after the end date moves the end to 2025-01-01. */
  lemma StartChangeExample(v: TimerValues)
    requires IsAfter(Date(2024, 12, 1), v.endDate)
    ensures StartChanged(v, Date(2024, 12, 1)).endDate == Date(2025, 1, 1)
  {
  }

  /** `onSubmit`: every field copied, and the time of day wrapped as a one-element `timesOfDay`. */
  function Submission(v: TimerValues): ScheduleSettings
  {
    ScheduleSettings(v.startDate, Some(v.endDate), v.daysBetween, v.skipHolidays, v.skipWeekends, [v.timeOfDay])
  }

  /** Reopening the form on what it submitted shows the same values again. */
  lemma SubmitThenDefaults(v: TimerValues, today: Date)
    requires CalendarDay(today)
    ensures Defaults(Some(Submission(v)), today) == v
  {
  }

  /** A stored schedule without times of day falls back to "08:00", one without an end to a month from today. */
  lemma DefaultsFallBack(s: ScheduleSettings, today: Date)
    requires CalendarDay(today)
    ensures |s.timesOfDay| == 0 ==> Defaults(Some(s), today).timeOfDay == DefaultTime
    ensures s.endDate.None? ==> Defaults(Some(s), today).endDate == AddMonth(today)
    ensures Defaults(Some(s), today).startDate == s.startDate && Defaults(Some(s), today).daysBetween == s.daysBetween
  {
  }

  /** The form's state, which the start-date handler updates in place with `setValue`. */
  class TimerForm {
    var values: TimerValues

    constructor (schedule: Option<ScheduleSettings>, today: Date)
      requires CalendarDay(today)
      ensures values == Defaults(schedule, today)
    {
      values := Defaults(schedule, today);
    }

    /** The start date's `onChange` handler. */
    method ChangeStartDate(newStart: Date)
      requires CalendarDay(newStart)
      modifies this
      ensures values == StartChanged(old(values), newStart)
    {
      if IsAfter(newStart, values.endDate) {
        values := values.(endDate := AddMonth(newStart));
      }
      values := values.(startDate := newStart);
    }

    /** `handleSubmit(onSubmit)`: the payload, when both rules pass. */
    method Submit() returns (payload: Option<ScheduleSettings>)
      ensures payload.Some? <==> EndDateValid(values) && DaysBetweenValid(values.daysBetween)
      ensures payload.Some? ==> payload.value == Submission(values)
    {
      if EndDateValid(values) && DaysBetweenValid(values.daysBetween) {
        payload := Some(Submission(values));
      } else {
        payload := None;
      }
    }
  }
}
