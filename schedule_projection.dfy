/**
 * The delivery projection of `SchedulePublic.scheduled_inquiries_and_dates`
 * (backend/app/models/schedule.py): how many delivery slots have passed
 * since the start date, the queue of inquiry ids rotated by that count,
 * and one formatted delivery date per queued id, skipping weekends and
 * holidays as configured.  Days are `Calendar` ordinals; the time of day is
 * the same for every slot, so comparing two delivery instants is comparing
 * their days.
 */
module ScheduleModel {
  import opened Wrappers
  import opened Calendar
  import opened JsArrays

  /** The schedule settings (`ScheduleInfo`), with dates and times already parsed. */
  datatype ScheduleInfo = ScheduleInfo(
    startDate: CivilDate,
    endDate: Option<CivilDate>,
    daysBetween: int,
    skipWeekends: bool,
    skipHolidays: bool,
    timesOfDay: seq<TimeOfDay>)

  /** The computed field's value: rotated queue and one date per queued id. */
  datatype ScheduleInquiriesAndDates = ScheduleInquiriesAndDates(inquiries: seq<int>, dates: seq<string>)

  /** A schedule as the API returns it, with its queue decoded. */
  datatype SchedulePublic = SchedulePublic(schedule: ScheduleInfo, id: Option<int>, scheduledInquiries: seq<int>)

  datatype ProjectionError =
    | MissingTimeOfDay   // `timesOfDay[0]` on an empty list: IndexError
    | DateOutOfRange     // `+= timedelta(...)` past year 9999 or before year 1: OverflowError

  /** `current_date += timedelta(days=k)`. */
  function AddDays(d: Ordinal, k: int): (r: Option<Ordinal>)
    ensures r.Some? <==> 1 <= d + k <= MaxOrdinal
    ensures r.Some? ==> r.value == d + k
  {
    if 1 <= d + k <= MaxOrdinal then Some(d + k) else None
  }

  /** The inner loop `while current_date.weekday() in [5, 6]: current_date += timedelta(days=1)`. */
  function SkipWeekends(d: Ordinal): (r: Option<Ordinal>)
    ensures r.Some? ==> d <= r.value && !IsWeekend(r.value)
    ensures r.Some? ==> forall e :: d <= e < r.value ==> IsWeekend(e)
    ensures !IsWeekend(d) ==> r == Some(d)
    decreases MaxOrdinal - d
  {
    if !IsWeekend(d) then Some(d)
    else if d == MaxOrdinal then None
    else SkipWeekends(d + 1)
  }

  /** The inner loop `while current_date in us_holidays: current_date += timedelta(days=1)`. */
  function SkipHolidays(d: Ordinal, isHoliday: int -> bool): (r: Option<Ordinal>)
    ensures r.Some? ==> d <= r.value && !isHoliday(r.value)
    ensures r.Some? ==> forall e :: d <= e < r.value ==> isHoliday(e)
    ensures !isHoliday(d) ==> r == Some(d)
    decreases MaxOrdinal - d
  {
    if !isHoliday(d) then Some(d)
    else if d == MaxOrdinal then None
    else SkipHolidays(d + 1, isHoliday)
  }

  /** A day the configured skipping rules let a delivery fall on. */
  predicate Deliverable(d: int, info: ScheduleInfo, isHoliday: int -> bool)
  {
    (info.skipHolidays ==> !isHoliday(d))
    && (info.skipWeekends && !info.skipHolidays ==> !IsWeekend(d))
  }

  /** A day the skipping rules pass over: a weekend when weekends are skipped, or a holiday when holidays are. */
  predicate Skippable(d: int, info: ScheduleInfo, isHoliday: int -> bool)
  {
    (info.skipWeekends && IsWeekend(d)) || (info.skipHolidays && isHoliday(d))
  }

  /** The weekend skip followed by the holiday skip, as both loops of the source run them. */
  function Adjust(d: Ordinal, info: ScheduleInfo, isHoliday: int -> bool): (r: Option<Ordinal>)
    ensures r.Some? ==> d <= r.value && Deliverable(r.value, info, isHoliday)
    ensures r.Some? ==> forall e :: d <= e < r.value ==> Skippable(e, info, isHoliday)
    ensures !info.skipWeekends && !info.skipHolidays ==> r == Some(d)
  {
    var w := if info.skipWeekends then SkipWeekends(d) else Some(d);
    if w.None? then None
    else if info.skipHolidays then SkipHolidays(w.value, isHoliday)
    else w
  }

  /** A negative interval with both skips off: each pass moves the day back by `-daysBetween`. */
  predicate StepsBack(info: ScheduleInfo)
  {
    info.daysBetween < 0 && !info.skipWeekends && !info.skipHolidays
  }

  /**
   * Each pass of the past-slot loop moves the day one way for good: forward
   * by at least one day, or back with no skip to undo the step.
   */
  predicate Moves(info: ScheduleInfo)
  {
    info.daysBetween >= 1 || StepsBack(info)
  }

  /** When the past-slot loop `while current_date < today` is sure to stop. */
  predicate Terminates(info: ScheduleInfo, today: Ordinal)
  {
    |info.timesOfDay| == 0 || Moves(info) || today <= ToOrdinal(info.startDate)
  }

  /** State after the past-slot loop: slots already passed, and the first slot not yet passed. */
  datatype PastState = PastState(count: nat, current: Ordinal)

  /** The loop `while current_date < today`, counting delivery slots before today. */
  function PastSlots(cur: Ordinal, today: Ordinal, info: ScheduleInfo, isHoliday: int -> bool)
    : (r: Result<PastState, ProjectionError>)
    requires cur < today ==> Moves(info)
    ensures today <= cur ==> r == Ok(PastState(0, cur))
    ensures r.Ok? ==> today <= r.value.current && cur <= r.value.current
    ensures r.Ok? && cur < today ==> 1 <= r.value.count
    ensures r.Err? ==> r.error == DateOutOfRange
    ensures StepsBack(info) && cur < today ==> r == Err(DateOutOfRange)
    decreases if info.daysBetween >= 1 then today - cur else cur
  {
    if today <= cur then Ok(PastState(0, cur))
    else
      match Adjust(cur, info, isHoliday)
      case None => Err(DateOutOfRange)
      case Some(a) =>
        match AddDays(a, info.daysBetween)
        case None => Err(DateOutOfRange)
        case Some(next) =>
          match PastSlots(next, today, info, isHoliday)
          case Err(e) => Err(e)
          case Ok(p) => Ok(PastState(p.count + 1, p.current))
  }

  /**
   * Where the loop head `current_date` stands after `k` passes from `cur`:
   * each pass adjusts the day and then steps `daysBetween` days; `None`
   * once a step leaves the calendar.
   */
  function SlotAfter(cur: Ordinal, k: nat, info: ScheduleInfo, isHoliday: int -> bool): Option<Ordinal>
    decreases k
  {
    if k == 0 then Some(cur)
    else
      match Adjust(cur, info, isHoliday)
      case None => None
      case Some(a) =>
        match AddDays(a, info.daysBetween)
        case None => None
        case Some(next) => SlotAfter(next, k - 1, info, isHoliday)
  }

  /**
   * The past-slot count does not overshoot: every pass it counts began on a
   * day before today, and the loop stops on the first pass that does not,
   * which is where the deliveries start.
   */
  lemma {:induction false} PastSlotsCountsOnlyPast(cur: Ordinal, today: Ordinal, info: ScheduleInfo, isHoliday: int -> bool)
    requires cur < today ==> Moves(info)
    ensures var r := PastSlots(cur, today, info, isHoliday);
      r.Ok? ==>
        && SlotAfter(cur, r.value.count, info, isHoliday) == Some(r.value.current)
        && forall j :: 0 <= j < r.value.count ==>
             SlotAfter(cur, j, info, isHoliday).Some? && SlotAfter(cur, j, info, isHoliday).value < today
    decreases if info.daysBetween >= 1 then today - cur else cur
  {
    var r := PastSlots(cur, today, info, isHoliday);
    if cur < today && r.Ok? {
      var a := Adjust(cur, info, isHoliday).value;
      var next := AddDays(a, info.daysBetween).value;
      var p := PastSlots(next, today, info, isHoliday).value;
      PastSlotsCountsOnlyPast(next, today, info, isHoliday);
      assert r.value == PastState(p.count + 1, p.current);
      forall j | 0 <= j < r.value.count
        ensures SlotAfter(cur, j, info, isHoliday).Some? && SlotAfter(cur, j, info, isHoliday).value < today
      {
        if 0 < j {
          assert SlotAfter(cur, j, info, isHoliday) == SlotAfter(next, j - 1, info, isHoliday);
        }
      }
    }
  }

  /** The `for` loop over the queue: the days of the next `k` deliveries from `cur`. */
  function Deliveries(cur: Ordinal, k: nat, info: ScheduleInfo, isHoliday: int -> bool)
    : (r: Result<seq<Ordinal>, ProjectionError>)
    ensures r.Ok? ==> |r.value| == k
    ensures r.Err? ==> r.error == DateOutOfRange
    decreases k
  {
    if k == 0 then Ok([])
    else
      match Adjust(cur, info, isHoliday)
      case None => Err(DateOutOfRange)
      case Some(a) =>
        match AddDays(a, info.daysBetween)
        case None => Err(DateOutOfRange)
        case Some(next) =>
          match Deliveries(next, k - 1, info, isHoliday)
          case Err(e) => Err(e)
          case Ok(rest) => Ok([a] + rest)
  }

  /**
   * The delivery days are all deliverable, the first is at or after `cur`,
   * and each is at least `daysBetween` after the one before; with both
   * skips off they start at `cur` and are exactly `daysBetween` apart.
   */
  lemma {:induction false} DeliveriesShape(cur: Ordinal, k: nat, info: ScheduleInfo, isHoliday: int -> bool)
    ensures var r := Deliveries(cur, k, info, isHoliday);
      && (r.Ok? && 0 < k ==> cur <= r.value[0])
      && (r.Ok? && 0 < k && !info.skipWeekends && !info.skipHolidays ==> r.value[0] == cur)
      && (r.Ok? ==> forall i :: 0 <= i < k ==> Deliverable(r.value[i], info, isHoliday))
      && (r.Ok? ==> forall i :: 0 <= i < k - 1 ==> r.value[i] + info.daysBetween <= r.value[i + 1])
      && (r.Ok? && !info.skipWeekends && !info.skipHolidays ==>
            forall i :: 0 <= i < k - 1 ==> r.value[i + 1] == r.value[i] + info.daysBetween)
    decreases k
  {
    var r := Deliveries(cur, k, info, isHoliday);
    if 0 < k && r.Ok? {
      var a := Adjust(cur, info, isHoliday).value;
      var next := AddDays(a, info.daysBetween).value;
      DeliveriesShape(next, k - 1, info, isHoliday);
      var rest := Deliveries(next, k - 1, info, isHoliday).value;
      assert r.value == [a] + rest;
      if 1 < k {
        assert a + info.daysBetween <= next <= rest[0];
      }
    }
  }

  /** `active_index`: the past-slot count modulo the queue length, or 0. */
  function ActiveIndex(past: nat, n: nat): (k: nat)
    ensures k <= n && (0 < n ==> k < n)
    ensures past == 0 || n == 0 ==> k == 0
  {
    if past > 0 && n > 0 then past % n else 0
  }

  /** The delivery days and the past-slot count, before formatting. */
  datatype Projected = Projected(past: nat, days: seq<Ordinal>, time: TimeOfDay)

  /** The projection on day numbers. */
  function ProjectDays(info: ScheduleInfo, n: nat, today: Ordinal, isHoliday: int -> bool)
    : (r: Result<Projected, ProjectionError>)
    requires Terminates(info, today)
    ensures r.Ok? ==> |r.value.days| == n && 0 < |info.timesOfDay| && r.value.time == info.timesOfDay[0]
    ensures |info.timesOfDay| == 0 <==> r == Err(MissingTimeOfDay)
  {
    if |info.timesOfDay| == 0 then Err(MissingTimeOfDay)
    else
      match PastSlots(ToOrdinal(info.startDate), today, info, isHoliday)
      case Err(e) => Err(e)
      case Ok(p) =>
        match Deliveries(p.current, n, info, isHoliday)
        case Err(e) => Err(e)
        case Ok(days) => Ok(Projected(p.count, days, info.timesOfDay[0]))
  }

  /** `past_scheduled_count` of a projection that succeeds (0 otherwise). */
  function PastSlotCount(info: ScheduleInfo, n: nat, today: Ordinal, isHoliday: int -> bool): nat
    requires Terminates(info, today)
  {
    match ProjectDays(info, n, today, isHoliday)
    case Ok(p) => p.past
    case Err(_) => 0
  }

  /** Each delivery day rendered with the schedule's first time of day. */
  function FormatAll(days: seq<Ordinal>, t: TimeOfDay): (r: seq<string>)
    ensures |r| == |days|
    ensures forall i :: 0 <= i < |days| ==> r[i] == FormatDateTime(days[i], t)
  {
    seq(|days|, i requires 0 <= i < |days| => FormatDateTime(days[i], t))
  }

  /** The value of `scheduled_inquiries_and_dates`. */
  function Projection(info: ScheduleInfo, ids: seq<int>, today: Ordinal, isHoliday: int -> bool)
    : (r: Result<ScheduleInquiriesAndDates, ProjectionError>)
    requires Terminates(info, today)
  {
    match ProjectDays(info, |ids|, today, isHoliday)
    case Err(e) => Err(e)
    case Ok(p) =>
      var active := ActiveIndex(p.past, |ids|);
      Ok(ScheduleInquiriesAndDates(RotateLeft(ids, active), FormatAll(p.days, p.time)))
  }

  /** The weekend loop of the source. */
  method SkipWeekendDays(d: Ordinal) returns (r: Option<Ordinal>)
    ensures r == SkipWeekends(d)
  {
    var c := d;
    while IsWeekend(c)
      invariant d <= c
      invariant SkipWeekends(c) == SkipWeekends(d)
      decreases MaxOrdinal - c
    {
      if c == MaxOrdinal {
        return None;
      }
      c := c + 1;
    }
    return Some(c);
  }

  /** The holiday loop of the source, with `holidays.US()` as the predicate `isHoliday`. */
  method SkipHolidayDays(d: Ordinal, isHoliday: int -> bool) returns (r: Option<Ordinal>)
    ensures r == SkipHolidays(d, isHoliday)
  {
    var c := d;
    while isHoliday(c)
      invariant d <= c
      invariant SkipHolidays(c, isHoliday) == SkipHolidays(d, isHoliday)
      decreases MaxOrdinal - c
    {
      if c == MaxOrdinal {
        return None;
      }
      c := c + 1;
    }
    return Some(c);
  }

  /** Both skip loops, as each of the two outer loops runs them. */
  method AdjustDay(d: Ordinal, info: ScheduleInfo, isHoliday: int -> bool) returns (r: Option<Ordinal>)
    ensures r == Adjust(d, info, isHoliday)
  {
    r := Some(d);
    if info.skipWeekends {
      r := SkipWeekendDays(d);
    }
    if r.Some? && info.skipHolidays {
      r := SkipHolidayDays(r.value, isHoliday);
    }
  }

  /** `past` passed slots on top of the rest of the past-slot loop. */
  function AfterPast(r: Result<PastState, ProjectionError>, past: nat): Result<PastState, ProjectionError>
  {
    match r
    case Err(e) => Err(e)
    case Ok(p) => Ok(PastState(p.count + past, p.current))
  }

  /** `done` delivery days in front of the rest of the delivery loop. */
  function AfterDone(r: Result<seq<Ordinal>, ProjectionError>, done: seq<Ordinal>): Result<seq<Ordinal>, ProjectionError>
  {
    match r
    case Err(e) => Err(e)
    case Ok(rest) => Ok(done + rest)
  }

  lemma AfterNothingDone(r: Result<seq<Ordinal>, ProjectionError>)
    ensures AfterDone(r, []) == r
  {
    if r.Ok? {
      assert [] + r.value == r.value;
    }
  }

  /** One pass of the past-slot loop: the slot moves from the rest of the loop to the count. */
  lemma PastStep(cur: Ordinal, today: Ordinal, info: ScheduleInfo, isHoliday: int -> bool, past: nat, a: Ordinal, next: Ordinal)
    requires cur < today && Moves(info)
    requires Adjust(cur, info, isHoliday) == Some(a) && AddDays(a, info.daysBetween) == Some(next)
    ensures AfterPast(PastSlots(cur, today, info, isHoliday), past) == AfterPast(PastSlots(next, today, info, isHoliday), past + 1)
  {
  }

  /** A pass of the past-slot loop whose day runs past the calendar ends the loop with an error. */
  lemma PastStops(cur: Ordinal, today: Ordinal, info: ScheduleInfo, isHoliday: int -> bool, past: nat)
    requires cur < today && Moves(info)
    requires var a := Adjust(cur, info, isHoliday); a.None? || AddDays(a.value, info.daysBetween).None?
    ensures AfterPast(PastSlots(cur, today, info, isHoliday), past) == Err(DateOutOfRange)
  {
  }

  /** The loop `while current_date < today` of the source, from `start`. */
  method CountPastSlots(start: Ordinal, today: Ordinal, info: ScheduleInfo, isHoliday: int -> bool)
    returns (r: Result<PastState, ProjectionError>)
    requires start < today ==> Moves(info)
    ensures r == PastSlots(start, today, info, isHoliday)
  {
    var current: Ordinal := start;
    var past: nat := 0;
    while current < today
      invariant !Moves(info) ==> current == start
      invariant PastSlots(start, today, info, isHoliday) == AfterPast(PastSlots(current, today, info, isHoliday), past)
      decreases if info.daysBetween >= 1 then today - current else current
    {
      var a := AdjustDay(current, info, isHoliday);
      if a.None? {
        PastStops(current, today, info, isHoliday, past);
        return Err(DateOutOfRange);
      }
      var next := AddDays(a.value, info.daysBetween);
      if next.None? {
        PastStops(current, today, info, isHoliday, past);
        return Err(DateOutOfRange);
      }
      PastStep(current, today, info, isHoliday, past, a.value, next.value);
      current := next.value;
      past := past + 1;
    }
    return Ok(PastState(past, current));
  }

  /** The delivery days, rendered, or the error that stopped them. */
  function Rendered(r: Result<seq<Ordinal>, ProjectionError>, t: TimeOfDay): Result<seq<string>, ProjectionError>
  {
    match r
    case Err(e) => Err(e)
    case Ok(days) => Ok(FormatAll(days, t))
  }

  /** One pass of the delivery loop moves its day from the rest of the loop to the days done. */
  lemma DeliveryStep(cur: Ordinal, k: nat, info: ScheduleInfo, isHoliday: int -> bool, done: seq<Ordinal>, a: Ordinal, next: Ordinal)
    requires 0 < k && Adjust(cur, info, isHoliday) == Some(a) && AddDays(a, info.daysBetween) == Some(next)
    ensures AfterDone(Deliveries(cur, k, info, isHoliday), done) == AfterDone(Deliveries(next, k - 1, info, isHoliday), done + [a])
  {
    var rest := Deliveries(next, k - 1, info, isHoliday);
    if rest.Ok? {
      assert done + ([a] + rest.value) == (done + [a]) + rest.value;
    }
  }

  /** A pass of the delivery loop whose day runs past the calendar ends the loop with an error. */
  lemma DeliveryStops(cur: Ordinal, k: nat, info: ScheduleInfo, isHoliday: int -> bool, done: seq<Ordinal>)
    requires 0 < k
    requires var a := Adjust(cur, info, isHoliday); a.None? || AddDays(a.value, info.daysBetween).None?
    ensures AfterDone(Deliveries(cur, k, info, isHoliday), done) == Err(DateOutOfRange)
  {
  }

  /** With no deliveries left the loop's days are the result. */
  lemma DeliveriesDone(cur: Ordinal, info: ScheduleInfo, isHoliday: int -> bool, done: seq<Ordinal>)
    ensures AfterDone(Deliveries(cur, 0, info, isHoliday), done) == Ok(done)
  {
    assert done + [] == done;
  }

  /** The `for` loop over the queue of the source: `n` deliveries from `start`. */
  method DeliveryDates(start: Ordinal, n: nat, info: ScheduleInfo, isHoliday: int -> bool, time: TimeOfDay)
    returns (r: Result<seq<string>, ProjectionError>)
    ensures r == Rendered(Deliveries(start, n, info, isHoliday), time)
  {
    var current := start;
    var days: seq<Ordinal> := [];
    AfterNothingDone(Deliveries(current, n - 0, info, isHoliday));
    for i := 0 to n
      invariant Deliveries(start, n, info, isHoliday) == AfterDone(Deliveries(current, n - i, info, isHoliday), days)
    {
      var a := AdjustDay(current, info, isHoliday);
      if a.None? {
        DeliveryStops(current, n - i, info, isHoliday, days);
        return Err(DateOutOfRange);
      }
      var next := AddDays(a.value, info.daysBetween);
      if next.None? {
        DeliveryStops(current, n - i, info, isHoliday, days);
        return Err(DateOutOfRange);
      }
      DeliveryStep(current, n - i, info, isHoliday, days, a.value, next.value);
      days := days + [a.value];
      current := next.value;
    }
    DeliveriesDone(current, info, isHoliday, days);
    return Ok(FormatAll(days, time));
  }

  /**
   * `SchedulePublic.scheduled_inquiries_and_dates`, with the clock's date
   * as `today` and `holidays.US()` as `isHoliday`.
   */
  method ScheduledInquiriesAndDates(s: SchedulePublic, today: Ordinal, isHoliday: int -> bool)
    returns (r: Result<ScheduleInquiriesAndDates, ProjectionError>)
    requires Terminates(s.schedule, today)
    ensures r == Projection(s.schedule, s.scheduledInquiries, today, isHoliday)
  {
    var info := s.schedule;
    var ids := s.scheduledInquiries;
    if |info.timesOfDay| == 0 {
      return Err(MissingTimeOfDay);
    }
    var time := info.timesOfDay[0];
    var p := CountPastSlots(ToOrdinal(info.startDate), today, info, isHoliday);
    if p.Err? {
      return Err(p.error);
    }
    var n := |ids|;
    var dates := DeliveryDates(p.value.current, n, info, isHoliday, time);
    if dates.Err? {
      return Err(dates.error);
    }
    var active := 0;
    if p.value.count > 0 && n > 0 {
      active := p.value.count % n;
    }
    r := Ok(ScheduleInquiriesAndDates(ids[active..] + ids[..active], dates.value));
  }

  /** How the projection is put together from `ProjectDays`. */
  lemma ProjectionParts(info: ScheduleInfo, ids: seq<int>, today: Ordinal, isHoliday: int -> bool)
    requires Terminates(info, today)
    ensures var p := ProjectDays(info, |ids|, today, isHoliday);
      var r := Projection(info, ids, today, isHoliday);
      && (r.Ok? <==> p.Ok?)
      && (p.Ok? ==>
            && PastSlotCount(info, |ids|, today, isHoliday) == p.value.past
            && r.value.inquiries == RotateLeft(ids, ActiveIndex(p.value.past, |ids|))
            && r.value.dates == FormatAll(p.value.days, p.value.time))
  {
  }

  /** The queue is the stored one rotated left by the number of past slots: entry `i` is stored entry `(i + past) % n`. */
  lemma ProjectionRotatesQueue(info: ScheduleInfo, ids: seq<int>, today: Ordinal, isHoliday: int -> bool)
    requires Terminates(info, today)
    ensures var r := Projection(info, ids, today, isHoliday);
      r.Ok? ==>
        && |r.value.inquiries| == |ids| && |r.value.dates| == |ids|
        && multiset(r.value.inquiries) == multiset(ids)
        && RotatedBy(r.value.inquiries, ids, PastSlotCount(info, |ids|, today, isHoliday))
  {
    ProjectionParts(info, ids, today, isHoliday);
    var r := Projection(info, ids, today, isHoliday);
    if r.Ok? {
      var past := PastSlotCount(info, |ids|, today, isHoliday);
      RotationByPast(ids, past);
    }
  }

  /** Entry `i` of `q` is stored entry `(i + past) % |ids|`, for every `i`. */
  predicate RotatedBy(q: seq<int>, ids: seq<int>, past: nat)
  {
    |q| == |ids| && forall i :: 0 <= i < |ids| ==> q[i] == ids[(i + past) % |ids|]
  }

  /** Entry `i` of the projected queue, one at a time. */
  lemma ProjectedEntry(info: ScheduleInfo, ids: seq<int>, today: Ordinal, isHoliday: int -> bool, past: nat, i: nat)
    requires Terminates(info, today) && i < |ids| && Projection(info, ids, today, isHoliday).Ok?
    requires past == PastSlotCount(info, |ids|, today, isHoliday)
    ensures var q := Projection(info, ids, today, isHoliday).value.inquiries;
      |q| == |ids| && q[i] == ids[(i + past) % |ids|]
  {
    ProjectionParts(info, ids, today, isHoliday);
    var rot := RotateLeft(ids, ActiveIndex(past, |ids|));
    assert Projection(info, ids, today, isHoliday).value.inquiries == rot;
    RotationByPast(ids, past);
    assert rot[i] == ids[(i + past) % |ids|];
  }

  /** The first and the last entry of the projected queue. */
  lemma ProjectedEnds(info: ScheduleInfo, ids: seq<int>, today: Ordinal, isHoliday: int -> bool, past: nat)
    requires Terminates(info, today) && 0 < |ids| && Projection(info, ids, today, isHoliday).Ok?
    requires past == PastSlotCount(info, |ids|, today, isHoliday)
    ensures var q := Projection(info, ids, today, isHoliday).value.inquiries;
      && |q| == |ids|
      && q[0] == ids[past % |ids|]
      && q[|ids| - 1] == ids[(|ids| - 1 + past) % |ids|]
  {
    var p := ProjectDays(info, |ids|, today, isHoliday);
    var rot := RotateLeft(ids, ActiveIndex(p.value.past, |ids|));
    assert Projection(info, ids, today, isHoliday).value.inquiries == rot;
    RotationByPast(ids, past);
    var last := |ids| - 1;
    assert rot[last] == ids[(last + past) % |ids|];
  }

  /** Rotating by `ActiveIndex(past, n)` moves stored entry `(i + past) % n` to position `i`. */
  lemma RotationByPast(ids: seq<int>, past: nat)
    ensures RotatedBy(RotateLeft(ids, ActiveIndex(past, |ids|)), ids, past)
  {
    var n := |ids|;
    var k := ActiveIndex(past, n);
    var rot := RotateLeft(ids, k);
    forall i | 0 <= i < n
      ensures rot[i] == ids[(i + past) % n]
    {
      ModShift(i, past, n, k);
    }
  }

  /** `(i + past) % n` is `i + past % n`, wrapped once. */
  lemma ModShift(i: nat, past: nat, n: nat, k: nat)
    requires i < n && k == ActiveIndex(past, n)
    ensures i + k < n ==> (i + past) % n == i + k
    ensures n <= i + k ==> (i + past) % n == i + k - n
  {
    var q := past / n;
    assert past == q * n + k;
    if i + k < n {
      DivUnique(i + past, n, q, i + k);
    } else {
      assert i + past == (q + 1) * n + (i + k - n);
      DivUnique(i + past, n, q + 1, i + k - n);
    }
  }

  /** A schedule that starts today or later has no past slots: the queue keeps its stored order and the first delivery is the adjusted start. */
  lemma FutureStartKeepsOrder(info: ScheduleInfo, ids: seq<int>, today: Ordinal, isHoliday: int -> bool)
    requires Terminates(info, today) && today <= ToOrdinal(info.startDate)
    ensures var r := ProjectDays(info, |ids|, today, isHoliday);
      r.Ok? ==> r.value.past == 0 && (0 < |ids| ==> Adjust(ToOrdinal(info.startDate), info, isHoliday) == Some(r.value.days[0]))
    ensures var r := Projection(info, ids, today, isHoliday);
      r.Ok? ==> r.value.inquiries == ids
  {
    var r := Projection(info, ids, today, isHoliday);
    if r.Ok? {
      assert r.value.inquiries == ids[0..] + ids[..0];
      assert ids[0..] + ids[..0] == ids;
    }
  }

  /**
   * The first projected delivery is on or after today and on or after the
   * start date; with a non-negative `daysBetween` so is every later one.
   */
  lemma DeliveriesNotInPast(info: ScheduleInfo, n: nat, today: Ordinal, isHoliday: int -> bool)
    requires Terminates(info, today)
    ensures var r := ProjectDays(info, n, today, isHoliday);
      r.Ok? && 0 < n ==> today <= r.value.days[0] && ToOrdinal(info.startDate) <= r.value.days[0]
    ensures var r := ProjectDays(info, n, today, isHoliday);
      r.Ok? && 0 <= info.daysBetween ==>
        forall i :: 0 <= i < n ==> today <= r.value.days[i] && ToOrdinal(info.startDate) <= r.value.days[i]
  {
    var r := ProjectDays(info, n, today, isHoliday);
    if r.Ok? && 0 < n {
      var days := r.value.days;
      var p := PastSlots(ToOrdinal(info.startDate), today, info, isHoliday);
      assert p.Ok? && Deliveries(p.value.current, n, info, isHoliday) == Ok(days);
      DeliveriesShape(p.value.current, n, info, isHoliday);
      if 0 <= info.daysBetween {
        forall i | 0 <= i < n
          ensures today <= days[i] && ToOrdinal(info.startDate) <= days[i]
        {
          NondecreasingFrom(days, info.daysBetween, i);
        }
      }
    }
  }

  /** Helper: days with a non-negative gap between neighbours are all at least the first. */
  lemma {:induction false} NondecreasingFrom(days: seq<Ordinal>, gap: int, i: nat)
    requires i < |days|
    requires forall j :: 0 <= j < |days| - 1 ==> days[j] + gap <= days[j + 1]
    requires 0 <= gap || i == 0
    ensures days[0] <= days[i]
  {
    if i > 0 {
      NondecreasingFrom(days, gap, i - 1);
    }
  }

  /**
   * A negative interval with both skips off and a start before today walks
   * the day back until `timedelta` leaves the calendar: the projection fails
   * with `DateOutOfRange`.
   */
  lemma BackwardStepOverflows(info: ScheduleInfo, ids: seq<int>, today: Ordinal, isHoliday: int -> bool)
    requires StepsBack(info) && ToOrdinal(info.startDate) < today && 0 < |info.timesOfDay|
    ensures Terminates(info, today)
    ensures Projection(info, ids, today, isHoliday) == Err(DateOutOfRange)
  {
  }

  /** An empty queue projects to no inquiries and no dates. */
  lemma EmptyQueue(info: ScheduleInfo, today: Ordinal, isHoliday: int -> bool)
    requires Terminates(info, today)
    ensures var r := Projection(info, [], today, isHoliday);
      r.Ok? ==> r.value == ScheduleInquiriesAndDates([], [])
  {
  }

  /** The end date plays no part in the projection. */
  lemma EndDateIgnored(info: ScheduleInfo, e: Option<CivilDate>, ids: seq<int>, today: Ordinal, isHoliday: int -> bool)
    requires Terminates(info, today)
    ensures Terminates(info.(endDate := e), today)
    ensures Projection(info.(endDate := e), ids, today, isHoliday) == Projection(info, ids, today, isHoliday)
  {
    var info' := info.(endDate := e);
    assert forall d: Ordinal :: Adjust(d, info', isHoliday) == Adjust(d, info, isHoliday);
    if 0 < |info.timesOfDay| {
      PastSlotsEndDate(ToOrdinal(info.startDate), today, info, e, isHoliday);
      var p := PastSlots(ToOrdinal(info.startDate), today, info, isHoliday);
      if p.Ok? {
        DeliveriesEndDate(p.value.current, |ids|, info, e, isHoliday);
      }
    }
  }

  lemma {:induction false} PastSlotsEndDate(cur: Ordinal, today: Ordinal, info: ScheduleInfo, e: Option<CivilDate>, isHoliday: int -> bool)
    requires cur < today ==> Moves(info)
    ensures PastSlots(cur, today, info.(endDate := e), isHoliday) == PastSlots(cur, today, info, isHoliday)
    decreases if info.daysBetween >= 1 then today - cur else cur
  {
    var info' := info.(endDate := e);
    if cur < today {
      assert Adjust(cur, info', isHoliday) == Adjust(cur, info, isHoliday);
      var a := Adjust(cur, info, isHoliday);
      if a.Some? && AddDays(a.value, info.daysBetween).Some? {
        PastSlotsEndDate(AddDays(a.value, info.daysBetween).value, today, info, e, isHoliday);
      }
    }
  }

  lemma {:induction false} DeliveriesEndDate(cur: Ordinal, k: nat, info: ScheduleInfo, e: Option<CivilDate>, isHoliday: int -> bool)
    ensures Deliveries(cur, k, info.(endDate := e), isHoliday) == Deliveries(cur, k, info, isHoliday)
    decreases k
  {
    var info' := info.(endDate := e);
    if k > 0 {
      assert Adjust(cur, info', isHoliday) == Adjust(cur, info, isHoliday);
      var a := Adjust(cur, info, isHoliday);
      if a.Some? && AddDays(a.value, info.daysBetween).Some? {
        DeliveriesEndDate(AddDays(a.value, info.daysBetween).value, k - 1, info, e, isHoliday);
      }
    }
  }

  /** A holiday calendar with one holiday, day 5 (0001-01-05, a Friday). */
  predicate FridayOff(d: int)
  {
    d == 5
  }

  /**
   * The weekend skip runs before the holiday skip and is not repeated, so a
   * holiday on a Friday moves the delivery to the Saturday even with
   * weekends skipped: 0001-01-05 (day 5) is a Friday, day 6 a Saturday.
   */
  lemma HolidaySkipCanLandOnWeekend()
    ensures ProjectDays(ScheduleInfo(Date(1, 1, 5), None, 1, true, true, [TimeOfDay(9, 0)]), 1, 5, FridayOff)
      == Ok(Projected(0, [6], TimeOfDay(9, 0)))
    ensures IsWeekend(6) && !IsWeekend(5)
  {
    var info := ScheduleInfo(Date(1, 1, 5), None, 1, true, true, [TimeOfDay(9, 0)]);
    ExampleStart();
    ExampleDelivery(info);
    assert PastSlots(5, 5, info, FridayOff) == Ok(PastState(0, 5));
  }

  lemma ExampleStart()
    ensures ToOrdinal(Date(1, 1, 5)) == 5
  {
  }

  lemma ExampleDelivery(info: ScheduleInfo)
    requires info.skipWeekends && info.skipHolidays && info.daysBetween == 1
    ensures Deliveries(5, 1, info, FridayOff) == Ok([6])
    ensures IsWeekend(6) && !IsWeekend(5)
  {
    assert SkipWeekends(5) == Some(5);
    assert SkipHolidays(6, FridayOff) == Some(6);
    assert Adjust(5, info, FridayOff) == Some(6);
    assert AddDays(6, 1) == Some(7);
    var none: seq<Ordinal> := [];
    assert Deliveries(7, 0, info, FridayOff) == Ok(none);
    assert [6 as Ordinal] + none == [6];
  }
}
