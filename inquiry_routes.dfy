/**
 * The inquiry routes (backend/app/api/routes/inquiries.py) over an inquiry
 * table.  The lookups of backend/app/services/inquiries.py (by text, by
 * id, a page in table order, the count) are modelled as plain reads of the
 * table.  Clocks are parameters: the server's date for the projection and
 * the minute of the day in the requested time zone.
 */
module InquiryRoutes {
  import opened Wrappers
  import opened Calendar
  import opened InquiryModel
  import opened ScheduleModel
  import opened ScheduleStore
  import RankTable
  import JsonIntList

  datatype HttpError = HttpError(status: int, detail: string)

  /** `InquriesPublic`: a page and the total count. */
  datatype InquiriesPage = InquiriesPage(data: seq<Inquiry>, count: nat)

  const AlreadyExists := "This inquiry already exists."
  const SkipInvalid := "Invalid value for 'skip': it must be non-negative"
  const LimitInvalid := "Invalid value for 'limit': it must be non-negative"
  const NoSchedule := "Schedule does not exist to get current inquiry"
  const CurrentNotFound := "Current inquiry not found"
  const NotFound := "Inquiry not found"
  /** `str(e)` of the exceptions `current_inquiry` turns into a 400. */
  const IndexOutOfRange := "list index out of range"
  const PopFromEmpty := "pop from empty list"
  const DateOverflow := "date value out of range"
  const BadQueueText := "stored queue is not a JSON list of integers"
  const NoTimesOfDay := "'str' object has no attribute 'timesOfDay'"

  /** `str(e)` of pytz's `UnknownTimeZoneError(tz)`, a `KeyError`: the zone name in quotes. */
  function UnknownZone(tz: string): (d: string)
    ensures |d| == |tz| + 2 && d[0] == '\'' && d[|d| - 1] == '\'' && d[1..|d| - 1] == tz
  {
    "'" + tz + "'"
  }

  /**
   * The id `pop(0)` or `pop()` takes from the rotated queue: the first at or
   * after today's delivery time, the last before it; `None` on an empty queue.
   */
  function SelectCurrent(queue: seq<int>, atOrAfterDelivery: bool): (r: Option<int>)
    ensures r.None? <==> |queue| == 0
    ensures r.Some? && atOrAfterDelivery ==> r.value == queue[0]
    ensures r.Some? && !atOrAfterDelivery ==> r.value == queue[|queue| - 1]
  {
    if |queue| == 0 then None
    else if atOrAfterDelivery then Some(queue[0])
    else Some(queue[|queue| - 1])
  }

  /** The inquiry with this id. */
  function FindInquiry(inquiries: seq<Inquiry>, id: int): (r: Option<Inquiry>)
    ensures r.Some? ==> r.value in inquiries && r.value.id == id
    ensures r.None? <==> forall k :: 0 <= k < |inquiries| ==> inquiries[k].id != id
    decreases |inquiries|
  {
    if |inquiries| == 0 then None
    else if inquiries[0].id == id then Some(inquiries[0])
    else FindInquiry(inquiries[1..], id)
  }

  /** Whether `text` is already stored (`get_inquiry_by_text`). */
  function TextTaken(inquiries: seq<Inquiry>, text: string): (b: bool)
    ensures b <==> exists k :: 0 <= k < |inquiries| && inquiries[k].text == text
  {
    exists k :: 0 <= k < |inquiries| && inquiries[k].text == text
  }

  /** Whether `nowMinute` (the minute of the day in the requested zone) is at or after today's delivery time. */
  predicate AtOrAfterDelivery(nowMinute: int, t: TimeOfDay)
  {
    nowMinute >= t.hour * 60 + t.minute
  }

  /**
   * The id `current_inquiry` (evidently intended) selects, or the 400 it
   * answers: no schedule, an unknown time zone, an unreadable queue, no
   * time of day, a date out of range, or an empty queue.  `localMinute` is
   * the minute of the day in zone `tz`, or `None` when `pytz.timezone(tz)`
   * does not know the zone.
   */
  function CurrentSelection(schedule: Option<ScheduleRow>, serverToday: Ordinal, tz: string, localMinute: Option<int>,
                            isHoliday: int -> bool)
    : (r: Result<int, HttpError>)
    requires schedule.Some? ==> Terminates(schedule.value.schedule, serverToday)
    ensures r.Err? ==> r.error.status == 400
    ensures schedule.None? ==> r == Err(HttpError(400, NoSchedule))
    ensures schedule.Some? && localMinute.None? ==> r == Err(HttpError(400, UnknownZone(tz)))
  {
    if schedule.None? then Err(HttpError(400, NoSchedule))
    else if localMinute.None? then Err(HttpError(400, UnknownZone(tz)))
    else
      match ToPublic(schedule.value)
      case None => Err(HttpError(400, BadQueueText))
      case Some(p) =>
        if |p.schedule.timesOfDay| == 0 then Err(HttpError(400, IndexOutOfRange))
        else
          match Projection(p.schedule, p.scheduledInquiries, serverToday, isHoliday)
          case Err(_) => Err(HttpError(400, DateOverflow))
          case Ok(proj) =>
            match SelectCurrent(proj.inquiries, AtOrAfterDelivery(localMinute.value, p.schedule.timesOfDay[0]))
            case None => Err(HttpError(400, PopFromEmpty))
            case Some(id) => Ok(id)
  }

  /**
   * The selected id is the entry of the projected queue for the current
   * slot: its first entry at or after the delivery time, its last before
   * it (`ProjectedEnds` says which entries of the stored queue those are).
   */
  lemma CurrentIsActiveSlot(row: ScheduleRow, serverToday: Ordinal, tz: string, nowMinute: int, isHoliday: int -> bool)
    requires Terminates(row.schedule, serverToday)
    ensures var r := CurrentSelection(Some(row), serverToday, tz, Some(nowMinute), isHoliday);
      r.Ok? ==>
        && ToPublic(row).Some? && 0 < |row.schedule.timesOfDay|
        && var ids := ToPublic(row).value.scheduledInquiries;
           var proj := Projection(row.schedule, ids, serverToday, isHoliday);
           && proj.Ok? && 0 < |ids| == |proj.value.inquiries|
           && (AtOrAfterDelivery(nowMinute, row.schedule.timesOfDay[0]) ==> r.value == proj.value.inquiries[0])
           && (!AtOrAfterDelivery(nowMinute, row.schedule.timesOfDay[0]) ==> r.value == proj.value.inquiries[|proj.value.inquiries| - 1])
  {
    var r := CurrentSelection(Some(row), serverToday, tz, Some(nowMinute), isHoliday);
    if r.Ok? {
      var p := SelectionSteps(row, serverToday, tz, nowMinute, isHoliday);
    }
  }

  /** What a successful selection went through: a readable queue, a time of day, a projection. */
  lemma SelectionSteps(row: ScheduleRow, serverToday: Ordinal, tz: string, nowMinute: int, isHoliday: int -> bool)
    returns (p: SchedulePublic)
    requires Terminates(row.schedule, serverToday)
    requires CurrentSelection(Some(row), serverToday, tz, Some(nowMinute), isHoliday).Ok?
    ensures ToPublic(row) == Some(p) && p.schedule == row.schedule && 0 < |row.schedule.timesOfDay|
    ensures var proj := Projection(row.schedule, p.scheduledInquiries, serverToday, isHoliday);
      && proj.Ok?
      && SelectCurrent(proj.value.inquiries, AtOrAfterDelivery(nowMinute, row.schedule.timesOfDay[0]))
         == Some(CurrentSelection(Some(row), serverToday, tz, Some(nowMinute), isHoliday).value)
  {
    p := ToPublic(row).value;
  }

  /**
   * `current_inquiry` as written, up to the lookup: an unknown zone is the
   * 400 of `UnknownTimeZoneError`, and every stored schedule in a known
   * zone ends in the 400 of `AttributeError`.
   */
  function CurrentSelectionAsWritten(schedule: Option<ScheduleRow>, tz: string, localMinute: Option<int>)
    : (r: Result<int, HttpError>)
    ensures schedule.None? ==> r == Err(HttpError(400, NoSchedule))
    ensures schedule.Some? && localMinute.None? ==> r == Err(HttpError(400, UnknownZone(tz)))
    ensures schedule.Some? && localMinute.Some? ==> r == Err(HttpError(400, NoTimesOfDay))
  {
    if schedule.None? then Err(HttpError(400, NoSchedule))
    else if localMinute.None? then Err(HttpError(400, UnknownZone(tz)))
    else Err(HttpError(400, NoTimesOfDay))
  }

  /** A schedule starting on day 5 (0001-01-05) with queue `[7]`, delivering at 09:00 on every day. */
  function ExampleRow(): ScheduleRow
  {
    ScheduleRow(1, ScheduleInfo(Date(1, 1, 5), None, 1, false, false, [TimeOfDay(9, 0)]), "[7]")
  }

  predicate NoHolidays(d: int)
  {
    false
  }

  /**
   * On the start day at 10:00 in a known zone the intended route selects
   * inquiry 7, the only one queued; as written it answers 400 for the same
   * record.
   */
  lemma CurrentInquiryFinding(tz: string)
    ensures CurrentSelection(Some(ExampleRow()), 5, tz, Some(600), NoHolidays) == Ok(7)
    ensures CurrentSelectionAsWritten(Some(ExampleRow()), tz, Some(600)) == Err(HttpError(400, NoTimesOfDay))
  {
    var row := ExampleRow();
    var info := row.schedule;
    assert JsonIntList.Decode("[7]") == Some([7]) by {
      ExampleQueueText();
    }
    var p := SchedulePublic(info, Some(1), [7]);
    assert ToPublic(row) == Some(p);
    ExampleProjection(info);
    assert Projection(info, [7], 5, NoHolidays).value.inquiries == [7];
  }

  lemma ExampleQueueText()
    ensures JsonIntList.Decode("[7]") == Some([7])
  {
    JsonIntList.DecodeEncode([7]);
    assert JsonIntList.Encode([7]) == "[7]";
  }

  lemma ExampleProjection(info: ScheduleInfo)
    requires info == ExampleRow().schedule
    ensures Terminates(info, 5)
    ensures Projection(info, [7], 5, NoHolidays).Ok?
    ensures Projection(info, [7], 5, NoHolidays).value.inquiries == [7]
  {
    ExampleStart();
    assert PastSlots(5, 5, info, NoHolidays) == Ok(PastState(0, 5));
    assert Adjust(5, info, NoHolidays) == Some(5);
    var none: seq<Ordinal> := [];
    assert Deliveries(6, 0, info, NoHolidays) == Ok(none);
    assert AddDays(5, 1) == Some(6);
    assert [5 as Ordinal] + none == [5];
    assert Deliveries(5, 1, info, NoHolidays) == Ok([5]);
    assert [7][0..] + [7][..0] == [7];
  }

  class InquiryStore {
    var inquiries: seq<Inquiry>
    var nextId: int

    ghost predicate Valid()
      reads this
    {
      WellFormed(inquiries) && forall k :: 0 <= k < |inquiries| ==> inquiries[k].id < nextId
    }

    constructor()
      ensures Valid() && inquiries == [] && nextId == 1
    {
      inquiries := [];
      nextId := 1;
    }

    /**
     * `create_inquiry`: a request failing the text constraints is a 422; a
     * text already stored is a 400; anything else is stored with a fresh id.
     */
    method CreateInquiry(text: Option<string>) returns (r: Result<Inquiry, HttpError>)
      requires Valid()
      modifies this
      ensures Valid()
      ensures CheckText(text).Err? ==> r == Err(HttpError(422, "")) && inquiries == old(inquiries)
      ensures CheckText(text).Ok? && TextTaken(old(inquiries), text.value) ==>
        r == Err(HttpError(400, AlreadyExists)) && inquiries == old(inquiries)
      ensures CheckText(text).Ok? && !TextTaken(old(inquiries), text.value) ==>
        && r == Ok(Inquiry(old(nextId), text.value))
        && inquiries == old(inquiries) + [r.value] && nextId == old(nextId) + 1
    {
      var checked := CheckText(text);
      if checked.Err? {
        return Err(HttpError(422, ""));
      }
      var t := checked.value;
      if TextTaken(inquiries, t) {
        return Err(HttpError(400, AlreadyExists));
      }
      var inquiry := Inquiry(nextId, t);
      inquiries := inquiries + [inquiry];
      nextId := nextId + 1;
      r := Ok(inquiry);
    }

    /** `get_inquries`: a page of `limit` inquiries after the first `skip`, and the total. */
    function GetInquiries(skip: int, limit: int): (r: Result<InquiriesPage, HttpError>)
      reads this
      ensures skip < 0 ==> r == Err(HttpError(400, SkipInvalid))
      ensures 0 <= skip && limit <= 0 ==> r == Err(HttpError(400, LimitInvalid))
      ensures r.Ok? ==> 0 <= skip && 0 < limit
      ensures r.Ok? ==> r.value.count == |inquiries| && |r.value.data| <= limit
      ensures r.Ok? ==> forall i :: 0 <= i < |r.value.data| ==> skip + i < |inquiries| && r.value.data[i] == inquiries[skip + i]
    {
      if skip < 0 then Err(HttpError(400, SkipInvalid))
      else if limit <= 0 then Err(HttpError(400, LimitInvalid))
      else Ok(InquiriesPage(RankTable.Window(inquiries, skip, limit), |inquiries|))
    }

    /** `read_inquiry`: the inquiry, or 404. */
    function ReadInquiry(id: int): (r: Result<Inquiry, HttpError>)
      reads this
      ensures r.Ok? ==> r.value in inquiries && r.value.id == id
      ensures r.Err? <==> forall k :: 0 <= k < |inquiries| ==> inquiries[k].id != id
      ensures r.Err? ==> r.error == HttpError(404, NotFound)
    {
      match FindInquiry(inquiries, id)
      case None => Err(HttpError(404, NotFound))
      case Some(inquiry) => Ok(inquiry)
    }

    /**
     * `current_inquiry` as it is evidently meant to work: the stored record
     * is read through its public view, the rotated queue is projected with
     * the server's date `serverToday`, and `localMinute` (the minute of the
     * day in zone `tz`, `None` for a zone pytz does not know) is compared
     * with the first time of day.
     */
    method CurrentInquiry(schedule: Option<ScheduleRow>, serverToday: Ordinal, tz: string, localMinute: Option<int>,
                          isHoliday: int -> bool)
      returns (r: Result<Inquiry, HttpError>)
      requires schedule.Some? ==> Terminates(schedule.value.schedule, serverToday)
      ensures var sel := CurrentSelection(schedule, serverToday, tz, localMinute, isHoliday);
        && (sel.Err? ==> r == Err(sel.error))
        && (sel.Ok? && FindInquiry(inquiries, sel.value).None? ==> r == Err(HttpError(404, CurrentNotFound)))
        && (sel.Ok? && FindInquiry(inquiries, sel.value).Some? ==> r == Ok(FindInquiry(inquiries, sel.value).value))
    {
      if schedule.None? {
        return Err(HttpError(400, NoSchedule));
      }
      if localMinute.None? {
        return Err(HttpError(400, UnknownZone(tz)));
      }
      var nowMinute := localMinute.value;
      var public := ToPublic(schedule.value);
      if public.None? {
        return Err(HttpError(400, BadQueueText));
      }
      var info := public.value.schedule;
      if |info.timesOfDay| == 0 {
        return Err(HttpError(400, IndexOutOfRange));
      }
      var time := info.timesOfDay[0];
      var projected := ScheduledInquiriesAndDates(public.value, serverToday, isHoliday);
      if projected.Err? {
        return Err(HttpError(400, DateOverflow));
      }
      var queue := projected.value.inquiries;
      if |queue| == 0 {
        return Err(HttpError(400, PopFromEmpty));
      }
      var id: int;
      if nowMinute >= time.hour * 60 + time.minute {
        id := queue[0];
        queue := queue[1..];
      } else {
        id := queue[|queue| - 1];
        queue := queue[..|queue| - 1];
      }
      var inquiry := FindInquiry(inquiries, id);
      if inquiry.None? {
        return Err(HttpError(404, CurrentNotFound));
      }
      r := Ok(inquiry.value);
    }

    /**
     * `current_inquiry` as written: `get_schedule` returns the table record,
     * whose `schedule` is the settings' JSON text, so reading
     * `schedule.schedule.timesOfDay` raises `AttributeError`, which the
     * `except Exception` turns into a 400, as it does the unknown zone
     * before it.
     */
    method CurrentInquiryAsWritten(schedule: Option<ScheduleRow>, tz: string, localMinute: Option<int>)
      returns (r: Result<Inquiry, HttpError>)
      ensures var sel := CurrentSelectionAsWritten(schedule, tz, localMinute);
        r.Err? && r.error == sel.error
    {
      if schedule.None? {
        return Err(HttpError(400, NoSchedule));
      }
      if localMinute.None? {
        return Err(HttpError(400, UnknownZone(tz)));
      }
      return Err(HttpError(400, NoTimesOfDay));
    }
  }
}
