/**
 * The schedule service (backend/app/services/schedule.py): one `Schedule`
 * record holding the settings and the queue of inquiry ids, the queue
 * stored as JSON text.  The settings are kept as a parsed `ScheduleInfo`
 * value; their own JSON text is not modelled.
 */
module ScheduleStore {
  import opened Wrappers
  import opened ScheduleModel
  import opened JsonIntList

  /** The `Schedule` table record. */
  datatype ScheduleRow = ScheduleRow(id: int, schedule: ScheduleInfo, scheduledInquiries: string)

  datatype StoreError = NoResultFound   // `.one()` on an empty table

  /** The record with its queue decoded (`json.loads`); `None` if the stored text is not a list of integers. */
  function ToPublic(row: ScheduleRow): (p: Option<SchedulePublic>)
    ensures p.Some? ==> p.value.schedule == row.schedule && p.value.id == Some(row.id)
    ensures p.Some? ==> Encode(p.value.scheduledInquiries) == row.scheduledInquiries
    ensures p.Some? <==> Decode(row.scheduledInquiries).Some?
  {
    match Decode(row.scheduledInquiries)
    case None => None
    case Some(ids) =>
      EncodeDecode(row.scheduledInquiries);
      Some(SchedulePublic(row.schedule, Some(row.id), ids))
  }

  /** The table: at most one record, and record ids handed out from `nextId` on. */
  class Store {
    var row: Option<ScheduleRow>
    var nextId: int

    /** The record's queue is always the text of a list of integers, and its id was handed out. */
    ghost predicate Valid()
      reads this
    {
      row.Some? ==> Decode(row.value.scheduledInquiries).Some? && row.value.id < nextId
    }

    constructor()
      ensures Valid() && row == None && nextId == 1
    {
      row := None;
      nextId := 1;
    }

    /**
     * `create_schedule`: overwrites the settings of the existing record,
     * keeping its id and queue, or creates the record with an empty queue.
     */
    method CreateSchedule(info: ScheduleInfo) returns (r: ScheduleRow)
      requires Valid()
      modifies this
      ensures Valid() && row == Some(r)
      ensures old(row).Some? ==> r == old(row).value.(schedule := info) && nextId == old(nextId)
      ensures old(row).None? ==> r == ScheduleRow(old(nextId), info, "[]") && nextId == old(nextId) + 1
    {
      if row.Some? {
        r := row.value.(schedule := info);
      } else {
        r := ScheduleRow(nextId, info, Encode([]));
        DecodeEncode([]);
        nextId := nextId + 1;
      }
      row := Some(r);
    }

    /**
     * `update_scheduled_inquiries`: stores `json.dumps(ids)` as the queue,
     * settings untouched, and returns the record read back; fails when
     * there is no record.
     */
    method UpdateScheduledInquiries(ids: seq<int>) returns (r: Result<SchedulePublic, StoreError>)
      requires Valid()
      modifies this
      ensures Valid() && nextId == old(nextId)
      ensures old(row).None? ==> r == Err(NoResultFound) && row == old(row)
      ensures old(row).Some? ==> row == Some(old(row).value.(scheduledInquiries := Encode(ids)))
      ensures old(row).Some? ==> r == Ok(SchedulePublic(old(row).value.schedule, Some(old(row).value.id), ids))
    {
      var text := Encode(ids);
      if row.None? {
        return Err(NoResultFound);
      }
      var updated := row.value.(scheduledInquiries := text);
      DecodeEncode(ids);
      row := Some(updated);
      var back := Decode(updated.scheduledInquiries);
      r := Ok(SchedulePublic(updated.schedule, Some(updated.id), back.value));
    }

    /** `get_schedule`: the one record, or `None`. */
    function GetSchedule(): (r: Option<ScheduleRow>)
      reads this
      ensures Valid() && r.Some? ==> ToPublic(r.value).Some?
      ensures r.None? <==> row.None?
    {
      row
    }
  }
}
