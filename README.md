# Incredihire survey scheduler: a verified model of the queue core

This project models the part of the Incredihire survey application that decides which inquiry
(survey question) goes out when. It also proves properties of that model in Dafny.

On the backend it covers:
- one schedule record, whose settings and whose queue of inquiry ids are stored as JSON text;
- the projection that counts the delivery slots already past and rotates the queue to match;
- it also emits one formatted delivery date per queued id;
- the parallel rank table of scheduled inquiries;
- the inquiry routes: duplicate check, paging guards, current-inquiry selection and lookup;
- the inquiry text constraints.

On the frontend it covers:
- the rank-up, rank-down, add and remove edits of the queue, and which buttons are offered;
- the drag-and-drop reorder and the un-rotation of the list it submits;
- the two-key sort of the inquiries table and its scheduled/unscheduled split;
- the schedule-settings form;
- the add- and update-inquiry forms.

Modules:
- `Wrappers` (Option and Result);
- `Decimal` (integer text);
- `Calendar` (proleptic Gregorian day numbers, weekdays, the `MM/DD/YYYY hh:MM AM|PM` format);
- `JsArrays` (JavaScript `indexOf`, `splice`, `slice` and rotation; an in-place array class);
- `JsonIntList` (the JSON text of the stored queue);
- `ScheduleModel` (the projection);
- `ScheduleStore` (the one-record schedule table);
- `StableSort` (a stable sort, and the same sort in place on an array);
- `RankTable` (the scheduled-inquiry table);
- `InquiryModel` (inquiry text rules);
- `InquiryRoutes` (the routes over an inquiry table);
- `QueueEditing`, `DragReorder` and `InquiryPartition` (frontend queue code);
- `TimerSettings` (the settings form);
- `InquiryForm` (the inquiry forms).

Conventions:
- Days are Python ordinals: 0001-01-01 is day 1 and 9999-12-31 is day 3652059.
- Weekday `(n + 6) % 7` gives 5 and 6 for Saturday and Sunday.
- Stepping a date past either end of that range is an error result, as `OverflowError` is in Python.
- "Now", today's date, the time zone's minute of the day and the US holiday calendar are parameters.
- State the source changes in place is kept in a class:
  - the schedule record, the rank table and the inquiry table;
  - a JavaScript array being spliced, and the form values.
- The projection loops, the insertion sort and the splices are methods, each proved equal to a
  specification function. The properties are proved about that function.

## Model

| member | source | states |
|---|---|---|
| Calendar.DaysInMonth | backend/app/models/schedule.py:65 | A month has 28 to 31 days (leap years by the Gregorian rule). |
| Calendar.YearLength | backend/app/models/schedule.py:65 | Consecutive year starts are 365 or 366 days apart, 366 in leap years. |
| Calendar.DaysBeforeYearMonotone | backend/app/models/schedule.py:57 | Later years start on later day numbers, so date order is day-number order. |
| Calendar.ToOrdinal | backend/app/models/schedule.py:52-57 | `date.toordinal()`: the day number the loops step and compare, always within 1..3652059 for a date of years 1 to 9999. |
| Calendar.MonthLength | backend/app/models/schedule.py:65 | A month has 28 to 31 days, each month's length is the gap between its start and the next month's, and December ends the year at day 365, or 366 in a leap year. |
| Calendar.ToOrdinalMonotone | backend/app/models/schedule.py:57 | A later date has a larger day number, so comparing day numbers is comparing dates. |
| Calendar.ToOrdinalInjective | backend/app/models/schedule.py:57 | Two different dates never share a day number. |
| Calendar.FromOrdinal | backend/app/models/schedule.py:60-77 | Every day number in range is a real date of years 1 to 9999 whose day number is exactly that number: the inverse of `ToOrdinal`. |
| Calendar.OrdinalRoundTrip | backend/app/models/schedule.py:52-77 | Converting a real date to its day number and back gives the same date. |
| Calendar.CycleDigits | backend/app/models/schedule.py:60-77 | Every day count splits into 400-, 100-, 4- and 1-year cycles and a day of the year, with the digit bounds that the conversion relies on (a fourth 100-year or 1-year cycle only on the last day of a longer cycle). |
| Calendar.CycleYearStart | backend/app/models/schedule.py:65 | The year named by the cycle digits starts at the day count they give, and is a leap year exactly when the digits say so. |
| Calendar.CycleDate | backend/app/models/schedule.py:60-77 | Cycle digits within those bounds name a real date whose day number is the day count they decompose. |
| Calendar.MonthAndDay | backend/app/models/schedule.py:77 | The month and day of a day of the year are a real month and a day within that month's length that add back up to that day of the year. |
| Calendar.DivStep | backend/app/models/schedule.py:65 | Going from one year to the next adds one to the count of multiples of 4, 100 or 400 exactly when the new year is one. |
| Calendar.MonthEstimate | backend/app/models/schedule.py:77 | The month guess used by the conversion is off by at most one month, and the day lands inside the month. |
| Calendar.Weekday | backend/app/models/schedule.py:59 | `weekday()` is in 0..6. |
| Calendar.Clock12 | backend/app/models/schedule.py:77 | `%I` is an hour in 1..12 that agrees with the 24-hour hour modulo 12. |
| Calendar.IsWeekend | backend/app/models/schedule.py:59 | `weekday() in [5, 6]`: Saturday or Sunday. The weekend skip's ensures are in `ScheduleModel.SkipWeekends`. |
| Calendar.IsAfter | frontend/src/components/TimerPanel/TimerPanel.tsx:150-151 | dayjs `isAfter` on days: a later year, or the same year and a later month, or the same month and a later day. |
| Calendar.TwoDigits | backend/app/models/schedule.py:77 | A zero-padded two-digit field: two digit characters that read back as its value. |
| Calendar.FourDigits | backend/app/models/schedule.py:77 | A zero-padded four-digit year field: four digit characters that read back as its value. |
| Calendar.FormatDateTime | backend/app/models/schedule.py:77 | `%m/%d/%Y %I:%M %p` is 19 characters. Every field position holds a digit, and they read back as the month, day and year of the date, a 12-hour hour of 01-12 and the minute. AM comes before noon and PM after, with the separators in place. |
| Calendar.DatePart | backend/app/models/schedule.py:77 | `%m/%d/%Y` shows the month, day and year in digit characters at fixed positions, between the slashes. |
| Calendar.TimePart | backend/app/models/schedule.py:77 | `%I:%M %p` shows, in digit characters, a 12-hour hour of 01-12 with the same hour modulo 12 and the minute, then AM before noon and PM from noon on. |
| Calendar.FormatDate | backend/app/models/schedule.py:77 | The whole rendering of a date and time: the date part, a space, and the time part. Its fields are digit characters, read back at fixed positions. |
| Decimal.DigitChar | backend/app/services/schedule.py:31 | One decimal digit character for a value 0..9. |
| Decimal.DigitValue | backend/app/services/schedule.py:40 | A digit character's value is in 0..9. |
| Decimal.NatToString | backend/app/services/schedule.py:31 | A natural number is written without leading zeros, and with one digit exactly when it is below 10. |
| Decimal.ParseNatToString | backend/app/services/schedule.py:31-40 | Reading back a written natural number gives the number. |
| Decimal.ParseDigitsAtLeast | backend/app/services/schedule.py:40 | A canonical digit string of two or more digits denotes at least 10. |
| Decimal.NatToStringParse | backend/app/services/schedule.py:31-40 | Writing the value of a canonical digit string gives the string back. |
| Decimal.StringToInt | backend/app/services/schedule.py:40 | `json.loads` of one integer: an optional minus sign and a canonical digit string (no `-0`), no value otherwise. Its round trips are `IntRoundTrip` and `IntCanonical`. |
| Decimal.IntToString | backend/app/services/schedule.py:31 | An integer's text is non-empty and contains no comma, space or closing bracket (so list items cannot run together). |
| Decimal.IntRoundTrip | backend/app/services/schedule.py:31-40 | Parsing an integer's text gives the integer. |
| Decimal.IntCanonical | backend/app/services/schedule.py:31-40 | Any text that parses as an integer is exactly that integer's text. |
| JsonIntList.Join | backend/app/services/schedule.py:31 | The items of `json.dumps` separated by `", "`. Read back by `DecodeJoin` and `JoinDecode`. |
| JsonIntList.Encode | backend/app/services/schedule.py:31 | `json.dumps` of a list is bracketed, and is `"[]"` exactly for the empty list. |
| JsonIntList.Decode | backend/app/services/schedule.py:40 | `json.loads` of the stored queue text: a bracketed list of integers, `[]` for the empty list, and no value for any other text. Its round trips are `DecodeEncode` and `EncodeDecode`. |
| JsonIntList.DecodeItems | backend/app/services/schedule.py:40 | Non-empty item text decodes to a non-empty list. |
| JsonIntList.DecodeCons | backend/app/services/schedule.py:40 | An item followed by `", "` and more text decodes to that item in front of what the rest decodes to. |
| JsonIntList.DecodeUncons | backend/app/services/schedule.py:40 | Text that decodes and has a comma splits there into one canonical item, the separator, and text that decodes too. |
| JsonIntList.FirstComma | backend/app/services/schedule.py:40 | The first comma of an encoded list follows the first item's text. |
| JsonIntList.DecodeJoin | backend/app/services/schedule.py:31-40 | The items of a non-empty list, joined with `", "`, decode back to the list. |
| JsonIntList.DecodeEncode | backend/app/services/schedule.py:31-40 | Decoding the encoded queue gives the queue: what is stored comes back unchanged. |
| JsonIntList.JoinDecode | backend/app/services/schedule.py:31-40 | Item text that decodes is exactly the joined text of what it decodes to. |
| JsonIntList.EncodeDecode | backend/app/services/schedule.py:31-40 | Any text the decoder accepts is the encoding of its value, so the stored form is canonical. |
| ScheduleModel.AddDays | backend/app/models/schedule.py:60 | `+= timedelta(days=k)` succeeds exactly when the result stays in years 1..9999, and then adds k days. |
| ScheduleModel.SkipWeekends | backend/app/models/schedule.py:59-60 | The first day at or after d that is not a Saturday or Sunday; every day skipped is a weekend day, and a weekday is kept. |
| ScheduleModel.SkipHolidays | backend/app/models/schedule.py:62-64 | The first day at or after d that is not a holiday; every day skipped is a holiday, and a non-holiday is kept. |
| ScheduleModel.Adjust | backend/app/models/schedule.py:58-64 | The weekend skip and then the holiday skip, as the flags enable them: the result is deliverable, nothing deliverable is skipped, and with both flags off the day is kept. |
| ScheduleModel.SkipWeekendDays | backend/app/models/schedule.py:59-60 | The inner `while` loop computes the weekend skip. |
| ScheduleModel.SkipHolidayDays | backend/app/models/schedule.py:62-64 | The inner `while` loop computes the holiday skip. |
| ScheduleModel.AdjustDay | backend/app/models/schedule.py:58-64 | The two guarded loops compute the adjustment. |
| ScheduleModel.PastSlots | backend/app/models/schedule.py:57-66 | The past-slot loop: no slot when the start is not before today, otherwise at least one, ending at or after both today and the start. A negative interval with both skips off ends in the out-of-range error. |
| ScheduleModel.SlotAfter | backend/app/models/schedule.py:57-66 | Where `current_date` stands after k passes of the loop: adjust the day, then step `daysBetween` days. |
| ScheduleModel.PastSlotsCountsOnlyPast | backend/app/models/schedule.py:57-66 | The count does not overshoot: the loop ends at the position after exactly `count` passes, and every pass counted began before today. The adjusted delivery day of a pass may still fall on or after today, because the test comes before the skips. |
| ScheduleModel.PastSlotCount | backend/app/models/schedule.py:55-66 | `past_scheduled_count` of a projection that succeeds. `ProjectionRotatesQueue` rotates the queue by it. |
| ScheduleModel.CountPastSlots | backend/app/models/schedule.py:55-66 | The `while current_date < today` loop computes the past slots and where they end. |
| ScheduleModel.Deliveries | backend/app/models/schedule.py:69-78 | One day per queued id when the loop succeeds, and only the out-of-range error otherwise. |
| ScheduleModel.DeliveriesShape | backend/app/models/schedule.py:69-78 | The delivery days are all deliverable, the first is at or after the current date, and each is at least `daysBetween` after the one before. With both skips off they start at the current date and are exactly `daysBetween` apart. |
| ScheduleModel.DeliveryStep | backend/app/models/schedule.py:69-78 | One pass of the `for` loop: emit the adjusted day, then step `daysBetween` days. |
| ScheduleModel.Rendered | backend/app/models/schedule.py:68-78 | The delivery days as `strftime` renders them, or the loop's error. `DeliveryDates` computes it. |
| ScheduleModel.DeliveryDates | backend/app/models/schedule.py:68-78 | The `for` loop computes the formatted delivery days. |
| ScheduleModel.ActiveIndex | backend/app/models/schedule.py:79-81 | The rotation offset lies inside the queue, and is 0 for no past slots or an empty queue (no modulo by zero). |
| ScheduleModel.ProjectDays | backend/app/models/schedule.py:48-78 | One day per id, all at `timesOfDay[0]`. A missing time of day is exactly the `IndexError` case. |
| ScheduleModel.FormatAll | backend/app/models/schedule.py:77 | Each emitted string is the formatted day at the shared time of day. |
| ScheduleModel.Terminates | backend/app/models/schedule.py:55-66 | When the loop `while current_date < today` is sure to stop: no time of day (the `IndexError` comes first), a start not before today, a positive interval, or a negative one with both skips off (which runs off the calendar). |
| ScheduleModel.Projection | backend/app/models/schedule.py:44-86 | `scheduled_inquiries_and_dates`: the day projection's error, or the queue rotated by the active index with the rendered delivery days. Its properties are stated by `ProjectionParts`, `ProjectionRotatesQueue` and the lemmas after them. |
| ScheduleModel.BackwardStepOverflows | backend/app/models/schedule.py:57-66 | A negative interval with both skips off and a start before today steps back past year 1, so the projection is the out-of-range error (Python's `OverflowError`). |
| ScheduleModel.ScheduledInquiriesAndDates | backend/app/models/schedule.py:44-86 | The computed field equals the projection of the stored settings and queue. |
| ScheduleModel.ProjectionRotatesQueue | backend/app/models/schedule.py:67-86 | `inquiries` and `dates` have one entry per id, and `inquiries` is a permutation of the queue: entry i is id `(i + past) % n`. |
| ScheduleModel.ProjectedEntry | backend/app/models/schedule.py:79-86 | A single projected entry is the stored id `(i + past) % n`. |
| ScheduleModel.ProjectedEnds | backend/app/models/schedule.py:79-86 | The first and last projected entries, in terms of the stored queue. |
| ScheduleModel.RotationByPast | backend/app/models/schedule.py:79-84 | Rotating left by `past % n` puts stored id `(i + past) % n` at position i. |
| ScheduleModel.ProjectionParts | backend/app/models/schedule.py:79-86 | The projection succeeds exactly when the day projection does; its inquiries are the queue rotated by the active index and its dates the rendered delivery days. |
| ScheduleModel.FutureStartKeepsOrder | backend/app/models/schedule.py:56-81 | A start not before today counts no past slots, delivers first on the adjusted start, and returns the queue in stored order. |
| ScheduleModel.DeliveriesNotInPast | backend/app/models/schedule.py:57-78 | The first delivery is at or after today and the start, and with a non-negative interval every delivery is. |
| ScheduleModel.NondecreasingFrom | backend/app/models/schedule.py:78 | Days spaced by a non-negative gap never fall below the first. |
| ScheduleModel.EmptyQueue | backend/app/models/schedule.py:67-80 | An empty queue gives empty `inquiries` and `dates`. |
| ScheduleModel.EndDateIgnored | backend/app/models/schedule.py:44-86 | Changing `endDate` changes nothing in the projection. |
| ScheduleModel.PastSlotsEndDate | backend/app/models/schedule.py:57-66 | The past-slot loop does not read `endDate`. |
| ScheduleModel.DeliveriesEndDate | backend/app/models/schedule.py:69-78 | The delivery loop does not read `endDate`. |
| ScheduleModel.HolidaySkipCanLandOnWeekend | backend/app/models/schedule.py:70-76 | Both skips on, a holiday Friday: the delivery moves to the Saturday, because the holiday skip runs after the weekend skip. |
| ScheduleModel.ExampleDelivery | backend/app/models/schedule.py:70-76 | The same example stated for the delivery loop alone. |
| ScheduleStore.ToPublic | backend/app/services/schedule.py:37-41 | The public view exists exactly when the stored queue text decodes. It keeps the settings and the id, and its queue encodes to the stored text. |
| ScheduleStore.Store.constructor | backend/app/services/schedule.py:44-48 | An empty table. |
| ScheduleStore.Store.CreateSchedule | backend/app/services/schedule.py:9-22 | With a record, only its settings are overwritten; the id and the queue are kept. Without one, a record with queue `"[]"` is added. There is never more than one. |
| ScheduleStore.Store.UpdateScheduledInquiries | backend/app/services/schedule.py:25-41 | With no record, an error (`.one()`) and nothing changes. Otherwise the queue text becomes the encoding of the list, the settings are untouched, and the list is returned as given. |
| ScheduleStore.Store.GetSchedule | backend/app/services/schedule.py:44-48 | The one record or None; a stored record always has a readable public view. |
| StableSort.InsertLast | backend/app/services/scheduled_inquiries.py:113 | Inserting one element lengthens the sequence by one. |
| StableSort.Sort | frontend/src/components/Inquiries/InquiriesTable.tsx:31-40 | A sort keeps the length. |
| StableSort.InsertLastPermutes | frontend/src/components/Inquiries/InquiriesTable.tsx:31-40 | Inserting adds exactly that element. |
| StableSort.SortPermutes | frontend/src/components/Inquiries/InquiriesTable.tsx:31-40 | The sort is a permutation. |
| StableSort.SortIsSorted | frontend/src/components/Inquiries/InquiriesTable.tsx:31-40 | Under a total preorder the result is ordered. |
| StableSort.InsertLastSorted | frontend/src/components/Inquiries/InquiriesTable.tsx:31-40 | Inserting into an ordered sequence keeps it ordered. |
| StableSort.SortIsStable | frontend/src/components/Inquiries/InquiriesTable.tsx:35-40 | The sort is stable: elements that tie keep the order of an earlier sort. |
| StableSort.InsertLastStable | frontend/src/components/Inquiries/InquiriesTable.tsx:35-40 | Inserting a last element preserves the two-key order. |
| StableSort.InsertLastStep | frontend/src/components/Inquiries/InquiriesTable.tsx:31-40 | One shift of the in-place insertion matches the functional insertion. |
| StableSort.InsertLastStop | frontend/src/components/Inquiries/InquiriesTable.tsx:31-40 | Where the in-place insertion stops, it matches the functional insertion. |
| StableSort.InsertAt | frontend/src/components/Inquiries/InquiriesTable.tsx:31-40 | Shifting the element at i leftwards leaves the prefix as the functional insertion and the suffix untouched. |
| StableSort.SortInPlace | frontend/src/components/Inquiries/InquiriesTable.tsx:31-40 | `Array.sort` reorders the array in place into the stable sort of its old contents. |
| RankTable.NextRank | backend/app/services/scheduled_inquiries.py:19-22 | The highest rank + 1, or 1 for no rows or a highest rank of 0: above every rank, and one above an existing rank unless it is 1. |
| RankTable.Find | backend/app/services/scheduled_inquiries.py:34-35 | The row with that id, or None exactly when no row has it. |
| RankTable.MoveRank | backend/app/services/scheduled_inquiries.py:75-81 | Non-zero exactly when both ranks are positive and differ by 1, and then the difference. |
| RankTable.MoveRanks | backend/app/services/scheduled_inquiries.py:84-89 | The bulk update: rows at the given rank shift by the move, and all others are unchanged. |
| RankTable.Joined | backend/app/services/scheduled_inquiries.py:109-126 | The join with the inquiry texts: no more entries than rows, each entry carries the text of its inquiry, and every row whose inquiry exists appears joined with its text. |
| RankTable.JoinRow | backend/app/services/scheduled_inquiries.py:110-125 | One joined result: the scheduled row's id, rank and inquiry id with that inquiry's text. |
| RankTable.JoinedInRowOrder | backend/app/services/scheduled_inquiries.py:109-126 | The join is exactly the joinable rows, in their order, each once: its entries are the rows at strictly increasing indices, joined with their texts, and those indices cover every joinable row. |
| RankTable.JoinedFromRows | backend/app/services/scheduled_inquiries.py:109-126 | Every joined entry is some row whose inquiry exists, joined with its text. |
| RankTable.Window | backend/app/services/scheduled_inquiries.py:114-115 | `offset`/`limit`: at most `limit` entries, those after the first `skip`, with the exact count. |
| RankTable.Ranks | backend/app/services/scheduled_inquiries.py:75-93 | The rank column. |
| RankTable.Table.constructor | backend/app/services/scheduled_inquiries.py:18-28 | An empty table. |
| RankTable.Table.Create | backend/app/services/scheduled_inquiries.py:18-28 | A new row at the next rank, appended with a fresh id. An inquiry already scheduled is rejected (the unique constraint) and the table is unchanged. |
| RankTable.Table.Enable | backend/app/services/scheduled_inquiries.py:31-47 | The target's rank becomes the next rank (its own rank included), nothing else changes, and an unknown id is a ValueError. |
| RankTable.Table.Disable | backend/app/services/scheduled_inquiries.py:50-63 | Only the target's rank becomes 0, and an unknown id is a ValueError. |
| RankTable.Table.MoveRanksInPlace | backend/app/services/scheduled_inquiries.py:84-89 | The bulk `update` applied to the rows in place. |
| RankTable.Table.Update | backend/app/services/scheduled_inquiries.py:66-98 | The table becomes the specified update and the target is returned. An unknown id or a rejected commit is an error that leaves the table as it was. |
| RankTable.Table.TakenElsewhere | backend/app/models/scheduled_inquiry.py:15 | Whether another row already schedules that inquiry. |
| RankTable.Table.GetScheduledInquiries | backend/app/services/scheduled_inquiries.py:101-128 | Negative `skip` or `limit` is a ValueError; otherwise at most `limit` rows. |
| RankTable.Table.GetCount | backend/app/services/scheduled_inquiries.py:131-133 | `SELECT count()`: the number of rows, which on a valid table is also the number of distinct ids. |
| RankTable.Updated | backend/app/services/scheduled_inquiries.py:66-98 | The table after `update_scheduled_inquiry`: an unknown id and a negative rank are errors; an inquiry scheduled on another row is the rejected commit; otherwise the rows at the requested rank shift by the move and the target takes the request. Its properties are `UpdatedWellFormed`, `UpdateSwapsRanks` and `UpdateOnlyTarget`. |
| RankTable.ScheduledInquiriesPage | backend/app/services/scheduled_inquiries.py:101-128 | `get_scheduled_inquiries`: a negative skip, then a negative limit, is a ValueError; otherwise the window of the rank-ordered join. Its properties are `PageOrdered`. |
| RankTable.UpdatedWellFormed | backend/app/services/scheduled_inquiries.py:66-98 | An accepted update keeps ranks non-negative and ids and inquiries distinct, and keeps every row's id. |
| RankTable.DistinctIdsCount | backend/app/services/scheduled_inquiries.py:131-133 | With distinct ids, the count equals the number of rows. |
| RankTable.UpdateSwapsRanks | backend/app/services/scheduled_inquiries.py:75-93 | For an adjacent move, the row at the new rank takes the target's old rank. The target gets the request, every other row is unchanged, and the multiset of ranks is preserved. |
| RankTable.SwapPermutes | backend/app/services/scheduled_inquiries.py:84-93 | Exchanging two entries is a permutation. |
| RankTable.UpdateOnlyTarget | backend/app/services/scheduled_inquiries.py:80-93 | In every other case only the target row changes. |
| RankTable.RankLe | backend/app/services/scheduled_inquiries.py:113 | `order_by(rank.asc())`: one row before another when its rank is not larger. Its total preorder is `RankLeTotal`. |
| RankTable.RankLeTotal | backend/app/services/scheduled_inquiries.py:113 | Ordering by rank is a total preorder. |
| RankTable.PageOrdered | backend/app/services/scheduled_inquiries.py:104-116 | A page is the window of the rank-ordered join: sorted by ascending rank, a permutation of the join before the window, at most `limit` rows. |
| InquiryModel.ValidText | backend/app/models/inquiry.py:13-19 | The `Field` length constraint: 10 to 256 characters. |
| InquiryModel.WellFormed | backend/app/models/inquiry.py:31-32 | The table's constraints: every text valid, ids unique, texts unique (`unique=True`). |
| InquiryModel.CheckText | backend/app/models/inquiry.py:13-27 | Text is accepted exactly when present and 10 to 256 characters long. Missing, too short and too long are each reported exactly in their case. |
| InquiryRoutes.SelectCurrent | backend/app/api/routes/inquiries.py:92-96 | At or after the delivery time, the first id; before it, the last; None exactly on an empty queue. |
| InquiryRoutes.FindInquiry | backend/app/api/routes/inquiries.py:99-101 | The stored inquiry with that id, or None exactly when there is none. |
| InquiryRoutes.TextTaken | backend/app/api/routes/inquiries.py:20-23 | True exactly when a stored inquiry has that text. |
| InquiryRoutes.UnknownZone | backend/app/api/routes/inquiries.py:84-98 | The detail of the unknown-zone 400, `str(e)` of the `KeyError`: the zone name between single quotes. |
| InquiryRoutes.AtOrAfterDelivery | backend/app/api/routes/inquiries.py:85-94 | `now >= today`: the minute of the day in the requested zone is at or after the first time of day. |
| InquiryRoutes.CurrentSelection | backend/app/api/routes/inquiries.py:76-98 | The intended selection (corrected): no schedule is a 400. With a schedule, an unknown time zone is checked first and is the 400 with the quoted zone name. Every other failure inside the `try` is a 400 too. |
| InquiryRoutes.CurrentIsActiveSlot | backend/app/api/routes/inquiries.py:84-96 | A selection is the first projected id at or after today's delivery time, and the last projected id before it, of a non-empty projected queue. |
| InquiryRoutes.SelectionSteps | backend/app/api/routes/inquiries.py:84-96 | A selection goes through the public view, the projection and the pop. |
| InquiryRoutes.CurrentSelectionAsWritten | backend/app/api/routes/inquiries.py:78-98 | As written: no schedule is a 400. With a schedule, an unknown time zone is the 400 of `UnknownTimeZoneError`, and any known zone is the 400 of the `AttributeError`. |
| InquiryRoutes.CurrentInquiryFinding | backend/app/api/routes/inquiries.py:84-98 | On one record and in any known zone, the corrected route selects inquiry 7 while the route as written answers the `AttributeError` 400. |
| InquiryRoutes.ExampleQueueText | backend/app/services/schedule.py:40 | The stored text `"[7]"` decodes to `[7]`. |
| InquiryRoutes.ExampleProjection | backend/app/models/schedule.py:44-86 | The example record's projection on its start day is `[7]`. |
| InquiryRoutes.InquiryStore.constructor | backend/app/api/routes/inquiries.py:15-29 | An empty inquiry table. |
| InquiryRoutes.InquiryStore.CreateInquiry | backend/app/api/routes/inquiries.py:15-29 | Text outside the rules is a 422 and text already stored is a 400 "This inquiry already exists."; both change nothing. Otherwise one inquiry is appended with a fresh id. |
| InquiryRoutes.InquiryStore.GetInquiries | backend/app/api/routes/inquiries.py:54-73 | `skip < 0` and `limit <= 0` are 400s. Otherwise the page is at most `limit` consecutive inquiries after `skip`, with the total count. |
| InquiryRoutes.InquiryStore.ReadInquiry | backend/app/api/routes/inquiries.py:107-117 | The inquiry with that id, or a 404 "Inquiry not found" exactly when none has it. |
| InquiryRoutes.InquiryStore.CurrentInquiry | backend/app/api/routes/inquiries.py:76-104 | The selection's error (the unknown zone included), or a 404 "Current inquiry not found" for a selected id with no inquiry, or that inquiry. |
| InquiryRoutes.InquiryStore.CurrentInquiryAsWritten | backend/app/api/routes/inquiries.py:76-104 | As written, the route always answers with an error, the same as the selection's: the unknown zone's 400 or the `AttributeError` 400. |
| JsArrays.IndexOf | frontend/src/components/ScheduledInquiries/AddScheduledInquiry.tsx:34 | `indexOf`: the first position of x, or -1 exactly when x is absent. |
| JsArrays.Clamp | frontend/src/components/ScheduledInquiries/AddScheduledInquiry.tsx:63-64 | `splice`'s start: a negative start counts from the end, and both ends are clamped to the array. |
| JsArrays.DeleteCount | frontend/src/components/ScheduledInquiries/AddScheduledInquiry.tsx:63 | `splice`'s delete count never runs past the end. |
| JsArrays.SpliceRemoved | frontend/src/components/ScheduledInquiries/AddScheduledInquiry.tsx:63 | The removed elements are the slice from the clamped start. |
| JsArrays.SpliceRest | frontend/src/components/ScheduledInquiries/AddScheduledInquiry.tsx:63 | What remains is shorter by the delete count, and together with the removed elements it is the old array. |
| JsArrays.SpliceRestPositions | frontend/src/components/ScheduledInquiries/AddScheduledInquiry.tsx:63 | Position by position: entries before the clamped start stay, and the ones after it move up by the delete count. |
| JsArrays.SpliceInserted | frontend/src/components/ScheduledInquiries/AddScheduledInquiry.tsx:64 | Inserting one element puts it at the clamped start and adds exactly it. |
| JsArrays.SpliceInsertedPositions | frontend/src/components/ScheduledInquiries/AddScheduledInquiry.tsx:64 | Position by position: x at the clamped start, the entries before it in place, the ones after it one further on. |
| JsArrays.RotateLeft | backend/app/models/schedule.py:82-84 | A rotation by k: same length and elements, entry i being `s[(i + k) mod n]`. |
| JsArrays.RemoveAt | frontend/src/components/ScheduledInquiries/AddScheduledInquiry.tsx:107 | Removing one entry shortens by one. |
| JsArrays.SpliceOne | frontend/src/components/ScheduledInquiries/AddScheduledInquiry.tsx:106-107 | `splice(i, 1)` at an index inside the array removes just the element there, and the multiset loses exactly it. |
| JsArrays.IndexOfFirst | frontend/src/components/ScheduledInquiries/AddScheduledInquiry.tsx:106 | `indexOf` returns the first position that holds the value. |
| JsArrays.SliceFrom | frontend/src/components/Inquiries/ScheduledInquiriesTable.tsx:80 | `slice(start)`: from the clamped start on (negative counts from the end). |
| JsArrays.SliceTo | frontend/src/components/Inquiries/ScheduledInquiriesTable.tsx:81 | `slice(0, end)`: up to the clamped end. Both slices together are `JsRotationIsRotateLeft`. |
| JsArrays.JsRotationIsRotateLeft | frontend/src/components/Inquiries/ScheduledInquiriesTable.tsx:79-81 | `slice(k).concat(slice(0, k))` is the left rotation by the clamped k. |
| JsArrays.RotateLeftInverse | frontend/src/components/Inquiries/ScheduledInquiriesTable.tsx:74-82 | Rotating by k and then by n - k restores the sequence. |
| JsArrays.IndexOfDistinct | frontend/src/components/Inquiries/ScheduledInquiriesTable.tsx:74-77 | In a sequence of distinct values, `indexOf` finds each value at its own position. |
| JsArrays.JsArray.From | frontend/src/components/Inquiries/ScheduledInquiriesTable.tsx:68 | `Array.from` copies the contents. |
| JsArrays.JsArray.Splice | frontend/src/components/ScheduledInquiries/AddScheduledInquiry.tsx:63 | `splice(start, n)` in place: returns the removed elements and leaves the rest. |
| JsArrays.JsArray.SpliceInsert | frontend/src/components/ScheduledInquiries/AddScheduledInquiry.tsx:64 | `splice(start, 0, x)` in place inserts x. |
| QueueEditing.QueueOf | frontend/src/components/ScheduledInquiries/AddScheduledInquiry.tsx:33 | `schedule?.scheduled_inquiries ?? []`: the queue, or empty with no schedule. |
| QueueEditing.Truthy | frontend/src/components/ScheduledInquiries/AddScheduledInquiry.tsx:138-159 | JavaScript truthiness of `first_scheduled`: present and not the empty string. The button rules use it in `AddScheduledButtons` and `ManagementButtons`. |
| QueueEditing.Rank | frontend/src/components/ScheduledInquiries/AddScheduledInquiry.tsx:33-34 | The 1-based position of the first occurrence, at most the length, 0 exactly when the id is absent. |
| QueueEditing.AddToSchedule | frontend/src/components/ScheduledInquiries/AddScheduledInquiry.tsx:36-45 | What "Add to Schedule" sends: the queue with the id appended, and the inquiry stamped with `first_scheduled`. Its properties are `AddPutsLast` and `AddThenButtons`. |
| QueueEditing.AddPutsLast | frontend/src/components/ScheduledInquiries/AddScheduledInquiry.tsx:36-44 | Adding appends the id: the old list is a prefix, the new rank is the new length, and every other rank is kept. Only `first_scheduled` changes, stamped with the time. |
| QueueEditing.IndexOfPrefix | frontend/src/components/ScheduledInquiries/AddScheduledInquiry.tsx:38 | `indexOf` after appending finds what it found before, or a position in the appended part. |
| QueueEditing.Moved | frontend/src/components/ScheduledInquiries/AddScheduledInquiry.tsx:61-64 | Splicing out and back in one step away is a permutation of the same length. |
| QueueEditing.Swapped | frontend/src/components/ScheduledInquiries/AddScheduledInquiry.tsx:61-64 | Two entries exchanged and nothing else changed. |
| QueueEditing.RankUp | frontend/src/components/ScheduledInquiries/AddScheduledInquiry.tsx:59-64 | The rank-up mutation's splices, in place on the array. |
| QueueEditing.RankDown | frontend/src/components/ScheduledInquiries/AddScheduledInquiry.tsx:81-86 | The rank-down mutation's splices, in place on the array. |
| QueueEditing.MoveUpSwaps | frontend/src/components/ScheduledInquiries/AddScheduledInquiry.tsx:62-64 | Rank-up from a position above 0 exchanges the item with its predecessor. |
| QueueEditing.MoveDownSwaps | frontend/src/components/ScheduledInquiries/AddScheduledInquiry.tsx:84-86 | Rank-down from a position before the last exchanges the item with its successor. |
| QueueEditing.MoveUpFromHead | frontend/src/components/ScheduledInquiries/AddScheduledInquiry.tsx:62-64 | Rank-up on the head (which the button rules never allow) moves it next to last, since `splice(-1, 0, x)` counts from the end. |
| QueueEditing.MoveDownFromEnd | frontend/src/components/ScheduledInquiries/AddScheduledInquiry.tsx:84-86 | Rank-down on the last item leaves the list as it was. |
| QueueEditing.Remove | frontend/src/components/ScheduledInquiries/AddScheduledInquiry.tsx:103-107 | The remove mutation's `splice(indexOf(id), 1)`, in place. |
| QueueEditing.RemoveScheduled | frontend/src/components/ScheduledInquiries/InquiryManagement.tsx:56-58 | Removing a queued id deletes its first occurrence and keeps the others' order, and the multiset loses exactly that id. |
| QueueEditing.RemoveOnlyOccurrence | frontend/src/components/ScheduledInquiries/InquiryManagement.tsx:56-58 | An id that occurs once in the queue is no longer in it after removal. |
| QueueEditing.RemoveUnscheduled | frontend/src/components/ScheduledInquiries/AddScheduledInquiry.tsx:105-107 | With an absent id, `indexOf` is -1 and the splice drops the last entry. |
| QueueEditing.AddScheduledButtons | frontend/src/components/ScheduledInquiries/AddScheduledInquiry.tsx:138-200 | Delete and edit appear exactly while `first_scheduled` is unset, remove exactly for rank > 0, and add exactly for rank 0. Rank-up appears exactly for a scheduled item above rank 1, rank-down exactly for one below the last rank. |
| QueueEditing.ManagementButtons | frontend/src/components/ScheduledInquiries/InquiryManagement.tsx:94-129 | Delete appears exactly while `first_scheduled` is unset, and edit always; remove exactly for rank > 0, add exactly for rank 0, and no rank buttons. |
| QueueEditing.RemoveOrAdd | frontend/src/components/ScheduledInquiries/InquiryManagement.tsx:120-129 | On both components exactly one of remove and add is offered. |
| QueueEditing.RankUpOffered | frontend/src/components/ScheduledInquiries/AddScheduledInquiry.tsx:61-161 | When rank-up is offered, rank > 1 and it exchanges the item with its predecessor, so its rank number falls by one (rank - 1), one place nearer the head. |
| QueueEditing.RankDownOffered | frontend/src/components/ScheduledInquiries/AddScheduledInquiry.tsx:83-175 | When rank-down is offered, rank < length and it exchanges the item with its successor. Its rank number grows by one (rank + 1), one place further from the head, unless the successor is the same id. |
| QueueEditing.AddThenButtons | frontend/src/components/ScheduledInquiries/AddScheduledInquiry.tsx:36-200 | After adding, the item offers remove but neither add, delete, edit nor rank-down; it offers rank-up exactly when the queue was non-empty. |
| DragReorder.Ids | frontend/src/components/Inquiries/ScheduledInquiriesTable.tsx:71-73 | The ids of the rows, position by position. |
| DragReorder.Reordered | frontend/src/components/Inquiries/ScheduledInquiriesTable.tsx:68-70 | The reorder is a permutation of the rows, with the dragged row at the (clamped) destination. |
| DragReorder.ReorderedKeepsOthers | frontend/src/components/Inquiries/ScheduledInquiriesTable.tsx:68-70 | Without the dragged row, the other rows keep their relative order. |
| DragReorder.StartIndex | frontend/src/components/Inquiries/ScheduledInquiriesTable.tsx:74-77 | Where the stored head stands in the displayed rotation; -1 exactly when the queue is empty or its head is not shown. |
| DragReorder.Unrotated | frontend/src/components/Inquiries/ScheduledInquiriesTable.tsx:78-82 | The submitted list is the ids rotated left by the clamped start index: same length and elements. |
| DragReorder.Submission | frontend/src/components/Inquiries/ScheduledInquiriesTable.tsx:66-84 | The list a drop submits: nothing for a drop outside the table, else the reordered ids un-rotated by the start index. `OnDragEnd` computes it; `DragRoundTrip`, `ProjectionRoundTrip` and `StoredOrderDropRotates` state what it submits. |
| DragReorder.OnDragEnd | frontend/src/components/Inquiries/ScheduledInquiriesTable.tsx:66-84 | A drop with no destination submits nothing. Any other submits a permutation of the rows' ids: the reordered ids, un-rotated. |
| DragReorder.IdsReordered | frontend/src/components/Inquiries/ScheduledInquiriesTable.tsx:68-73 | Mapping to ids commutes with the reorder. |
| DragReorder.DropInPlace | frontend/src/components/Inquiries/ScheduledInquiriesTable.tsx:68-70 | Dropping a row where it was picked up changes nothing. |
| DragReorder.MissingHeadPutsLastFirst | frontend/src/components/Inquiries/ScheduledInquiriesTable.tsx:74-81 | With the stored head not shown, `slice(-1)` puts the last id first. |
| DragReorder.DragRoundTrip | frontend/src/components/Inquiries/ScheduledInquiriesTable.tsx:74-82 | Rows showing the stored queue (distinct ids) rotated by k, and an item dropped in place, submit the stored queue unchanged. |
| DragReorder.HeadIndex | frontend/src/components/Inquiries/ScheduledInquiriesTable.tsx:74-77 | In such a rotation, the stored head stands at n - k, or at 0 when k is 0. |
| DragReorder.ProjectionRoundTrip | frontend/src/components/Inquiries/ScheduledInquiriesTable.tsx:74-82 | The round trip against the backend's projection: showing the projected queue and dropping in place submits the stored queue. |
| DragReorder.StoredOrderDropRotates | frontend/src/components/Inquiries/InquiriesTable.tsx:43-91 | Rows handed over in stored order (as the inquiries table does), with the start index taken in a rotation by 0 < k: an in-place drop submits the queue rotated left by n - k, which is not the stored queue. |
| DragReorder.StoredOrderDropExample | frontend/src/components/Inquiries/InquiriesTable.tsx:43-91 | Queue `[1, 2]` projected as `[2, 1]`, rows shown as `[1, 2]`: dropping the first row in place submits `[2, 1]`. |
| InquiryPartition.LexLe | frontend/src/components/Inquiries/InquiriesTable.tsx:33 | `localeCompare(...) <= 0`, as code-point order: a prefix, or smaller at the first difference. `LexLeTotal` and `LexLeTransitive` prove it a total preorder. |
| InquiryPartition.FirstScheduledKey | frontend/src/components/Inquiries/InquiriesTable.tsx:33 | `first_scheduled ?? ""`. |
| InquiryPartition.ByFirstScheduled | frontend/src/components/Inquiries/InquiriesTable.tsx:32-34 | The first sort's comparator, on the keys; proved a total preorder by `FirstScheduledOrder`. |
| InquiryPartition.ByPosition | frontend/src/components/Inquiries/InquiriesTable.tsx:35-40 | The second sort's comparator, on queue positions (-1 for none); proved a total preorder by `PositionOrder`. |
| InquiryPartition.LexLeTotal | frontend/src/components/Inquiries/InquiriesTable.tsx:32-34 | The string order (standing for `localeCompare`) compares any two strings. |
| InquiryPartition.LexLeTransitive | frontend/src/components/Inquiries/InquiriesTable.tsx:32-34 | The string order is transitive. |
| InquiryPartition.Position | frontend/src/components/Inquiries/InquiriesTable.tsx:37-38 | A position in the queue, or -1 exactly when there is no schedule or the id is not queued. |
| InquiryPartition.FirstScheduledOrder | frontend/src/components/Inquiries/InquiriesTable.tsx:32-34 | The first comparator, with a missing `first_scheduled` as `""`, is a total preorder. |
| InquiryPartition.PositionOrder | frontend/src/components/Inquiries/InquiriesTable.tsx:35-40 | The second comparator is a total preorder. |
| InquiryPartition.SortedInquiries | frontend/src/components/Inquiries/InquiriesTable.tsx:30-41 | The two sorts keep the length. |
| InquiryPartition.SortInquiries | frontend/src/components/Inquiries/InquiriesTable.tsx:30-41 | Both `sort` calls reorder the fetched array in place into the two-sort result. |
| InquiryPartition.Filter | frontend/src/components/Inquiries/InquiriesTable.tsx:43-48 | The `filter` on the position's sign: never longer than its input. Membership is `FilterMembers`, the split `FilterSplits`, the order `FilterOrdered`. |
| InquiryPartition.Scheduled | frontend/src/components/Inquiries/InquiriesTable.tsx:43-45 | `scheduledInquiries`: the sorted inquiries with a queue position. Its properties are `Partition` and `ScheduledInQueueOrder`. |
| InquiryPartition.Unscheduled | frontend/src/components/Inquiries/InquiriesTable.tsx:46-48 | `unscheduledInquiries`: the sorted inquiries without one. Its properties are `Partition`, `UnscheduledByFirstScheduled` and `NoScheduleAllUnscheduled`. |
| InquiryPartition.FilterMembers | frontend/src/components/Inquiries/InquiriesTable.tsx:43-48 | An inquiry is kept exactly when its position sign matches the filter. |
| InquiryPartition.FilterSplits | frontend/src/components/Inquiries/InquiriesTable.tsx:43-48 | The two filters together are a permutation of what they filter. |
| InquiryPartition.Partition | frontend/src/components/Inquiries/InquiriesTable.tsx:43-48 | The two lists together are a permutation of the inquiries. Each inquiry is scheduled exactly when its id is queued, and unscheduled otherwise. |
| InquiryPartition.SortedPermutes | frontend/src/components/Inquiries/InquiriesTable.tsx:30-41 | The sorted list is a permutation of the input. |
| InquiryPartition.FilterOrdered | frontend/src/components/Inquiries/InquiriesTable.tsx:43-48 | A filter keeps order among what it keeps. |
| InquiryPartition.ScheduledInQueueOrder | frontend/src/components/Inquiries/InquiriesTable.tsx:35-45 | The scheduled list is ordered by queue position. |
| InquiryPartition.UnscheduledByFirstScheduled | frontend/src/components/Inquiries/InquiriesTable.tsx:32-48 | The unscheduled list stays ordered by `first_scheduled`, because the second sort is stable and they all tie. |
| InquiryPartition.NoScheduleAllUnscheduled | frontend/src/components/Inquiries/InquiriesTable.tsx:37-47 | With no schedule, nothing is scheduled and the unscheduled list is every inquiry, ordered by `first_scheduled`. |
| TimerSettings.NextDay | frontend/src/components/TimerPanel/TimerPanel.tsx:45 | `add(1, "day")` is a real calendar day after the given one. |
| TimerSettings.NextDayIsNext | frontend/src/components/TimerPanel/TimerPanel.tsx:45 | No day lies strictly between a day and the next. |
| TimerSettings.AddMonth | frontend/src/components/TimerPanel/TimerPanel.tsx:47-134 | `add(1, "month")` is a later real day: the next month (January of the next year after December). The day of the month is kept, or cut to the month's last day. |
| TimerSettings.Defaults | frontend/src/components/TimerPanel/TimerPanel.tsx:45-59 | `defaultValues`: each stored field where there is one, else tomorrow, a month from today, 1, "08:00" and both skips off. Its properties are `DefaultsValid`, `DefaultsFallBack` and `SubmitThenDefaults`. |
| TimerSettings.EndDateValid | frontend/src/components/TimerPanel/TimerPanel.tsx:148-152 | The end-date rule: strictly after the start date. |
| TimerSettings.DaysBetweenValid | frontend/src/components/TimerPanel/TimerPanel.tsx:172 | The interval rule: 1 to 365 days. |
| TimerSettings.StartChanged | frontend/src/components/TimerPanel/TimerPanel.tsx:127-138 | The start date's `onChange`: the new start, and the end moved a month past it when it was before. Its properties are `StartChangeKeepsOrder` and `StartChangeExample`. |
| TimerSettings.Submission | frontend/src/components/TimerPanel/TimerPanel.tsx:68-96 | `onSubmit`'s payload: every field copied and the time of day wrapped as `timesOfDay`. Its round trip is `SubmitThenDefaults`. |
| TimerSettings.DefaultsValid | frontend/src/components/TimerPanel/TimerPanel.tsx:50-59 | With no schedule, the defaults (tomorrow, a month from today, interval 1) pass both rules. |
| TimerSettings.DaysBetweenRuleTerminates | frontend/src/components/TimerPanel/TimerPanel.tsx:172 | An interval the form accepts (1..365) is one for which the backend's projection loop ends. |
| TimerSettings.StartChangeKeepsOrder | frontend/src/components/TimerPanel/TimerPanel.tsx:127-138 | A start-date change takes the new start. A start after the end moves the end a month past it, which is valid; otherwise the end stays. No other field changes. |
| TimerSettings.StartChangeExample | frontend/src/components/TimerPanel/TimerPanel.tsx:127-136 | Choosing 2024-12-01 after the end moves the end to 2025-01-01. |
| TimerSettings.SubmitThenDefaults | frontend/src/components/TimerPanel/TimerPanel.tsx:51-96 | The submission copies every field and wraps the time as `timesOfDay`: a form opened on it shows the same values. |
| TimerSettings.DefaultsFallBack | frontend/src/components/TimerPanel/TimerPanel.tsx:51-58 | A stored schedule without a time of day falls back to "08:00", and one without an end to a month from today. Its start and interval are taken. |
| TimerSettings.TimerForm.constructor | frontend/src/components/TimerPanel/TimerPanel.tsx:50-59 | The form starts at the defaults. |
| TimerSettings.TimerForm.ChangeStartDate | frontend/src/components/TimerPanel/TimerPanel.tsx:127-138 | The start-date handler updates the form values in place by the start-change rule. |
| TimerSettings.TimerForm.Submit | frontend/src/components/TimerPanel/TimerPanel.tsx:68-172 | A payload exactly when the end is after the start and the interval is in 1..365, and then it is the submission of the values. |
| InquiryForm.MessagesSpelledOut | frontend/src/components/Inquiries/AddInquiry.tsx:6-32 | The template messages read "at least 10" and "greater than 256". |
| InquiryForm.Utf16Length | frontend/src/components/Inquiries/AddInquiry.tsx:25-32 | `value.length` counts UTF-16 units: between the code-point count and twice it, and equal exactly when no character lies above U+FFFF. |
| InquiryForm.ValidateText | frontend/src/components/Inquiries/AddInquiry.tsx:23-35 | The text rules in order: each message exactly in its case (required, at least 10, at most 256, valid unicode), and no message exactly when all pass. |
| InquiryForm.ValidateId | frontend/src/components/Inquiries/UpdateInquiry.tsx:23-25 | "ID required." exactly for an empty id. |
| InquiryForm.UpdateDefaults | frontend/src/components/Inquiries/UpdateInquiry.tsx:28-64 | The update form prefilled from the inquiry: its id and theme as text, and its text. Its round trip is `UpdateDefaultsRoundTrip`. |
| InquiryForm.UpdateDefaultsRoundTrip | frontend/src/components/Inquiries/UpdateInquiry.tsx:28-64 | The prefilled fields read back as the inquiry's id, text and theme, and the id passes its rule. |
| InquiryForm.LengthRulesAgreeOnBmp | frontend/src/components/Inquiries/UpdateInquiry.tsx:36-48 | Without characters above U+FFFF the form's length rules agree with the backend's. |
| InquiryForm.ShortEmojiTextDiverges | frontend/src/components/Inquiries/AddInquiry.tsx:25-28 | Five emoji pass the form's minimum length but not the backend's. |
| InquiryForm.LongEmojiTextDiverges | frontend/src/components/Inquiries/AddInquiry.tsx:29-32 | Two hundred emoji are within the backend's maximum but over the form's. |
| InquiryForm.Utf16AllAstral | frontend/src/components/Inquiries/AddInquiry.tsx:25-32 | Text made only of characters above U+FFFF has twice its length in UTF-16 units. |
| InquiryForm.NormalizedTheme | frontend/src/components/Inquiries/AddInquiry.tsx:55 | A falsy theme becomes null, and any other is kept. |
| InquiryForm.NormalizedThemeIdempotent | frontend/src/components/Inquiries/UpdateInquiry.tsx:70 | Cleaning up twice is cleaning up once. |
| InquiryForm.InquiryFormData.constructor | frontend/src/components/Inquiries/UpdateInquiry.tsx:69 | The form data as submitted. |
| InquiryForm.InquiryFormData.NormalizeTheme | frontend/src/components/Inquiries/UpdateInquiry.tsx:69-71 | `mutationFn` overwrites `theme_id` in place with its cleaned value and leaves the other fields. |

## Left out

- Schedule settings are held as values: the JSON text of the settings (`model_dump_json` / `model_validate_json`) is not modelled.
- The stored queue text: only the canonical `json.dumps` form is decoded, so the whitespace variants `json.loads` would also accept are outside the model.
- `datetime.now()`, today's date, the request's time zone (`pytz`) and the minute of the day are parameters. Daylight-saving edge cases are not modelled.
- `holidays.US()` is a predicate parameter; the holiday calendar itself is not modelled.
- ScheduleModel: time of day is compared by day only. The projection counts a slot as past while its day is before today's, which is what comparing two datetimes at the same `timesOfDay[0]` amounts to. Parsing `strptime` of malformed date or time text is not modelled; settings are held as parsed values.
- ScheduleModel.Projection: stated under `Terminates`. With a start before today, `daysBetween == 0` loops forever, and a negative interval with a skip rule on may step back and forth for ever (-1 with weekends skipped goes Sunday, Monday, Sunday, ...); those settings are left out. A negative interval with both skips off is modelled and ends in the out-of-range error (`BackwardStepOverflows`).
- Calendar.FourDigits: always pads the year to four digits. Python's `%Y` below year 1000 depends on the platform's C library; those years are not modelled apart.
- Database foreign keys, sessions and commits are not modelled. A commit's failure in `update_scheduled_inquiry` is a rejection the source cannot otherwise describe; the model rejects an update that would schedule an inquiry twice (the unique constraint).
- RankTable: rows tied on rank are returned in insertion order; SQL leaves the order of ties unspecified.
- backend/app/services/inquiries.py is not part of this model: its lookups are plain reads of the inquiry table (find by text, find by id, a page in table order, the count).
- InquiryRoutes.InquiryStore.CreateInquiry: the 422 body of a validation failure (pydantic's detail text) is not modelled, only the status.
- The `update_inquiry` and `delete_inquiry` routes only wrap service calls outside this model.
- `localeCompare` is modelled as code-point order; locale collation is not modelled.
- InquiryRoutes.UnknownZone: `str(KeyError(tz))` is the name's `repr`. A zone name holding a quote or backslash would be quoted or escaped differently; only the plain form is modelled.
- TimerSettings.DaysBetweenValid: the interval is an integer. In the form it is a JavaScript number. A fractional interval such as 1.5 passes `min: 1, max: 365` and is submitted, and an emptied field (`NaN`) skips both rules and is sent as `null`. Both are left to the backend's validation (a 422), which is not modelled.
- TimerSettings.TimerForm.Submit: the payload exactly when the integer interval is in 1..365. The fractional and `NaN` submissions of the line above are not described.
- `isValidUnicode` (frontend/src/utils/validation) is not part of this model and is a predicate parameter.
- QueueEditing.RankUp and QueueEditing.RankDown require a non-empty list. On an empty list the source would insert `undefined` (the `[0]` of an empty splice), which has no counterpart among integer ids.
- DragReorder.OnDragEnd requires a source index inside the rows, which the drag library guarantees for a drop.
- DragReorder: the stored queue and its projection are parameters of the handler. The inquiries table mounts it without its `schedule` prop (frontend/src/components/Inquiries/InquiriesTable.tsx:87-91), so the property read at ScheduledInquiriesTable.tsx:74-77 would throw `TypeError`; that failure is not modelled.
- The queries, cache invalidation, toasts and HTTP calls around the mutations are not modelled, and the toast messages are only text. The delete mutations are HTTP calls alone. The model builds the lists they send.
- Aliasing: the mutations splice the cached `schedule.scheduled_inquiries` array itself. The model copies it into its own array, so the cache being changed in place is not captured.
- Rendering and the date inputs' `required` and `min` attributes are not modelled; dates are calendar days.
- TimerSettings: `dayjs()` is a parameter, and dates are calendar days of years from 1 on. Invalid date strings are not modelled.

## Findings

| source | as written | input that shows it | evidently intended | confidence | as-written member | corrected member |
|---|---|---|---|---|---|---|
| backend/app/api/routes/inquiries.py:84-98 | `get_schedule` returns the table row, whose `schedule` is a JSON string, so `schedule.schedule.timesOfDay` raises `AttributeError`; the `except` turns it into a 400 for every stored schedule | the record `ExampleRow()` (queue `[7]`, daily at 09:00, starting today), requested at 10:00 in a known zone | read the row through its public view, so that the projected queue is popped and inquiry 7 is returned | high, not executed | InquiryRoutes.CurrentSelectionAsWritten, InquiryRoutes.CurrentInquiryFinding | InquiryRoutes.CurrentSelection |
| frontend/src/components/Inquiries/InquiriesTable.tsx:43-91 | The scheduled rows are handed to the drag table in stored-queue order, but `onDragEnd` (ScheduledInquiriesTable.tsx:74-82) un-rotates the reordered ids as if they were shown in the projected rotation | stored queue `[1, 2]` projected as `[2, 1]` (one past slot); the first row dropped where it was picked up submits `[2, 1]` | show the rows in the projected order (and pass the schedule), so that un-rotating restores the stored queue | medium, not executed | DragReorder.StoredOrderDropRotates, DragReorder.StoredOrderDropExample | DragReorder.ProjectionRoundTrip |
