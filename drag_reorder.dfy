/**
 * The drag-and-drop reordering of the scheduled-inquiries table: the
 * dragged row is spliced out of a copy of the rows and back in at the drop
 * index, and the ids of the result are rotated so that the stored queue's
 * head comes first again before they are submitted.
 */
module DragReorder {
  import opened Wrappers
  import opened JsArrays
  import opened QueueEditing
  import ScheduleModel
  import Calendar

  /** The part of the drag library's `DropResult` the handler reads. */
  datatype DropResult = DropResult(source: int, destination: Option<int>)

  /** `rows.map(x => x.id)`. */
  function Ids(rows: seq<InquiryView>): (r: seq<int>)
    ensures |r| == |rows| && forall i :: 0 <= i < |rows| ==> r[i] == rows[i].id
  {
    seq(|rows|, i requires 0 <= i < |rows| => rows[i].id)
  }

  /**
   * A copy of `rows` whose row at `source` was spliced out and inserted at
   * `destination`: a permutation, with the dragged row at the (clamped)
   * destination.
   */
  function Reordered<T>(rows: seq<T>, source: nat, destination: int): (r: seq<T>)
    requires source < |rows|
    ensures |r| == |rows| && multiset(r) == multiset(rows)
    ensures r[Clamp(destination, |rows| - 1)] == rows[source]
  {
    assert Clamp(source, |rows|) == source && DeleteCount(|rows|, source, 1) == 1;
    assert SpliceRemoved(rows, source, 1) == [rows[source]];
    SpliceInserted(SpliceRest(rows, source, 1), destination, rows[source])
  }

  /** Without the dragged row, the reordered rows are the others in their old order. */
  lemma ReorderedKeepsOthers<T>(rows: seq<T>, source: nat, destination: int)
    requires source < |rows|
    ensures RemoveAt(Reordered(rows, source, destination), Clamp(destination, |rows| - 1)) == RemoveAt(rows, source)
  {
    assert Clamp(source, |rows|) == source && DeleteCount(|rows|, source, 1) == 1;
    var rest := SpliceRest(rows, source, 1);
    assert rest == RemoveAt(rows, source);
    var c := Clamp(destination, |rest|);
    var r := Reordered(rows, source, destination);
    assert r == rest[..c] + [rows[source]] + rest[c..];
    assert r[..c] == rest[..c];
    assert r[c + 1..] == rest[c..];
    assert rest == rest[..c] + rest[c..];
  }

  /**
   * `inquiries.indexOf(scheduled_inquiries[0])`: where the stored head
   * stands in the displayed rotation; -1 when it is missing, and on an
   * empty queue, whose `[0]` is `undefined`.
   */
  function StartIndex(stored: seq<int>, rotated: seq<int>): (k: int)
    ensures -1 <= k < |rotated|
    ensures 0 <= k ==> 0 < |stored| && rotated[k] == stored[0]
    ensures k == -1 <==> |stored| == 0 || stored[0] !in rotated
  {
    if |stored| == 0 then -1 else IndexOf(rotated, stored[0])
  }

  /** `ids.slice(k).concat(ids.slice(0, k))`: a rotation of the ids, left by the clamped `k`. */
  function Unrotated(ids: seq<int>, k: int): (r: seq<int>)
    ensures |r| == |ids| && multiset(r) == multiset(ids)
    ensures r == RotateLeft(ids, Clamp(k, |ids|))
  {
    JsRotationIsRotateLeft(ids, k);
    SliceFrom(ids, k) + SliceTo(ids, k)
  }

  /** The list `onDragEnd` submits for a drop, or `None` for a drop outside the table. */
  function Submission(rows: seq<InquiryView>, drop: DropResult, stored: seq<int>, rotated: seq<int>): Option<seq<int>>
    requires drop.destination.Some? ==> 0 <= drop.source < |rows|
  {
    if drop.destination.None? then None
    else Some(Unrotated(Ids(Reordered(rows, drop.source, drop.destination.value)), StartIndex(stored, rotated)))
  }

  /**
   * `onDragEnd`: copy the rows, splice the dragged one out and back in,
   * map them to ids and submit them rotated by the start index; a drop
   * with no destination submits nothing.  The submission is a permutation
   * of the ids of the rows.
   */
  method OnDragEnd(rows: seq<InquiryView>, drop: DropResult, stored: seq<int>, rotated: seq<int>)
    returns (submitted: Option<seq<int>>)
    requires drop.destination.Some? ==> 0 <= drop.source < |rows|
    ensures submitted == Submission(rows, drop, stored, rotated)
    ensures drop.destination.None? <==> submitted.None?
    ensures submitted.Some? ==> multiset(submitted.value) == multiset(Ids(rows))
  {
    if drop.destination.None? {
      return None;
    }
    var items := new JsArray<InquiryView>.From(rows);
    assert Clamp(drop.source, |rows|) == drop.source && DeleteCount(|rows|, drop.source, 1) == 1;
    var removed := items.Splice(drop.source, 1);
    items.SpliceInsert(drop.destination.value, removed[0]);
    assert items.items == Reordered(rows, drop.source, drop.destination.value);
    var ids := Ids(items.items);
    var startIndex := StartIndex(stored, rotated);
    submitted := Some(SliceFrom(ids, startIndex) + SliceTo(ids, startIndex));
    assert submitted.value == Unrotated(ids, startIndex);
    IdsReordered(rows, drop.source, drop.destination.value);
  }

  /** Taking ids commutes with the drag: the ids are reordered as the rows are. */
  lemma IdsReordered(rows: seq<InquiryView>, source: nat, destination: int)
    requires source < |rows|
    ensures Ids(Reordered(rows, source, destination)) == Reordered(Ids(rows), source, destination)
  {
    assert Clamp(source, |rows|) == source && DeleteCount(|rows|, source, 1) == 1;
    var ids := Ids(rows);
    var rest := SpliceRest(rows, source, 1);
    var idRest := SpliceRest(ids, source, 1);
    assert rest == rows[..source] + rows[source + 1..];
    assert idRest == ids[..source] + ids[source + 1..];
    assert Ids(rest) == idRest;
    var c := Clamp(destination, |rest|);
    assert Reordered(rows, source, destination) == rest[..c] + [rows[source]] + rest[c..];
    assert Reordered(ids, source, destination) == idRest[..c] + [ids[source]] + idRest[c..];
  }

  /** Dropping a row where it was picked up leaves the rows as they were. */
  lemma DropInPlace<T>(rows: seq<T>, source: nat)
    requires source < |rows|
    ensures Reordered(rows, source, source) == rows
  {
    SpliceOne(rows, source);
    var rest := SpliceRest(rows, source, 1);
    assert Clamp(source, |rest|) == source;
    assert rest[..source] == rows[..source] && rest[source..] == rows[source + 1..];
    assert rows == rows[..source] + [rows[source]] + rows[source + 1..];
  }

  /** When the stored head is not among the displayed ids, the last id is submitted first. */
  lemma MissingHeadPutsLastFirst(ids: seq<int>, stored: seq<int>, rotated: seq<int>)
    requires StartIndex(stored, rotated) == -1 && 0 < |ids|
    ensures Unrotated(ids, StartIndex(stored, rotated)) == [ids[|ids| - 1]] + ids[..|ids| - 1]
  {
  }

  /**
   * Round trip: when the table shows the stored queue (of distinct ids)
   * rotated left by `k`, dropping a row where it was picked up submits the
   * stored queue unchanged.
   */
  lemma DragRoundTrip(rows: seq<InquiryView>, stored: seq<int>, k: nat, source: nat)
    requires k < |stored| && source < |rows|
    requires forall a, b :: 0 <= a < b < |stored| ==> stored[a] != stored[b]
    requires Ids(rows) == RotateLeft(stored, k)
    ensures Submission(rows, DropResult(source, Some(source)), stored, RotateLeft(stored, k)) == Some(stored)
  {
    DropInPlace(rows, source);
    var start := HeadIndex(stored, k);
    if k == 0 {
      assert RotateLeft(stored, k) == stored;
    } else {
      RotateLeftInverse(stored, k);
    }
  }

  /** In a rotation of distinct ids, the stored head stands at `|stored| - k`, or 0 when `k` is 0. */
  lemma HeadIndex(stored: seq<int>, k: nat) returns (start: nat)
    requires k < |stored|
    requires forall a, b :: 0 <= a < b < |stored| ==> stored[a] != stored[b]
    ensures start == (if k == 0 then 0 else |stored| - k)
    ensures StartIndex(stored, RotateLeft(stored, k)) == start
  {
    var n := |stored|;
    var rotated := RotateLeft(stored, k);
    start := if k == 0 then 0 else n - k;
    assert rotated[start] == stored[0];
    forall a, b | 0 <= a < b < n
      ensures rotated[a] != rotated[b]
    {
      var a' := if a < n - k then a + k else a + k - n;
      var b' := if b < n - k then b + k else b + k - n;
      assert rotated[a] == stored[a'] && rotated[b] == stored[b'];
    }
    IndexOfDistinct(rotated, start);
  }

  /**
   * The same round trip against the backend's projection: when the rows
   * are the projected queue of the stored ids, an in-place drop submits
   * the stored queue.
   */
  lemma ProjectionRoundTrip(rows: seq<InquiryView>, info: ScheduleModel.ScheduleInfo, stored: seq<int>,
                            today: Calendar.Ordinal, isHoliday: int -> bool, source: nat)
    requires ScheduleModel.Terminates(info, today) && source < |rows|
    requires forall a, b :: 0 <= a < b < |stored| ==> stored[a] != stored[b]
    requires ScheduleModel.Projection(info, stored, today, isHoliday).Ok?
    requires Ids(rows) == ScheduleModel.Projection(info, stored, today, isHoliday).value.inquiries
    ensures Submission(rows, DropResult(source, Some(source)), stored,
                       ScheduleModel.Projection(info, stored, today, isHoliday).value.inquiries) == Some(stored)
  {
    var p := ScheduleModel.ProjectDays(info, |stored|, today, isHoliday).value;
    var k := ScheduleModel.ActiveIndex(p.past, |stored|);
    assert ScheduleModel.Projection(info, stored, today, isHoliday).value.inquiries == RotateLeft(stored, k);
    DragRoundTrip(rows, stored, k, source);
  }

  /**
   * The table as it is mounted: the rows are handed over in the stored
   * queue's order, not rotated, while the start index is still taken in
   * the rotated projection.  An in-place drop then submits the stored queue
   * rotated left by `|stored| - k`, which for `0 < k` is not the queue.
   */
  lemma StoredOrderDropRotates(rows: seq<InquiryView>, stored: seq<int>, k: nat, source: nat)
    requires 0 < k < |stored| && source < |rows|
    requires forall a, b :: 0 <= a < b < |stored| ==> stored[a] != stored[b]
    requires Ids(rows) == stored
    ensures Submission(rows, DropResult(source, Some(source)), stored, RotateLeft(stored, k))
            == Some(RotateLeft(stored, |stored| - k))
    ensures Submission(rows, DropResult(source, Some(source)), stored, RotateLeft(stored, k)) != Some(stored)
  {
    DropInPlace(rows, source);
    var start := HeadIndex(stored, k);
    var r := RotateLeft(stored, |stored| - k);
    assert r[0] == stored[|stored| - k];
    assert r[0] != stored[0];
  }

  /** A two-item queue shown from its second item: an untouched drop swaps the queue. */
  lemma StoredOrderDropExample()
    ensures Submission([InquiryView(1, "a", None, None), InquiryView(2, "b", None, None)],
                       DropResult(0, Some(0)), [1, 2], [2, 1]) == Some([2, 1])
  {
    var rows := [InquiryView(1, "a", None, None), InquiryView(2, "b", None, None)];
    var stored := [1, 2];
    var ids := Ids(rows);
    assert ids[0] == 1 && ids[1] == 2;
    assert ids == stored;
    var rotated := RotateLeft(stored, 1);
    assert rotated[0] == 2 && rotated[1] == 1;
    assert rotated == [2, 1];
    StoredOrderDropRotates(rows, stored, 1, 0);
  }
}
