/**
 * The two frontend components that edit the stored queue of inquiry ids
 * one inquiry at a time: the rank of an inquiry (its 1-based position),
 * adding it at the end, moving it one place up or down and removing it,
 * each done with `indexOf` and `splice` as the components do, and which
 * of the buttons each component shows.
 */
module QueueEditing {
  import opened Wrappers
  import opened JsArrays

  /** The fields of an inquiry the components read. */
  datatype InquiryView = InquiryView(id: int, text: string, themeId: Option<int>, firstScheduled: Option<string>)

  /** JavaScript truthiness of an optional string: present and not empty. */
  predicate Truthy(s: Option<string>)
  {
    s.Some? && s.value != ""
  }

  /** `schedule?.scheduled_inquiries ?? []`. */
  function QueueOf(schedule: Option<seq<int>>): seq<int>
  {
    if schedule.Some? then schedule.value else []
  }

  /** `indexOf(id) + 1`: the 1-based position of the first `id`, 0 when it is not scheduled. */
  function Rank(queue: seq<int>, id: int): (r: nat)
    ensures r <= |queue|
    ensures r == 0 <==> id !in queue
    ensures 0 < r ==> queue[r - 1] == id && forall j :: 0 <= j < r - 1 ==> queue[j] != id
  {
    IndexOf(queue, id) + 1
  }

  /** What "Add to Schedule" submits, and the inquiry stamped with the time it was first scheduled. */
  datatype Added = Added(queue: seq<int>, inquiry: InquiryView)

  /** `[...scheduled_inquiries, inquiry.id]` and `{ ...inquiry, first_scheduled: now }`. */
  function AddToSchedule(queue: seq<int>, inquiry: InquiryView, now: string): Added
  {
    Added(queue + [inquiry.id], inquiry.(firstScheduled := Some(now)))
  }

  /**
   * Adding an unscheduled inquiry puts it last, at rank `|queue| + 1`, keeps
   * every other entry and its rank, and changes only `first_scheduled` of
   * the inquiry.
   */
  lemma AddPutsLast(queue: seq<int>, inquiry: InquiryView, now: string)
    requires Rank(queue, inquiry.id) == 0
    ensures var a := AddToSchedule(queue, inquiry, now);
      && |a.queue| == |queue| + 1 && a.queue[..|queue|] == queue
      && Rank(a.queue, inquiry.id) == |queue| + 1
      && (forall x :: x in queue ==> Rank(a.queue, x) == Rank(queue, x))
      && a.inquiry.id == inquiry.id && a.inquiry.text == inquiry.text && a.inquiry.themeId == inquiry.themeId
      && a.inquiry.firstScheduled == Some(now)
  {
    var a := AddToSchedule(queue, inquiry, now);
    assert a.queue[..|queue|] == queue;
    forall x | x in queue
      ensures Rank(a.queue, x) == Rank(queue, x)
    {
      IndexOfPrefix(queue, [inquiry.id], x);
    }
    IndexOfPrefix(queue, [inquiry.id], inquiry.id);
    assert [inquiry.id][0] == inquiry.id;
  }

  /** `indexOf` in `s + t` finds an element of `s` where `s` has it, else after `s`. */
  lemma {:induction false} IndexOfPrefix(s: seq<int>, t: seq<int>, x: int)
    ensures x in s ==> IndexOf(s + t, x) == IndexOf(s, x)
    ensures x !in s && x in t ==> IndexOf(s + t, x) == |s| + IndexOf(t, x)
    decreases |s|
  {
    if |s| > 0 {
      assert (s + t)[1..] == s[1..] + t;
      IndexOfPrefix(s[1..], t, x);
    } else {
      assert s + t == t;
    }
  }

  /**
   * The list after `splice(index, 1)` took one id out and
   * `splice(index + delta, 0, id)` put it back: rank-up uses `delta == -1`,
   * rank-down `delta == 1`.  Whatever the indices, it is a permutation.
   */
  function Moved(s: seq<int>, index: int, delta: int): (r: seq<int>)
    requires 0 < |s| && -1 <= index < |s|
    ensures |r| == |s| && multiset(r) == multiset(s)
  {
    assert Clamp(index, |s|) < |s|;
    var removed := SpliceRemoved(s, index, 1);
    var rest := SpliceRest(s, index, 1);
    SpliceInserted(rest, index + delta, removed[0])
  }

  /** `s` with the entries at `a` and `b` exchanged. */
  function Swapped(s: seq<int>, a: nat, b: nat): (r: seq<int>)
    requires a < |s| && b < |s|
    ensures |r| == |s| && r[a] == s[b] && r[b] == s[a]
    ensures forall k :: 0 <= k < |s| && k != a && k != b ==> r[k] == s[k]
  {
    s[a := s[b]][b := s[a]]
  }

  /** `rankUpMutation`: the inquiry's id spliced out and back in one place earlier. */
  method RankUp(queue: JsArray<int>, id: int)
    requires 0 < |queue.items|
    modifies queue
    ensures queue.items == Moved(old(queue.items), IndexOf(old(queue.items), id), -1)
  {
    var index := IndexOf(queue.items, id);
    var removed := queue.Splice(index, 1);
    queue.SpliceInsert(index - 1, removed[0]);
  }

  /** `rankDownMutation`: the inquiry's id spliced out and back in one place later. */
  method RankDown(queue: JsArray<int>, id: int)
    requires 0 < |queue.items|
    modifies queue
    ensures queue.items == Moved(old(queue.items), IndexOf(old(queue.items), id), 1)
  {
    var index := IndexOf(queue.items, id);
    var removed := queue.Splice(index, 1);
    queue.SpliceInsert(index + 1, removed[0]);
  }

  /** Moving the entry at `i > 0` up exchanges it with its predecessor. */
  lemma MoveUpSwaps(s: seq<int>, i: nat)
    requires 0 < i < |s|
    ensures Moved(s, i, -1) == Swapped(s, i - 1, i)
  {
    var rest := SpliceRest(s, i, 1);
    assert rest == s[..i] + s[i + 1..];
    var r := Moved(s, i, -1);
    assert r == rest[..i - 1] + [s[i]] + rest[i - 1..];
  }

  /** Moving the entry at `i < |s| - 1` down exchanges it with its successor. */
  lemma MoveDownSwaps(s: seq<int>, i: nat)
    requires i + 1 < |s|
    ensures Moved(s, i, 1) == Swapped(s, i, i + 1)
  {
    var rest := SpliceRest(s, i, 1);
    assert rest == s[..i] + s[i + 1..];
    var r := Moved(s, i, 1);
    assert r == rest[..i + 1] + [s[i]] + rest[i + 1..];
  }

  /**
   * Without the `rank > 1` guard, moving the head up is no exchange: the
   * head lands second to last, since `splice(-1, 0, id)` counts from the end.
   */
  lemma MoveUpFromHead(s: seq<int>)
    requires 2 <= |s|
    ensures Moved(s, 0, -1) == s[1..|s| - 1] + [s[0], s[|s| - 1]]
  {
    var rest := SpliceRest(s, 0, 1);
    assert rest == s[1..];
  }

  /** Without the `rank < length` guard, moving the last entry down leaves the list as it was. */
  lemma MoveDownFromEnd(s: seq<int>)
    requires 0 < |s|
    ensures Moved(s, |s| - 1, 1) == s
  {
    var rest := SpliceRest(s, |s| - 1, 1);
    assert rest == s[..|s| - 1];
  }

  /** `disableMutation`: the inquiry's id spliced out at its `indexOf`. */
  method Remove(queue: JsArray<int>, id: int)
    modifies queue
    ensures queue.items == SpliceRest(old(queue.items), IndexOf(old(queue.items), id), 1)
  {
    var index := IndexOf(queue.items, id);
    var _ := queue.Splice(index, 1);
  }

  /** Removing a scheduled id deletes its first occurrence and keeps the others in order. */
  lemma RemoveScheduled(s: seq<int>, id: int)
    requires id in s
    ensures var r := SpliceRest(s, IndexOf(s, id), 1);
      && r == RemoveAt(s, Rank(s, id) - 1)
      && multiset(r) == multiset(s) - multiset{id}
  {
    var i := IndexOf(s, id);
    assert 0 <= i && i == Rank(s, id) - 1;
    SpliceOne(s, i);
  }

  /** An id queued once is gone after it is removed. */
  lemma RemoveOnlyOccurrence(s: seq<int>, id: int)
    requires multiset(s)[id] == 1
    ensures id !in SpliceRest(s, IndexOf(s, id), 1)
  {
    RemoveScheduled(s, id);
    assert multiset(SpliceRest(s, IndexOf(s, id), 1))[id] == 0;
  }

  /** Removing an id that is not scheduled drops the last entry instead: `splice(-1, 1)`. */
  lemma RemoveUnscheduled(s: seq<int>, id: int)
    requires id !in s && 0 < |s|
    ensures SpliceRest(s, IndexOf(s, id), 1) == s[..|s| - 1]
  {
  }

  /** Which buttons a component shows for one inquiry. */
  datatype Buttons = Buttons(delete: bool, edit: bool, rankUp: bool, rankDown: bool, remove: bool, add: bool)

  /**
   * The buttons of the scheduling row: delete and edit only before the
   * inquiry was ever scheduled, rank-up and rank-down only for a scheduled
   * inquiry that was, and not at the head or the end, "Remove from
   * Schedule" for a scheduled inquiry and "Add to Schedule" otherwise.
   */
  function AddScheduledButtons(inquiry: InquiryView, queue: seq<int>): (b: Buttons)
    ensures b.delete == b.edit == !Truthy(inquiry.firstScheduled)
    ensures b.remove <==> inquiry.id in queue
    ensures b.add <==> inquiry.id !in queue
    ensures b.rankUp <==> Truthy(inquiry.firstScheduled) && inquiry.id in queue && inquiry.id != queue[0]
    ensures b.rankDown <==> Truthy(inquiry.firstScheduled) && inquiry.id in queue && Rank(queue, inquiry.id) < |queue|
  {
    var rank := Rank(queue, inquiry.id);
    var moving := Truthy(inquiry.firstScheduled) && rank > 0;
    Buttons(!Truthy(inquiry.firstScheduled), !Truthy(inquiry.firstScheduled),
            moving && rank > 1, moving && rank < |queue|, rank > 0, rank == 0)
  }

  /** The buttons of the management row: no rank buttons, and edit always. */
  function ManagementButtons(inquiry: InquiryView, queue: seq<int>): (b: Buttons)
    ensures b.delete == !Truthy(inquiry.firstScheduled) && b.edit
    ensures !b.rankUp && !b.rankDown
    ensures b.remove <==> inquiry.id in queue
    ensures b.add <==> inquiry.id !in queue
  {
    var rank := Rank(queue, inquiry.id);
    Buttons(!Truthy(inquiry.firstScheduled), true, false, false, rank > 0, rank == 0)
  }

  /** In both components exactly one of "Remove from Schedule" and "Add to Schedule" is shown. */
  lemma RemoveOrAdd(inquiry: InquiryView, queue: seq<int>)
    ensures AddScheduledButtons(inquiry, queue).remove != AddScheduledButtons(inquiry, queue).add
    ensures ManagementButtons(inquiry, queue).remove != ManagementButtons(inquiry, queue).add
  {
  }

  /**
   * When rank-up is offered it exchanges the inquiry with its predecessor
   * and its rank drops by one.
   */
  lemma RankUpOffered(inquiry: InquiryView, queue: seq<int>)
    requires AddScheduledButtons(inquiry, queue).rankUp
    ensures var rank := Rank(queue, inquiry.id);
      && 1 < rank
      && Moved(queue, IndexOf(queue, inquiry.id), -1) == Swapped(queue, rank - 2, rank - 1)
      && Rank(Moved(queue, IndexOf(queue, inquiry.id), -1), inquiry.id) == rank - 1
  {
    var rank := Rank(queue, inquiry.id);
    var i := IndexOf(queue, inquiry.id);
    assert i == rank - 1 && i - 1 == rank - 2;
    MoveUpSwaps(queue, i);
    var r := Swapped(queue, i - 1, i);
    IndexOfFirst(r, inquiry.id, rank - 2);
  }

  /**
   * When rank-down is offered it exchanges the inquiry with its successor;
   * unless the successor is the same id, its rank grows by one.
   */
  lemma RankDownOffered(inquiry: InquiryView, queue: seq<int>)
    requires AddScheduledButtons(inquiry, queue).rankDown
    ensures var rank := Rank(queue, inquiry.id);
      && 0 < rank < |queue|
      && Moved(queue, IndexOf(queue, inquiry.id), 1) == Swapped(queue, rank - 1, rank)
      && (queue[rank] != inquiry.id ==> Rank(Moved(queue, IndexOf(queue, inquiry.id), 1), inquiry.id) == rank + 1)
  {
    RankDownMoves(queue, inquiry.id);
  }

  lemma RankDownMoves(queue: seq<int>, id: int)
    requires 0 < Rank(queue, id) < |queue|
    ensures var rank := Rank(queue, id);
      && Moved(queue, IndexOf(queue, id), 1) == Swapped(queue, rank - 1, rank)
      && (queue[rank] != id ==> Rank(Moved(queue, IndexOf(queue, id), 1), id) == rank + 1)
  {
    MoveDownFound(queue, id, IndexOf(queue, id), Rank(queue, id));
  }

  /**
   * Moving down the first occurrence of `id`, found at index `i` (rank
   * `rank`), puts it at index `rank` unless the successor is `id` too.
   */
  lemma MoveDownFound(queue: seq<int>, id: int, i: nat, rank: nat)
    requires rank == i + 1 && rank < |queue| && queue[i] == id
    requires forall j :: 0 <= j < i ==> queue[j] != id
    ensures Moved(queue, i, 1) == Swapped(queue, rank - 1, rank)
    ensures queue[rank] != id ==> IndexOf(Moved(queue, i, 1), id) + 1 == rank + 1
  {
    MoveDownSwaps(queue, i);
    if queue[rank] != id {
      IndexOfFirst(Swapped(queue, i, i + 1), id, i + 1);
    }
  }

  /**
   * After "Add to Schedule" with a non-empty timestamp, the row shows
   * "Remove from Schedule" instead, and no longer delete or edit.
   */
  lemma AddThenButtons(queue: seq<int>, inquiry: InquiryView, now: string)
    requires inquiry.id !in queue && now != ""
    ensures var a := AddToSchedule(queue, inquiry, now);
      var b := AddScheduledButtons(a.inquiry, a.queue);
      b.remove && !b.add && !b.delete && !b.edit && !b.rankDown
      && (b.rankUp <==> 0 < |queue|)
  {
    var a := AddToSchedule(queue, inquiry, now);
    AddPutsLast(queue, inquiry, now);
    if 0 < |queue| {
      assert a.queue[0] == queue[0];
      assert queue[0] != inquiry.id;
    } else {
      assert a.queue == [inquiry.id];
    }
  }
}
