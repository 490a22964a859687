/**
 * The inquiries table: the inquiries sorted in place twice, first by when
 * they were first scheduled, then by their position in the schedule's
 * queue, and split into the scheduled and the unscheduled list.
 */
module InquiryPartition {
  import opened Wrappers
  import opened JsArrays
  import opened StableSort
  import opened QueueEditing

  /** Lexicographic order of strings by code point, standing for `localeCompare(...) <= 0`. */
  predicate LexLe(a: string, b: string)
    decreases |a|
  {
    |a| == 0 || (|b| > 0 && (a[0] < b[0] || (a[0] == b[0] && LexLe(a[1..], b[1..]))))
  }

  lemma {:induction false} LexLeTotal(a: string, b: string)
    ensures LexLe(a, b) || LexLe(b, a)
    decreases |a|
  {
    if |a| > 0 && |b| > 0 && a[0] == b[0] {
      LexLeTotal(a[1..], b[1..]);
    }
  }

  lemma {:induction false} LexLeTransitive(a: string, b: string, c: string)
    requires LexLe(a, b) && LexLe(b, c)
    ensures LexLe(a, c)
    decreases |a|
  {
    if |a| > 0 && a[0] == b[0] && b[0] == c[0] {
      LexLeTransitive(a[1..], b[1..], c[1..]);
    }
  }

  /** `first_scheduled ?? ""`. */
  function FirstScheduledKey(i: InquiryView): string
  {
    if i.firstScheduled.Some? then i.firstScheduled.value else ""
  }

  /** The first comparator: by `first_scheduled`, a missing one counting as "". */
  function ByFirstScheduled(): (InquiryView, InquiryView) -> bool
  {
    (a: InquiryView, b: InquiryView) => LexLe(FirstScheduledKey(a), FirstScheduledKey(b))
  }

  /** `schedule?.scheduled_inquiries.indexOf(id) ?? -1`. */
  function Position(schedule: Option<seq<int>>, id: int): (p: int)
    ensures -1 <= p
    ensures p == -1 <==> schedule.None? || id !in schedule.value
    ensures 0 <= p ==> p < |schedule.value| && schedule.value[p] == id
  {
    if schedule.None? then -1 else IndexOf(schedule.value, id)
  }

  /** The second comparator: by position in the queue, unscheduled (-1) first. */
  function ByPosition(schedule: Option<seq<int>>): (InquiryView, InquiryView) -> bool
  {
    (a: InquiryView, b: InquiryView) => Position(schedule, a.id) <= Position(schedule, b.id)
  }

  lemma FirstScheduledOrder()
    ensures TotalPreorder(ByFirstScheduled())
  {
    var le := ByFirstScheduled();
    forall a, b
      ensures le(a, b) || le(b, a)
    {
      LexLeTotal(FirstScheduledKey(a), FirstScheduledKey(b));
    }
    forall a, b, c | le(a, b) && le(b, c)
      ensures le(a, c)
    {
      LexLeTransitive(FirstScheduledKey(a), FirstScheduledKey(b), FirstScheduledKey(c));
    }
  }

  lemma PositionOrder(schedule: Option<seq<int>>)
    ensures TotalPreorder(ByPosition(schedule))
  {
  }

  /** `sortedInquiries`: the two stable sorts, one after the other. */
  function SortedInquiries(inquiries: seq<InquiryView>, schedule: Option<seq<int>>): (r: seq<InquiryView>)
    ensures |r| == |inquiries|
  {
    Sort(Sort(inquiries, ByFirstScheduled()), ByPosition(schedule))
  }

  /** `inquiries.sort(...).sort(...)`: both sorts reorder the fetched array in place. */
  method SortInquiries(a: array<InquiryView>, schedule: Option<seq<int>>)
    modifies a
    ensures a[..] == SortedInquiries(old(a[..]), schedule)
  {
    SortInPlace(a, ByFirstScheduled());
    SortInPlace(a, ByPosition(schedule));
  }

  /** The entries of `s` whose position is at least 0 (`scheduled`) or below 0 (`!scheduled`), in order. */
  function Filter(s: seq<InquiryView>, schedule: Option<seq<int>>, scheduled: bool): (r: seq<InquiryView>)
    ensures |r| <= |s|
    decreases |s|
  {
    if |s| == 0 then []
    else
      var rest := Filter(s[..|s| - 1], schedule, scheduled);
      var x := s[|s| - 1];
      if (0 <= Position(schedule, x.id)) == scheduled then rest + [x] else rest
  }

  /** An inquiry is kept exactly when it is in `s` and its position's sign matches the filter. */
  lemma {:induction false} FilterMembers(s: seq<InquiryView>, schedule: Option<seq<int>>, scheduled: bool)
    ensures forall x :: x in Filter(s, schedule, scheduled) <==> x in s && (0 <= Position(schedule, x.id) <==> scheduled)
    decreases |s|
  {
    if |s| > 0 {
      FilterMembers(s[..|s| - 1], schedule, scheduled);
      assert s == s[..|s| - 1] + [s[|s| - 1]];
    }
  }

  /** `scheduledInquiries`: the sorted inquiries that have a position. */
  function Scheduled(inquiries: seq<InquiryView>, schedule: Option<seq<int>>): seq<InquiryView>
  {
    Filter(SortedInquiries(inquiries, schedule), schedule, true)
  }

  /** `unscheduledInquiries`: the sorted inquiries that have none. */
  function Unscheduled(inquiries: seq<InquiryView>, schedule: Option<seq<int>>): seq<InquiryView>
  {
    Filter(SortedInquiries(inquiries, schedule), schedule, false)
  }

  /** The two filters split any sequence: together a permutation of it. */
  lemma {:induction false} FilterSplits(s: seq<InquiryView>, schedule: Option<seq<int>>)
    ensures multiset(Filter(s, schedule, true)) + multiset(Filter(s, schedule, false)) == multiset(s)
    decreases |s|
  {
    if |s| > 0 {
      FilterSplits(s[..|s| - 1], schedule);
      assert s == s[..|s| - 1] + [s[|s| - 1]];
    }
  }

  /**
   * The two lists partition the inquiries: together they are a permutation
   * of them, and each inquiry is in the scheduled list exactly when its id
   * is in the queue, and in the unscheduled list otherwise.
   */
  lemma Partition(inquiries: seq<InquiryView>, schedule: Option<seq<int>>)
    ensures multiset(Scheduled(inquiries, schedule)) + multiset(Unscheduled(inquiries, schedule)) == multiset(inquiries)
    ensures forall x :: x in inquiries ==>
      && (x in Scheduled(inquiries, schedule) <==> schedule.Some? && x.id in schedule.value)
      && (x in Unscheduled(inquiries, schedule) <==> !(schedule.Some? && x.id in schedule.value))
  {
    var sorted := SortedInquiries(inquiries, schedule);
    SortedPermutes(inquiries, schedule);
    FilterSplits(sorted, schedule);
    FilterMembers(sorted, schedule, true);
    FilterMembers(sorted, schedule, false);
    forall x | x in inquiries
      ensures x in sorted
    {
      assert x in multiset(sorted);
    }
  }

  /** The sorted list is a permutation of the inquiries. */
  lemma SortedPermutes(inquiries: seq<InquiryView>, schedule: Option<seq<int>>)
    ensures multiset(SortedInquiries(inquiries, schedule)) == multiset(inquiries)
  {
    SortPermutes(inquiries, ByFirstScheduled());
    SortPermutes(Sort(inquiries, ByFirstScheduled()), ByPosition(schedule));
  }

  /** A filter keeps every ordered pair of the entries it keeps. */
  lemma {:induction false} FilterOrdered(s: seq<InquiryView>, schedule: Option<seq<int>>, scheduled: bool,
                                         le: (InquiryView, InquiryView) -> bool)
    requires forall i, j ::
               (0 <= i < j < |s| && (0 <= Position(schedule, s[i].id) <==> scheduled)
                && (0 <= Position(schedule, s[j].id) <==> scheduled)) ==> le(s[i], s[j])
    ensures Sorted(Filter(s, schedule, scheduled), le)
    decreases |s|
  {
    if |s| > 0 {
      var t := s[..|s| - 1];
      FilterOrdered(t, schedule, scheduled, le);
      var x := s[|s| - 1];
      var r := Filter(t, schedule, scheduled);
      if (0 <= Position(schedule, x.id)) == scheduled {
        forall k | 0 <= k < |r|
          ensures le(r[k], x)
        {
          FilterMembers(t, schedule, scheduled);
          assert r[k] in t;
          var i :| 0 <= i < |t| && t[i] == r[k];
          assert s[i] == r[k];
        }
      }
    }
  }

  /** The scheduled list is in queue order: positions never decrease. */
  lemma ScheduledInQueueOrder(inquiries: seq<InquiryView>, schedule: Option<seq<int>>)
    ensures Sorted(Scheduled(inquiries, schedule), ByPosition(schedule))
  {
    var sorted := SortedInquiries(inquiries, schedule);
    PositionOrder(schedule);
    SortIsSorted(Sort(inquiries, ByFirstScheduled()), ByPosition(schedule));
    FilterOrdered(sorted, schedule, true, ByPosition(schedule));
  }

  /**
   * The unscheduled list keeps the first sort's order: the second sort is
   * stable and all of them tie at position -1, so they stay ordered by
   * `first_scheduled`.
   */
  lemma UnscheduledByFirstScheduled(inquiries: seq<InquiryView>, schedule: Option<seq<int>>)
    ensures Sorted(Unscheduled(inquiries, schedule), ByFirstScheduled())
  {
    var first := Sort(inquiries, ByFirstScheduled());
    var sorted := SortedInquiries(inquiries, schedule);
    FirstScheduledOrder();
    PositionOrder(schedule);
    SortIsSorted(inquiries, ByFirstScheduled());
    SortIsStable(first, ByPosition(schedule), ByFirstScheduled());
    FilterOrdered(sorted, schedule, false, ByFirstScheduled());
  }

  /** Without a schedule every inquiry is unscheduled, ordered by `first_scheduled`. */
  lemma NoScheduleAllUnscheduled(inquiries: seq<InquiryView>)
    ensures Scheduled(inquiries, None) == []
    ensures multiset(Unscheduled(inquiries, None)) == multiset(inquiries)
    ensures Sorted(Unscheduled(inquiries, None), ByFirstScheduled())
  {
    Partition(inquiries, None);
    UnscheduledByFirstScheduled(inquiries, None);
    NothingScheduledWithoutQueue(SortedInquiries(inquiries, None));
  }

  lemma {:induction false} NothingScheduledWithoutQueue(s: seq<InquiryView>)
    ensures Filter(s, None, true) == []
    decreases |s|
  {
    if |s| > 0 {
      NothingScheduledWithoutQueue(s[..|s| - 1]);
    }
  }
}
