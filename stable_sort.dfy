/**
 * `Array.prototype.sort` with a comparator, as the inquiry table uses it:
 * a stable sort, in place.  The comparator is given as `le(a, b)`, true
 * when the comparator does not put `a` after `b` (`compare(a, b) <= 0`).
 * Every stable sort under a total preorder gives the same result, so
 * insertion sort stands for the engine's algorithm.
 */
module StableSort {

  /** `le` is total and transitive: a consistent comparator. */
  ghost predicate TotalPreorder<T(!new)>(le: (T, T) -> bool)
  {
    && (forall a, b :: le(a, b) || le(b, a))
    && (forall a, b, c :: le(a, b) && le(b, c) ==> le(a, c))
  }

  predicate Sorted<T>(s: seq<T>, le: (T, T) -> bool)
  {
    forall i, j :: 0 <= i < j < |s| ==> le(s[i], s[j])
  }

  /**
   * Sorted by `le1`, and among elements `le1` ties, by `le2`: what sorting
   * an `le2`-sorted sequence by `le1` with a stable sort yields.
   */
  predicate LexSorted<T>(s: seq<T>, le1: (T, T) -> bool, le2: (T, T) -> bool)
  {
    forall i, j :: 0 <= i < j < |s| ==> le1(s[i], s[j]) && (le1(s[j], s[i]) ==> le2(s[i], s[j]))
  }

  /** Insert `x` after the last element that is not after it. */
  function InsertLast<T>(t: seq<T>, x: T, le: (T, T) -> bool): (r: seq<T>)
    ensures |r| == |t| + 1
    decreases |t|
  {
    if |t| == 0 then [x]
    else if le(t[|t| - 1], x) then t + [x]
    else InsertLast(t[..|t| - 1], x, le) + [t[|t| - 1]]
  }

  /** Insertion sort: each element in turn inserted into the sorted prefix. */
  function Sort<T>(s: seq<T>, le: (T, T) -> bool): (r: seq<T>)
    ensures |r| == |s|
    decreases |s|
  {
    if |s| == 0 then []
    else InsertLast(Sort(s[..|s| - 1], le), s[|s| - 1], le)
  }

  lemma {:induction false} InsertLastPermutes<T>(t: seq<T>, x: T, le: (T, T) -> bool)
    ensures multiset(InsertLast(t, x, le)) == multiset(t) + multiset{x}
    decreases |t|
  {
    if |t| > 0 && !le(t[|t| - 1], x) {
      InsertLastPermutes(t[..|t| - 1], x, le);
      assert t == t[..|t| - 1] + [t[|t| - 1]];
    }
  }

  /** Sorting only reorders: the result holds the same elements with the same multiplicities. */
  lemma {:induction false} SortPermutes<T>(s: seq<T>, le: (T, T) -> bool)
    ensures multiset(Sort(s, le)) == multiset(s)
    decreases |s|
  {
    if |s| > 0 {
      SortPermutes(s[..|s| - 1], le);
      InsertLastPermutes(Sort(s[..|s| - 1], le), s[|s| - 1], le);
      assert s == s[..|s| - 1] + [s[|s| - 1]];
    }
  }

  /** Under a consistent comparator the result of `Sort` is sorted. */
  lemma {:induction false} SortIsSorted<T(!new)>(s: seq<T>, le: (T, T) -> bool)
    requires TotalPreorder(le)
    ensures Sorted(Sort(s, le), le)
    decreases |s|
  {
    if |s| > 0 {
      SortIsSorted(s[..|s| - 1], le);
      InsertLastSorted(Sort(s[..|s| - 1], le), s[|s| - 1], le);
    }
  }

  lemma {:induction false} InsertLastSorted<T(!new)>(t: seq<T>, x: T, le: (T, T) -> bool)
    requires TotalPreorder(le) && Sorted(t, le)
    ensures Sorted(InsertLast(t, x, le), le)
    decreases |t|
  {
    if |t| > 0 && !le(t[|t| - 1], x) {
      var t' := t[..|t| - 1];
      var last := t[|t| - 1];
      var u := InsertLast(t', x, le);
      InsertLastSorted(t', x, le);
      InsertLastPermutes(t', x, le);
      forall k | 0 <= k < |u|
        ensures le(u[k], last)
      {
        assert u[k] in multiset(t') + multiset{x};
        if u[k] != x {
          var m :| 0 <= m < |t'| && t'[m] == u[k];
        }
      }
    }
  }

  /** The stable-sort guarantee: sorting an `le2`-sorted sequence by `le1` orders by `le1`, then `le2`. */
  lemma {:induction false} SortIsStable<T(!new)>(s: seq<T>, le1: (T, T) -> bool, le2: (T, T) -> bool)
    requires TotalPreorder(le1) && Sorted(s, le2)
    ensures LexSorted(Sort(s, le1), le1, le2)
    decreases |s|
  {
    if |s| > 0 {
      var s' := s[..|s| - 1];
      var x := s[|s| - 1];
      var t := Sort(s', le1);
      SortIsStable(s', le1, le2);
      SortPermutes(s', le1);
      forall k | 0 <= k < |t|
        ensures le2(t[k], x)
      {
        assert t[k] in multiset(s');
        var m :| 0 <= m < |s'| && s'[m] == t[k];
        assert s[m] == t[k];
      }
      InsertLastStable(t, x, le1, le2);
    }
  }

  lemma {:induction false} InsertLastStable<T(!new)>(t: seq<T>, x: T, le1: (T, T) -> bool, le2: (T, T) -> bool)
    requires TotalPreorder(le1) && LexSorted(t, le1, le2)
    requires forall k :: 0 <= k < |t| ==> le2(t[k], x)
    ensures LexSorted(InsertLast(t, x, le1), le1, le2)
    decreases |t|
  {
    if |t| > 0 {
      var t' := t[..|t| - 1];
      var last := t[|t| - 1];
      if le1(last, x) {
        var r := t + [x];
        forall i, j | 0 <= i < j < |r|
          ensures le1(r[i], r[j]) && (le1(r[j], r[i]) ==> le2(r[i], r[j]))
        {
          if j == |t| && i < |t| - 1 {
            assert le1(t[i], last);
          }
        }
      } else {
        var u := InsertLast(t', x, le1);
        InsertLastStable(t', x, le1, le2);
        InsertLastPermutes(t', x, le1);
        var r := u + [last];
        forall i, j | 0 <= i < j < |r|
          ensures le1(r[i], r[j]) && (le1(r[j], r[i]) ==> le2(r[i], r[j]))
        {
          if j == |u| {
            assert u[i] in multiset(t') + multiset{x};
            if u[i] != x {
              var m :| 0 <= m < |t'| && t'[m] == u[i];
              assert t[m] == u[i];
            }
          }
        }
      }
    }
  }

  /** Moving the insertion point one place left past an element after `x`. */
  lemma InsertLastStep<T>(t: seq<T>, j: nat, x: T, le: (T, T) -> bool)
    requires 0 < j <= |t| && !le(t[j - 1], x)
    ensures InsertLast(t[..j], x, le) + t[j..] == InsertLast(t[..j - 1], x, le) + t[j - 1..]
  {
    assert t[..j][..j - 1] == t[..j - 1];
    assert t[j - 1..] == [t[j - 1]] + t[j..];
  }

  /** Where the shifting stops, `x` goes straight in. */
  lemma InsertLastStop<T>(t: seq<T>, j: nat, x: T, le: (T, T) -> bool)
    requires j <= |t| && (j == 0 || le(t[j - 1], x))
    ensures InsertLast(t[..j], x, le) + t[j..] == t[..j] + [x] + t[j..]
  {
  }

  /** One pass of the insertion sort: shifts `a[i]` left into the sorted prefix `a[..i]`. */
  method InsertAt<T>(a: array<T>, i: nat, le: (T, T) -> bool)
    requires i < a.Length
    modifies a
    ensures a[..i + 1] == InsertLast(old(a[..i]), old(a[i]), le)
    ensures a[i + 1..] == old(a[i + 1..])
  {
    var x := a[i];
    ghost var t := a[..i];
    var j := i;
    assert t[..j] == t && t[j..] == [];
    assert InsertLast(t, x, le) + [] == InsertLast(t, x, le);
    while j > 0 && !le(a[j - 1], x)
      invariant 0 <= j <= i
      invariant forall k :: 0 <= k < j ==> a[k] == t[k]
      invariant forall k :: j < k <= i ==> a[k] == t[k - 1]
      invariant forall k :: i < k < a.Length ==> a[k] == old(a[k])
      invariant InsertLast(t, x, le) == InsertLast(t[..j], x, le) + t[j..]
    {
      InsertLastStep(t, j, x, le);
      a[j] := a[j - 1];
      j := j - 1;
    }
    a[j] := x;
    InsertLastStop(t, j, x, le);
    ShiftedIn(a[..i + 1], t, x, j);
  }

  /** A sequence that agrees with `t` before `j`, holds `x` at `j` and `t` shifted by one after it. */
  lemma ShiftedIn<T>(b: seq<T>, t: seq<T>, x: T, j: nat)
    requires |b| == |t| + 1 && j <= |t| && b[j] == x
    requires forall k :: 0 <= k < j ==> b[k] == t[k]
    requires forall k :: j < k < |b| ==> b[k] == t[k - 1]
    ensures b == t[..j] + [x] + t[j..]
  {
    var e := t[..j] + [x] + t[j..];
    forall k | j < k < |b|
      ensures b[k] == e[k]
    {
      assert e[k] == t[k - 1];
    }
  }

  /** The engine's in-place sort of `a` under the comparator `le`. */
  method SortInPlace<T>(a: array<T>, le: (T, T) -> bool)
    modifies a
    ensures a[..] == Sort(old(a[..]), le)
  {
    ghost var s := a[..];
    var i := 0;
    while i < a.Length
      invariant 0 <= i <= a.Length
      invariant a[..i] == Sort(s[..i], le)
      invariant a[i..] == s[i..]
    {
      ghost var prefix := a[..i];
      assert a[i] == s[i];
      assert s[..i + 1][..i] == s[..i];
      assert Sort(s[..i + 1], le) == InsertLast(prefix, s[i], le);
      InsertAt(a, i, le);
      assert a[i + 1..] == s[i + 1..];
      i := i + 1;
    }
    assert s[..a.Length] == s;
  }
}
