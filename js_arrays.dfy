/**
 * The JavaScript array operations the frontend relies on, with the
 * ECMAScript rules for negative and out-of-range indices written out:
 * `indexOf`, `splice`, `slice` and the rotation `a.slice(k).concat(a.slice(0, k))`.
 */
module JsArrays {

  /** `Array.prototype.indexOf`: the first index holding `x`, or -1. */
  function IndexOf<T(==)>(s: seq<T>, x: T): (i: int)
    ensures -1 <= i < |s|
    ensures i == -1 <==> x !in s
    ensures 0 <= i ==> s[i] == x && forall j :: 0 <= j < i ==> s[j] != x
  {
    if |s| == 0 then -1
    else if s[0] == x then 0
    else
      var k := IndexOf(s[1..], x);
      if k == -1 then -1 else k + 1
  }

  /** A relative start index as `splice` and `slice` resolve it against length `len`. */
  function Clamp(start: int, len: nat): (a: nat)
    ensures a <= len
    ensures start < 0 ==> a == if len + start < 0 then 0 else len + start
    ensures 0 <= start ==> a == if start < len then start else len
  {
    if start < 0 then (if len + start < 0 then 0 else len + start)
    else if start < len then start else len
  }

  /** The number of elements `splice(start, deleteCount)` removes. */
  function DeleteCount(len: nat, start: int, deleteCount: int): (c: nat)
    ensures Clamp(start, len) + c <= len
  {
    var a := Clamp(start, len);
    if deleteCount < 0 then 0
    else if deleteCount < len - a then deleteCount else len - a
  }

  /** The elements that `a.splice(start, deleteCount)` returns. */
  function SpliceRemoved<T>(s: seq<T>, start: int, deleteCount: int): (r: seq<T>)
    ensures |r| == DeleteCount(|s|, start, deleteCount)
    ensures r == s[Clamp(start, |s|)..Clamp(start, |s|) + |r|]
  {
    var a := Clamp(start, |s|);
    s[a..a + DeleteCount(|s|, start, deleteCount)]
  }

  /** What is left in `a` after `a.splice(start, deleteCount)`. */
  function SpliceRest<T>(s: seq<T>, start: int, deleteCount: int): (r: seq<T>)
    ensures |r| == |s| - DeleteCount(|s|, start, deleteCount)
    ensures multiset(r) + multiset(SpliceRemoved(s, start, deleteCount)) == multiset(s)
  {
    var a := Clamp(start, |s|);
    var c := DeleteCount(|s|, start, deleteCount);
    assert s == s[..a] + s[a..a + c] + s[a + c..];
    s[..a] + s[a + c..]
  }

  /** `a` after `a.splice(start, 0, x)`. */
  function SpliceInserted<T>(s: seq<T>, start: int, x: T): (r: seq<T>)
    ensures |r| == |s| + 1
    ensures r[Clamp(start, |s|)] == x
    ensures multiset(r) == multiset(s) + multiset{x}
  {
    var a := Clamp(start, |s|);
    assert s == s[..a] + s[a..];
    s[..a] + [x] + s[a..]
  }

  /**
   * After `a.splice(start, deleteCount)` the elements before the clamped
   * start keep their places, and the ones after the removed run move down
   * by the number removed, in order.
   */
  lemma SpliceRestPositions<T>(s: seq<T>, start: int, deleteCount: int)
    ensures var r, a, c := SpliceRest(s, start, deleteCount), Clamp(start, |s|), DeleteCount(|s|, start, deleteCount);
      && (forall i :: 0 <= i < a ==> r[i] == s[i])
      && (forall i :: a <= i < |r| ==> r[i] == s[i + c])
  {
    var a, c := Clamp(start, |s|), DeleteCount(|s|, start, deleteCount);
    var left, right := s[..a], s[a + c..];
    assert SpliceRest(s, start, deleteCount) == left + right;
  }

  /**
   * After `a.splice(start, 0, x)` the elements before the clamped start keep
   * their places, `x` is at the start, and the rest move up by one, in order.
   */
  lemma SpliceInsertedPositions<T>(s: seq<T>, start: int, x: T)
    ensures var r, a := SpliceInserted(s, start, x), Clamp(start, |s|);
      && r[a] == x
      && (forall i :: 0 <= i < a ==> r[i] == s[i])
      && (forall i :: a < i < |r| ==> r[i] == s[i - 1])
  {
  }

  /** `a.slice(start)`. */
  function SliceFrom<T>(s: seq<T>, start: int): seq<T>
  {
    s[Clamp(start, |s|)..]
  }

  /** `a.slice(0, end)`. */
  function SliceTo<T>(s: seq<T>, end: int): seq<T>
  {
    s[..Clamp(end, |s|)]
  }

  /** `s[k:] + s[:k]` for an index inside the sequence: `s` rotated left by `k`. */
  function RotateLeft<T>(s: seq<T>, k: nat): (r: seq<T>)
    requires k <= |s|
    ensures |r| == |s|
    ensures multiset(r) == multiset(s)
    ensures forall i :: 0 <= i < |s| - k ==> r[i] == s[i + k]
    ensures forall i :: |s| - k <= i < |s| ==> r[i] == s[i + k - |s|]
  {
    assert s == s[..k] + s[k..];
    s[k..] + s[..k]
  }

  /** The element `x` removed at index `i`. */
  function RemoveAt<T>(s: seq<T>, i: nat): (r: seq<T>)
    requires i < |s|
    ensures |r| == |s| - 1
  {
    s[..i] + s[i + 1..]
  }

  /** `a.splice(i, 1)` at an index inside the array removes exactly the element there. */
  lemma SpliceOne<T>(s: seq<T>, i: nat)
    requires i < |s|
    ensures SpliceRest(s, i, 1) == RemoveAt(s, i)
    ensures multiset(RemoveAt(s, i)) == multiset(s) - multiset{s[i]}
  {
    assert Clamp(i, |s|) == i && DeleteCount(|s|, i, 1) == 1;
    assert s == s[..i] + [s[i]] + s[i + 1..];
  }

  /** `a.slice(start).concat(a.slice(0, start))` is a left rotation by the clamped start. */
  lemma JsRotationIsRotateLeft<T>(s: seq<T>, start: int)
    ensures SliceFrom(s, start) + SliceTo(s, start) == RotateLeft(s, Clamp(start, |s|))
  {
  }

  /** A left rotation by `k` is undone by a left rotation by `|s| - k`. */
  lemma {:induction false} RotateLeftInverse<T>(s: seq<T>, k: nat)
    requires k <= |s|
    ensures RotateLeft(RotateLeft(s, k), |s| - k) == s
  {
    var r := RotateLeft(s, k);
    assert r[|s| - k..] == s[..k];
    assert r[..|s| - k] == s[k..];
    assert s == s[..k] + s[k..];
  }

  /** `indexOf` finds the first position holding `x`. */
  lemma IndexOfFirst<T>(s: seq<T>, x: T, i: nat)
    requires i < |s| && s[i] == x
    requires forall j :: 0 <= j < i ==> s[j] != x
    ensures IndexOf(s, x) == i
  {
    assert s[i] in s;
  }

  /** In a sequence without repeats, `indexOf` of the element at `i` is `i`. */
  lemma IndexOfDistinct<T>(s: seq<T>, i: nat)
    requires i < |s|
    requires forall a, b :: 0 <= a < b < |s| ==> s[a] != s[b]
    ensures IndexOf(s, s[i]) == i
  {
  }

  /** Array class with the JavaScript in-place operations the components use. */
  class JsArray<T> {
    /** The current contents of the array. */
    var items: seq<T>

    /** `Array.from(s)`: a fresh copy. */
    constructor From(s: seq<T>)
      ensures items == s
    {
      items := s;
    }

    /** `a.splice(start, deleteCount)`: removes and returns a run of elements. */
    method Splice(start: int, deleteCount: int) returns (removed: seq<T>)
      modifies this
      ensures removed == SpliceRemoved(old(items), start, deleteCount)
      ensures items == SpliceRest(old(items), start, deleteCount)
    {
      removed := SpliceRemoved(items, start, deleteCount);
      items := SpliceRest(items, start, deleteCount);
    }

    /** `a.splice(start, 0, x)`: inserts one element. */
    method SpliceInsert(start: int, x: T)
      modifies this
      ensures items == SpliceInserted(old(items), start, x)
    {
      items := SpliceInserted(items, start, x);
    }
  }
}
