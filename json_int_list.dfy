/**
 * The queue of a schedule is stored as the text `json.dumps(list[int])`
 * and read back with `json.loads`.  `Encode` writes that text; `Decode`
 * reads exactly the texts `Encode` writes (`json.loads` also takes other
 * spacing, which the stored text never has).
 */
module JsonIntList {
  import opened Wrappers
  import opened Decimal
  import opened JsArrays

  /** The items of a list, as `json.dumps` separates them: `", "`. */
  function Join(xs: seq<int>): string
    decreases |xs|
  {
    if |xs| == 0 then ""
    else if |xs| == 1 then IntToString(xs[0])
    else IntToString(xs[0]) + ", " + Join(xs[1..])
  }

  /** `json.dumps(xs)` for a list of integers. */
  function Encode(xs: seq<int>): (s: string)
    ensures 2 <= |s| && s[0] == '[' && s[|s| - 1] == ']'
    ensures xs == [] <==> s == "[]"
  {
    "[" + Join(xs) + "]"
  }

  /** A one-item list, when the item is an integer. */
  function Single(x: Option<int>): (r: Option<seq<int>>)
  {
    if x.Some? then Some([x.value]) else None
  }

  /** The first item before the rest, when both were read. */
  function Cons(x: Option<int>, rest: Option<seq<int>>): (r: Option<seq<int>>)
  {
    if x.Some? && rest.Some? then Some([x.value] + rest.value) else None
  }

  /** The items between the brackets: integers separated by `", "`, at least one. */
  function DecodeItems(b: string): (r: Option<seq<int>>)
    ensures r.Some? ==> 0 < |r.value|
    decreases |b|
  {
    var k := IndexOf(b, ',');
    if k < 0 then Single(StringToInt(b))
    else if k + 1 < |b| && b[k + 1] == ' ' then Cons(StringToInt(b[..k]), DecodeItems(b[k + 2..]))
    else None
  }

  /** `json.loads(s)` for the text of a list of integers; `None` when `s` is not one. */
  function Decode(s: string): Option<seq<int>>
  {
    if |s| < 2 || s[0] != '[' || s[|s| - 1] != ']' then None
    else if |s| == 2 then Some([])
    else DecodeItems(s[1..|s| - 1])
  }

  /** The first comma of `IntToString(x) + ", " + rest` is the one after the number. */
  lemma FirstComma(x: int, rest: string)
    ensures var b := IntToString(x) + ", " + rest;
      IndexOf(b, ',') == |IntToString(x)|
  {
    var a := IntToString(x);
    var b := a + ", " + rest;
    assert b[|a|] == ',';
    assert forall j :: 0 <= j < |a| ==> b[j] == a[j];
  }

  /** An item followed by `", "` and more items decodes item by item. */
  lemma DecodeCons(a: string, rest: string, x: int)
    requires StringToInt(a) == Some(x) && IndexOf(a + ", " + rest, ',') == |a|
    ensures DecodeItems(a + ", " + rest) ==
      if DecodeItems(rest).Some? then Some([x] + DecodeItems(rest).value) else None
  {
    var b := a + ", " + rest;
    assert b[..|a|] == a;
    assert b[|a| + 2..] == rest;
  }

  lemma {:induction false} DecodeJoin(xs: seq<int>)
    requires 0 < |xs|
    ensures DecodeItems(Join(xs)) == Some(xs)
    decreases |xs|
  {
    var a := IntToString(xs[0]);
    IntRoundTrip(xs[0]);
    if |xs| == 1 {
      assert ',' !in a;
      assert xs == [xs[0]];
    } else {
      FirstComma(xs[0], Join(xs[1..]));
      DecodeJoin(xs[1..]);
      DecodeCons(a, Join(xs[1..]), xs[0]);
      assert [xs[0]] + xs[1..] == xs;
    }
  }

  /** Reading the stored text gives back the list written: `json.loads(json.dumps(xs)) == xs`. */
  lemma DecodeEncode(xs: seq<int>)
    ensures Decode(Encode(xs)) == Some(xs)
  {
    var s := Encode(xs);
    if |xs| > 0 {
      assert s[1..|s| - 1] == Join(xs);
      DecodeJoin(xs);
    }
  }

  /** Item text with a comma is a first item, `", "` and the remaining item text. */
  lemma DecodeUncons(b: string)
    requires DecodeItems(b).Some? && 0 <= IndexOf(b, ',')
    ensures var k := IndexOf(b, ',');
      && k + 2 <= |b| && b == b[..k] + ", " + b[k + 2..]
      && StringToInt(b[..k]).Some? && DecodeItems(b[k + 2..]).Some?
      && DecodeItems(b).value == [StringToInt(b[..k]).value] + DecodeItems(b[k + 2..]).value
  {
    var k := IndexOf(b, ',');
    assert k + 1 < |b| && b[k + 1] == ' ';
    assert DecodeItems(b) == Cons(StringToInt(b[..k]), DecodeItems(b[k + 2..]));
    SeparatorSplit(b, k);
  }

  lemma SeparatorSplit(b: string, k: nat)
    requires k + 2 <= |b| && b[k] == ',' && b[k + 1] == ' '
    ensures b == b[..k] + ", " + b[k + 2..]
  {
    assert b[k..k + 2] == ", ";
    assert b == b[..k] + b[k..k + 2] + b[k + 2..];
  }

  lemma {:induction false} JoinDecode(b: string)
    requires DecodeItems(b).Some?
    ensures Join(DecodeItems(b).value) == b
    decreases |b|
  {
    var k := IndexOf(b, ',');
    if k < 0 {
      IntCanonical(b);
    } else {
      DecodeUncons(b);
      var x := StringToInt(b[..k]).value;
      var rest := DecodeItems(b[k + 2..]).value;
      IntCanonical(b[..k]);
      JoinDecode(b[k + 2..]);
      var xs := [x] + rest;
      assert xs[0] == x && xs[1..] == rest;
    }
  }

  /** `Decode` accepts only texts `Encode` writes: the stored text is a function of the list. */
  lemma EncodeDecode(s: string)
    requires Decode(s).Some?
    ensures Encode(Decode(s).value) == s
  {
    var b := s[1..|s| - 1];
    assert s == "[" + b + "]";
    if |s| > 2 {
      assert Decode(s) == DecodeItems(b);
      JoinDecode(b);
    } else {
      assert b == "";
    }
  }
}
