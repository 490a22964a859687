/** Decimal digits and the rendering of integers as Python's `str(int)` writes them. */
module Decimal {
  import opened Wrappers

  function DigitChar(v: int): (c: char)
    requires 0 <= v < 10
    ensures '0' <= c <= '9' && c as int - '0' as int == v
  {
    ('0' as int + v) as char
  }

  function DigitValue(c: char): (v: int)
    ensures IsDigit(c) ==> 0 <= v < 10
  {
    c as int - '0' as int
  }

  predicate IsDigit(c: char)
  {
    '0' <= c <= '9'
  }

  /** A decimal numeral with no superfluous leading zero. */
  predicate Canonical(s: string)
  {
    0 < |s| && (forall i :: 0 <= i < |s| ==> IsDigit(s[i])) && (s[0] == '0' ==> |s| == 1)
  }

  /** The decimal numeral of `n`. */
  function NatToString(n: nat): (s: string)
    ensures Canonical(s)
    ensures n < 10 <==> |s| == 1
  {
    if n < 10 then [DigitChar(n)]
    else NatToString(n / 10) + [DigitChar(n % 10)]
  }

  /** The value of a string of digits. */
  function ParseDigits(s: string): (n: nat)
    requires forall i :: 0 <= i < |s| ==> IsDigit(s[i])
  {
    if |s| == 0 then 0
    else ParseDigits(s[..|s| - 1]) * 10 + DigitValue(s[|s| - 1])
  }

  /** Reading back a rendered number gives the number. */
  lemma {:induction false} ParseNatToString(n: nat)
    ensures ParseDigits(NatToString(n)) == n
  {
    if n >= 10 {
      var s := NatToString(n);
      ParseNatToString(n / 10);
      assert s[..|s| - 1] == NatToString(n / 10);
    }
  }

  /** A numeral without leading zeros of two or more digits has a value of at least 10. */
  lemma {:induction false} ParseDigitsAtLeast(s: string)
    requires Canonical(s) && 1 < |s|
    ensures 10 <= ParseDigits(s)
    decreases |s|
  {
    var p := s[..|s| - 1];
    assert p[0] == s[0];
    if |p| == 1 {
      assert ParseDigits(p) == ParseDigits(p[..0]) * 10 + DigitValue(p[0]);
      assert 1 <= ParseDigits(p);
    } else {
      ParseDigitsAtLeast(p);
    }
  }

  /** Rendering the value of a canonical numeral gives the numeral back. */
  lemma {:induction false} NatToStringParse(s: string)
    requires Canonical(s)
    ensures NatToString(ParseDigits(s)) == s
    decreases |s|
  {
    var n := ParseDigits(s);
    if |s| == 1 {
      assert s[..0] == [];
      assert ParseDigits(s[..0]) == 0;
      assert n == DigitValue(s[0]);
    } else {
      var p := s[..|s| - 1];
      assert p[0] == s[0];
      ParseDigitsAtLeast(s);
      NatToStringParse(p);
      assert n / 10 == ParseDigits(p) && n % 10 == DigitValue(s[|s| - 1]);
      assert s == p + [s[|s| - 1]];
    }
  }

  /** `str(i)` for an integer. */
  function IntToString(i: int): (s: string)
    ensures 0 < |s|
    ensures forall k :: 0 <= k < |s| ==> s[k] != ',' && s[k] != ' ' && s[k] != ']'
  {
    if i < 0 then "-" + NatToString(-i) else NatToString(i)
  }

  /** A JSON integer as `json.dumps` writes one; `None` for anything else. */
  function StringToInt(s: string): (r: Option<int>)
  {
    if 0 < |s| && s[0] == '-' && Canonical(s[1..]) && s[1..] != "0" then Some(0 - ParseDigits(s[1..]))
    else if Canonical(s) then Some(ParseDigits(s))
    else None
  }

  /** `int(str(i)) == i`. */
  lemma IntRoundTrip(i: int)
    ensures StringToInt(IntToString(i)) == Some(i)
  {
    if i < 0 {
      var s := IntToString(i);
      assert s[1..] == NatToString(-i);
      ParseNatToString(-i);
    } else {
      ParseNatToString(i);
    }
  }

  /** Every numeral `StringToInt` accepts is what `IntToString` writes for its value. */
  lemma IntCanonical(s: string)
    requires StringToInt(s).Some?
    ensures IntToString(StringToInt(s).value) == s
  {
    if 0 < |s| && s[0] == '-' && Canonical(s[1..]) && s[1..] != "0" {
      NatToStringParse(s[1..]);
      assert s == "-" + s[1..];
    } else {
      NatToStringParse(s);
    }
  }
}
