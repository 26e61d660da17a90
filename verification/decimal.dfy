/** Java's 32-bit `int`: two's-complement wrap-around, decimal rendering
    (Integer.toString, "%d", `x + ""`) and Integer.parseInt. */
module Decimal {
  import opened Common

  const MinInt: int := -0x8000_0000
  const MaxInt: int := 0x7fff_ffff

  /** The values a Java `int` can hold. */
  type Int32 = x: int | -0x8000_0000 <= x <= 0x7fff_ffff

  /** Reduces an exact result to the `int` Java stores: the unique value in
      range that agrees with it modulo 2^32. */
  function Wrap(x: int): (r: Int32)
    ensures (x - r) % 0x1_0000_0000 == 0
    ensures MinInt <= x <= MaxInt ==> r == x
  {
    var m := x % 0x1_0000_0000;
    if m > MaxInt then m - 0x1_0000_0000 else m
  }

  predicate IsDigit(c: char) {
    '0' <= c <= '9'
  }

  predicate AllDigits(s: string) {
    forall i :: 0 <= i < |s| ==> IsDigit(s[i])
  }

  function DigitChar(d: nat): (c: char)
    requires d < 10
    ensures IsDigit(c) && c as int - '0' as int == d
  {
    ('0' as int + d) as char
  }

  /** The number a string of decimal digits denotes (leading zeros allowed). */
  function DigitsValue(s: string): nat
    requires AllDigits(s)
  {
    if s == [] then 0 else DigitsValue(s[..|s| - 1]) * 10 + (s[|s| - 1] as int - '0' as int)
  }

  /** The shortest decimal digit string of n. */
  function NatDigits(n: nat): (s: string)
    ensures 1 <= |s| && AllDigits(s)
    ensures n > 0 ==> s[0] != '0'
  {
    if n < 10 then [DigitChar(n)] else NatDigits(n / 10) + [DigitChar(n % 10)]
  }

  /** Integer.toString: an optional minus sign followed by the digits of the magnitude. */
  function IntToString(x: int): (s: string)
    ensures 1 <= |s|
    ensures x < 0 <==> s[0] == '-'
    ensures forall i :: 0 < i < |s| ==> IsDigit(s[i])
    ensures IsDigit(s[|s| - 1])
    ensures x >= 0 ==> IsDigit(s[0])
    ensures x < 0 ==> |s| >= 2
    ensures var d := if x < 0 then s[1..] else s; |d| > 1 ==> d[0] != '0'
  {
    if x < 0 then "-" + NatDigits(-x) else NatDigits(x)
  }

  /** Integer.parseInt: an optional '+' or '-' and at least one ASCII digit,
      denoting a value that fits an `int`; anything else is refused. */
  function ParseInt(s: string): (r: Option<Int32>)
    ensures r.Some? ==> 1 <= |s| && forall i :: 0 < i < |s| ==> IsDigit(s[i])
    ensures r.Some? && r.value < 0 ==> s[0] == '-'
    ensures |s| >= 1 && AllDigits(s) ==> (r.Some? <==> DigitsValue(s) <= MaxInt)
    ensures |s| >= 1 && AllDigits(s) && r.Some? ==> r.value == DigitsValue(s)
    ensures |s| >= 1 && !IsDigit(s[0]) && s[0] != '+' && s[0] != '-' ==> r.None?
    ensures r.Some? ==> IsDigit(s[|s| - 1])
    ensures |s| >= 2 && (s[0] == '-' || s[0] == '+') && AllDigits(s[1..]) ==>
              var v: int := if s[0] == '-' then 0 - DigitsValue(s[1..]) as int else DigitsValue(s[1..]);
              (r.Some? <==> MinInt <= v <= MaxInt) && (r.Some? ==> r.value == v)
  {
    if |s| == 0 then None
    else if s[0] == '-' || s[0] == '+' then
      if |s| == 1 || !AllDigits(s[1..]) then None
      else
        var magnitude: int := DigitsValue(s[1..]);
        var v: int := if s[0] == '-' then -magnitude else magnitude;
        if MinInt <= v <= MaxInt then Some(v) else None
    else if !AllDigits(s) then None
    else
      var v := DigitsValue(s);
      if v <= MaxInt then Some(v) else None
  }

  lemma {:induction false} DigitsRoundTrip(n: nat)
    ensures DigitsValue(NatDigits(n)) == n
  {
    if n >= 10 {
      DigitsRoundTrip(n / 10);
      var s := NatDigits(n);
      assert s[..|s| - 1] == NatDigits(n / 10);
    }
  }

  /** The digits Integer.toString writes denote the number's magnitude. */
  lemma IntToStringValue(x: int)
    ensures x >= 0 ==> AllDigits(IntToString(x)) && DigitsValue(IntToString(x)) == x
    ensures x < 0 ==> AllDigits(IntToString(x)[1..]) && DigitsValue(IntToString(x)[1..]) == -x
  {
    if x < 0 {
      DigitsRoundTrip(-x);
      assert IntToString(x)[1..] == NatDigits(-x);
    } else {
      DigitsRoundTrip(x);
    }
  }

  /** Rendering an `int` and parsing it back yields the same `int`. */
  lemma ParseRendered(x: Int32)
    ensures ParseInt(IntToString(x)) == Some(x)
  {
    var n: int := x;
    var s := IntToString(n);
    if n < 0 {
      DigitsRoundTrip(-n);
      assert s[1..] == NatDigits(-n);
    } else {
      DigitsRoundTrip(n);
    }
  }
}
