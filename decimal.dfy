/**
 * Decimal text of integers, as Python's `str(n)` writes it and as `int(text)`
 * reads it back, restricted to an optional '-' followed by ASCII digits.
 */
module Decimal {
  import opened Wrappers
  import opened Ascii

  function DigitByte(d: nat): (b: Byte)
    requires d < 10
    ensures IsDigit(b) && b - Zero == d
  {
    Zero + d
  }

  /** `str(n)` for a non-negative n: its digits, most significant first, no leading zero. */
  function NatText(n: nat): (t: seq<Byte>)
    ensures 0 < |t| && AllDigits(t) && IsDigit(t[0])
    ensures |t| > 1 ==> t[0] != Zero
    decreases n
  {
    if n < 10 then [DigitByte(n)]
    else
      var t := NatText(n / 10) + [DigitByte(n % 10)];
      assert t[..|t| - 1] == NatText(n / 10);
      t
  }

  /** `str(n)`: a '-' in front of the digits when n is negative. */
  function IntText(n: int): (t: seq<Byte>)
    ensures 0 < |t|
    ensures t[0] == Minus <==> n < 0
    ensures if n < 0 then t[1..] == NatText(-n) else t == NatText(n)
  {
    if n < 0 then [Minus] + NatText(-n) else NatText(n)
  }

  /** Every byte of `str(n)` is a digit, but for a leading '-'. */
  lemma IntTextBytes(n: int)
    ensures forall i :: 0 <= i < |IntText(n)| ==> IsDigit(IntText(n)[i]) || (i == 0 && IntText(n)[i] == Minus)
  {
    var t := IntText(n);
    if n < 0 {
      AllDigitsIndex(t[1..]);
      assert forall i :: 1 <= i < |t| ==> t[i] == t[1..][i - 1];
    } else {
      AllDigitsIndex(t);
    }
  }

  /** The number a string of digits denotes. */
  function DigitsValue(t: seq<Byte>): nat
    requires AllDigits(t)
  {
    if t == [] then 0 else DigitsValue(t[..|t| - 1]) * 10 + (t[|t| - 1] - Zero)
  }

  /** `int(text)` on texts of the form -?[0-9]+; None where Python raises ValueError. */
  function ParseInt(t: seq<Byte>): (r: Option<int>)
    ensures r.Some? <==> (0 < |t| && AllDigits(t)) || (1 < |t| && t[0] == Minus && AllDigits(t[1..]))
    ensures r.Some? && IsDigit(t[0]) ==> r.value >= 0
  {
    if 0 < |t| && AllDigits(t) then Some(DigitsValue(t))
    else if 1 < |t| && t[0] == Minus && AllDigits(t[1..]) then Some(-(DigitsValue(t[1..]) as int))
    else None
  }

  lemma {:induction false} NatTextValue(n: nat)
    ensures DigitsValue(NatText(n)) == n
    decreases n
  {
    if n >= 10 {
      NatTextValue(n / 10);
      var t := NatText(n);
      assert t[..|t| - 1] == NatText(n / 10);
    }
  }

  /** Reading back what `str(n)` wrote gives n. */
  lemma ParseIntText(n: int)
    ensures ParseInt(IntText(n)) == Some(n)
  {
    if n < 0 {
      AllDigitsIndex(IntText(n));
      NatTextValue(-n);
      assert IntText(n)[1..] == NatText(-n);
    } else {
      NatTextValue(n);
    }
  }
}
