/** Bytes and the ASCII byte values the bencode format and the command line use. */
module Ascii {
  import opened Wrappers

  /** One byte of a Python `bytes` object. */
  type Byte = b: int | 0 <= b < 256

  const Minus: Byte := 45  // '-'
  const Zero: Byte := 48   // '0'
  const Colon: Byte := 58  // ':'

  predicate IsDigit(b: Byte) {
    Zero <= b < Zero + 10
  }

  /** Every byte of t is a digit; stated from the last byte back, as the digits are read. */
  predicate AllDigits(t: seq<Byte>)
    decreases |t|
  {
    t == [] || (IsDigit(t[|t| - 1]) && AllDigits(t[..|t| - 1]))
  }

  lemma {:induction false} AllDigitsIndex(t: seq<Byte>)
    ensures AllDigits(t) <==> forall i :: 0 <= i < |t| ==> IsDigit(t[i])
    decreases |t|
  {
    if t != [] {
      var u := t[..|t| - 1];
      AllDigitsIndex(u);
      assert forall i :: 0 <= i < |u| ==> u[i] == t[i];
    }
  }

  /** A byte Python's single-byte `bytes.decode()` accepts: UTF-8 decodes a lone byte only below 0x80. */
  predicate IsAscii(b: Byte) {
    b < 128
  }

  /** The bytes of a text all of whose characters are ASCII; None when one is not. */
  function AsciiBytes(s: string): (r: Option<seq<Byte>>)
    ensures r.Some? <==> forall i :: 0 <= i < |s| ==> s[i] as int < 128
    ensures r.Some? ==> |r.value| == |s| && forall i :: 0 <= i < |s| ==> r.value[i] == s[i] as int
  {
    if s == [] then Some([])
    else if s[0] as int >= 128 then None
    else match AsciiBytes(s[1..])
      case None => None
      case Some(rest) => Some([s[0] as int as Byte] + rest)
  }
}
