/** Lower-case hexadecimal digits. */
module Hex {
  import opened Runs

  function Value(c: char): (v: Option<int>)
    ensures v.Some? ==> 0 <= v.value < 16
  {
    if '0' <= c <= '9' then Some(c as int - '0' as int)
    else if 'a' <= c <= 'f' then Some(c as int - 'a' as int + 10)
    else None
  }

  function Digit(d: int): (c: char)
    requires 0 <= d < 16
    ensures Value(c) == Some(d)
  {
    if d < 10 then ('0' as int + d) as char else ('a' as int + d - 10) as char
  }

  /** The digits are the lower-case ones, in order. */
  lemma DigitIs(d: nat)
    requires d < 16
    ensures Digit(d) == "0123456789abcdef"[d]
  {
  }

  lemma AllDigits()
    ensures forall c :: Value(c).Some? <==> c in "0123456789abcdef"
  {
    forall c | Value(c).Some? ensures c in "0123456789abcdef" {
      DigitIs(Value(c).value);
    }
    forall d | 0 <= d < 16 ensures Value("0123456789abcdef"[d]) == Some(d) {
      DigitIs(d);
    }
  }
}
