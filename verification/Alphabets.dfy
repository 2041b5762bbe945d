/** ASCII letters and digits, spelled out, and as ranges. */
module Alphabets {
  const UPPER := "ABCDEFGHIJKLMNOPQRSTUVWXYZ"
  const LOWER := "abcdefghijklmnopqrstuvwxyz"
  const DIGITS := "0123456789"

  lemma UpperIs(c: char)
    ensures 'A' <= c <= 'Z' <==> c in UPPER
    ensures 'A' <= c <= 'Z' ==> UPPER[c as int - 'A' as int] == c
  {
    assert forall k :: 0 <= k < |UPPER| ==> UPPER[k] as int == 'A' as int + k;
    if 'A' <= c <= 'Z' { assert UPPER[c as int - 'A' as int] as int == c as int; }
  }

  lemma LowerIs(c: char)
    ensures 'a' <= c <= 'z' <==> c in LOWER
    ensures 'a' <= c <= 'z' ==> LOWER[c as int - 'a' as int] == c
  {
    assert forall k :: 0 <= k < |LOWER| ==> LOWER[k] as int == 'a' as int + k;
    if 'a' <= c <= 'z' { assert LOWER[c as int - 'a' as int] as int == c as int; }
  }

  lemma DigitIs(c: char)
    ensures '0' <= c <= '9' <==> c in DIGITS
  {
    assert forall k :: 0 <= k < |DIGITS| ==> DIGITS[k] as int == '0' as int + k;
    if '0' <= c <= '9' { assert DIGITS[c as int - '0' as int] as int == c as int; }
  }
}
