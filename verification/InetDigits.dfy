/** The digits of numbers in text, read and printed in base 10 and 16. */
module InetDigits {

  predicate IsDigit(c: char) {
    '0' <= c <= '9'
  }

  predicate IsHexDigit(c: char) {
    '0' <= c <= '9' || 'a' <= c <= 'f' || 'A' <= c <= 'F'
  }

  predicate IsSpace(c: char) {
    c == ' ' || c == '\t' || c == '\n' || c == '\r' || c == 11 as char || c == 12 as char
  }

  function DigitValue(c: char): int
    requires IsHexDigit(c)
  {
    if '0' <= c <= '9' then c as int - '0' as int
    else if 'a' <= c <= 'f' then c as int - 'a' as int + 10
    else c as int - 'A' as int + 10
  }

  predicate AllDigits(s: string) {
    forall i :: 0 <= i < |s| ==> IsDigit(s[i])
  }

  predicate AllHexDigits(s: string) {
    forall i :: 0 <= i < |s| ==> IsHexDigit(s[i])
  }

  /** The number that digits denote in a base. */
  function Number(s: string, base: nat): int
    requires AllHexDigits(s)
  {
    if s == "" then 0 else Number(s[..|s| - 1], base) * base + DigitValue(s[|s| - 1])
  }

  lemma NumberOfAppended(s: string, c: char, base: nat)
    requires AllHexDigits(s) && IsHexDigit(c)
    ensures Number(s + [c], base) == Number(s, base) * base + DigitValue(c)
  {
    assert (s + [c])[..|s + [c]| - 1] == s;
  }

  function DigitChar(d: int): char
    requires 0 <= d < 16
  {
    if d < 10 then ('0' as int + d) as char else ('a' as int + d - 10) as char
  }

  lemma DigitOfChar(d: int)
    requires 0 <= d < 16
    ensures IsHexDigit(DigitChar(d)) && DigitValue(DigitChar(d)) == d
    ensures d < 10 ==> IsDigit(DigitChar(d))
  {
  }

  /** What %x prints. */
  function Hex(v: nat): string {
    if v < 16 then [DigitChar(v)] else Hex(v / 16) + [DigitChar(v % 16)]
  }

  /** What %d prints of a number that is not negative. */
  function Dec(v: nat): string {
    if v < 10 then [DigitChar(v)] else Dec(v / 10) + [DigitChar(v % 10)]
  }

  lemma {:induction false} NumberOfHex(v: nat)
    ensures Hex(v) != "" && AllHexDigits(Hex(v)) && Number(Hex(v), 16) == v
  {
    DigitOfChar(v % 16);
    if v < 16 {
      NumberOfAppended("", DigitChar(v), 16);
      assert "" + [DigitChar(v)] == [DigitChar(v)];
    } else {
      NumberOfHex(v / 16);
      NumberOfAppended(Hex(v / 16), DigitChar(v % 16), 16);
    }
  }

  lemma {:induction false} NumberOfDec(v: nat)
    ensures Dec(v) != "" && AllHexDigits(Dec(v)) && AllDigits(Dec(v)) && Number(Dec(v), 10) == v
  {
    DigitOfChar(v % 10);
    if v < 10 {
      NumberOfAppended("", DigitChar(v), 10);
      assert "" + [DigitChar(v)] == [DigitChar(v)];
    } else {
      NumberOfDec(v / 10);
      NumberOfAppended(Dec(v / 10), DigitChar(v % 10), 10);
    }
  }

  lemma HexLength(v: nat)
    requires v < 0x10000
    ensures 1 <= |Hex(v)| <= 4
  {
    HexLengthStep(v);
    HexLengthStep(v / 16);
    HexLengthStep(v / 16 / 16);
    HexLengthStep(v / 16 / 16 / 16);
  }

  lemma HexLengthStep(v: nat)
    ensures if v < 16 then |Hex(v)| == 1 else |Hex(v)| == |Hex(v / 16)| + 1
  {
  }

  lemma DecLength(v: nat)
    requires v < 256
    ensures 1 <= |Dec(v)| <= 3
  {
    assert v >= 10 ==> |Dec(v)| == |Dec(v / 10)| + 1;
    assert v / 10 >= 10 ==> |Dec(v / 10)| == |Dec(v / 10 / 10)| + 1;
  }
}
