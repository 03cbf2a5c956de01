/** Values and text helpers shared by the component models. */
module Common {
  datatype Option<+T> = None | Some(value: T)

  const INT64_MIN := -0x8000_0000_0000_0000
  const INT64_MAX := 0x7FFF_FFFF_FFFF_FFFF

  type int64 = n: int | INT64_MIN <= n <= INT64_MAX

  predicate IsDigit(c: char) { '0' <= c <= '9' }

  predicate AllDigits(s: string) { forall c | c in s :: IsDigit(c) }

  function DigitChar(d: nat): (c: char)
    requires d < 10
    ensures IsDigit(c) && DigitValue(c) == d
  {
    ['0', '1', '2', '3', '4', '5', '6', '7', '8', '9'][d]
  }

  function DigitValue(c: char): nat
    requires IsDigit(c)
  {
    c as int - '0' as int
  }

  /** Decimal text of a natural number, as `operator<<` and `std::to_string` write it. */
  function PrintNat(n: nat): (s: string)
    ensures s != "" && AllDigits(s)
    ensures ReadNat(s) == n
  {
    if n < 10 then [DigitChar(n)] else PrintNat(n / 10) + [DigitChar(n % 10)]
  }

  function ReadNat(s: string): nat
    requires AllDigits(s)
  {
    if s == "" then 0 else 10 * ReadNat(s[..|s| - 1]) + DigitValue(s[|s| - 1])
  }

  function PrintInt(n: int): (s: string)
    ensures s != "" && forall c | c in s :: IsDigit(c) || c == '-'
  {
    if n < 0 then "-" + PrintNat(-n) else PrintNat(n)
  }

  predicate IsSpace(c: char) { c == ' ' || '\t' <= c <= '\r' }

  function DigitSpan(s: string): (d: string)
    ensures AllDigits(d) && d <= s
  {
    if s == "" || !IsDigit(s[0]) then "" else [s[0]] + DigitSpan(s[1..])
  }

  /** `std::stoll`: leading blanks, an optional sign, then the longest digit run; anything
      after it is ignored. `None` is the exception (no digits, or out of the 64-bit range). */
  function Stoll(s: string): Option<int64> {
    if s != "" && IsSpace(s[0]) then Stoll(s[1..])
    else
      var signed := s != "" && (s[0] == '-' || s[0] == '+');
      var digits := DigitSpan(if signed then s[1..] else s);
      if digits == "" then None
      else
        var magnitude: int := ReadNat(digits);
        var n := if signed && s[0] == '-' then -magnitude else magnitude;
        if INT64_MIN <= n <= INT64_MAX then Some(n) else None
  }

  lemma {:induction false} DigitSpanOfDigits(s: string)
    requires AllDigits(s)
    ensures DigitSpan(s) == s
  {
    if s != "" {
      DigitSpanOfDigits(s[1..]);
    }
  }

  /** Reading back a printed 64-bit integer gives that integer. */
  lemma StollPrintInt(n: int64)
    ensures Stoll(PrintInt(n)) == Some(n)
  {
    if n < 0 {
      var magnitude: int := n;
      var digits := PrintNat(-magnitude);
      DigitSpanOfDigits(digits);
      var s := "-" + digits;
      assert s[1..] == digits && s[0] == '-' && !IsSpace(s[0]);
    } else {
      var digits := PrintNat(n);
      DigitSpanOfDigits(digits);
      assert IsDigit(digits[0]) && !IsSpace(digits[0]);
    }
  }
}
