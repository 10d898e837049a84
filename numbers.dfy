/**
 * Fixed-width integers and decimal text, as the variable layer uses them:
 * `strconv.ParseInt(s, 10, 64)`, `strconv.Atoi` (with Go's `int` 64 bits
 * wide), `strconv.ParseUint(s, 10, 64)` and `fmt.Sprintf("%d", n)`.
 */
module Numbers {
  import opened Wrappers

  const TWO_31: int := 0x8000_0000
  const TWO_32: int := 0x1_0000_0000
  const TWO_63: int := 0x8000_0000_0000_0000
  const TWO_64: int := 0x1_0000_0000_0000_0000

  type int32 = x: int | -TWO_31 <= x < TWO_31
  type uint32 = x: int | 0 <= x < TWO_32
  type int64 = x: int | -TWO_63 <= x < TWO_63
  type uint64 = x: int | 0 <= x < TWO_64

  predicate IsDigit(c: char) { '0' <= c <= '9' }

  predicate AllDigits(s: string)
  {
    forall i :: 0 <= i < |s| ==> IsDigit(s[i])
  }

  function DigitChar(d: nat): (c: char)
    requires d < 10
    ensures IsDigit(c)
  {
    ('0' as int + d) as char
  }

  /** The number a string of decimal digits denotes, most significant digit first. */
  function DigitsValue(s: string): nat
    requires AllDigits(s)
  {
    if |s| == 0 then 0 else DigitsValue(s[..|s| - 1]) * 10 + (s[|s| - 1] as int - '0' as int)
  }

  /** `strconv.ParseUint(s, 10, 64)`: one or more decimal digits, no sign, at most 2^64 - 1. */
  function ParseUint64(s: string): (r: Option<uint64>)
    ensures r.Some? ==> 0 < |s| && AllDigits(s) && r.value == DigitsValue(s)
    ensures r.Some? && Canonical(s) ==> FormatNat(r.value) == s
    ensures 0 < |s| && AllDigits(s) ==> r == (if DigitsValue(s) < TWO_64 then Some(DigitsValue(s)) else None)
    ensures 0 < |s| && !IsDigit(s[0]) ==> r.None?
  {
    if 0 < |s| && AllDigits(s) && DigitsValue(s) < TWO_64 then
      assert Canonical(s) ==> FormatNat(DigitsValue(s)) == s by {
        if Canonical(s) { FormatParse(s); }
      }
      Some(DigitsValue(s))
    else None
  }

  /**
   * `strconv.ParseInt(s, 10, 64)`, and `strconv.Atoi(s)` on a 64-bit platform:
   * an optional '+' or '-', then one or more decimal digits, with the value in
   * the signed 64-bit range.
   */
  function ParseInt64(s: string): (r: Option<int64>)
    ensures r.Some? ==> 0 < |s| && (AllDigits(s) || (1 < |s| && (s[0] == '+' || s[0] == '-') && AllDigits(s[1..])))
    ensures 0 < |s| && s[0] == '-' && r.Some? ==> r.value <= 0
    ensures 0 < |s| && AllDigits(s) ==> r == (if DigitsValue(s) < TWO_63 then Some(DigitsValue(s)) else None)
    ensures 0 < |s| && !IsDigit(s[0]) && s[0] != '+' && s[0] != '-' ==> r.None?
  {
    var signed := 0 < |s| && (s[0] == '+' || s[0] == '-');
    var digits := if signed then s[1..] else s;
    if 0 < |digits| && AllDigits(digits) then
      var m: int := DigitsValue(digits);
      var v := if signed && s[0] == '-' then -m else m;
      if -TWO_63 <= v < TWO_63 then Some(v) else None
    else
      None
  }

  /** `fmt.Sprintf("%d", n)` for a natural number: digits only, no leading zero. */
  function FormatNat(n: nat): (r: string)
    ensures 0 < |r| && AllDigits(r)
    ensures r[0] == '0' <==> n == 0
    ensures n == 0 ==> r == "0"
  {
    if n < 10 then [DigitChar(n)] else FormatNat(n / 10) + [DigitChar(n % 10)]
  }

  /** The text `fmt` prints has no superfluous leading zero. */
  predicate Canonical(s: string)
  {
    0 < |s| && AllDigits(s) && (s[0] == '0' ==> |s| == 1)
  }

  /** Printing and then reading the digits gives the number back. */
  lemma {:induction false} FormatNatValue(n: nat)
    ensures Canonical(FormatNat(n))
    ensures DigitsValue(FormatNat(n)) == n
  {
    if n >= 10 {
      FormatNatValue(n / 10);
      var s := FormatNat(n);
      assert s[..|s| - 1] == FormatNat(n / 10);
    }
  }

  /** A digit string whose first digit is not zero denotes at least 10^(length-1), so at least one. */
  lemma {:induction false} LeadingDigitPositive(s: string)
    requires 0 < |s| && AllDigits(s) && s[0] != '0'
    ensures DigitsValue(s) >= 1
  {
    if |s| > 1 {
      LeadingDigitPositive(s[..|s| - 1]);
    }
  }

  /** Reading canonical digits and printing the number gives the same text back. */
  lemma {:induction false} FormatParse(s: string)
    requires Canonical(s)
    ensures FormatNat(DigitsValue(s)) == s
  {
    var n := DigitsValue(s);
    if |s| > 1 {
      var front := s[..|s| - 1];
      LeadingDigitPositive(front);
      FormatParse(front);
      assert n / 10 == DigitsValue(front) && n % 10 == s[|s| - 1] as int - '0' as int;
      assert s == front + [s[|s| - 1]];
    }
  }

  /** `ParseUint(FormatNat(n)) == n` for every unsigned 64-bit `n`. */
  lemma ParseFormatUint(n: uint64)
    ensures ParseUint64(FormatNat(n)) == Some(n)
  {
    FormatNatValue(n);
  }

  /** `ParseInt(FormatNat(n)) == n` for every non-negative signed 64-bit `n`. */
  lemma ParseFormatInt(n: nat)
    requires n < TWO_63
    ensures ParseInt64(FormatNat(n)) == Some(n)
  {
    FormatNatValue(n);
  }

  /** A leading '+' changes nothing: the digits after it are read as they would be without it. */
  lemma ParsePlusSign(digits: string)
    requires 0 < |digits| && AllDigits(digits)
    ensures ParseInt64("+" + digits) == ParseInt64(digits)
  {
    assert ("+" + digits)[1..] == digits;
  }

  /**
   * A leading '-' negates the digits after it, and the signed range reaches
   * one further below zero than above it: 2^63 is refused, but -2^63 is read.
   */
  lemma ParseMinusSign(digits: string)
    requires 0 < |digits| && AllDigits(digits)
    ensures ParseInt64("-" + digits)
            == if DigitsValue(digits) <= TWO_63 then Some(0 - DigitsValue(digits) as int) else None
  {
    assert ("-" + digits)[1..] == digits;
  }

  /** `ParseInt` reads back every printed negative signed 64-bit number. */
  lemma ParseFormatNegative(n: nat)
    requires 0 < n <= TWO_63
    ensures ParseInt64("-" + FormatNat(n)) == Some(0 - n as int)
  {
    FormatNatValue(n);
    ParseMinusSign(FormatNat(n));
  }

  /** A digit string that fits both parsers reads as the same number under both. */
  lemma ParsersAgree(s: string)
    requires ParseUint64(s).Some? && ParseUint64(s).value < TWO_63
    ensures ParseInt64(s) == ParseUint64(s)
  {
  }

  /** A sign is never accepted by the unsigned parser, and a minus sign with digits is always negative or zero. */
  lemma SignedText(s: string)
    requires 0 < |s| && (s[0] == '+' || s[0] == '-')
    ensures ParseUint64(s).None?
    ensures s[0] == '-' && ParseInt64(s).Some? ==> ParseInt64(s).value <= 0
  {
    assert !IsDigit(s[0]);
  }

  /** The text of `10 * n + d` is the text of `n` followed by the digit `d`. */
  lemma FormatStep(n: nat, d: nat)
    requires 1 <= n && d < 10
    ensures FormatNat(10 * n + d) == FormatNat(n) + [DigitChar(d)]
  {
  }
}
