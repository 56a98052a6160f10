/**
 * The parts of Go's `strconv` package the repository leans on: `Atoi` for
 * query parameters and environment variables, `ParseBool` for environment
 * flags, and decimal formatting as the inverse of `Atoi`. Go's `int` is the
 * 64-bit signed integer of the platforms the service is built for.
 */
module Strconv {
  import opened Wrappers

  const MinInt64: int := -0x8000_0000_0000_0000
  const MaxInt64: int := 0x7FFF_FFFF_FFFF_FFFF

  predicate InInt64(n: int) { MinInt64 <= n <= MaxInt64 }

  /** A value of Go's `int`. */
  type Int64 = n: int | InInt64(n)

  /** Two's-complement wrap-around of an unbounded integer into Go's `int`. */
  function Wrap64(n: int): (r: int)
    ensures InInt64(r)
    ensures InInt64(n) ==> r == n
    ensures (r - n) % 0x1_0000_0000_0000_0000 == 0
  {
    (n - MinInt64) % 0x1_0000_0000_0000_0000 + MinInt64
  }

  predicate IsDigit(c: char) { '0' <= c <= '9' }

  predicate AllDigits(s: string) { forall i :: 0 <= i < |s| ==> IsDigit(s[i]) }

  /** The value of a run of decimal digits, most significant first. */
  function DigitsValue(s: string): (v: nat)
    requires AllDigits(s)
  {
    if |s| == 0 then 0
    else DigitsValue(s[..|s| - 1]) * 10 + (s[|s| - 1] as int - '0' as int)
  }

  /** The text after an optional leading '+' or '-'. */
  function Unsigned(s: string): (d: string)
    ensures |d| <= |s|
  {
    if |s| > 0 && (s[0] == '+' || s[0] == '-') then s[1..] else s
  }

  predicate Negative(s: string) { |s| > 0 && s[0] == '-' }

  /** Decimal integer syntax: an optional sign, then at least one digit. */
  predicate IsInteger(s: string) { |Unsigned(s)| > 0 && AllDigits(Unsigned(s)) }

  /** The mathematical value of a text in decimal integer syntax. */
  function IntegerValue(s: string): int
    requires IsInteger(s)
  {
    var m: int := DigitsValue(Unsigned(s));
    if Negative(s) then -m else m
  }

  /** `strconv.Atoi`: an optional sign followed by at least one decimal digit,
      rejected when the value does not fit Go's `int`. `None` is the non-nil
      error (syntax or range). */
  function Atoi(s: string): (r: Option<int>)
    ensures r.Some? <==> IsInteger(s) && InInt64(IntegerValue(s))
    ensures r.Some? ==> r.value == IntegerValue(s)
    ensures r.Some? ==> InInt64(r.value)
    ensures r.Some? ==> |s| > 0
  {
    var sign := if |s| > 0 && (s[0] == '+' || s[0] == '-') then 1 else 0;
    var digits := s[sign..];
    if |digits| == 0 || !AllDigits(digits) then None
    else
      var magnitude: int := DigitsValue(digits);
      var v: int := if sign == 1 && s[0] == '-' then -magnitude else magnitude;
      if InInt64(v) then Some(v) else None
  }

  function DigitChar(d: nat): (c: char)
    requires d < 10
    ensures IsDigit(c)
  {
    ('0' as int + d) as char
  }

  /** Decimal digits of a natural number, without leading zeros. */
  function FormatNat(n: nat): (s: string)
    ensures |s| > 0 && AllDigits(s)
    decreases n
  {
    if n < 10 then [DigitChar(n)] else FormatNat(n / 10) + [DigitChar(n % 10)]
  }

  /** `strconv.Itoa`: a leading '-' for negative numbers, then the digits. */
  function Itoa(n: int): string
  {
    if n < 0 then "-" + FormatNat(-n) else FormatNat(n)
  }

  lemma {:induction false} FormatNatValue(n: nat)
    ensures DigitsValue(FormatNat(n)) == n
    decreases n
  {
    var s := FormatNat(n);
    if n >= 10 {
      FormatNatValue(n / 10);
      assert s[..|s| - 1] == FormatNat(n / 10);
    }
  }

  /** `Atoi` inverts `Itoa` on every value of Go's `int`. */
  lemma AtoiItoa(n: int)
    requires InInt64(n)
    ensures Atoi(Itoa(n)) == Some(n)
  {
    var s := Itoa(n);
    if n < 0 {
      FormatNatValue(-n);
      assert Unsigned(s) == FormatNat(-n);
    } else {
      FormatNatValue(n);
      assert Unsigned(s) == FormatNat(n);
    }
    assert IsInteger(s) && IntegerValue(s) == n;
  }

  /** The digits without their leading zeros, keeping a lone "0". */
  function TrimZeros(d: string): (t: string)
    ensures |t| <= |d|
  {
    if |d| > 1 && d[0] == '0' then TrimZeros(d[1..]) else d
  }

  /** Digits in the form `FormatNat` produces: no leading zero unless the
      number is zero itself. */
  predicate Canonical(t: string)
  {
    |t| >= 1 && AllDigits(t) && (|t| == 1 || t[0] != '0')
  }

  lemma {:induction false} LeadingZeroValue(t: string)
    requires AllDigits(t)
    ensures AllDigits(['0'] + t) && DigitsValue(['0'] + t) == DigitsValue(t)
    decreases |t|
  {
    var u := ['0'] + t;
    if |t| == 0 {
      assert u[..0] == [];
    } else {
      LeadingZeroValue(t[..|t| - 1]);
      assert u[..|u| - 1] == ['0'] + t[..|t| - 1];
    }
  }

  lemma {:induction false} TrimZerosValue(d: string)
    requires |d| >= 1 && AllDigits(d)
    ensures Canonical(TrimZeros(d)) && DigitsValue(TrimZeros(d)) == DigitsValue(d)
    decreases |d|
  {
    if |d| > 1 && d[0] == '0' {
      TrimZerosValue(d[1..]);
      LeadingZeroValue(d[1..]);
      assert d == ['0'] + d[1..];
    }
  }

  lemma {:induction false} LeadDigitBound(t: string)
    requires |t| >= 1 && AllDigits(t)
    ensures DigitsValue(t) >= t[0] as int - '0' as int
    decreases |t|
  {
    if |t| > 1 {
      LeadDigitBound(t[..|t| - 1]);
    } else {
      assert t[..0] == [];
    }
  }

  /** `FormatNat` inverts `DigitsValue` on canonical digit strings. */
  lemma {:induction false} FormatCanonical(t: string)
    requires Canonical(t)
    ensures FormatNat(DigitsValue(t)) == t
    decreases |t|
  {
    var v := DigitsValue(t);
    if |t| == 1 {
      assert t[..0] == [];
      assert v == t[0] as int - '0' as int;
    } else {
      var pre := t[..|t| - 1];
      LeadDigitBound(pre);
      FormatCanonical(pre);
      assert v / 10 == DigitsValue(pre) && v % 10 == t[|t| - 1] as int - '0' as int;
      assert t == pre + [t[|t| - 1]];
    }
  }

  /** The converse of `AtoiItoa`: a text `Atoi` accepts is the decimal
      rendering of its value up to a leading '+', the sign of a zero, and
      leading zeros. */
  lemma AtoiCanonical(s: string, n: int)
    requires Atoi(s) == Some(n)
    ensures Itoa(n) == (if n < 0 then "-" else "") + TrimZeros(Unsigned(s))
    ensures n < 0 ==> Negative(s)
    ensures n > 0 ==> !Negative(s)
  {
    TrimZerosValue(Unsigned(s));
    FormatCanonical(TrimZeros(Unsigned(s)));
  }

  /** `strconv.ParseBool`: the twelve spellings Go accepts; `None` is the error. */
  function ParseBool(s: string): Option<bool>
  {
    if s in {"1", "t", "T", "TRUE", "true", "True"} then Some(true)
    else if s in {"0", "f", "F", "FALSE", "false", "False"} then Some(false)
    else None
  }
}
