/** Decimal text for integers: Rust's `str::parse` for a signed integer
    type (`i32`, `i64`) and the rendering that it inverts. */
module Decimal {
  import opened Wrappers

  predicate IsDigit(c: char)
  {
    '0' <= c <= '9'
  }

  predicate IsSign(c: char)
  {
    c == '+' || c == '-'
  }

  predicate AllDigits(s: string)
  {
    forall i :: 0 <= i < |s| ==> IsDigit(s[i])
  }

  function DigitValue(c: char): (v: nat)
    requires IsDigit(c)
    ensures v < 10
  {
    (c as int) - ('0' as int)
  }

  function DigitChar(v: nat): (c: char)
    requires v < 10
    ensures IsDigit(c) && DigitValue(c) == v
  {
    (('0' as int) + v) as char
  }

  /** The number a string of decimal digits denotes, most significant
      digit first; leading zeros are allowed. */
  function DigitsValue(s: string): nat
    requires AllDigits(s)
  {
    if s == [] then 0 else DigitsValue(s[..|s| - 1]) * 10 + DigitValue(s[|s| - 1])
  }

  /** The shortest decimal rendering of a natural number. */
  function ToDecimal(n: nat): (s: string)
    ensures |s| > 0 && AllDigits(s)
    ensures s[0] != '0' || n == 0
  {
    if n < 10 then [DigitChar(n)] else ToDecimal(n / 10) + [DigitChar(n % 10)]
  }

  /** The decimal rendering of a signed number: a '-' before a negative
      one, no sign before any other. */
  function SignedDecimal(n: int): (s: string)
    ensures |s| > 0
  {
    if n < 0 then "-" + ToDecimal(-n) else ToDecimal(n)
  }

  lemma {:induction false} ToDecimalValue(n: nat)
    ensures DigitsValue(ToDecimal(n)) == n
  {
    if n >= 10 {
      var s := ToDecimal(n);
      assert s[..|s| - 1] == ToDecimal(n / 10);
      ToDecimalValue(n / 10);
    }
  }

  /** Text a signed integer parser takes: an optional '+' or '-', then one
      or more ASCII digits and nothing else. */
  predicate IsIntText(s: string)
  {
    && |s| > 0
    && (IsDigit(s[0]) || (IsSign(s[0]) && |s| > 1))
    && forall i :: 0 < i < |s| ==> IsDigit(s[i])
  }

  /** The number such text denotes: the value of its digits, negated after
      a '-'; leading zeros count for nothing. */
  function IntTextValue(s: string): int
    requires IsIntText(s)
  {
    if s[0] == '-' then -(DigitsValue(s[1..]) as int)
    else if s[0] == '+' then DigitsValue(s[1..])
    else DigitsValue(s)
  }

  /** Rust's `str::parse` for a signed integer type whose values are
      [min, max]: an optional leading '+' or '-', then at least one ASCII
      digit and nothing else (no whitespace, no second sign), and the value
      in range. A lone sign and the empty string are rejected. */
  function ParseInt(s: string, min: int, max: int): (r: Option<int>)
    requires min < 0 < max
    ensures r.Some? <==> IsIntText(s) && min <= IntTextValue(s) <= max
    ensures r.Some? ==> r.value == IntTextValue(s)
    ensures r.Some? ==> min <= r.value <= max
    ensures r.Some? ==> |s| > 0 && forall i :: 0 < i < |s| ==> IsDigit(s[i])
    ensures r.Some? && r.value < 0 ==> s[0] == '-'
  {
    if |s| == 0 || (IsSign(s[0]) && |s| == 1) then None
    else
      var digits := if IsSign(s[0]) then s[1..] else s;
      if !AllDigits(digits) then None
      else
        var v: int := if s[0] == '-' then -(DigitsValue(digits) as int) else DigitsValue(digits);
        if min <= v <= max then Some(v) else None
  }

  /** A number's rendering parses back to it exactly when it is in range. */
  lemma ParseSignedDecimal(n: int, min: int, max: int)
    requires min < 0 < max
    ensures ParseInt(SignedDecimal(n), min, max) == if min <= n <= max then Some(n) else None
  {
    var s := SignedDecimal(n);
    if n < 0 {
      var d := ToDecimal(-n);
      ToDecimalValue(-n);
      assert s == "-" + d && s[0] == '-' && |s| > 1;
      assert s[1..] == d;
    } else {
      var d := ToDecimal(n);
      ToDecimalValue(n);
      assert s == d && !IsSign(s[0]);
    }
  }

  /** A '+' in front of a non-negative number's rendering is accepted and
      changes nothing. */
  lemma ParsePlusDecimal(n: nat, min: int, max: int)
    requires min < 0 < max
    ensures ParseInt("+" + ToDecimal(n), min, max) == if n <= max then Some(n) else None
  {
    ToDecimalValue(n);
    assert ("+" + ToDecimal(n))[1..] == ToDecimal(n);
  }

  /** A run of k zero digits. */
  function Zeros(k: nat): (z: string)
    ensures |z| == k && AllDigits(z)
    ensures forall i :: 0 <= i < k ==> z[i] == '0'
  {
    if k == 0 then [] else Zeros(k - 1) + ['0']
  }

  /** A leading zero digit does not change the value of a digit run. */
  lemma {:induction false} LeadingZeroValue(t: string)
    requires AllDigits(t)
    ensures DigitsValue(['0'] + t) == DigitsValue(t)
    decreases |t|
  {
    if t != [] {
      var u := ['0'] + t;
      assert u[..|u| - 1] == ['0'] + t[..|t| - 1];
      assert u[|u| - 1] == t[|t| - 1];
      LeadingZeroValue(t[..|t| - 1]);
    }
  }

  /** Any number of leading zero digits leave the value unchanged. */
  lemma {:induction false} ZerosValue(k: nat, t: string)
    requires AllDigits(t)
    ensures AllDigits(Zeros(k) + t) && DigitsValue(Zeros(k) + t) == DigitsValue(t)
  {
    if k > 0 {
      var z := Zeros(k - 1);
      assert Zeros(k) == z + ['0'];
      assert Zeros(k) + t == z + (['0'] + t);
      LeadingZeroValue(t);
      ZerosValue(k - 1, ['0'] + t);
    } else {
      assert Zeros(k) + t == t;
    }
  }

  /** Leading zeros are accepted and ignored: "007" parses as 7. */
  lemma ParseLeadingZeros(k: nat, n: nat, min: int, max: int)
    requires min < 0 < max
    ensures ParseInt(Zeros(k) + ToDecimal(n), min, max) == if n <= max then Some(n) else None
  {
    var d := ToDecimal(n);
    ToDecimalValue(n);
    ZerosValue(k, d);
    var s := Zeros(k) + d;
    assert !IsSign(s[0]) by {
      assert IsDigit(s[0]);
    }
  }

  /** "-0" is accepted and denotes zero. */
  lemma ParseNegativeZero(min: int, max: int)
    requires min < 0 < max
    ensures ParseInt("-0", min, max) == Some(0)
  {
    assert "-0"[1..] == "0";
    assert DigitsValue("0") == DigitsValue("0"[..0]) * 10 + DigitValue('0');
  }

  /** Text that starts with neither a digit nor a sign, such as " 42", is
      rejected: no whitespace is skipped. */
  lemma ParseRejectsLeadingChar(c: char, rest: string, min: int, max: int)
    requires min < 0 < max
    requires !IsDigit(c) && !IsSign(c)
    ensures ParseInt([c] + rest, min, max) == None
  {
  }
}
