/** Decimal text of integers: Python's `str(int)` and `int(str)`. */
module Decimal {
  import opened Wrappers
  import opened Text

  predicate IsDigit(c: char) {
    '0' <= c <= '9'
  }

  predicate AllDigits(s: string) {
    forall i :: 0 <= i < |s| ==> IsDigit(s[i])
  }

  function DigitChar(d: nat): (c: char)
    requires d < 10
    ensures IsDigit(c) && c as int - '0' as int == d
  {
    ('0' as int + d) as char
  }

  /** `str(n)` for a non-negative integer: no sign, no leading zeros. */
  function ShowNat(n: nat): (s: string)
    ensures s != [] && AllDigits(s)
    ensures |s| > 1 ==> s[0] != '0'
  {
    if n < 10 then [DigitChar(n)] else ShowNat(n / 10) + [DigitChar(n % 10)]
  }

  /** `str(n)`: a minus sign before the digits of a negative number. */
  function ShowInt(n: int): (s: string)
    ensures s != [] && NoSpace(s) && !IsSpace(s[0]) && !IsSpace(s[|s| - 1])
    ensures n < 0 <==> s[0] == '-'
  {
    var s := if n < 0 then "-" + ShowNat(-n) else ShowNat(n);
    assert forall i :: 0 <= i < |s| ==> s[i] == '-' || IsDigit(s[i]);
    s
  }

  /** The value of a string of decimal digits. */
  function DigitsValue(s: string): (v: nat)
    requires AllDigits(s)
  {
    if s == [] then 0
    else 10 * DigitsValue(s[..|s| - 1]) + (s[|s| - 1] as int - '0' as int)
  }

  /** A sign-less integer literal: one or more digits (leading zeros allowed, as in `int("007")`). */
  function ParseDigits(s: string): (r: Option<nat>)
    ensures r.Some? <==> s != [] && AllDigits(s)
  {
    if s != [] && AllDigits(s) then Some(DigitsValue(s)) else None
  }

  /** An optionally signed integer literal. */
  function ParseSigned(s: string): (r: Option<int>)
    ensures r.Some? ==> s != [] && (s[0] == '-' || s[0] == '+' || IsDigit(s[0]))
  {
    if s == [] then None
    else if s[0] == '-' || s[0] == '+' then
      match ParseDigits(s[1..])
      case Some(v) => Some(if s[0] == '-' then -(v as int) else v as int)
      case None => None
    else
      match ParseDigits(s)
      case Some(v) => Some(v as int)
      case None => None
  }

  /** Python's `int(s)` on a string: surrounding whitespace is ignored, then an
      optionally signed run of digits is required, otherwise `ValueError`. */
  function PyInt(s: string): (r: Result<int>)
    ensures r.Err? ==> r.error == ValueError
  {
    match ParseSigned(Strip(s))
    case Some(v) => Ok(v)
    case None => Err(ValueError)
  }

  lemma {:induction false} DigitsValueShowNat(n: nat)
    ensures DigitsValue(ShowNat(n)) == n
  {
    if n >= 10 {
      var s := ShowNat(n);
      DigitsValueShowNat(n / 10);
      assert s[..|s| - 1] == ShowNat(n / 10);
    }
  }

  /** Reading back the decimal text of a natural number gives the number. */
  lemma ParseShowNat(n: nat)
    ensures ParseDigits(ShowNat(n)) == Some(n)
  {
    DigitsValueShowNat(n);
  }

  lemma StripNoEdgeSpace(s: string)
    requires s != [] && !IsSpace(s[0]) && !IsSpace(s[|s| - 1])
    ensures Strip(s) == s
  {
  }

  /** `int(str(n)) == n` for every integer. */
  lemma PyIntShowInt(n: int)
    ensures ParseSigned(ShowInt(n)) == Some(n)
    ensures PyInt(ShowInt(n)) == Ok(n)
  {
    var s := ShowInt(n);
    StripNoEdgeSpace(s);
    if n < 0 {
      ParseShowNat(-n);
      assert s[1..] == ShowNat(-n);
    } else {
      ParseShowNat(n);
    }
  }
}
