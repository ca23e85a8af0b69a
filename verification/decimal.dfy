/** Decimal integers as Python writes (`str(n)`) and reads (`int(s)`) them. */
module Decimal {
  import opened Wrappers
  import opened Text

  predicate IsDigit(c: char) {
    '0' <= c <= '9'
  }

  function DigitChar(d: nat): char
    requires d < 10
  {
    ('0' as int + d) as char
  }

  /** Python's `str(n)` for a non-negative integer: its shortest decimal form. */
  function NatToString(n: nat): (s: string)
    ensures |s| >= 1
    ensures forall i :: 0 <= i < |s| ==> IsDigit(s[i])
    ensures s == "0" <==> n == 0
    ensures |s| > 1 ==> s[0] != '0'
  {
    if n < 10 then [DigitChar(n)] else NatToString(n / 10) + [DigitChar(n % 10)]
  }

  /** Python's `str(n)` for any integer. */
  function IntToString(n: int): string
  {
    if n < 0 then "-" + NatToString(-n) else NatToString(n)
  }

  /** The digit part accepted by Python's `int()`: ASCII digits, where single
      underscores may separate two digits. */
  predicate DigitGroup(s: string) {
    && |s| >= 1
    && IsDigit(s[0])
    && IsDigit(s[|s| - 1])
    && (forall i :: 0 <= i < |s| ==> IsDigit(s[i]) || s[i] == '_')
    && (forall i :: 0 <= i < |s| - 1 && s[i] == '_' ==> s[i + 1] != '_')
  }

  /** Value of the digits of `s` read in base 10, underscores ignored. */
  function DigitsValue(s: string): nat
    requires forall i :: 0 <= i < |s| ==> IsDigit(s[i]) || s[i] == '_'
  {
    if |s| == 0 then 0
    else
      var last := s[|s| - 1];
      var v := DigitsValue(s[..|s| - 1]);
      assert IsDigit(last) || last == '_';
      if last == '_' then v else v * 10 + (last as int - '0' as int)
  }

  /** Python's `int(s)` in base 10: surrounding whitespace is ignored, one
      optional sign is allowed, and anything else raises (`None` here). */
  function PyInt(s: string): Option<int>
  {
    var t := Strip(s);
    var signed := |t| > 0 && (t[0] == '+' || t[0] == '-');
    var body := if signed then t[1..] else t;
    if !DigitGroup(body) then None
    else
      var v: int := DigitsValue(body);
      Some(if signed && t[0] == '-' then -v else v)
  }

  lemma {:induction false} DigitsValueOfNatToString(n: nat)
    ensures DigitsValue(NatToString(n)) == n
  {
    var s := NatToString(n);
    if n >= 10 {
      DigitsValueOfNatToString(n / 10);
      assert s[..|s| - 1] == NatToString(n / 10);
    }
  }

  /** Distinct numbers have distinct decimal forms. */
  lemma NatToStringInjective(a: nat, b: nat)
    requires NatToString(a) == NatToString(b)
    ensures a == b
  {
    DigitsValueOfNatToString(a);
    DigitsValueOfNatToString(b);
  }

  /** `int(str(n)) == n`: reading back what Python prints gives the number. */
  lemma PyIntOfIntToString(n: int)
    ensures PyInt(IntToString(n)) == Some(n)
  {
    if n < 0 {
      PyIntOfNegativeIntToString(n);
    } else {
      PyIntOfNatToString(n);
    }
  }

  lemma PyIntOfNatToString(n: nat)
    ensures PyInt(IntToString(n)) == Some(n)
  {
    DigitGroupOfNatToString(n);
    PyIntOfDigits(NatToString(n), n);
  }

  lemma PyIntOfNegativeIntToString(n: int)
    requires n < 0
    ensures PyInt(IntToString(n)) == Some(n)
  {
    DigitGroupOfNatToString(-n);
    PyIntOfNegativeDigits(IntToString(n), NatToString(-n), -n);
  }

  /** `str(n)` is a digit group whose value is `n`. */
  lemma DigitGroupOfNatToString(n: nat)
    ensures DigitGroup(NatToString(n))
    ensures DigitsValue(NatToString(n)) == n
  {
    DigitsValueOfNatToString(n);
  }

  /** `int()` of a digit group is its value. */
  lemma PyIntOfDigits(t: string, m: nat)
    requires DigitGroup(t) && DigitsValue(t) == m
    ensures PyInt(t) == Some(m)
  {
    DigitNotSpace(t[0]);
    DigitNotSpace(t[|t| - 1]);
    StripTrimmed(t);
  }

  /** `int()` of a minus sign followed by a digit group is its negated value. */
  lemma PyIntOfNegativeDigits(t: string, digits: string, m: nat)
    requires t == "-" + digits && DigitGroup(digits) && DigitsValue(digits) == m
    ensures PyInt(t) == Some(-(m as int))
  {
    assert t[1..] == digits;
    assert t[|t| - 1] == digits[|digits| - 1];
    DigitNotSpace(t[|t| - 1]);
    assert !IsSpace('-');
    StripTrimmed(t);
  }

  lemma DigitNotSpace(c: char)
    requires IsDigit(c)
    ensures !IsSpace(c) && c != '+' && c != '-'
  {
  }

  /** `int()` of a blank string raises. */
  lemma PyIntBlank(s: string)
    requires forall i :: 0 <= i < |s| ==> IsSpace(s[i])
    ensures PyInt(s) == None
  {
    assert |Strip(s)| == 0;
  }
}
