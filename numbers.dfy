/**
 * Python's conversions between text and numbers as the tools use them:
 * `int(s)` and `str(n)` for frame numbers and class ids, `float(s)` for
 * annotation coordinates, and `int(x)` on a float, which truncates.
 */
module Numbers {
  import opened Wrappers
  import opened Text

  predicate IsDigit(c: char) {
    '0' <= c <= '9'
  }

  predicate AllDigits(s: string) {
    forall i :: 0 <= i < |s| ==> IsDigit(s[i])
  }

  function DigitValue(c: char): (d: nat)
    requires IsDigit(c)
    ensures d < 10
  {
    c as int - '0' as int
  }

  function DigitChar(d: nat): (c: char)
    requires d < 10
    ensures IsDigit(c) && DigitValue(c) == d
  {
    ('0' as int + d) as char
  }

  /** Value of a decimal digit string, most significant digit first. */
  function DigitsValue(s: string): nat
    requires AllDigits(s)
  {
    if s == [] then 0 else DigitsValue(s[..|s| - 1]) * 10 + DigitValue(s[|s| - 1])
  }

  /** The value of a digit string, or `None` when some character is not a digit. */
  function DigitsOf(s: string): Option<nat> {
    if s == [] then Some(0)
    else if !IsDigit(s[|s| - 1]) then None
    else match DigitsOf(s[..|s| - 1])
      case None => None
      case Some(v) => Some(v * 10 + DigitValue(s[|s| - 1]))
  }

  lemma {:induction false} DigitsOfSpec(s: string)
    ensures DigitsOf(s) == if AllDigits(s) then Some(DigitsValue(s)) else None
  {
    if s != [] {
      var init := s[..|s| - 1];
      DigitsOfSpec(init);
      if AllDigits(s) {
        assert AllDigits(init) by { forall i | 0 <= i < |init| ensures IsDigit(init[i]) { assert init[i] == s[i]; } }
      } else if IsDigit(s[|s| - 1]) {
        assert !AllDigits(init) by {
          var i :| 0 <= i < |s| && !IsDigit(s[i]);
          assert init[i] == s[i];
        }
      }
    }
  }

  /**
   * `int(s)` on a decimal literal: an optional sign followed by one or more
   * ASCII digits.  Leading zeros are accepted, so "007" and "7" both give 7.
   */
  function ParseInt(s: string): Option<int> {
    var signed := s != [] && (s[0] == '-' || s[0] == '+');
    var body := if signed then s[1..] else s;
    if body == [] then None
    else match DigitsOf(body)
      case None => None
      case Some(v) => Some(if signed && s[0] == '-' then -(v as int) else v as int)
  }

  /** `ParseInt` accepts exactly an optional sign followed by at least one digit. */
  lemma ParseIntSpec(s: string)
    ensures var signed := s != [] && (s[0] == '-' || s[0] == '+');
      var body := if signed then s[1..] else s;
      ParseInt(s) == if body != [] && AllDigits(body) then Some(if signed && s[0] == '-' then -(DigitsValue(body) as int) else DigitsValue(body) as int) else None
  {
    DigitsOfSpec(if s != [] && (s[0] == '-' || s[0] == '+') then s[1..] else s);
  }

  /** Decimal digits of a natural number, without leading zeros. */
  function NatToString(n: nat): (s: string)
    ensures s != [] && AllDigits(s)
    ensures DigitsValue(s) == n
  {
    if n < 10 then [DigitChar(n)]
    else
      var prefix := NatToString(n / 10);
      var s := prefix + [DigitChar(n % 10)];
      assert s[..|s| - 1] == prefix;
      s
  }

  /** `str(n)` for an integer: its decimal form, with '-' for negative numbers. */
  function IntToString(n: int): (s: string)
    ensures ParseInt(s) == Some(n)
    ensures s != [] && forall i :: 0 <= i < |s| ==> IsDigit(s[i]) || (i == 0 && s[i] == '-')
  {
    if n < 0 then
      var s := "-" + NatToString(-n);
      assert s[1..] == NatToString(-n);
      ParseIntSpec(s);
      s
    else
      var s := NatToString(n);
      ParseIntSpec(s);
      s
  }

  function Pow10(k: nat): (p: nat)
    ensures p >= 1
  {
    if k == 0 then 1 else 10 * Pow10(k - 1)
  }

  /**
   * `float(s)` on a plain decimal literal: an optional sign, digits, and an
   * optional '.' with more digits, with at least one digit in all.
   */
  function ParseReal(s: string): Option<real> {
    var negative := s != [] && s[0] == '-';
    var body := if s != [] && (s[0] == '-' || s[0] == '+') then s[1..] else s;
    var magnitude :=
      match FindFirst(body, '.')
      case None =>
        if body != [] && AllDigits(body) then Some(DigitsValue(body) as real) else None
      case Some(k) =>
        var whole := body[..k];
        var fraction := body[k + 1..];
        if |whole| + |fraction| > 0 && AllDigits(whole) && AllDigits(fraction) then
          Some(DigitsValue(whole) as real + DigitsValue(fraction) as real / Pow10(|fraction|) as real)
        else None;
    match magnitude
    case None => None
    case Some(m) => Some(if negative then -m else m)
  }

  /** `int(x)` on a float: truncation toward zero. */
  function Trunc(x: real): (n: int)
    ensures x >= 0.0 ==> n as real <= x < n as real + 1.0
    ensures x < 0.0 ==> n as real - 1.0 < x <= n as real
  {
    if x >= 0.0 then x.Floor else -((-x).Floor)
  }
}
