/** Python's `int(text)` on the decimal literals the setup utilities parse:
    an optional sign followed by one or more ASCII digits. Leading zeros are
    accepted, as `int('007') == 7`. */
module Integers {
  import opened Strings

  datatype Option<T> = None | Some(value: T)

  /** The digit run of a candidate literal: the text after an optional sign. */
  function Unsigned(s: string): (d: string)
    ensures |d| <= |s|
  {
    if s != [] && (s[0] == '+' || s[0] == '-') then s[1..] else s
  }

  /** An integer literal that `int()` accepts (no surrounding whitespace). */
  predicate IsIntLiteral(s: string)
  {
    Unsigned(s) != [] && AllDigits(Unsigned(s))
  }

  function DigitValue(c: char): (n: nat)
    requires IsDigit(c)
    ensures n < 10
  {
    c as int - '0' as int
  }

  /** The value of a run of decimal digits, most significant first. */
  function DigitsValue(d: string): (n: nat)
    requires AllDigits(d)
  {
    if d == [] then 0 else DigitsValue(d[..|d| - 1]) * 10 + DigitValue(d[|d| - 1])
  }

  /** `int(s)`, with `None` where Python raises `ValueError`. */
  function ParseInt(s: string): (r: Option<int>)
    ensures r.Some? <==> IsIntLiteral(s)
    ensures r.Some? ==> (r.value < 0 ==> s[0] == '-')
  {
    if !IsIntLiteral(s) then None
    else if s[0] == '-' then Some(-(DigitsValue(s[1..]) as int))
    else Some(DigitsValue(Unsigned(s)))
  }

  function DigitChar(n: nat): (c: char)
    requires n < 10
    ensures IsDigit(c) && DigitValue(c) == n
  {
    ('0' as int + n) as char
  }

  /** The decimal digits of `n`, without leading zeros. */
  function NatToDigits(n: nat): (d: string)
    ensures d != [] && AllDigits(d)
    ensures DigitsValue(d) == n
    ensures d[0] == '0' ==> d == "0"
  {
    if n < 10 then [DigitChar(n)]
    else
      var e := NatToDigits(n / 10);
      var d := e + [DigitChar(n % 10)];
      assert d[..|d| - 1] == e;
      assert d[0] == e[0];
      d
  }

  /** Python's `str(n)`: the decimal form `int()` parses. */
  function FormatInt(n: int): (s: string)
  {
    if n < 0 then "-" + NatToDigits(-n) else NatToDigits(n)
  }

  /** The decimal form of a number neither starts nor ends with whitespace. */
  lemma FormatIntEnds(n: int)
    ensures var s := FormatInt(n);
      s != [] && !IsSpace(s[0]) && !IsSpace(s[|s| - 1])
  {
    var s := FormatInt(n);
    var d := NatToDigits(if n < 0 then -n else n);
    assert s[|s| - 1] == d[|d| - 1];
  }

  /** `int(str(n)) == n` for every integer `n`. */
  lemma ParseFormatRoundTrip(n: int)
    ensures ParseInt(FormatInt(n)) == Some(n)
  {
    var s := FormatInt(n);
    if n < 0 {
      assert s[1..] == NatToDigits(-n);
    } else {
      assert s[0] != '-' && Unsigned(s) == s;
    }
  }

  /** A literal parses to the same value with any number of leading zeros. */
  lemma {:induction false} LeadingZerosIgnored(d: string)
    requires AllDigits(d)
    ensures AllDigits("0" + d) && DigitsValue("0" + d) == DigitsValue(d)
  {
    if d != [] {
      var z := "0" + d;
      assert z[..|z| - 1] == "0" + d[..|d| - 1];
      LeadingZerosIgnored(d[..|d| - 1]);
    }
  }

  /** A run of `z` zeros. */
  function Zeros(z: nat): (s: string)
    ensures |s| == z && AllDigits(s)
  {
    seq(z, _ => '0')
  }

  /** Any number of leading zeros leaves the value of a digit run unchanged. */
  lemma {:induction false} ZerosIgnored(z: nat, d: string)
    requires AllDigits(d)
    ensures AllDigits(Zeros(z) + d) && DigitsValue(Zeros(z) + d) == DigitsValue(d)
  {
    if z > 0 {
      var rest := Zeros(z - 1) + d;
      ZerosIgnored(z - 1, d);
      LeadingZerosIgnored(rest);
      assert Zeros(z) + d == "0" + rest;
    } else {
      assert Zeros(z) + d == d;
    }
  }

  /** `int()` of a sign (none, `+` or `-`) followed by digits is the value of
      the digits, negated after a `-`. */
  lemma ParseSignedDigits(sign: string, d: string)
    requires sign == "" || sign == "+" || sign == "-"
    requires d != [] && AllDigits(d)
    ensures ParseInt(sign + d) == Some(if sign == "-" then -(DigitsValue(d) as int) else DigitsValue(d) as int)
  {
    var s := sign + d;
    if sign == "" {
      assert s == d;
      assert IsDigit(d[0]);
      assert Unsigned(s) == d;
    } else {
      assert s[0] == sign[0];
      assert s[1..] == d;
      assert Unsigned(s) == d;
    }
  }

  /** What `int()` reads from every literal it accepts: an optional sign, any
      number of leading zeros, then the digits of `n`. So `int('+7')`,
      `int('007')` and `int('-0')` are 7, 7 and 0. */
  lemma ParseIntValue(sign: string, z: nat, n: nat)
    requires sign == "" || sign == "+" || sign == "-"
    ensures ParseInt(sign + (Zeros(z) + NatToDigits(n))) == Some(if sign == "-" then -(n as int) else n as int)
  {
    var d := Zeros(z) + NatToDigits(n);
    assert d != [] && AllDigits(d) && DigitsValue(d) == n by {
      ZerosIgnored(z, NatToDigits(n));
    }
    ParseSignedDigits(sign, d);
  }
}
