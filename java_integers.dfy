/** Java's 32-bit `int` range and `Integer.parseInt` on decimal strings, as the
    tournament extra properties are read with it. */
module JavaIntegers {
  import opened Entities

  const IntMin: int := -2147483648
  const IntMax: int := 2147483647

  predicate IsDigit(c: char)
  {
    '0' <= c <= '9'
  }

  predicate AllDigits(s: string)
  {
    forall k :: 0 <= k < |s| ==> IsDigit(s[k])
  }

  function DigitValue(c: char): nat
    requires IsDigit(c)
  {
    (c as int - '0' as int) as nat
  }

  function DigitChar(d: nat): (c: char)
    requires d < 10
    ensures IsDigit(c) && DigitValue(c) == d
  {
    ('0' as int + d) as char
  }

  /** The value of a string of decimal digits, most significant first. */
  function DigitsValue(s: string): nat
    requires AllDigits(s)
  {
    if s == [] then 0 else DigitsValue(s[..|s| - 1]) * 10 + DigitValue(s[|s| - 1])
  }

  /** The text after its leading sign, if it has one. */
  function Unsigned(s: string): (d: string)
    ensures |s| > 0 && (s[0] == '-' || s[0] == '+') ==> d == s[1..]
    ensures !(|s| > 0 && (s[0] == '-' || s[0] == '+')) ==> d == s
  {
    if |s| > 0 && (s[0] == '-' || s[0] == '+') then s[1..] else s
  }

  /** `Integer.parseInt(s)`: an optional sign followed by at least one decimal
      digit, with a value inside the int range; anything else raises
      NumberFormatException, modelled as None. */
  function ParseInt(s: string): (r: Option<int>)
    ensures r.Some? ==> IntMin <= r.value <= IntMax
    ensures r.Some? ==> exists k :: 0 <= k < |s| && IsDigit(s[k])
    ensures r.Some? <==> |s| > 0 && |Unsigned(s)| > 0 && AllDigits(Unsigned(s))
                         && IntMin <= (if s[0] == '-' then -(DigitsValue(Unsigned(s)) as int) else DigitsValue(Unsigned(s))) <= IntMax
    ensures r.Some? ==> r.value == if s[0] == '-' then -(DigitsValue(Unsigned(s)) as int) else DigitsValue(Unsigned(s))
  {
    if |s| == 0 then None
    else
      var negative := s[0] == '-';
      var digits := Unsigned(s);
      if |digits| == 0 || !AllDigits(digits) then None
      else
        var magnitude: int := DigitsValue(digits);
        var value: int := if negative then -magnitude else magnitude;
        if IntMin <= value <= IntMax then
          assert IsDigit(s[|s| - 1]) by { assert s[|s| - 1] == digits[|digits| - 1]; }
          Some(value)
        else None
  }

  /** The decimal digits of a natural number, as `Integer.toString` writes them. */
  function NatToDigits(n: nat): (s: string)
    ensures |s| > 0 && AllDigits(s)
  {
    if n < 10 then [DigitChar(n)] else NatToDigits(n / 10) + [DigitChar(n % 10)]
  }

  function IntToString(n: int): string
  {
    if n < 0 then "-" + NatToDigits(-n) else NatToDigits(n)
  }

  lemma {:induction false} DigitsRoundTrip(n: nat)
    ensures DigitsValue(NatToDigits(n)) == n
  {
    if n >= 10 {
      DigitsRoundTrip(n / 10);
      var s := NatToDigits(n);
      assert s[..|s| - 1] == NatToDigits(n / 10);
    }
  }

  /** Every int written in decimal is parsed back to itself. */
  lemma ParseIntRoundTrip(n: int)
    requires IntMin <= n <= IntMax
    ensures ParseInt(IntToString(n)) == Some(n)
  {
    var s := IntToString(n);
    if n < 0 {
      DigitsRoundTrip(-n);
      assert s[0] == '-' && s[1..] == NatToDigits(-n);
    } else {
      DigitsRoundTrip(n);
      assert IsDigit(s[0]);
    }
  }

  /** A leading zero does not change the value of a digit string. */
  lemma {:induction false} DigitsLeadingZero(s: string)
    requires AllDigits(s)
    ensures AllDigits("0" + s) && DigitsValue("0" + s) == DigitsValue(s)
    decreases |s|
  {
    if s != [] {
      var t := "0" + s;
      assert t[..|t| - 1] == "0" + s[..|s| - 1];
      assert t[|t| - 1] == s[|s| - 1];
      DigitsLeadingZero(s[..|s| - 1]);
    } else {
      assert "0" + s == "0";
    }
  }

  /** Leading zeros are read as Java reads them: "007" is 7. */
  lemma ParseIntLeadingZero(s: string)
    requires |s| > 0 && AllDigits(s)
    ensures ParseInt("0" + s) == ParseInt(s)
  {
    DigitsLeadingZero(s);
    assert Unsigned("0" + s) == "0" + s;
    assert Unsigned(s) == s;
  }

  /** A plus sign in front of the digits changes nothing: "+2" is 2. */
  lemma ParseIntPlusSign(s: string)
    requires |s| > 0 && AllDigits(s)
    ensures ParseInt("+" + s) == ParseInt(s)
  {
    assert ("+" + s)[1..] == s;
    assert Unsigned(s) == s;
  }

  /** Strings the parser refuses: empty, a lone sign, letters, a decimal point. */
  lemma ParseIntRejects()
    ensures ParseInt("") == None
    ensures ParseInt("-") == None
    ensures ParseInt("two") == None
    ensures ParseInt("1.5") == None
  {
    assert !IsDigit('t');
    assert !IsDigit("1.5"[1]);
  }
}
