/** Decimal numerals as the host reads and prints them, on unbounded integers. */
module Numerals {
  import opened Wrappers
  import opened Text

  predicate IsDigit(c: char) {
    '0' <= c <= '9'
  }

  predicate AllDigits(s: string) {
    forall c | c in s :: IsDigit(c)
  }

  /** A numeral without superfluous leading zeros. */
  predicate IsNumeral(s: string) {
    s != "" && AllDigits(s) && (|s| == 1 || s[0] != '0')
  }

  function DigitValue(c: char): nat
    requires IsDigit(c)
  {
    c as nat - '0' as nat
  }

  function NatOf(s: string): nat
    requires AllDigits(s)
  {
    if s == "" then 0 else 10 * NatOf(s[..|s| - 1]) + DigitValue(s[|s| - 1])
  }

  function DigitOf(d: nat): char
    requires d < 10
  {
    ('0' as nat + d) as char
  }

  /** The printed form of a number. */
  function Digits(n: nat): string {
    if n < 10 then [DigitOf(n)] else Digits(n / 10) + [DigitOf(n % 10)]
  }

  lemma {:induction false} DigitsRoundTrip(n: nat)
    ensures IsNumeral(Digits(n)) && NatOf(Digits(n)) == n
    ensures n > 0 ==> Digits(n)[0] != '0'
  {
    var s := Digits(n);
    if n >= 10 {
      DigitsRoundTrip(n / 10);
      assert s[..|s| - 1] == Digits(n / 10);
    } else {
      assert s[..|s| - 1] == "";
    }
  }

  lemma LastDigit(n: nat, d: nat)
    requires n > 0 && d < 10
    ensures Digits(10 * n + d) == Digits(n) + [DigitOf(d)]
  {
    assert (10 * n + d) / 10 == n && (10 * n + d) % 10 == d;
  }

  /** A numeral of several digits: a numeral without the last one, then that digit. */
  lemma NumeralParts(s: string)
    requires IsNumeral(s)
    ensures IsDigit(s[|s| - 1]) && DigitOf(DigitValue(s[|s| - 1])) == s[|s| - 1]
    ensures |s| > 1 ==> IsNumeral(s[..|s| - 1]) && s[0] != '0'
    ensures s == s[..|s| - 1] + [s[|s| - 1]]
  {
    assert s[|s| - 1] in s;
  }

  lemma {:induction false} NumeralRoundTrip(s: string)
    requires IsNumeral(s)
    ensures Digits(NatOf(s)) == s && (s[0] != '0' ==> NatOf(s) > 0)
  {
    NumeralParts(s);
    if |s| == 1 {
      assert s[..0] == "" && NatOf(s[..0]) == 0;
    } else {
      var init := s[..|s| - 1];
      assert init[0] == s[0];
      NumeralRoundTrip(init);
      LastDigit(NatOf(init), DigitValue(s[|s| - 1]));
    }
  }

  lemma {:induction false} NatOfGrows(s: string, n: nat)
    requires AllDigits(s) && n <= |s| && AllDigits(s[..n])
    ensures NatOf(s[..n]) <= NatOf(s)
  {
    if n == |s| {
      assert s[..n] == s;
    } else {
      var init := s[..|s| - 1];
      assert init[..n] == s[..n];
      NatOfGrows(init, n);
    }
  }

  function LeadingDigits(s: string): (r: string)
    ensures r <= s && AllDigits(r)
    ensures |r| < |s| ==> !IsDigit(s[|r|])
  {
    if s == "" || !IsDigit(s[0]) then "" else [s[0]] + LeadingDigits(s[1..])
  }

  /** `parseInt(s, 10)`; `None` is NaN. */
  function ParseInt(s: string): Option<int> {
    var t := SkipSpace(s);
    var signed := t != "" && t[0] in "+-";
    var digits := LeadingDigits(if signed then t[1..] else t);
    if digits == "" then None
    else
      var n: int := NatOf(digits);
      Some(if signed && t[0] == '-' then -n else n)
  }

  function Print(n: int): string {
    if n < 0 then "-" + Digits(-n) else Digits(n)
  }

  lemma {:induction false} LeadingDigitsOfDigits(s: string)
    requires AllDigits(s)
    ensures LeadingDigits(s) == s
  {
    if s != "" {
      LeadingDigitsOfDigits(s[1..]);
    }
  }

  lemma ParseDigits(s: string)
    requires s != "" && AllDigits(s)
    ensures ParseInt(s) == Some(NatOf(s))
  {
    assert IsDigit(s[0]) && !IsSpace(s[0]);
    LeadingDigitsOfDigits(s);
  }

  /** A numeral with a minus sign in front, other than minus zero. */
  predicate IsNegativeNumeral(s: string) {
    |s| >= 2 && s[0] == '-' && IsNumeral(s[1..]) && s != "-0"
  }

  lemma PrintParseNegative(s: string)
    requires IsNegativeNumeral(s)
    ensures ParseInt(s).Some? && ParseInt(s).value < 0 && Print(ParseInt(s).value) == s
  {
    assert !IsSpace('-') && s == "-" + s[1..];
    LeadingDigitsOfDigits(s[1..]);
    NumeralRoundTrip(s[1..]);
    assert s[1] == '0' ==> s == "-0";
  }

  lemma PrintedShape(n: int)
    ensures if n < 0 then IsNegativeNumeral(Print(n)) else IsNumeral(Print(n))
  {
    if n < 0 {
      DigitsRoundTrip(-n);
      assert Print(n)[1..] == Digits(-n);
      assert Print(n)[1] == Digits(-n)[0];
    } else {
      DigitsRoundTrip(n);
    }
  }

  /** Which texts survive reading and printing: exactly the numerals, plain or negated. */
  lemma PrintParse(s: string)
    ensures ParseInt(s).Some? && Print(ParseInt(s).value) == s <==> IsNumeral(s) || IsNegativeNumeral(s)
  {
    if IsNumeral(s) {
      ParseDigits(s);
      NumeralRoundTrip(s);
    } else if IsNegativeNumeral(s) {
      PrintParseNegative(s);
    } else if ParseInt(s).Some? {
      PrintedShape(ParseInt(s).value);
    }
  }
}
