/** The subset of Python's `int(text)` the importer relies on: an optional
    `-` or `+` followed by one or more ASCII decimal digits, leading zeros
    allowed. */
module IntText {
  import opened Results

  predicate IsDigit(c: char) {
    '0' <= c <= '9'
  }

  predicate AllDigits(s: string) {
    forall k :: 0 <= k < |s| ==> IsDigit(s[k])
  }

  predicate IsSign(c: char) {
    c == '-' || c == '+'
  }

  /** `s` without its sign, if it has one. */
  function Unsigned(s: string): string {
    if |s| > 0 && IsSign(s[0]) then s[1..] else s
  }

  /** Text `int()` accepts once its surrounding whitespace is gone. */
  predicate IsIntLiteral(s: string) {
    |Unsigned(s)| > 0 && AllDigits(Unsigned(s))
  }

  function DigitValue(c: char): nat
    requires IsDigit(c)
  {
    c as int - '0' as int
  }

  function Digit(d: nat): (c: char)
    requires d < 10
    ensures IsDigit(c) && DigitValue(c) == d
  {
    ('0' as int + d) as char
  }

  /** The number a run of decimal digits denotes, most significant first. */
  function DigitsValue(s: string): nat
    requires AllDigits(s)
  {
    if |s| == 0 then 0 else 10 * DigitsValue(s[..|s| - 1]) + DigitValue(s[|s| - 1])
  }

  /** Python's `int(s)` on text without surrounding whitespace: `None`
      stands for the `ValueError` it raises. */
  function ParseInt(s: string): (r: Option<int>)
    ensures r.Some? <==> IsIntLiteral(s)
    ensures r.Some? && s[0] == '-' ==> r.value <= 0
    ensures r.Some? && s[0] != '-' ==> r.value >= 0
  {
    if !IsIntLiteral(s) then None
    else if s[0] == '-' then Some(-(DigitsValue(s[1..]) as int))
    else Some(DigitsValue(Unsigned(s)))
  }

  /** The integer an accepted literal denotes. */
  function IntOf(s: string): int
    requires IsIntLiteral(s)
  {
    ParseInt(s).value
  }

  /** Decimal digits of a natural number, without leading zeros. */
  function ShowNat(n: nat): (r: string)
    ensures |r| >= 1 && AllDigits(r)
  {
    if n < 10 then [Digit(n)] else ShowNat(n / 10) + [Digit(n % 10)]
  }

  /** Python's `str(n)` for an integer. */
  function Show(n: int): string {
    if n < 0 then "-" + ShowNat(-n) else ShowNat(n)
  }

  lemma {:induction false} DigitsValueShowNat(n: nat)
    ensures DigitsValue(ShowNat(n)) == n
  {
    if n >= 10 {
      var s := ShowNat(n);
      assert s[..|s| - 1] == ShowNat(n / 10);
      DigitsValueShowNat(n / 10);
    }
  }

  /** A natural number's digits are read back as that number. */
  lemma ParseShowNat(n: nat)
    ensures IsIntLiteral(ShowNat(n))
    ensures ParseInt(ShowNat(n)) == Some(n)
  {
    var s := ShowNat(n);
    assert IsDigit(s[0]) && Unsigned(s) == s;
    DigitsValueShowNat(n);
  }

  /** A minus sign before a natural number's digits negates it. */
  lemma ParseShowNegative(n: nat)
    ensures IsIntLiteral("-" + ShowNat(n))
    ensures ParseInt("-" + ShowNat(n)) == Some(-(n as int))
  {
    var s := "-" + ShowNat(n);
    assert s[1..] == ShowNat(n);
    assert Unsigned(s) == ShowNat(n);
    DigitsValueShowNat(n);
  }

  /** `int(str(n)) == n`: every integer survives a trip through its
      decimal text. */
  lemma ParseShow(n: int)
    ensures IsIntLiteral(Show(n))
    ensures ParseInt(Show(n)) == Some(n)
  {
    if n < 0 {
      ParseShowNegative(-n);
    } else {
      ParseShowNat(n);
    }
  }

  /** A leading zero digit adds nothing to the value of a run of digits. */
  lemma {:induction false} DigitsLeadingZero(s: string)
    requires AllDigits(s)
    ensures AllDigits("0" + s) && DigitsValue("0" + s) == DigitsValue(s)
  {
    if |s| > 0 {
      var t := "0" + s;
      assert t[..|t| - 1] == "0" + s[..|s| - 1];
      DigitsLeadingZero(s[..|s| - 1]);
    }
  }

  /** Leading zeros do not change what `int()` gives: `int("0" + s)` is
      `int(s)` for every non-empty run of digits `s`. */
  lemma LeadingZero(s: string)
    requires |s| > 0 && AllDigits(s)
    ensures ParseInt("0" + s) == ParseInt(s)
  {
    var t := "0" + s;
    DigitsLeadingZero(s);
    assert !IsSign(t[0]) && Unsigned(t) == t;
    assert !IsSign(s[0]) && Unsigned(s) == s;
  }

  /** A sign before a run of digits: `int("+" + d)` is `int(d)` and
      `int("-" + d)` is its negation, so a signed literal's value is
      that of its digits. */
  lemma SignedLiteral(d: string)
    requires |d| > 0 && AllDigits(d)
    ensures IsIntLiteral(d)
    ensures ParseInt("+" + d) == ParseInt(d)
    ensures ParseInt("-" + d) == Some(-IntOf(d))
  {
  }
}
