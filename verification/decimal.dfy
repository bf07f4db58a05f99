/**
 * Decimal numerals: how the record server renders the ids it assigns, and how a
 * birth year is read back out of an ISO date such as "1965-03-02".
 */
module Decimal {
  import opened Wrappers

  predicate IsDigit(c: char) {
    '0' <= c <= '9'
  }

  predicate AllDigits(s: string) {
    forall i | 0 <= i < |s| :: IsDigit(s[i])
  }

  function DigitChar(d: nat): (c: char)
    requires d < 10
    ensures IsDigit(c)
    ensures c as int - '0' as int == d
  {
    ('0' as int + d) as char
  }

  function DigitValue(c: char): (d: nat)
    requires IsDigit(c)
    ensures d < 10
  {
    c as int - '0' as int
  }

  /** The base-10 numeral of `n`, most significant digit first, without leading zeros. */
  function Show(n: nat): (r: string)
    ensures 1 <= |r|
    ensures AllDigits(r)
    ensures r[0] == '0' ==> n == 0
    decreases n
  {
    if n < 10 then [DigitChar(n)] else Show(n / 10) + [DigitChar(n % 10)]
  }

  /** The number a string of digits denotes; leading zeros are allowed, as Python's `int` allows them. */
  function ValueOf(s: string): nat
    requires AllDigits(s)
    decreases |s|
  {
    if |s| == 0 then 0 else ValueOf(s[..|s| - 1]) * 10 + DigitValue(s[|s| - 1])
  }

  /** Reads a non-empty string of decimal digits; anything else is not a number. */
  function Parse(s: string): (r: Option<nat>)
    ensures r.Some? <==> 1 <= |s| && AllDigits(s)
  {
    if 1 <= |s| && AllDigits(s) then Some(ValueOf(s)) else None
  }

  lemma {:induction false} ValueOfShow(n: nat)
    ensures ValueOf(Show(n)) == n
    decreases n
  {
    if n < 10 {
      assert Show(n)[..0] == [];
    } else {
      ValueOfShow(n / 10);
      var s := Show(n / 10) + [DigitChar(n % 10)];
      assert s[..|s| - 1] == Show(n / 10);
    }
  }

  /** Reading back a rendered numeral gives the number that was rendered. */
  lemma ParseShow(n: nat)
    ensures Parse(Show(n)) == Some(n)
  {
    ValueOfShow(n);
  }

  /** Distinct numbers are rendered as distinct numerals, so serial numbers make distinct ids. */
  lemma ShowInjective(a: nat, b: nat)
    ensures Show(a) == Show(b) ==> a == b
  {
    ParseShow(a);
    ParseShow(b);
  }

  /** The text before the first '-', or all of `s` when it has none: Python's `s.split("-")[0]`. */
  function BeforeDash(s: string): (r: string)
    ensures r <= s
    ensures '-' !in r
    ensures |r| < |s| ==> s[|r|] == '-'
  {
    if |s| == 0 || s[0] == '-' then [] else [s[0]] + BeforeDash(s[1..])
  }

  /** The year of a date written year first, as in "1965-03-02"; None when that part is not a number. */
  function YearOf(date: string): Option<nat>
  {
    Parse(BeforeDash(date))
  }

  /** A date whose year part is the numeral of `y` has year `y`, whatever follows the dash. */
  lemma YearOfShow(y: nat, rest: string)
    ensures YearOf(Show(y) + "-" + rest) == Some(y)
  {
    var s := Show(y) + "-" + rest;
    var b := BeforeDash(s);
    assert s[|Show(y)|] == '-';
    assert |b| == |Show(y)|;
    assert b == s[..|Show(y)|] == Show(y);
    ParseShow(y);
  }
}
