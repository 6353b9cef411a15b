/** The `t` (start) and `d` (duration) attributes of a caption paragraph are
    decimal millisecond tokens. The source reads them with `float(token)` and
    divides by 1000 (ycsp/pipeline.py:119-120); here a token is a non-empty run
    of ASCII digits read as a natural number of milliseconds, and anything
    else is a malformed token. */
module Tokens {
  import opened Wrappers

  predicate IsDigit(c: char) {
    '0' <= c <= '9'
  }

  predicate AllDigits(s: string) {
    forall i :: 0 <= i < |s| ==> IsDigit(s[i])
  }

  /** A well-formed time token. */
  predicate IsDigits(s: string) {
    |s| > 0 && AllDigits(s)
  }

  function DigitValue(c: char): nat
    requires IsDigit(c)
  {
    c as int - '0' as int
  }

  function DigitChar(n: nat): (c: char)
    requires n < 10
    ensures IsDigit(c) && DigitValue(c) == n
  {
    ('0' as int + n) as char
  }

  /** The value of a decimal numeral, most significant digit first. */
  function DigitsValue(s: string): nat
    requires AllDigits(s)
    decreases |s|
  {
    if s == [] then 0 else 10 * DigitsValue(s[..|s| - 1]) + DigitValue(s[|s| - 1])
  }

  /** The abstraction of `float(token)` on millisecond tokens: defined exactly on
      the digit tokens. */
  function ParseMillis(token: string): (r: Option<nat>)
    ensures r.Some? <==> IsDigits(token)
  {
    if IsDigits(token) then Some(DigitsValue(token)) else None
  }

  /** The canonical decimal numeral of `n`, without leading zeros. */
  function ShowNat(n: nat): (r: string)
    ensures IsDigits(r)
    decreases n
  {
    if n < 10 then [DigitChar(n)] else ShowNat(n / 10) + [DigitChar(n % 10)]
  }

  /** Every number of milliseconds has a token that parses back to it. */
  lemma {:induction false} ParseShow(n: nat)
    ensures ParseMillis(ShowNat(n)) == Some(n)
  {
    ShowNatValue(n);
  }

  lemma {:induction false} ShowNatValue(n: nat)
    ensures DigitsValue(ShowNat(n)) == n
    decreases n
  {
    var s := ShowNat(n);
    var last := DigitChar(n % 10);
    if n < 10 {
      assert s == [last];
      assert s[..0] == [];
      assert DigitsValue(s) == 10 * DigitsValue([]) + DigitValue(last);
    } else {
      var m := ShowNat(n / 10);
      ShowNatValue(n / 10);
      assert s == m + [last];
      assert s[..|s| - 1] == m;
      assert s[|s| - 1] == last;
      assert DigitsValue(s) == 10 * DigitsValue(m) + DigitValue(last);
      assert 10 * (n / 10) + n % 10 == n;
    }
  }

  /** Leading zeros do not change the value, so distinct tokens such as "0150"
      and "150" denote the same time. */
  lemma {:induction false} LeadingZeroSameTime(s: string)
    requires IsDigits(s)
    ensures ParseMillis("0" + s) == ParseMillis(s)
  {
    LeadingZeroValue(s);
  }

  lemma {:induction false} LeadingZeroValue(s: string)
    requires AllDigits(s)
    ensures AllDigits("0" + s) && DigitsValue("0" + s) == DigitsValue(s)
    decreases |s|
  {
    var z := "0" + s;
    if s != [] {
      LeadingZeroValue(s[..|s| - 1]);
      assert z[..|z| - 1] == "0" + s[..|s| - 1];
      assert z[|z| - 1] == s[|s| - 1];
    }
  }
}
