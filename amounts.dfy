/**
 * Decimal amounts. Kotlin's `toDoubleOrNull` / `toDouble` are modelled by a partial
 * parser to an exact `real`: an optional sign, digits, and an optional fractional
 * part after a point, with at least one digit in all. The filter and the validation
 * only compare amounts, so exact reals stand in for doubles.
 */
module Amounts {
  import opened Wrappers
  import opened Dates
  import Text

  /** The number written as `whole.frac` in decimal. */
  function DecimalValue(whole: string, frac: string): (v: real)
    requires AllDigits(whole) && AllDigits(frac)
    ensures v >= 0.0
  {
    DigitsValue(whole) as real + DigitsValue(frac) as real / Pow10(|frac|) as real
  }

  /** `s.toDoubleOrNull()` on the plain decimal forms; `None` for everything else. */
  function ParseAmount(s: string): (r: Option<real>)
    ensures r.Some? && |s| > 0 && s[0] == '-' ==> r.value <= 0.0
    ensures r.Some? && (|s| == 0 || s[0] != '-') ==> r.value >= 0.0
  {
    var negative := |s| > 0 && s[0] == '-';
    var body := if |s| > 0 && (s[0] == '-' || s[0] == '+') then s[1..] else s;
    var parts := Text.Split(body, '.');
    var whole := parts[0];
    var frac := if |parts| == 2 then parts[1] else "";
    if |parts| <= 2 && AllDigits(whole) && AllDigits(frac) && |whole| + |frac| > 0 then
      var v := DecimalValue(whole, frac);
      Some(if negative then -v else v)
    else None
  }

  /** The decimal numeral of `n`, without leading zeros. */
  function NaturalNumeral(n: nat): (s: string)
    ensures |s| > 0 && AllDigits(s) && '.' !in s
    ensures DigitsValue(s) == n
  {
    if n < 10 then
      var s := [('0' as int + n) as char];
      assert s[..0] == [];
      s
    else
      var init := NaturalNumeral(n / 10);
      var s := init + [('0' as int + n % 10) as char];
      assert s[..|s| - 1] == init;
      s
  }

  /** A whole amount printed as a numeral is read back as that amount. */
  lemma ParseNaturalNumeral(n: nat)
    ensures ParseAmount(NaturalNumeral(n)) == Some(n as real)
  {
    var s := NaturalNumeral(n);
    Text.SplitFree(s, '.');
    assert DigitsValue("") == 0;
  }
}
