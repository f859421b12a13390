/** Decimal rendering and parsing of integers, as Kotlin string templates and `toIntOrNull` do them. */
module Numbers {
  import opened Common

  predicate IsDigit(ch: char) { '0' <= ch <= '9' }

  predicate AllDigits(s: string) { forall i | 0 <= i < |s| :: IsDigit(s[i]) }

  function DigitChar(d: nat): char
    requires d < 10
  {
    ('0' as int + d) as char
  }

  /** The decimal text of `n` (`"$n"` in a Kotlin template): digits only, no leading zero. */
  function NatToString(n: nat): (s: string)
    ensures |s| >= 1 && AllDigits(s)
    ensures s[0] == '0' ==> n == 0
    decreases n
  {
    if n < 10 then [DigitChar(n)]
    else NatToString(n / 10) + [DigitChar(n % 10)]
  }

  /** The unbounded value of a string of ASCII digits. */
  function DigitsValue(s: string): nat
    requires AllDigits(s)
  {
    if s == [] then 0
    else DigitsValue(s[..|s| - 1]) * 10 + (s[|s| - 1] as int - '0' as int)
  }

  /** An optional `-` or `+` followed by at least one ASCII digit. */
  predicate IsSignedDecimal(s: string)
  {
    || (|s| >= 2 && (s[0] == '-' || s[0] == '+') && AllDigits(s[1..]))
    || (|s| >= 1 && AllDigits(s))
  }

  /** The value such a string denotes, with no bound on its size. */
  function DecimalValue(s: string): int
    requires IsSignedDecimal(s)
  {
    if s[0] == '-' then 0 - DigitsValue(s[1..]) as int
    else if s[0] == '+' then DigitsValue(s[1..])
    else DigitsValue(s)
  }

  /**
   * Kotlin's `String.toIntOrNull()` (radix 10): an optional leading `-` or `+`
   * followed by at least one digit, and the value must fit in an `Int`;
   * anything else is null.  Any first character below '0' is taken for a sign
   * and rejected unless it is `-` or `+`.
   */
  function ToIntOrNull(s: string): (r: Option<int>)
    ensures r.Some? <==> IsSignedDecimal(s) && IntMin <= DecimalValue(s) <= IntMax
    ensures r.Some? ==> r.value == DecimalValue(s)
  {
    if |s| == 0 then None
    else if s[0] < '0' then
      if |s| == 1 then None
      else if !AllDigits(s[1..]) then None
      else if s[0] == '-' then
        var v: int := DigitsValue(s[1..]);
        (if -v >= IntMin then Some(-v) else None)
      else if s[0] == '+' then
        (if DigitsValue(s[1..]) <= IntMax then Some(DigitsValue(s[1..])) else None)
      else None
    else if AllDigits(s) && DigitsValue(s) <= IntMax then
      Some(DigitsValue(s))
    else None
  }

  /** Reading back the decimal text of `n` gives `n`. */
  lemma {:induction false} DigitsValueOfNatToString(n: nat)
    ensures DigitsValue(NatToString(n)) == n
    decreases n
  {
    if n >= 10 {
      DigitsValueOfNatToString(n / 10);
      var s := NatToString(n);
      assert s[..|s| - 1] == NatToString(n / 10);
    }
  }

  /** `toIntOrNull` inverts the rendering of every non-negative `Int`. */
  lemma ToIntOrNullOfNatToString(n: nat)
    requires n <= IntMax
    ensures ToIntOrNull(NatToString(n)) == Some(n)
  {
    DigitsValueOfNatToString(n);
  }

  /** An explicit `+` sign is accepted, so `+n` names the same number as `n`. */
  lemma ToIntOrNullOfPlusSign(n: nat)
    requires n <= IntMax
    ensures ToIntOrNull("+" + NatToString(n)) == Some(n)
  {
    var s := "+" + NatToString(n);
    assert s[1..] == NatToString(n);
    DigitsValueOfNatToString(n);
  }

  /** A leading zero does not change the value read. */
  lemma {:induction false} DigitsValueLeadingZero(s: string)
    requires AllDigits(s)
    ensures AllDigits("0" + s) && DigitsValue("0" + s) == DigitsValue(s)
    decreases |s|
  {
    if s != [] {
      var z := "0" + s;
      assert z[..|z| - 1] == "0" + s[..|s| - 1];
      DigitsValueLeadingZero(s[..|s| - 1]);
    }
  }

  /** A leading zero is accepted, so `0n` names the same number as `n`. */
  lemma ToIntOrNullOfLeadingZero(n: nat)
    requires n <= IntMax
    ensures ToIntOrNull("0" + NatToString(n)) == Some(n)
  {
    DigitsValueLeadingZero(NatToString(n));
    DigitsValueOfNatToString(n);
  }
}
