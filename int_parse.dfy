/**
 * Parsing a path segment as a signed 64-bit integer, as the standard
 * library's `str::parse::<i64>` does: an optional `+` or `-`, then at least
 * one ASCII digit, and a value within range; anything else is an error.
 */
module Int64Parse {
  import opened Wrappers

  const I64_MIN: int := -0x8000_0000_0000_0000
  const I64_MAX: int := 0x7FFF_FFFF_FFFF_FFFF

  predicate IsDigit(c: char) {
    '0' <= c <= '9'
  }

  predicate AllDigits(s: string) {
    forall i :: 0 <= i < |s| ==> IsDigit(s[i])
  }

  /** The value of a digit string, most significant digit first. */
  function DigitsValue(ds: string): nat
    requires AllDigits(ds)
  {
    if ds == [] then 0
    else DigitsValue(ds[..|ds| - 1]) * 10 + (ds[|ds| - 1] as int - '0' as int)
  }

  /** The signed value of a string, or None when it is not an in-range i64 literal. */
  function ParseI64(s: string): (r: Option<int>)
    ensures r.Some? ==> I64_MIN <= r.value <= I64_MAX
    ensures r.Some? ==> |s| >= 1 && (AllDigits(s) || ((s[0] == '+' || s[0] == '-') && AllDigits(s[1..])))
    ensures s == [] || s == "+" || s == "-" ==> r.None?
  {
    if s == [] then None
    else
      var negative := s[0] == '-';
      var digits := if s[0] == '+' || s[0] == '-' then s[1..] else s;
      if digits == [] || !AllDigits(digits) then None
      else
        InRange(if negative then -(DigitsValue(digits) as int) else DigitsValue(digits))
  }

  /**
   * Every optional sign followed by one or more digits parses to its signed
   * value when that is in range (leading zeros, `+` and `-0` included), and
   * is refused when it is not.
   */
  lemma ParseSignedDigits(sign: string, ds: string)
    requires sign == "" || sign == "+" || sign == "-"
    requires |ds| >= 1 && AllDigits(ds)
    ensures ParseI64(sign + ds) == InRange(if sign == "-" then -(DigitsValue(ds) as int) else DigitsValue(ds))
  {
    var t := sign + ds;
    if sign == "" {
      assert t == ds;
      assert IsDigit(t[0]);
    } else {
      assert t[0] == sign[0];
      assert t[1..] == ds;
    }
  }

  /** A value kept when it fits in an i64. */
  function InRange(v: int): (r: Option<int>)
    ensures r.Some? <==> I64_MIN <= v <= I64_MAX
    ensures r.Some? ==> r.value == v
  {
    if I64_MIN <= v <= I64_MAX then Some(v) else None
  }

  /** The decimal digits of a natural number, without leading zeros. */
  function NatDigits(n: nat): (ds: string)
    ensures |ds| >= 1 && AllDigits(ds)
  {
    if n < 10 then ['0' + n as char]
    else NatDigits(n / 10) + ['0' + (n % 10) as char]
  }

  /** How a number is printed, e.g. as an `id` in a response. */
  function ToDecimal(n: int): string {
    if n < 0 then "-" + NatDigits(-n) else NatDigits(n)
  }

  lemma {:induction false} NatDigitsValue(n: nat)
    ensures DigitsValue(NatDigits(n)) == n
  {
    if n >= 10 {
      NatDigitsValue(n / 10);
      var ds := NatDigits(n);
      assert ds[..|ds| - 1] == NatDigits(n / 10);
    }
  }

  /** Every i64 as printed parses back to itself. */
  lemma ParsePrinted(n: int)
    requires I64_MIN <= n <= I64_MAX
    ensures ParseI64(ToDecimal(n)) == Some(n)
  {
    var sign := if n < 0 then "-" else "";
    var m: nat := if n < 0 then -n else n;
    var ds := NatDigits(m);
    NatDigitsValue(m);
    assert ToDecimal(n) == sign + ds;
    ParseSignedDigits(sign, ds);
    assert (if sign == "-" then -(DigitsValue(ds) as int) else DigitsValue(ds)) == n;
  }
}
