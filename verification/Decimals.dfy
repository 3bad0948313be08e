/** Token ids as map keys: decimal strings, and the parser that reads them back. */
module Decimals {
  import opened Words

  function Digit(d: nat): char
    requires d < 10
  {
    "0123456789"[d]
  }

  function DigitOf(c: char): Option<nat> {
    if '0' <= c <= '9' then Some(c as int - '0' as int) else None
  }

  /** `i64::to_string` for a token id. */
  function Decimal(n: nat): (s: string)
    ensures |s| > 0
  {
    if n < 10 then [Digit(n)] else Decimal(n / 10) + [Digit(n % 10)]
  }

  function ParseDigits(s: string): Option<nat> {
    if s == "" then None
    else
      var last := DigitOf(s[|s| - 1]);
      if last.None? then None
      else if |s| == 1 then last
      else match ParseDigits(s[..|s| - 1])
        case None => None
        case Some(n) => Some(10 * n + last.value)
  }

  /** `str::parse::<i64>`: an optional sign, digits, in range. */
  function Parse(s: string): Option<I64> {
    var negative := s != "" && s[0] == '-';
    match ParseDigits(if s != "" && (s[0] == '-' || s[0] == '+') then s[1..] else s)
    case None => None
    case Some(n) =>
      var v: int := if negative then 0 - n else n;
      if I64_MIN <= v <= I64_MAX then Some(v) else None
  }

  lemma {:induction false} DigitsRoundTrip(n: nat)
    ensures ParseDigits(Decimal(n)) == Some(n)
    ensures '0' <= Decimal(n)[0] <= '9'
    decreases n
  {
    if n >= 10 {
      DigitsRoundTrip(n / 10);
      var s := Decimal(n);
      assert s[..|s| - 1] == Decimal(n / 10);
      assert s[0] == Decimal(n / 10)[0];
    }
  }

  /** Reading a token id back gives the id, so different ids have different keys. */
  lemma DecimalRoundTrip(n: nat)
    requires n <= I64_MAX
    ensures Parse(Decimal(n)) == Some(n)
  {
    DigitsRoundTrip(n);
  }

  lemma DecimalInjective(m: nat, n: nat)
    requires Decimal(m) == Decimal(n)
    ensures m == n
  {
    DigitsRoundTrip(m);
    DigitsRoundTrip(n);
  }
}
