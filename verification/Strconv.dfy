/** The parts of Go's `strconv` used for revisions, event ids, flags and file
    modes, with the printer/parser round trips. */
module Strconv {
  import opened Prelude

  const MIN_INT64: int := -0x8000_0000_0000_0000
  const MAX_INT64: int := 0x7fff_ffff_ffff_ffff

  predicate IsDigit(c: char) { '0' <= c <= '9' }

  predicate AllDigits(s: string) {
    forall i :: 0 <= i < |s| ==> IsDigit(s[i])
  }

  /** The value of a digit string, most significant digit first. */
  function Value(s: string): nat
    requires AllDigits(s)
  {
    if s == "" then 0
    else 10 * Value(s[..|s| - 1]) + (s[|s| - 1] as int - '0' as int)
  }

  /** Decimal digits of a non-negative number without leading zeros. */
  function Digits(n: nat): (s: string)
    ensures s != "" && AllDigits(s)
    ensures Value(s) == n
  {
    var last := [(n % 10 + '0' as int) as char];
    if n < 10 then last
    else
      var s := Digits(n / 10) + last;
      assert s[..|s| - 1] == Digits(n / 10);
      s
  }

  /** `strconv.FormatInt(n, 10)`; `strconv.Itoa` is the same function. */
  function FormatInt(n: int): string {
    if n < 0 then "-" + Digits(-n) else Digits(n)
  }

  /** `strconv.ParseInt(s, 10, 64)`; `strconv.Atoi` accepts the same inputs. */
  function ParseInt(s: string): (r: Option<int>)
    ensures r.Some? ==> MIN_INT64 <= r.value <= MAX_INT64
  {
    var signed := s != "" && (s[0] == '+' || s[0] == '-');
    var digits := if signed then s[1..] else s;
    if digits == "" || !AllDigits(digits) then None
    else
      var magnitude: int := Value(digits);
      var v := if signed && s[0] == '-' then -magnitude else magnitude;
      if MIN_INT64 <= v <= MAX_INT64 then Some(v) else None
  }

  /** Every 64-bit integer survives printing and parsing, and no other does. */
  lemma ParseOfFormat(n: int)
    ensures ParseInt(FormatInt(n)) == if MIN_INT64 <= n <= MAX_INT64 then Some(n) else None
    ensures FormatInt(n) != ""
  {
    if n < 0 {
      assert FormatInt(n)[1..] == Digits(-n);
    } else {
      var s := Digits(n);
      assert IsDigit(s[0]);
    }
  }

  /** A digit string is read as its value, with an optional sign and within 64 bits; nothing
      else is read. */
  lemma ParseIntMeans(s: string, digits: string)
    requires AllDigits(digits) && digits != ""
    ensures ParseInt(digits) == if Value(digits) <= 0x7fff_ffff_ffff_ffff then Some(Value(digits)) else None
    ensures ParseInt("+" + digits) == ParseInt(digits)
    ensures ParseInt("-" + digits) == if Value(digits) <= 0x8000_0000_0000_0000 then Some(0 - Value(digits)) else None
    ensures ParseInt(s).Some? ==>
              s != "" && AllDigits(if s[0] == '+' || s[0] == '-' then s[1..] else s) && s != "+" && s != "-"
  {
    assert ("+" + digits)[1..] == digits && ("-" + digits)[1..] == digits;
    assert IsDigit(digits[0]);
    hide Value;
  }

  lemma ParseBoolMeans(s: string)
    ensures ParseBool(s) == Some(true) <==> s in {"1", "t", "T", "TRUE", "true", "True"}
    ensures ParseBool(s) == Some(false) <==> s in {"0", "f", "F", "FALSE", "false", "False"}
  {
  }

  /** `strconv.ParseBool`. */
  function ParseBool(s: string): Option<bool> {
    if s in ["1", "t", "T", "TRUE", "true", "True"] then Some(true)
    else if s in ["0", "f", "F", "FALSE", "false", "False"] then Some(false)
    else None
  }

  /** `strconv.FormatBool`. */
  function FormatBool(b: bool): (s: string)
    ensures ParseBool(s) == Some(b)
  {
    if b then "true" else "false"
  }
}
