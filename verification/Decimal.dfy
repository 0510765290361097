/** Decimal printing and parsing of unsigned integers, as `format!("{n}")` and
    `str::parse::<uN>` do them. */
module Decimal {

  import opened Wrappers

  const U32_LIMIT: nat := 0x1_0000_0000
  const U64_LIMIT: nat := 0x1_0000_0000_0000_0000

  predicate IsDigit(c: char)
  {
    '0' <= c <= '9'
  }

  function DigitChar(d: nat): (c: char)
    requires d < 10
    ensures IsDigit(c) && DigitValue(c) == d
  {
    '0' + d as char
  }

  function DigitValue(c: char): (d: nat)
    requires IsDigit(c)
    ensures d < 10
  {
    (c - '0') as int
  }

  /** The decimal numeral of `n`, without leading zeros. */
  function Print(n: nat): (s: string)
    ensures s != []
    ensures forall i | 0 <= i < |s| :: IsDigit(s[i])
  {
    if n < 10 then [DigitChar(n)] else Print(n / 10) + [DigitChar(n % 10)]
  }

  /** Value of a digit string, most significant digit first. */
  function Value(s: string): nat
    requires forall i | 0 <= i < |s| :: IsDigit(s[i])
  {
    if s == [] then 0 else 10 * Value(s[..|s| - 1]) + DigitValue(s[|s| - 1])
  }

  /** `str::parse` for an unsigned type whose values lie below `limit`: one optional `+`,
      then at least one digit, and no overflow. */
  function Parse(s: string, limit: nat): (r: Option<nat>)
    ensures r.Some? ==> r.value < limit
  {
    var digits := DropPlus(s);
    if digits == [] || exists i | 0 <= i < |digits| :: !IsDigit(digits[i]) then None
    else if Value(digits) >= limit then None
    else Some(Value(digits))
  }

  function DropPlus(s: string): string
  {
    if |s| > 0 && s[0] == '+' then s[1..] else s
  }

  /** A text with anything but digits behind the optional `+` is no number. */
  lemma ParseRejects(s: string, limit: nat, i: nat)
    requires i < |DropPlus(s)| && !IsDigit(DropPlus(s)[i])
    ensures Parse(s, limit) == None
  {
  }

  lemma {:induction false} ValueOfPrint(n: nat)
    ensures Value(Print(n)) == n
  {
    if n < 10 {
      assert Print(n)[..0] == [];
    } else {
      ValueOfPrint(n / 10);
      assert Print(n)[..|Print(n)| - 1] == Print(n / 10);
    }
  }

  /** Parsing a printed number gives it back exactly when it fits the target type. */
  lemma ParsePrint(n: nat, limit: nat)
    ensures Parse(Print(n), limit) == if n < limit then Some(n) else None
  {
    ValueOfPrint(n);
    assert IsDigit(Print(n)[0]);
  }

  /** Distinct numbers have distinct numerals. */
  lemma PrintInjective(a: nat, b: nat)
    requires Print(a) == Print(b)
    ensures a == b
  {
    ValueOfPrint(a);
    ValueOfPrint(b);
  }

  /** A larger number never has a shorter numeral. */
  lemma {:induction false} PrintLengthMonotone(a: nat, b: nat)
    requires a <= b
    ensures |Print(a)| <= |Print(b)|
  {
    if a >= 10 {
      PrintLengthMonotone(a / 10, b / 10);
    }
  }
}
