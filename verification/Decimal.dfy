/** Decimal printing and parsing of integers, as `format!` and `str::parse` do it. */
module Decimal {
  import opened Wrappers

  predicate IsDigit(c: char) {
    '0' <= c <= '9'
  }

  predicate AllDigits(s: string) {
    forall i :: 0 <= i < |s| ==> IsDigit(s[i])
  }

  function PrintNat(n: nat): (s: string) {
    if n < 10 then ["0123456789"[n]] else PrintNat(n / 10) + ["0123456789"[n % 10]]
  }

  function PrintInt(n: int): string {
    if n < 0 then "-" + PrintNat(-n) else PrintNat(n)
  }

  /** The number a string of digits denotes; leading zeros are allowed. */
  function Value(s: string): nat
    requires AllDigits(s)
  {
    if s == [] then 0 else 10 * Value(s[..|s| - 1]) + (s[|s| - 1] as int - '0' as int)
  }

  /** `str::parse::<u16>`: digits after an optional plus sign, at most 65535. */
  function ParseU16(s: string): Option<nat> {
    var digits := if s != [] && s[0] == '+' then s[1..] else s;
    if digits != [] && AllDigits(digits) && Value(digits) <= 65535 then Some(Value(digits)) else None
  }

  lemma AppendedDigit(s: string, d: nat)
    requires AllDigits(s) && d < 10
    ensures AllDigits(s + ["0123456789"[d]])
    ensures Value(s + ["0123456789"[d]]) == 10 * Value(s) + d
  {
    var t := s + ["0123456789"[d]];
    assert t[..|t| - 1] == s;
  }

  lemma {:induction false} PrintedValue(n: nat)
    ensures PrintNat(n) != [] && AllDigits(PrintNat(n)) && Value(PrintNat(n)) == n
  {
    if n < 10 {
      AppendedDigit([], n);
    } else {
      PrintedValue(n / 10);
      AppendedDigit(PrintNat(n / 10), n % 10);
    }
  }

  lemma PrintedParses(n: nat)
    requires n <= 65535
    ensures ParseU16(PrintNat(n)) == Some(n)
  {
    PrintedValue(n);
    assert IsDigit(PrintNat(n)[0]);
  }

  /** The digits of a port, after an optional plus sign. */
  ghost predicate Denotes(s: string, digits: string, n: nat) {
    && (s == digits || s == ['+'] + digits)
    && digits != [] && AllDigits(digits)
    && Value(digits) == n <= 65535
  }

  /** What is a port: one or more digits, perhaps after a plus sign, of a value that 16 bits hold. */
  lemma ParseU16Iff(s: string, n: nat)
    ensures ParseU16(s) == Some(n) <==> exists digits :: Denotes(s, digits, n)
  {
    hide Value;
    var digits := if s != [] && s[0] == '+' then s[1..] else s;
    assert s == digits || s == ['+'] + digits;
    if ParseU16(s) == Some(n) {
      assert Denotes(s, digits, n);
    }
    forall d | Denotes(s, d, n) ensures ParseU16(s) == Some(n) {
      if s == ['+'] + d {
        assert s[1..] == d;
      } else {
        assert IsDigit(d[0]);
      }
    }
  }

  lemma PrintIntInjective(a: int, b: int)
    requires PrintInt(a) == PrintInt(b)
    ensures a == b
  {
    PrintedValue(if a < 0 then -a else a);
    PrintedValue(if b < 0 then -b else b);
    assert IsDigit(PrintNat(if a < 0 then -a else a)[0]);
    assert IsDigit(PrintNat(if b < 0 then -b else b)[0]);
    if a < 0 && b < 0 {
      assert PrintInt(a)[1..] == PrintNat(-a);
      assert PrintInt(b)[1..] == PrintNat(-b);
    }
  }
}
