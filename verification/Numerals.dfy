/** Decimal and hexadecimal text of numbers. */
module Numerals {
  import opened Wrappers

  function DigitChar(d: int): char
    requires 0 <= d < 10
  {
    ('0' as int + d) as char
  }

  predicate IsDigit(c: char) { '0' <= c <= '9' }

  function PrintNat(n: nat): string {
    if n < 10 then [DigitChar(n)] else PrintNat(n / 10) + [DigitChar(n % 10)]
  }

  function PrintInt(n: int): string {
    if n < 0 then "-" + PrintNat(-n) else PrintNat(n)
  }

  datatype Parsed<+T> = Fail | Done(value: T, rest: string)

  function ParseDigits(s: string, acc: nat): (r: Parsed<nat>)
    ensures r.Done? && |r.rest| <= |s|
  {
    if s != "" && IsDigit(s[0]) then ParseDigits(s[1..], acc * 10 + (s[0] as int - '0' as int))
    else Done(acc, s)
  }

  /** A number has at least one digit and no leading zero. */
  function ParseNat(s: string): (r: Parsed<nat>)
    ensures r.Done? ==> |r.rest| < |s|
  {
    if s == "" || !IsDigit(s[0]) || (s[0] == '0' && |s| > 1 && IsDigit(s[1])) then Fail
    else ParseDigits(s[1..], s[0] as int - '0' as int)
  }

  ghost predicate EndsNumber(rest: string) { rest == "" || !IsDigit(rest[0]) }

  lemma OneDigit(d: nat, acc: nat, rest: string)
    requires d < 10
    ensures ParseDigits([DigitChar(d)] + rest, acc) == ParseDigits(rest, acc * 10 + d)
  {
    assert ([DigitChar(d)] + rest)[1..] == rest;
  }

  lemma {:induction false} DigitsOfNat(n: nat, rest: string)
    ensures ParseDigits(PrintNat(n) + rest, 0) == ParseDigits(rest, n)
    ensures PrintNat(n) != "" && IsDigit(PrintNat(n)[0])
    ensures PrintNat(n)[0] == '0' ==> n == 0
  {
    if n < 10 {
      OneDigit(n, 0, rest);
    } else {
      var tail := [DigitChar(n % 10)] + rest;
      DigitsOfNat(n / 10, tail);
      OneDigit(n % 10, n / 10, rest);
      assert PrintNat(n) + rest == PrintNat(n / 10) + tail;
    }
  }

  lemma ParsePrintNat(n: nat, rest: string)
    requires EndsNumber(rest)
    ensures ParseNat(PrintNat(n) + rest) == Done(n, rest)
  {
    DigitsOfNat(n, rest);
    if n == 0 {
      assert PrintNat(n) == "0";
      assert ("0" + rest)[1..] == rest;
    }
  }

  lemma PrintNatInjective(m: nat, n: nat)
    requires PrintNat(m) == PrintNat(n)
    ensures m == n
  {
    ParsePrintNat(m, "");
    ParsePrintNat(n, "");
  }

  function HexDigit(d: int): char
    requires 0 <= d < 16
  {
    if d < 10 then DigitChar(d) else ('a' as int + (d - 10)) as char
  }

  function HexValue(c: char): (r: Option<int>)
    ensures r.Some? ==> 0 <= r.value < 16
  {
    if IsDigit(c) then Some(c as int - '0' as int)
    else if 'a' <= c <= 'f' then Some(c as int - 'a' as int + 10)
    else if 'A' <= c <= 'F' then Some(c as int - 'A' as int + 10)
    else None
  }
}
