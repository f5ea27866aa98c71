/** Signed decimal numbers: Go's strconv.Itoa and the %d verb, and a reader for them. */
module Decimal {
  import opened Prelude

  predicate IsDigit(c: char)
  {
    '0' <= c <= '9'
  }

  function DigitsOf(n: nat): string
  {
    if n < 10 then [(n + 48) as char]
    else DigitsOf(n / 10) + [(n % 10 + 48) as char]
  }

  /** strconv.Itoa. */
  function Itoa(n: int): string
  {
    if n < 0 then "-" + DigitsOf(-n) else DigitsOf(n)
  }

  function SpanDigits(s: string): (string, string)
  {
    if s == "" || !IsDigit(s[0]) then ("", s)
    else var (d, r) := SpanDigits(s[1..]); ([s[0]] + d, r)
  }

  function NatOf(digits: string): int
  {
    if digits == "" then 0
    else 10 * NatOf(digits[..|digits| - 1]) + (digits[|digits| - 1] as int - 48)
  }

  function ParseInt(s: string): Option<(int, string)>
  {
    var negative := s != "" && s[0] == '-';
    var (d, rest) := SpanDigits(if negative then s[1..] else s);
    if d == "" then None
    else Some((if negative then -NatOf(d) else NatOf(d), rest))
  }

  lemma {:induction false} DigitsOfIsDecimal(n: nat)
    ensures DigitsOf(n) != ""
    ensures forall i :: 0 <= i < |DigitsOf(n)| ==> IsDigit(DigitsOf(n)[i])
    ensures NatOf(DigitsOf(n)) == n
  {
    if n >= 10 {
      DigitsOfIsDecimal(n / 10);
      var d := DigitsOf(n);
      assert d[..|d| - 1] == DigitsOf(n / 10);
    }
  }

  lemma {:induction false} SpanDigitsInverts(d: string, rest: string)
    requires forall i :: 0 <= i < |d| ==> IsDigit(d[i])
    requires rest == "" || !IsDigit(rest[0])
    ensures SpanDigits(d + rest) == (d, rest)
  {
    if d == "" {
      assert d + rest == rest;
    } else {
      assert (d + rest)[1..] == d[1..] + rest;
      SpanDigitsInverts(d[1..], rest);
      assert [d[0]] + d[1..] == d;
    }
  }

  /** Reading back a printed number, as long as no digit follows it. */
  lemma ParseIntInverts(n: int, rest: string)
    requires rest == "" || !IsDigit(rest[0])
    ensures ParseInt(Itoa(n) + rest) == Some((n, rest))
  {
    var m := if n < 0 then -n else n;
    var d := DigitsOf(m);
    DigitsOfIsDecimal(m);
    SpanDigitsInverts(d, rest);
    assert d[0] != '-';
    if n < 0 {
      assert "-" + d + rest == ['-'] + (d + rest);
      assert (['-'] + (d + rest))[1..] == d + rest;
    }
  }

  /** A printed number holds nothing but digits and a minus sign. */
  lemma ItoaPlain(n: int, c: char)
    requires !IsDigit(c) && c != '-'
    ensures c !in Itoa(n)
  {
    DigitsOfIsDecimal(if n < 0 then -n else n);
  }
}
