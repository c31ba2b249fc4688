/** Decimal integers as Go prints (`%d`) and parses (`strconv.ParseInt(s, 10, 64)`) them. */
module Decimal {
  import opened Prelude

  const MIN64: int := -0x8000_0000_0000_0000
  const MAX64: int := 0x7FFF_FFFF_FFFF_FFFF

  predicate IsInt64(n: int) { MIN64 <= n <= MAX64 }

  predicate Digit(c: char) { '0' <= c <= '9' }

  predicate Digits(s: string) { forall i :: 0 <= i < |s| ==> Digit(s[i]) }

  function DigitOf(n: nat): char
    requires n < 10
  {
    ('0' as int + n) as char
  }

  function Natural(n: nat): string {
    if n < 10 then [DigitOf(n)] else Natural(n / 10) + [DigitOf(n % 10)]
  }

  function Print(n: int): string { if n < 0 then "-" + Natural(-n) else Natural(n) }

  /** The number a string of digits denotes. */
  function Denoted(s: string): nat
    requires Digits(s)
  {
    if s == "" then 0 else Denoted(s[..|s| - 1]) * 10 + (s[|s| - 1] as int - '0' as int)
  }

  function InRange(n: int): Option<int> { if IsInt64(n) then Some(n) else None }

  /** An optional sign, at least one digit, nothing else, and in range. */
  function Parse(s: string): Option<int> {
    if s != "" && s[0] == '-' then ParseDigits(s[1..], -1)
    else if s != "" && s[0] == '+' then ParseDigits(s[1..], 1)
    else ParseDigits(s, 1)
  }

  function ParseDigits(s: string, sign: int): Option<int> {
    if s == "" || !Digits(s) then None else InRange(sign * Denoted(s))
  }

  lemma {:induction false} NaturalDenotes(n: nat)
    ensures Natural(n) != "" && Digits(Natural(n)) && Denoted(Natural(n)) == n
  {
    if n < 10 {
      assert Natural(n)[..0] == "";
    } else {
      NaturalDenotes(n / 10);
      assert Natural(n)[..|Natural(n)| - 1] == Natural(n / 10);
    }
  }

  lemma ParseOfNatural(n: nat, sign: int)
    requires IsInt64(sign * n)
    ensures ParseDigits(Natural(n), sign) == Some(sign * n)
  {
    NaturalDenotes(n);
  }

  /** Every int64 comes back from its decimal form. */
  lemma PrintDenotes(n: int)
    requires IsInt64(n)
    ensures Parse(Print(n)) == Some(n)
  {
    if n < 0 {
      ParseOfNatural(-n, -1);
      assert Print(n)[1..] == Natural(-n);
    } else {
      ParseOfNatural(n, 1);
      NaturalDenotes(n);
      assert Digit(Natural(n)[0]);
    }
  }

  /** Which texts denote an int64: an optional sign and at least one digit, in range. */
  lemma ParsesIff(s: string)
    ensures var signed := s != "" && (s[0] == '-' || s[0] == '+');
            var digits := if signed then s[1..] else s;
            Parse(s).Some? <==>
              && digits != "" && (forall i :: 0 <= i < |digits| ==> '0' <= digits[i] <= '9')
              && (if signed && s[0] == '-' then Denoted(digits) <= 0x8000_0000_0000_0000
                  else Denoted(digits) < 0x8000_0000_0000_0000)
  {
  }

  lemma DenotedSnoc(s: string, c: char)
    requires Digits(s) && Digit(c)
    ensures Digits(s + [c]) && Denoted(s + [c]) == Denoted(s) * 10 + (c as int - '0' as int)
    ensures Denoted("") == 0
  {
    assert (s + [c])[..|s|] == s;
  }

  /** A text of digits denotes their number, with a sign or without, unless it is out of range. */
  lemma SignsRead(s: string)
    requires s != "" && Digits(s)
    ensures Parse(s) == Parse("+" + s) == InRange(Denoted(s)) && Parse("-" + s) == InRange(0 - Denoted(s))
  {
    assert ("+" + s)[1..] == s && ("-" + s)[1..] == s;
    assert Digit(s[0]);
    hide Denoted, Digits, InRange;
  }

  lemma RangeMeans(n: nat)
    ensures InRange(n) == if n < 0x8000_0000_0000_0000 then Some(n) else None
    ensures InRange(0 - n) == if n <= 0x8000_0000_0000_0000 then Some(0 - n) else None
  {
  }

  /** The digits count from the right: one more is worth its value, and each before it ten times as much. */
  lemma OneMoreDigit(s: string, c: char)
    requires Digits(s) && '0' <= c <= '9'
    ensures var n, t := Denoted(s) * 10 + (c as int - '0' as int), s + [c];
            && Parse(t) == (if n < 0x8000_0000_0000_0000 then Some(n) else None)
            && Parse("-" + t) == (if n <= 0x8000_0000_0000_0000 then Some(-n) else None)
  {
    DenotedSnoc(s, c);
    SignsRead(s + [c]);
    RangeMeans(Denoted(s + [c]));
    hide Parse, Denoted, Digits, InRange;
  }

  /** No number is printed with a leading zero, except zero itself. */
  lemma {:induction false} NoLeadingZero(n: nat)
    ensures Print(n) == Natural(n) && (Natural(n)[0] == '0' <==> n == 0)
  {
    NaturalDenotes(n);
    if n >= 10 {
      NoLeadingZero(n / 10);
      NaturalDenotes(n / 10);
    }
  }

  /** Printed numbers consist of digits and perhaps a minus sign. */
  lemma PrintedCharacters(n: int)
    ensures Print(n) != ""
    ensures forall i :: 0 <= i < |Print(n)| ==> Digit(Print(n)[i]) || Print(n)[i] == '-'
  {
    NaturalDenotes(if n < 0 then -n else n);
  }
}
