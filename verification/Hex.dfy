/** Hexadecimal as Go's encoding/hex writes (lower case) and reads (either case) it. */
module Hex {
  import opened Prelude
  import opened Base64

  type Nibble = x: int | 0 <= x < 16

  function Symbol4(v: Nibble): char {
    if v < 10 then ('0' as int + v) as char else ('a' as int + (v - 10)) as char
  }

  function Value4(c: char): Option<Nibble> {
    if '0' <= c <= '9' then Some(c as int - '0' as int)
    else if 'a' <= c <= 'f' then Some(c as int - 'a' as int + 10)
    else if 'A' <= c <= 'F' then Some(c as int - 'A' as int + 10)
    else None
  }

  function EncodeHex(b: seq<Byte>): string {
    if b == [] then "" else [Symbol4(b[0] / 16), Symbol4(b[0] % 16)] + EncodeHex(b[1..])
  }

  function DecodeHex(s: string): Option<seq<Byte>> {
    if s == "" then Some([])
    else if |s| == 1 then None
    else
      var hi, lo, rest := Value4(s[0]), Value4(s[1]), DecodeHex(s[2..]);
      if hi.None? || lo.None? || rest.None? then None
      else Some([hi.value * 16 + lo.value] + rest.value)
  }

  const LOWER_DIGITS: string := "0123456789abcdef"
  const UPPER_DIGITS: string := "0123456789ABCDEF"

  lemma DigitOfValue(v: Nibble)
    ensures |LOWER_DIGITS| == |UPPER_DIGITS| == 16
    ensures Symbol4(v) == LOWER_DIGITS[v] && Value4(LOWER_DIGITS[v]) == Value4(UPPER_DIGITS[v]) == Some(v)
  {
  }

  lemma ValueOfDigit(c: char)
    ensures |LOWER_DIGITS| == |UPPER_DIGITS| == 16
    ensures Value4(c).Some? ==> LOWER_DIGITS[Value4(c).value] == c || UPPER_DIGITS[Value4(c).value] == c
    ensures Value4(c).Some? <==> c in LOWER_DIGITS || c in UPPER_DIGITS
  {
    DigitOfValue(0);
    if Value4(c).Some? {
      CharOfValue(c);
    } else {
      forall i | 0 <= i < 16 ensures LOWER_DIGITS[i] != c && UPPER_DIGITS[i] != c {
        DigitOfValue(i);
      }
    }
  }

  lemma CharOfValue(c: char)
    requires Value4(c).Some?
    ensures var v := Value4(c).value;
            |LOWER_DIGITS| == |UPPER_DIGITS| == 16 && (LOWER_DIGITS[v] == c || UPPER_DIGITS[v] == c)
  {
  }

  /** Each byte is written as two digits, the high one first, in lower case. */
  lemma EncodeHexByte(x: Byte, rest: seq<Byte>) returns (hi: Nibble, lo: Nibble)
    ensures hi * 16 + lo == x && |LOWER_DIGITS| == 16
    ensures EncodeHex([x] + rest) == [LOWER_DIGITS[hi], LOWER_DIGITS[lo]] + EncodeHex(rest) && EncodeHex([]) == ""
  {
    hi, lo := x / 16, x % 16;
    DigitOfValue(hi);
    DigitOfValue(lo);
    hide Symbol4, LOWER_DIGITS, UPPER_DIGITS;
    assert ([x] + rest)[1..] == rest;
  }

  /** The reader takes digits of either case, and nothing else, in pairs. */
  lemma {:induction false} DecodesHexIff(s: string)
    ensures DecodeHex(s).Some? <==>
              |s| % 2 == 0 && forall i :: 0 <= i < |s| ==> s[i] in LOWER_DIGITS || s[i] in UPPER_DIGITS
    decreases |s|
  {
    hide Value4, LOWER_DIGITS, UPPER_DIGITS;
    if |s| >= 2 {
      ValueOfDigit(s[0]);
      ValueOfDigit(s[1]);
      DecodesHexIff(s[2..]);
      assert |s| == |s[2..]| + 2 && forall i :: 0 <= i < |s| - 2 ==> s[2..][i] == s[i + 2];
    }
  }

  predicate HexDigits(s: string) {
    forall i :: 0 <= i < |s| ==> '0' <= s[i] <= '9' || 'a' <= s[i] <= 'f'
  }

  lemma SymbolValue(v: Nibble)
    ensures Value4(Symbol4(v)) == Some(v) && HexDigits([Symbol4(v)])
  {
  }

  lemma {:induction false} HexIsDigits(b: seq<Byte>)
    ensures HexDigits(EncodeHex(b))
    decreases |b|
  {
    if b != [] {
      HexIsDigits(b[1..]);
    }
  }

  lemma PairUnfolds(c: char, d: char, rest: string)
    requires Value4(c).Some? && Value4(d).Some? && DecodeHex(rest).Some?
    ensures DecodeHex([c, d] + rest) == Some([Value4(c).value * 16 + Value4(d).value] + DecodeHex(rest).value)
  {
    assert ([c, d] + rest)[2..] == rest;
  }

  /** Which pair stands for a byte, in either case. */
  lemma DecodeHexByte(hi: Nibble, lo: Nibble, c: char, d: char, rest: string)
    requires |LOWER_DIGITS| == |UPPER_DIGITS| == 16
    requires c in {LOWER_DIGITS[hi], UPPER_DIGITS[hi]} && d in {LOWER_DIGITS[lo], UPPER_DIGITS[lo]}
    requires DecodeHex(rest).Some?
    ensures DecodeHex([c, d] + rest) == Some([hi * 16 + lo] + DecodeHex(rest).value)
  {
    DigitOfValue(hi);
    DigitOfValue(lo);
    hide Value4, LOWER_DIGITS, UPPER_DIGITS, DecodeHex;
    PairUnfolds(c, d, rest);
  }

  lemma {:induction false} HexRoundTrip(b: seq<Byte>)
    ensures DecodeHex(EncodeHex(b)) == Some(b)
    decreases |b|
  {
    if b != [] {
      var hi, lo := b[0] / 16, b[0] % 16;
      SymbolValue(hi);
      SymbolValue(lo);
      HexRoundTrip(b[1..]);
      PairUnfolds(Symbol4(hi), Symbol4(lo), EncodeHex(b[1..]));
      assert b == [hi * 16 + lo] + b[1..];
    }
  }
}
