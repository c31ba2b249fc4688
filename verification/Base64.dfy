/** Unpadded base64url (section 5 of RFC 4648) as Go's RawURLEncoding reads and writes it: the reader
    skips line breaks and ignores the unused low bits of the last symbol. */
module Base64 {
  import opened Prelude

  type Byte = x: int | 0 <= x < 256
  type Sextet = x: int | 0 <= x < 64

  function Symbol(v: Sextet): char {
    if v < 26 then ('A' as int + v) as char
    else if v < 52 then ('a' as int + (v - 26)) as char
    else if v < 62 then ('0' as int + (v - 52)) as char
    else if v == 62 then '-' else '_'
  }

  function Value(c: char): Option<Sextet> {
    if 'A' <= c <= 'Z' then Some(c as int - 'A' as int)
    else if 'a' <= c <= 'z' then Some(c as int - 'a' as int + 26)
    else if '0' <= c <= '9' then Some(c as int - '0' as int + 52)
    else if c == '-' then Some(62)
    else if c == '_' then Some(63)
    else None
  }

  const UPPER: string := "ABCDEFGHIJKLMNOPQRSTUVWXYZ"
  const LOWER: string := "abcdefghijklmnopqrstuvwxyz"
  const DIGITS: string := "0123456789"
  const ALPHABET: string := UPPER + LOWER + DIGITS + "-_"

  lemma Letters(v: nat)
    ensures |UPPER| == |LOWER| == 26
    ensures v < 26 ==> UPPER[v] as int == 'A' as int + v && LOWER[v] as int == 'a' as int + v
  {
  }

  lemma Numerals(v: nat)
    ensures |DIGITS| == 10
    ensures v < 10 ==> DIGITS[v] as int == '0' as int + v
  {
  }

  /** The alphabet of section 5 of RFC 4648, in its order. */
  lemma SymbolsAreTheAlphabet(v: Sextet)
    ensures |ALPHABET| == 64 && Symbol(v) == ALPHABET[v]
  {
    Letters(if v < 26 then v else if v < 52 then v - 26 else 0);
    Numerals(if 52 <= v < 62 then v - 52 else 0);
    hide UPPER, LOWER, DIGITS;
  }

  lemma ValuesAreTheAlphabet(c: char)
    ensures Value(c).Some? <==> c in ALPHABET
    ensures Value(c).Some? ==> |ALPHABET| == 64 && ALPHABET[Value(c).value] == c
  {
    if Value(c).Some? {
      SymbolsAreTheAlphabet(Value(c).value);
      hide ALPHABET;
      assert Symbol(Value(c).value) == c;
    } else if c in ALPHABET {
      var i :| 0 <= i < |ALPHABET| && ALPHABET[i] == c;
      SymbolsAreTheAlphabet(i);
      ValueOfSymbol(i);
    }
  }

  lemma ValueOfSymbol(v: Sextet)
    ensures Value(Symbol(v)) == Some(v)
    ensures Symbol(v) != '.' && Symbol(v) != '\r' && Symbol(v) != '\n'
  {
  }

  function Hi(x: Byte): Sextet { x / 4 }
  function HiMid(x: Byte, y: Byte): Sextet { x % 4 * 16 + y / 16 }
  function LoMid(y: Byte, z: Byte): Sextet { y % 16 * 4 + z / 64 }
  function Lo(z: Byte): Sextet { z % 64 }

  /** The bits of `b` in groups of six, the last group padded with zeros. */
  function ToSextets(b: seq<Byte>): seq<Sextet> {
    if |b| == 0 then []
    else if |b| == 1 then [Hi(b[0]), HiMid(b[0], 0)]
    else if |b| == 2 then [Hi(b[0]), HiMid(b[0], b[1]), LoMid(b[1], 0)]
    else [Hi(b[0]), HiMid(b[0], b[1]), LoMid(b[1], b[2]), Lo(b[2])] + ToSextets(b[3..])
  }

  function FirstByte(x: Sextet, y: Sextet): Byte { x * 4 + y / 16 }
  function SecondByte(y: Sextet, z: Sextet): Byte { y % 16 * 16 + z / 4 }
  function ThirdByte(z: Sextet, w: Sextet): Byte { z % 4 * 64 + w }

  function FromSextets(s: seq<Sextet>): Option<seq<Byte>> {
    if |s| == 0 then Some([])
    else if |s| == 1 then None
    else if |s| == 2 then Some([FirstByte(s[0], s[1])])
    else if |s| == 3 then Some([FirstByte(s[0], s[1]), SecondByte(s[1], s[2])])
    else
      var rest := FromSextets(s[4..]);
      if rest.None? then None
      else Some([FirstByte(s[0], s[1]), SecondByte(s[1], s[2]), ThirdByte(s[2], s[3])] + rest.value)
  }

  function Symbols(v: seq<Sextet>): string { seq(|v|, i requires 0 <= i < |v| => Symbol(v[i])) }

  function Values(s: string): Option<seq<Sextet>> {
    if s == "" then Some([])
    else
      var v, rest := Value(s[0]), Values(s[1..]);
      if v.None? || rest.None? then None else Some([v.value] + rest.value)
  }

  function Strip(s: string): string {
    if s == "" then "" else (if s[0] == '\r' || s[0] == '\n' then "" else [s[0]]) + Strip(s[1..])
  }

  function Encode(b: seq<Byte>): string { Symbols(ToSextets(b)) }

  function Decode(s: string): Option<seq<Byte>> {
    var v := Values(Strip(s));
    if v.None? then None else FromSextets(v.value)
  }

  predicate Plain(s: string) {
    forall i :: 0 <= i < |s| ==> s[i] != '.' && s[i] != '\r' && s[i] != '\n'
  }

  lemma EncodeIsPlain(b: seq<Byte>)
    ensures Plain(Encode(b)) && (b != [] ==> Encode(b) != "")
  {
    var v := ToSextets(b);
    forall i | 0 <= i < |v|
      ensures var c := Symbols(v)[i]; c != '.' && c != '\r' && c != '\n'
    {
      ValueOfSymbol(v[i]);
    }
  }

  lemma {:induction false} StripPlain(s: string)
    requires Plain(s)
    ensures Strip(s) == s
    decreases |s|
  {
    if s != "" {
      assert forall i :: 0 <= i < |s[1..]| ==> s[1..][i] == s[i + 1];
      StripPlain(s[1..]);
    }
  }

  lemma {:induction false} ValuesOfSymbols(v: seq<Sextet>)
    ensures Values(Symbols(v)) == Some(v)
    decreases |v|
  {
    if v != [] {
      ValueOfSymbol(v[0]);
      assert Symbols(v)[1..] == Symbols(v[1..]);
      ValuesOfSymbols(v[1..]);
      assert v == [v[0]] + v[1..];
    }
  }

  lemma Bits(x: Byte, y: Byte, z: Byte)
    ensures FirstByte(Hi(x), HiMid(x, y)) == x
    ensures SecondByte(HiMid(x, y), LoMid(y, z)) == y
    ensures ThirdByte(LoMid(y, z), Lo(z)) == z
  {
  }

  lemma GroupUnfolds(x: Sextet, y: Sextet, z: Sextet, w: Sextet, rest: seq<Sextet>)
    requires FromSextets(rest).Some?
    ensures FromSextets([x, y, z, w] + rest) ==
            Some([FirstByte(x, y), SecondByte(y, z), ThirdByte(z, w)] + FromSextets(rest).value)
  {
    assert ([x, y, z, w] + rest)[4..] == rest;
  }

  lemma {:induction false} SextetsRoundTrip(b: seq<Byte>)
    ensures FromSextets(ToSextets(b)) == Some(b)
    decreases |b|
  {
    if |b| >= 3 {
      var x, y, z := b[0], b[1], b[2];
      SextetsRoundTrip(b[3..]);
      GroupUnfolds(Hi(x), HiMid(x, y), LoMid(y, z), Lo(z), ToSextets(b[3..]));
      Bits(x, y, z);
      assert b == [x, y, z] + b[3..];
    } else if |b| > 0 {
      TailRoundTrip(b[0], if |b| == 1 then 0 else b[1]);
      assert b == if |b| == 1 then [b[0]] else [b[0], b[1]];
    }
  }

  lemma TailUnfolds(x: Sextet, y: Sextet, z: Sextet)
    ensures FromSextets([x, y]) == Some([FirstByte(x, y)])
    ensures FromSextets([x, y, z]) == Some([FirstByte(x, y), SecondByte(y, z)])
  {
  }

  lemma ToSextetsOfTail(x: Byte, y: Byte)
    ensures ToSextets([x]) == [Hi(x), HiMid(x, 0)]
    ensures ToSextets([x, y]) == [Hi(x), HiMid(x, y), LoMid(y, 0)]
  {
  }

  lemma TailRoundTrip(x: Byte, y: Byte)
    ensures FromSextets(ToSextets([x])) == Some([x])
    ensures FromSextets(ToSextets([x, y])) == Some([x, y])
  {
    ToSextetsOfTail(x, y);
    TailUnfolds(Hi(x), HiMid(x, 0), LoMid(0, 0));
    TailUnfolds(Hi(x), HiMid(x, y), LoMid(y, 0));
    Bits(x, 0, 0);
    Bits(x, y, 0);
  }

  /** Every byte string survives the encoding. */
  lemma RoundTrip(b: seq<Byte>)
    ensures Decode(Encode(b)) == Some(b)
  {
    EncodeIsPlain(b);
    StripPlain(Encode(b));
    ValuesOfSymbols(ToSextets(b));
    SextetsRoundTrip(b);
  }

  lemma GroupBits(x: Byte, y: Byte, z: Byte)
    ensures ((Hi(x) * 64 + HiMid(x, y)) * 64 + LoMid(y, z)) * 64 + Lo(z) == (x * 256 + y) * 256 + z
    ensures Hi(x) * 64 + HiMid(x, 0) == x * 16
    ensures (Hi(x) * 64 + HiMid(x, y)) * 64 + LoMid(y, 0) == (x * 256 + y) * 4
  {
  }

  lemma SymbolsOfGroup(a: Sextet, b: Sextet, c: Sextet, d: Sextet, rest: seq<Sextet>)
    ensures |ALPHABET| == 64
    ensures Symbols([a, b, c, d] + rest) == [ALPHABET[a], ALPHABET[b], ALPHABET[c], ALPHABET[d]] + Symbols(rest)
  {
    SymbolsAreTheAlphabet(a);
    SymbolsAreTheAlphabet(b);
    SymbolsAreTheAlphabet(c);
    SymbolsAreTheAlphabet(d);
    hide ALPHABET, Symbol;
  }

  lemma GroupOfBytes(x: Byte, y: Byte, z: Byte, rest: seq<Byte>)
    ensures ToSextets([x, y, z] + rest) == [Hi(x), HiMid(x, y), LoMid(y, z), Lo(z)] + ToSextets(rest)
  {
    hide Hi, HiMid, LoMid, Lo;
    assert ([x, y, z] + rest)[3..] == rest;
  }

  /** The bits are taken from the front: three bytes are one number of four digits to the base 64. */
  lemma EncodeGroup(x: Byte, y: Byte, z: Byte, rest: seq<Byte>) returns (a: Sextet, b: Sextet, c: Sextet, d: Sextet)
    ensures ((a * 64 + b) * 64 + c) * 64 + d == (x * 256 + y) * 256 + z
    ensures |ALPHABET| == 64
    ensures Encode([x, y, z] + rest) == [ALPHABET[a], ALPHABET[b], ALPHABET[c], ALPHABET[d]] + Encode(rest)
  {
    a, b, c, d := Hi(x), HiMid(x, y), LoMid(y, z), Lo(z);
    GroupBits(x, y, z);
    GroupOfBytes(x, y, z, rest);
    SymbolsOfGroup(a, b, c, d, ToSextets(rest));
    hide ALPHABET, Symbols, ToSextets, Hi, HiMid, LoMid, Lo;
  }

  /** One or two bytes at the end are followed by zero bits, up to the next digit. */
  lemma EncodeTail(x: Byte, y: Byte) returns (a: Sextet, b: Sextet, c: Sextet, d: Sextet)
    ensures a * 64 + b == x * 16 && (a * 64 + c) * 64 + d == (x * 256 + y) * 4
    ensures |ALPHABET| == 64
    ensures Encode([x]) == [ALPHABET[a], ALPHABET[b]] && Encode([x, y]) == [ALPHABET[a], ALPHABET[c], ALPHABET[d]]
  {
    a, b, c, d := Hi(x), HiMid(x, 0), HiMid(x, y), LoMid(y, 0);
    SymbolsAreTheAlphabet(a);
    SymbolsAreTheAlphabet(b);
    SymbolsAreTheAlphabet(c);
    SymbolsAreTheAlphabet(d);
    ToSextetsOfTail(x, y);
    GroupBits(x, y, 0);
    hide ALPHABET, Symbol, Hi, HiMid, LoMid, Lo, ToSextets;
  }

  predicate LineBreak(c: char) { c == '\r' || c == '\n' }

  lemma {:induction false} StripSkips(a: string, c: char, b: string)
    requires LineBreak(c)
    ensures Strip(a + ([c] + b)) == Strip(a + b)
    decreases |a|
  {
    if a == "" {
      assert a + ([c] + b) == [c] + b && ([c] + b)[1..] == b && a + b == b;
    } else {
      var with, without := a + ([c] + b), a + b;
      assert with[0] == without[0] == a[0];
      assert with[1..] == a[1..] + ([c] + b) && without[1..] == a[1..] + b;
      StripSkips(a[1..], c, b);
    }
  }

  /** The reader skips line breaks wherever they stand. */
  lemma LineBreaksAreSkipped(a: string, c: char, b: string)
    requires c == '\r' || c == '\n'
    ensures Decode(a + [c] + b) == Decode(a + b)
  {
    assert a + [c] + b == a + ([c] + b);
    StripSkips(a, c, b);
  }

  lemma {:induction false} ValuesIff(s: string)
    ensures Values(s).Some? <==> forall i :: 0 <= i < |s| ==> s[i] in ALPHABET
    ensures Values(s).Some? ==> |Values(s).value| == |s|
    decreases |s|
  {
    hide ALPHABET, Value;
    if s != "" {
      ValuesAreTheAlphabet(s[0]);
      ValuesIff(s[1..]);
      assert forall i :: 0 <= i < |s| - 1 ==> s[1..][i] == s[i + 1];
    }
  }

  lemma GroupOfSextets(v: seq<Sextet>)
    ensures |v| >= 4 ==> (FromSextets(v).Some? <==> FromSextets(v[4..]).Some?)
    ensures |v| < 4 ==> (FromSextets(v).Some? <==> |v| != 1)
  {
    hide FirstByte, SecondByte, ThirdByte;
  }

  lemma {:induction false} FromSextetsIff(v: seq<Sextet>)
    ensures FromSextets(v).Some? <==> |v| % 4 != 1
    decreases |v|
  {
    GroupOfSextets(v);
    hide FromSextets;
    if |v| >= 4 {
      FromSextetsIff(v[4..]);
      assert |v| == |v[4..]| + 4;
    }
  }

  /** It reads exactly the texts that, line breaks aside, consist of the alphabet and do not end in a lone symbol. */
  lemma DecodesIff(s: string)
    ensures Decode(s).Some? <==>
              |Strip(s)| % 4 != 1 && forall i :: 0 <= i < |Strip(s)| ==> Strip(s)[i] in ALPHABET
  {
    hide ALPHABET, Strip;
    ValuesIff(Strip(s));
    if Values(Strip(s)).Some? {
      FromSextetsIff(Values(Strip(s)).value);
    }
  }

  lemma ValuesCons(c: char, rest: string)
    requires Value(c).Some? && Values(rest).Some?
    ensures Values([c] + rest) == Some([Value(c).value] + Values(rest).value)
  {
    assert ([c] + rest)[1..] == rest;
  }

  /** Two symbols give one byte. */
  lemma DecodePair(c: char, d: char)
    requires Plain([c, d]) && Value(c).Some? && Value(d).Some?
    ensures Decode([c, d]) == Some([FirstByte(Value(c).value, Value(d).value)])
  {
    hide Value, FirstByte, Strip;
    var x, y := Value(c).value, Value(d).value;
    StripPlain([c, d]);
    ValuesCons(d, "");
    ValuesCons(c, [d]);
    hide Values;
    assert [d] + "" == [d] && [c] + [d] == [c, d];
    assert [y] + [] == [y] && [x] + [y] == [x, y];
    TailUnfolds(x, y, 0);
  }
}
