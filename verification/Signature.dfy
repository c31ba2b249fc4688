/** The webhook signature header `t=<unix seconds>,v1=<hex hmac>` (internal/webhook/webhook.go). The
    keyed hash is a parameter; headers and bodies are strings of characters. */
module Signature {
  import opened Prelude
  import opened Base64
  import opened Decimal
  import opened Hex
  import opened Text

  // -------------------------------------------------------------------- signing

  /** What is hashed: the timestamp inside, in front of the body. */
  function SignedText(ts: int, body: string): string { Print(ts) + "." + body }

  function DigestFor(mac: string -> seq<Byte>, ts: int, body: string): string {
    EncodeHex(mac(SignedText(ts, body)))
  }

  function Header(ts: int, digest: string): string { "t=" + Print(ts) + "," + "v1=" + digest }

  function Sign(mac: string -> seq<Byte>, ts: int, body: string): string { Header(ts, DigestFor(mac, ts, body)) }

  // -------------------------------------------------------------------- parsing

  datatype Reading = Parsed(timestamp: int, digest: string) | BadTimestamp | NoTimestamp | NoDigest

  /** `strings.Split(s, ",")`. */
  function Split(s: string): (parts: seq<string>)
    ensures parts != []
  {
    if s == "" then [""]
    else if s[0] == ',' then [""] + Split(s[1..])
    else
      var rest := Split(s[1..]);
      [[s[0]] + rest[0]] + rest[1..]
  }

  predicate Has(part: string, prefix: string) { prefix <= TrimSpace(part) }

  function Rest(part: string, prefix: string): string
    requires Has(part, prefix)
  {
    TrimSpace(part)[|prefix|..]
  }

  /** What follows the prefix in the last part that has it. */
  function Last(parts: seq<string>, prefix: string): Option<string> {
    if parts == [] then None
    else
      var n := |parts| - 1;
      if Has(parts[n], prefix) then Some(Rest(parts[n], prefix)) else Last(parts[..n], prefix)
  }

  predicate Readable(part: string) { Has(part, "t=") ==> Parse(Rest(part, "t=")).Some? }

  /** Every timestamp must be an integer, even one that a later part overrides; of each kind the last
      one counts. */
  function ReadParts(parts: seq<string>): Reading {
    var t, v := Last(parts, "t="), Last(parts, "v1=");
    if exists i :: 0 <= i < |parts| && !Readable(parts[i]) then BadTimestamp
    else if t.None? then NoTimestamp
    else if v.None? then NoDigest
    else if Parse(t.value).None? then BadTimestamp
    else Parsed(Parse(t.value).value, v.value)
  }

  lemma LastSnoc(parts: seq<string>, i: nat, prefix: string)
    requires i < |parts|
    ensures Last(parts[..0], prefix) == None
    ensures Last(parts[..i + 1], prefix) ==
            if Has(parts[i], prefix) then Some(Rest(parts[i], prefix)) else Last(parts[..i], prefix)
  {
    assert parts[..i + 1][..i] == parts[..i];
  }

  lemma KindsDiffer(part: string)
    ensures !(Has(part, "t=") && Has(part, "v1="))
  {
    if Has(part, "t=") {
      assert TrimSpace(part)[0] == "t="[0] != "v1="[0];
    }
  }

  method ParseSignature(header: string) returns (r: Reading)
    ensures r == ReadParts(Split(header))
  {
    hide Split, Last, Parse, TrimSpace;
    var parts := Split(header);
    var haveT, haveV1, timestamp, digest := false, false, 0, "";
    LastSnoc(parts, 0, "t=");
    LastSnoc(parts, 0, "v1=");
    for i := 0 to |parts|
      invariant forall j :: 0 <= j < i ==> Readable(parts[j])
      invariant haveT == Last(parts[..i], "t=").Some? && haveV1 == Last(parts[..i], "v1=").Some?
      invariant haveT ==> Parse(Last(parts[..i], "t=").value) == Some(timestamp)
      invariant haveV1 ==> Last(parts[..i], "v1=").value == digest
    {
      LastSnoc(parts, i, "t=");
      LastSnoc(parts, i, "v1=");
      KindsDiffer(parts[i]);
      var part := TrimSpace(parts[i]);
      if "t=" <= part {
        assert part[2..] == Rest(parts[i], "t=");
        var parsed := Parse(part[2..]);
        if parsed.None? {
          assert !Readable(parts[i]);
          return BadTimestamp;
        }
        timestamp := parsed.value;
        haveT := true;
      } else if "v1=" <= part {
        digest := part[3..];
        assert digest == Rest(parts[i], "v1=");
        haveV1 := true;
      }
    }
    assert parts[..|parts|] == parts;
    return if !haveT then NoTimestamp else if !haveV1 then NoDigest else Parsed(timestamp, digest);
  }

  lemma {:induction false} SplitAtComma(a: string, b: string)
    requires forall i :: 0 <= i < |a| ==> a[i] != ','
    ensures Split(a + "," + b) == [a] + Split(b)
    ensures Split(a) == [a]
    decreases |a|
  {
    var all := a + "," + b;
    if a == "" {
      assert all[1..] == b;
    } else {
      SplitAtComma(a[1..], b);
      assert all[1..] == a[1..] + "," + b;
      assert [a[0]] + a[1..] == a;
    }
  }

  lemma {:induction false} LastIgnores(before: seq<string>, part: string, after: seq<string>, prefix: string)
    requires !Has(part, prefix)
    ensures Last(before + [part] + after, prefix) == Last(before + after, prefix)
    decreases |after|
  {
    var n := |after|;
    if n == 0 {
      assert (before + [part] + after)[..|before|] == before && before + after == before;
    } else {
      LastIgnores(before, part, after[..n - 1], prefix);
      assert (before + [part] + after)[..|before| + n] == before + [part] + after[..n - 1];
      assert (before + after)[..|before| + n - 1] == before + after[..n - 1];
    }
  }

  /** Room to rotate the algorithm: a part of any other kind, wherever it stands, changes nothing. */
  lemma OtherVersionsAreIgnored(before: seq<string>, part: string, after: seq<string>)
    requires !Has(part, "t=") && !Has(part, "v1=")
    ensures ReadParts(before + [part] + after) == ReadParts(before + after)
  {
    var with, without := before + [part] + after, before + after;
    LastIgnores(before, part, after, "t=");
    LastIgnores(before, part, after, "v1=");
    assert Readable(part);
    hide Last, Readable, Has, Parse;
    forall i | 0 <= i < |without| && !Readable(without[i])
      ensures exists j :: 0 <= j < |with| && !Readable(with[j])
    {
      assert with[if i < |before| then i else i + 1] == without[i];
    }
    forall j | 0 <= j < |with| && !Readable(with[j])
      ensures exists i :: 0 <= i < |without| && !Readable(without[i])
    {
      assert j != |before|;
      assert without[if j < |before| then j else j - 1] == with[j];
    }
  }

  predicate Solid(s: string) { forall i :: 0 <= i < |s| ==> s[i] != ',' && !IsSpace(s[i]) }

  lemma SolidPart(prefix: string, s: string)
    requires Solid(prefix) && Solid(s)
    ensures Solid(prefix + s) && TrimSpace(prefix + s) == prefix + s
    ensures Has(prefix + s, prefix) && Rest(prefix + s, prefix) == s
  {
    TrimSpaceKeeps(prefix + s);
  }

  function StampPart(ts: int): string { "t=" + Print(ts) }
  function DigestPart(digest: string): string { "v1=" + digest }

  lemma StampPartReads(ts: int)
    requires IsInt64(ts)
    ensures Solid(StampPart(ts)) && Has(StampPart(ts), "t=") && Rest(StampPart(ts), "t=") == Print(ts)
    ensures !Has(StampPart(ts), "v1=") && Readable(StampPart(ts)) && Parse(Print(ts)) == Some(ts)
  {
    PrintedCharacters(ts);
    PrintDenotes(ts);
    hide Print, Parse;
    SolidPart("t=", Print(ts));
    KindsDiffer(StampPart(ts));
  }

  lemma DigestPartReads(digest: string)
    requires HexDigits(digest)
    ensures Solid(DigestPart(digest)) && Has(DigestPart(digest), "v1=") && Rest(DigestPart(digest), "v1=") == digest
    ensures !Has(DigestPart(digest), "t=") && Readable(DigestPart(digest))
  {
    SolidPart("v1=", digest);
    KindsDiffer(DigestPart(digest));
  }

  lemma SplitOfHeader(ts: int, digest: string)
    requires Solid(StampPart(ts)) && Solid(DigestPart(digest))
    ensures Split(Header(ts, digest)) == [StampPart(ts), DigestPart(digest)]
  {
    hide Print, Split, IsSpace;
    SplitAtComma(StampPart(ts), DigestPart(digest));
    SplitAtComma(DigestPart(digest), "");
    assert Header(ts, digest) == StampPart(ts) + "," + DigestPart(digest);
  }

  lemma LastOfTwo(a: string, b: string, prefix: string)
    ensures Last([a, b], prefix) == if Has(b, prefix) then Some(Rest(b, prefix))
                                    else if Has(a, prefix) then Some(Rest(a, prefix)) else None
  {
    hide Has, Rest;
    var parts := [a, b];
    LastSnoc(parts, 0, prefix);
    LastSnoc(parts, 1, prefix);
    assert parts[..2] == parts;
  }

  /** A printed header reads back: for every int64 timestamp and every digest in hexadecimal. */
  lemma HeaderRoundTrip(ts: int, digest: string)
    requires IsInt64(ts) && HexDigits(digest)
    ensures ReadParts(Split(Header(ts, digest))) == Parsed(ts, digest)
  {
    hide Split, Header, StampPart, DigestPart, Last, Parse, Print, Solid, Has, Rest, Readable;
    var a, b := StampPart(ts), DigestPart(digest);
    StampPartReads(ts);
    DigestPartReads(digest);
    SplitOfHeader(ts, digest);
    LastOfTwo(a, b, "t=");
    LastOfTwo(a, b, "v1=");
    assert Readable(a) && Readable(b);
  }

  /** Of each kind the last part counts, and white space around a part does not. */
  lemma LaterPartCounts(parts: seq<string>, part: string, text: string)
    requires ReadParts(parts).Parsed? && Solid(text)
    ensures TrimSpace(part) == "v1=" + text ==>
              ReadParts(parts + [part]) == Parsed(ReadParts(parts).timestamp, text)
    ensures TrimSpace(part) == "t=" + text ==>
              ReadParts(parts + [part]) ==
              if Parse(text).Some? then Parsed(Parse(text).value, ReadParts(parts).digest) else BadTimestamp
  {
    var longer := parts + [part];
    assert longer[..|parts|] == parts;
    KindsDiffer(part);
    LastSnoc(longer, |parts|, "t=");
    LastSnoc(longer, |parts|, "v1=");
    assert longer[..|parts| + 1] == longer;
    assert ("v1=" + text)[3..] == text && ("t=" + text)[2..] == text;
    assert forall i :: 0 <= i < |parts| ==> longer[i] == parts[i];
    hide Last, Parse, TrimSpace, Solid;
    if TrimSpace(part) == "t=" + text {
      assert "t=" <= "t=" + text;
      assert Has(part, "t=") && Rest(part, "t=") == text && longer[|parts|] == part;
    } else if TrimSpace(part) == "v1=" + text {
      assert "v1=" <= "v1=" + text;
      assert Has(part, "v1=") && Rest(part, "v1=") == text;
    }
  }

  lemma OnePart(a: string)
    requires Readable(a)
    ensures !Has(a, "v1=") ==> ReadParts([a]) == if Has(a, "t=") then NoDigest else NoTimestamp
    ensures !Has(a, "t=") ==> ReadParts([a]) == NoTimestamp
  {
    var parts := [a];
    LastSnoc(parts, 0, "t=");
    LastSnoc(parts, 0, "v1=");
    assert parts[..1] == parts;
    hide Last, Has, Rest, Parse;
    assert forall i :: 0 <= i < |parts| ==> Readable(parts[i]);
    hide Readable;
  }

  /** A header without one of the two parts is refused, and says which is missing. */
  lemma BothPartsAreNeeded(ts: int, digest: string)
    requires IsInt64(ts) && HexDigits(digest)
    ensures ReadParts([StampPart(ts)]) == NoDigest && ReadParts([DigestPart(digest)]) == NoTimestamp
  {
    StampPartReads(ts);
    DigestPartReads(digest);
    hide ReadParts, Parse, Print, Has, Rest, Readable, StampPart, DigestPart, Solid;
    OnePart(StampPart(ts));
    OnePart(DigestPart(digest));
  }

  lemma FirstDotDecides(a: string, b: string, x: string, y: string)
    requires forall i :: 0 <= i < |a| ==> a[i] != '.'
    requires forall i :: 0 <= i < |b| ==> b[i] != '.'
    requires a + "." + x == b + "." + y
    ensures a == b && x == y
  {
    var s, t := a + "." + x, b + "." + y;
    assert s[|a|] == '.' && t[|b|] == '.';
    assert |a| == |b|;
    assert a == s[..|a|] && b == t[..|b|];
    assert x == s[|a| + 1..] && y == t[|b| + 1..];
  }

  /** The signed text determines both of its parts. */
  lemma SignedTextIsInjective(ts: int, body: string, ts': int, body': string)
    requires IsInt64(ts) && IsInt64(ts') && SignedText(ts, body) == SignedText(ts', body')
    ensures ts == ts' && body == body'
  {
    PrintedCharacters(ts);
    PrintedCharacters(ts');
    FirstDotDecides(Print(ts), Print(ts'), body, body');
    PrintDenotes(ts);
    PrintDenotes(ts');
  }

  // -------------------------------------------------------------------- verifying

  /** Go counts the seconds of a time from year 1, in an int64. */
  const UNIX_TO_INTERNAL: int := 62135596800

  const YEAR_10000: int := 253402300800

  function Wrap(n: int): int { (n - MIN64) % 0x1_0000_0000_0000_0000 + MIN64 }

  /** `now.Sub(time.Unix(ts, 0))`: the difference in nanoseconds, saturating at the ends of int64. The
      seconds of `time.Unix` wrap around. */
  function Sub(now: Time, ts: int): int {
    var d := now + UNIX_TO_INTERNAL * SECOND - Wrap(ts + UNIX_TO_INTERNAL) * SECOND;
    if d < MIN64 then MIN64 else if d > MAX64 then MAX64 else d
  }

  /** The absolute value as Go's `-skew` computes it: the smallest int64 is its own negation. */
  function Skew(now: Time, ts: int): int {
    var d := Sub(now, ts);
    if d < 0 && d != MIN64 then -d else d
  }

  datatype Verdict = Accepted | Unreadable(why: Reading) | OutsideTolerance | NotHex | Mismatch

  function Verify(mac: string -> seq<Byte>, header: string, body: string, now: Time, tolerance: int): Verdict {
    var r := ReadParts(Split(header));
    if !r.Parsed? then Unreadable(r)
    else if Skew(now, r.timestamp) > tolerance then OutsideTolerance
    else
      var got, want := DecodeHex(r.digest), DecodeHex(DigestFor(mac, r.timestamp, body));
      if got.None? || want.None? then NotHex
      else if got.value != want.value then Mismatch
      else Accepted
  }

  function Distance(now: Time, ts: int): int {
    if now < ts * SECOND then ts * SECOND - now else now - ts * SECOND
  }

  /** A timestamp so far ahead (292 years) that the saturated difference cannot be negated, and not so
      far that its seconds wrap around. */
  predicate FarAhead(now: Time, ts: int) {
    ts * SECOND - now > MAX64 && ts + UNIX_TO_INTERNAL <= MAX64
  }

  /** That is: more than 2^63 - 1 ns after now, and before the last 62135596800 seconds an int64 can count. */
  lemma FarAheadMeans(now: Time, ts: int)
    ensures FarAhead(now, ts) <==>
              ts * 1_000_000_000 - now > 9_223_372_036_854_775_807 && ts <= 9_223_371_974_719_179_007
  {
  }

  lemma FreshIff(now: Time, ts: int, tolerance: int)
    requires IsInt64(ts) && 0 <= now < YEAR_10000 * SECOND && 0 <= tolerance < MAX64
    ensures Skew(now, ts) <= tolerance <==> Distance(now, ts) <= tolerance || FarAhead(now, ts)
  {
    if ts + UNIX_TO_INTERNAL <= MAX64 {
      assert Wrap(ts + UNIX_TO_INTERNAL) == ts + UNIX_TO_INTERNAL;
    } else {
      assert Wrap(ts + UNIX_TO_INTERNAL) == ts + UNIX_TO_INTERNAL - 0x1_0000_0000_0000_0000;
    }
  }

  /** What verification asks of any header and body, its own or a stranger's: that the header reads, that its
      timestamp is near enough (or far ahead), and that its digest is the hash of that timestamp and this body. */
  lemma VerifyIff(mac: string -> seq<Byte>, header: string, body: string, now: Time, tolerance: int)
    requires 0 <= now < YEAR_10000 * SECOND && 0 <= tolerance < MAX64
    ensures var v, r := Verify(mac, header, body, now, tolerance), ReadParts(Split(header));
            && (v.Unreadable? <==> !r.Parsed?) && (v.Unreadable? ==> v.why == r)
            && (r.Parsed? ==>
                  var near := -tolerance <= now - r.timestamp * SECOND <= tolerance || FarAhead(now, r.timestamp);
                  var digest := DecodeHex(r.digest);
                  && (v.OutsideTolerance? <==> !near)
                  && (v.NotHex? <==> near && digest.None?)
                  && (v.Accepted? <==> near && digest == Some(mac(Print(r.timestamp) + "." + body))))
  {
    var r := ReadParts(Split(header));
    hide ReadParts, Split, DecodeHex, EncodeHex, Print, Skew, FarAhead;
    if r.Parsed? {
      TimestampIsInt64(Split(header));
      FreshIff(now, r.timestamp, tolerance);
      HexRoundTrip(mac(SignedText(r.timestamp, body)));
    }
  }

  lemma TimestampIsInt64(parts: seq<string>)
    ensures ReadParts(parts).Parsed? ==> IsInt64(ReadParts(parts).timestamp)
  {
    hide Last, Readable;
  }

  lemma SignSays(mac: string -> seq<Byte>, ts: int, body: string)
    ensures Sign(mac, ts, body) == "t=" + Print(ts) + ",v1=" + EncodeHex(mac(Print(ts) + "." + body))
  {
    var stamp := "t=" + Print(ts);
    hide Print, EncodeHex;
    assert "," + "v1=" == ",v1=" && stamp + "," + "v1=" == stamp + ("," + "v1=");
  }

  /** The law of the scheme, with its exact condition: a body signed at `ts` is accepted at `now` iff
      the two are within the tolerance, or the timestamp is far ahead. */
  lemma SignedBodyIsAcceptedIff(mac: string -> seq<Byte>, ts: int, body: string, now: Time, tolerance: int)
    requires IsInt64(ts) && 0 <= now < YEAR_10000 * SECOND && 0 <= tolerance < MAX64
    ensures Verify(mac, Sign(mac, ts, body), body, now, tolerance) == Accepted <==>
            -tolerance <= now - ts * SECOND <= tolerance || FarAhead(now, ts)
    ensures Verify(mac, Sign(mac, ts, body), body, now, tolerance) in {Accepted, OutsideTolerance}
    ensures Sign(mac, ts, body) == "t=" + Print(ts) + ",v1=" + EncodeHex(mac(Print(ts) + "." + body))
  {
    SignSays(mac, ts, body);
    HexIsDigits(mac(SignedText(ts, body)));
    HexRoundTrip(mac(SignedText(ts, body)));
    HeaderRoundTrip(ts, DigestFor(mac, ts, body));
    FreshIff(now, ts, tolerance);
    hide Header, Split, ReadParts, Print, EncodeHex, DecodeHex, Skew, FarAhead, SignedText, HexDigits;
  }

  /** So the tolerance does not bound the future: signed for the year 2286, accepted in 1970 within
      five minutes. */
  lemma FarFutureIsAccepted(mac: string -> seq<Byte>, body: string)
    ensures var ts, tolerance := 10_000_000_000, 300 * SECOND;
            Distance(0, ts) > tolerance && Verify(mac, Sign(mac, ts, body), body, 0, tolerance) == Accepted
  {
    SignedBodyIsAcceptedIff(mac, 10_000_000_000, body, 0, 300 * SECOND);
  }

  /** A captured signature vouches for one timestamp and one body: if a header that carries the digest
      of (ts, body) is accepted, whatever else it says and for whatever body, then it is for those
      two, or two different texts have the same hash. */
  lemma SignatureVouchesForOneText(mac: string -> seq<Byte>, ts: int, body: string,
                                   header: string, presented: string, now: Time, tolerance: int)
    requires IsInt64(ts)
    requires ReadParts(Split(header)).Parsed? && ReadParts(Split(header)).digest == DigestFor(mac, ts, body)
    requires Verify(mac, header, presented, now, tolerance) == Accepted
    ensures var t := ReadParts(Split(header)).timestamp;
            || (t == ts && presented == body)
            || (SignedText(t, presented) != SignedText(ts, body)
                && mac(SignedText(t, presented)) == mac(SignedText(ts, body)))
  {
    var t := ReadParts(Split(header)).timestamp;
    HexRoundTrip(mac(SignedText(ts, body)));
    HexRoundTrip(mac(SignedText(t, presented)));
    if SignedText(t, presented) == SignedText(ts, body) {
      SignedTextIsInjective(ts, body, t, presented);
    }
  }
}
