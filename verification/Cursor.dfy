/** Pagination tokens (internal/platform/cursor/cursor.go). HMAC, SHA-256 and JSON are parameters of
    the codec; base64url is modelled in full. */
module Cursor {
  import opened Prelude
  import opened Base64
  import opened Decimal
  import Keyset

  /** Nanoseconds since the Unix epoch, and the row's id; 0 stands for the nil UUID. */
  datatype Position = Position(time: Time, id: nat)

  datatype Binding = Binding(tenant: nat, resource: string, filter: string)

  datatype Payload = Payload(micros: int, id: nat, fingerprint: string)

  datatype Codec = Codec(mac: string -> seq<Byte>, fingerprint: Binding -> string,
                         marshal: Payload -> seq<Byte>, unmarshal: seq<Byte> -> Option<Payload>)

  /** What the primitives are trusted for: JSON round-trips, and digests and documents are not empty. */
  ghost predicate Sound(c: Codec) {
    && (forall p: Payload :: IsInt64(p.micros) ==> c.unmarshal(c.marshal(p)) == Some(p))
    && (forall p :: c.marshal(p) != [])
    && (forall s :: c.mac(s) != [])
  }

  datatype Result = Ok(position: Position) | Malformed | BadSignature | BadBinding

  /** `UnixMicro`: the whole microseconds, rounded down. */
  function UnixMicro(t: Time): int { t / 1000 }

  function Sign(c: Codec, body: string): string { Encode(c.mac(body)) }

  function PayloadOf(c: Codec, b: Binding, p: Position): Payload {
    Payload(UnixMicro(p.time), p.id, c.fingerprint(b))
  }

  function Join(body: string, sig: string): string { body + "." + sig }

  /** Encode, None for the nil id. */
  function Token(c: Codec, b: Binding, p: Position): Option<string> {
    if p.id == 0 then None
    else
      var body := Encode(c.marshal(PayloadOf(c, b, p)));
      Some(Join(body, Sign(c, body)))
  }

  /** The index of the first dot, or the length. */
  function FirstDot(s: string): (k: nat)
    ensures k <= |s|
  {
    if s == "" || s[0] == '.' then 0 else 1 + FirstDot(s[1..])
  }

  /** `strings.Cut` at the first dot, None without one. */
  function Cut(token: string): Option<(string, string)> {
    var k := FirstDot(token);
    if k < |token| then Some((token[..k], token[k + 1..])) else None
  }

  /** The signature stage: a canonical spelling of the right digest. */
  function CheckSignature(c: Codec, body: string, sig: string): Option<Result> {
    var want := Decode(sig);
    if want.None? || Encode(want.value) != sig then Some(Malformed)
    else if c.mac(body) != want.value then Some(BadSignature)
    else None
  }

  /** The payload stage, reached only behind a valid signature. */
  function ReadPayload(c: Codec, b: Binding, body: string): Result {
    var raw := Decode(body);
    if raw.None? then Malformed
    else
      var p := c.unmarshal(raw.value);
      if p.None? || p.value.id == 0 then Malformed
      else if p.value.fingerprint != c.fingerprint(b) then BadBinding
      else Ok(Position(p.value.micros * 1000, p.value.id))
  }

  /** Decode. */
  function Read(c: Codec, b: Binding, token: string): Result {
    var parts := Cut(token);
    if parts.None? || parts.value.0 == "" || parts.value.1 == "" then Malformed
    else
      var bad := CheckSignature(c, parts.value.0, parts.value.1);
      if bad.Some? then bad.value else ReadPayload(c, b, parts.value.0)
  }

  lemma {:induction false} FirstDotIsDot(s: string)
    ensures FirstDot(s) < |s| ==> s[FirstDot(s)] == '.'
    ensures '.' !in s[..FirstDot(s)]
    decreases |s|
  {
    if s != "" && s[0] != '.' {
      FirstDotIsDot(s[1..]);
      assert s[..FirstDot(s)] == [s[0]] + s[1..][..FirstDot(s[1..])];
    }
  }

  lemma SplitAt(s: string, k: nat)
    requires k < |s| && s[k] == '.'
    ensures s == Join(s[..k], s[k + 1..])
  {
  }

  lemma {:induction false} DotSplits(body: string, sig: string)
    requires Plain(body)
    ensures FirstDot(Join(body, sig)) == |body|
    decreases |body|
  {
    if body != "" {
      assert Plain(body[1..]) by {
        assert forall i :: 0 <= i < |body[1..]| ==> body[1..][i] == body[i + 1];
      }
      DotSplits(body[1..], sig);
      assert Join(body, sig)[1..] == Join(body[1..], sig);
    }
  }

  lemma CutOfJoin(body: string, sig: string)
    requires Plain(body)
    ensures Cut(Join(body, sig)) == Some((body, sig))
  {
    DotSplits(body, sig);
    assert Join(body, sig)[..|body|] == body && Join(body, sig)[|body| + 1..] == sig;
  }

  lemma OwnSignaturePasses(c: Codec, body: string)
    ensures CheckSignature(c, body, Sign(c, body)) == None
  {
    RoundTrip(c.mac(body));
  }

  /** A token read under the binding it was made for gives its position back, to the microsecond:
      unchanged iff the time is a whole number of microseconds, as every database timestamp is.
      Under a binding with another fingerprint it is refused. */
  lemma TokenRoundTrip(c: Codec, b: Binding, other: Binding, p: Position)
    requires Sound(c) && p.id != 0 && IsInt64(UnixMicro(p.time))
    ensures var token := Token(c, b, p).value;
            && Read(c, b, token) == Ok(Position(p.time - p.time % 1000, p.id))
            && (Read(c, b, token) == Ok(p) <==> p.time % 1000 == 0)
            && (Read(c, other, token) == BadBinding <==> c.fingerprint(other) != c.fingerprint(b))
  {
    var payload := PayloadOf(c, b, p);
    var raw := c.marshal(payload);
    var body := Encode(raw);
    var sig := Sign(c, body);
    EncodeIsPlain(raw);
    EncodeIsPlain(c.mac(body));
    CutOfJoin(body, sig);
    OwnSignaturePasses(c, body);
    RoundTrip(raw);
    assert Read(c, b, Join(body, sig)) == ReadPayload(c, b, body);
    assert Read(c, other, Join(body, sig)) == ReadPayload(c, other, body);
    assert p.time == p.time / 1000 * 1000 + p.time % 1000;
  }

  /** Integrity: whatever gets past the signature check is a body and this codec's own spelling of
      its signature. No re-spelling of a signature is accepted, so each body has one valid token. */
  lemma AcceptedTokensAreCanonical(c: Codec, b: Binding, token: string)
    requires Read(c, b, token).Ok? || Read(c, b, token).BadBinding?
    ensures var k := FirstDot(token);
            k < |token| && token[..k] != "" && token == Join(token[..k], Sign(c, token[..k]))
  {
    ReadPasses(c, b, token);
    CutSplits(token);
    hide Read, Cut, CheckSignature, Join, Sign, FirstDot;
    var parts := Cut(token).value;
    PassedIsCanonical(c, parts.0, parts.1);
  }

  lemma ReadPasses(c: Codec, b: Binding, token: string)
    requires Read(c, b, token).Ok? || Read(c, b, token).BadBinding?
    ensures var parts := Cut(token);
            parts.Some? && parts.value.0 != "" && CheckSignature(c, parts.value.0, parts.value.1).None?
  {
    hide Cut, Encode, Decode, ReadPayload;
  }

  lemma CutSplits(token: string)
    ensures Cut(token).Some? <==> FirstDot(token) < |token|
    ensures Cut(token).Some? ==> var parts := Cut(token).value;
                                 token == Join(parts.0, parts.1) && parts.0 == token[..FirstDot(token)]
  {
    FirstDotIsDot(token);
    hide FirstDot;
    if FirstDot(token) < |token| {
      SplitAt(token, FirstDot(token));
    }
    hide Join;
  }

  lemma PassedIsCanonical(c: Codec, body: string, sig: string)
    requires CheckSignature(c, body, sig).None?
    ensures sig == Sign(c, body)
  {
    hide Encode, Decode;
  }

  /** The payload a body carries, None for one that is not a position of any listing. */
  ghost function Carried(c: Codec, body: string): Option<Payload> {
    var raw := Decode(body);
    if raw.None? || c.unmarshal(raw.value).None? || c.unmarshal(raw.value).value.id == 0 then None
    else c.unmarshal(raw.value)
  }

  /** What stands before and after the first dot, the second part being the one spelling of `digest`. */
  ghost predicate SignedBy(token: string, body: string, digest: seq<Byte>) {
    token == body + "." + Encode(digest) && body != "" && '.' !in body && Encode(digest) != ""
  }

  /** Which tokens are accepted: exactly a body with the codec's own signature of it, when the body carries
      a position and the fingerprint of this very listing. With another fingerprint the binding is refused, and
      with the spelling of another digest the signature; all else is malformed. */
  lemma ReadIff(c: Codec, b: Binding, token: string)
    ensures var r, body := Read(c, b, token), token[..FirstDot(token)];
            && (r.Ok? <==>
                  SignedBy(token, body, c.mac(body)) && Carried(c, body).Some?
                  && Carried(c, body).value.fingerprint == c.fingerprint(b))
            && (r.Ok? ==> r.position == Position(Carried(c, body).value.micros * 1000, Carried(c, body).value.id))
            && (r.BadBinding? <==>
                  SignedBy(token, body, c.mac(body)) && Carried(c, body).Some?
                  && Carried(c, body).value.fingerprint != c.fingerprint(b))
            && (r.BadSignature? <==> exists d :: SignedBy(token, body, d) && d != c.mac(body))
  {
    FirstDotIsDot(token);
    var k := FirstDot(token);
    hide FirstDot, Encode, Decode;
    if k < |token| {
      var body, sig := token[..k], token[k + 1..];
      SplitAt(token, k);
      forall d | SignedBy(token, body, d) ensures sig == Encode(d) && Decode(sig) == Some(d) {
        assert token[k + 1..] == (body + "." + Encode(d))[k + 1..];
        RoundTrip(d);
      }
      RoundTrip(c.mac(body));
      if Decode(sig).Some? && Encode(Decode(sig).value) == sig && body != "" && sig != "" {
        assert SignedBy(token, body, Decode(sig).value);
      }
    } else {
      forall d ensures !SignedBy(token, token[..k], d) {
        assert token[..k] == token;
      }
    }
  }

  /** What a token says: the whole microseconds of the time, rounded down, the id, and the fingerprint of its
      listing, signed. Only the nil id has none. */
  lemma TokenSays(c: Codec, b: Binding, p: Position)
    ensures Token(c, b, p).Some? <==> p.id != 0
    ensures p.id != 0 ==>
              exists micros :: micros * 1000 <= p.time < micros * 1000 + 1000
                               && var body := Encode(c.marshal(Payload(micros, p.id, c.fingerprint(b))));
                                  Token(c, b, p) == Some(body + "." + Encode(c.mac(body)))
  {
    var micros := p.time / 1000;
    assert micros * 1000 <= p.time < micros * 1000 + 1000;
    hide Encode;
    var body := Encode(c.marshal(Payload(micros, p.id, c.fingerprint(b))));
    assert p.id != 0 ==> Token(c, b, p) == Some(body + "." + Encode(c.mac(body)));
  }

  /** The canonical-spelling check is not redundant: the decoder ignores the low bits of a final
      symbol, so sixteen strings decode to one and the same byte, and one of them is its encoding. */
  lemma OneSpellingIsCanonical(x: Byte, low: nat)
    requires low < 16
    ensures var s := [Symbol(Hi(x)), Symbol(x % 4 * 16 + low)];
            Decode(s) == Some([x]) && (s == Encode([x]) <==> low == 0)
  {
    hide Decode, Symbol, Value;
    var y: Sextet := x % 4 * 16 + low;
    ValueOfSymbol(Hi(x));
    ValueOfSymbol(y);
    ValueOfSymbol(HiMid(x, 0));
    DecodePair(Symbol(Hi(x)), Symbol(y));
    assert y / 16 == x % 4 && FirstByte(Hi(x), y) == x;
    ToSextetsOfTail(x, 0);
    assert Encode([x]) == [Symbol(Hi(x)), Symbol(HiMid(x, 0))];
  }

  /** The position of a listing row. */
  function PositionOf(k: Keyset.Key): Position { Position(k.created * 1000, k.id) }

  function KeyOf(p: Position): Keyset.Key { Keyset.Key(p.time / 1000, p.id) }

  /** A walk whose positions travel as tokens is the same walk: each row key, with its microsecond
      timestamp, comes back from its token unchanged. */
  lemma WalkSurvivesTokens(c: Codec, b: Binding, k: Keyset.Key)
    requires Sound(c) && k.id != 0 && IsInt64(k.created)
    ensures var r := Read(c, b, Token(c, b, PositionOf(k)).value);
            r.Ok? && r.position == PositionOf(k) && KeyOf(r.position) == k
  {
    var p := PositionOf(k);
    assert p.time % 1000 == 0 && p.time / 1000 == k.created;
    TokenRoundTrip(c, b, b, p);
  }
}
