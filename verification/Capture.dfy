/** Recording a handler's response while passing it through (internal/idempotency/capture.go). */
module Capture {
  import opened Prelude

  type Byte = x: int | 0 <= x < 256
  type Headers = map<string, seq<string>>

  const MAX_STORED_BODY := 65536
  const REPLAYABLE_HEADERS: seq<string> := ["Content-Type", "Location", "ETag"]

  /** CapturedResponse: what the middleware hands to Complete. */
  datatype Response = Response(status: int, headers: Headers, body: seq<Byte>, overflow: bool)

  function SafeValue(v: string): bool {
    forall i :: 0 <= i < |v| ==> v[i] != '\r' && v[i] != '\n' && v[i] != '\0'
  }

  /** encodeHeaders: the whitelisted subset, and only names that carry a value. */
  function EncodeHeaders(h: Headers): (stored: Headers)
    ensures stored.Keys <= set n | n in REPLAYABLE_HEADERS
    ensures forall n :: n in stored ==> n in h && stored[n] == h[n] && stored[n] != []
    ensures forall n :: n in REPLAYABLE_HEADERS && n in h && h[n] != [] ==> n in stored
  {
    map n | n in REPLAYABLE_HEADERS && n in h && h[n] != [] :: h[n]
  }

  function SafeValues(vs: seq<string>): seq<string> {
    if vs == [] then []
    else if SafeValue(vs[0]) then [vs[0]] + SafeValues(vs[1..]) else SafeValues(vs[1..])
  }

  lemma {:induction false} SafeValuesAreSafe(vs: seq<string>)
    ensures forall v :: v in SafeValues(vs) ==> SafeValue(v) && v in vs
    ensures (forall v :: v in vs ==> SafeValue(v)) ==> SafeValues(vs) == vs
    decreases |vs|
  {
    if vs != [] {
      SafeValuesAreSafe(vs[1..]);
      hide SafeValue;
      assert vs == [vs[0]] + vs[1..];
    }
  }

  /** No character that could start another header or end the response. */
  ghost predicate Clean(v: string) { '\r' !in v && '\n' !in v && '\0' !in v }

  lemma SafeValueMeans(v: string)
    ensures SafeValue(v) <==> Clean(v)
  {
  }

  /** Of several values exactly the clean ones are kept, in their order. */
  lemma {:induction false} SafeValuesFilter(a: seq<string>, v: string)
    ensures SafeValues(a + [v]) == if Clean(v) then SafeValues(a) + [v] else SafeValues(a)
    decreases |a|
  {
    SafeValueMeans(v);
    hide SafeValue, Clean;
    if a == [] {
      assert a + [v] == [v] && [v][1..] == [];
    } else {
      var longer := a + [v];
      assert longer[0] == a[0] && longer[1..] == a[1..] + [v];
      SafeValuesFilter(a[1..], v);
    }
  }

  predicate SafeName(n: string) {
    n != "" && forall i :: 0 <= i < |n| ==>
      'a' <= n[i] <= 'z' || 'A' <= n[i] <= 'Z' || '0' <= n[i] <= '9' || n[i] == '-' || n[i] == '_'
  }

  /** decodeHeaders: names and values are checked again on the way out. */
  function DecodeHeaders(stored: Headers): (h: Headers)
    ensures forall n :: n in h <==> n in stored && SafeName(n) && SafeValues(stored[n]) != []
    ensures forall n :: n in h ==> h[n] == SafeValues(stored[n])
  {
    map n | n in stored && SafeName(n) && SafeValues(stored[n]) != [] :: SafeValues(stored[n])
  }

  /** Whatever is in the store, no replayed header carries a line break: names consist of letters, digits,
      hyphens and underscores, and values are clean. */
  lemma ReplayedHeadersAreClean(stored: Headers, n: string, i: nat)
    requires n in DecodeHeaders(stored) && i < |DecodeHeaders(stored)[n]|
    ensures Clean(DecodeHeaders(stored)[n][i]) && n != "" && Clean(n) && ':' !in n && ' ' !in n
    ensures n in stored && DecodeHeaders(stored)[n][i] in stored[n]
  {
    SafeValuesAreSafe(stored[n]);
    SafeValueMeans(DecodeHeaders(stored)[n][i]);
  }

  lemma Whitelist(n: string)
    ensures n in REPLAYABLE_HEADERS <==> n == "Content-Type" || n == "Location" || n == "ETag"
  {
  }

  lemma WhitelistIsSafe(n: string)
    requires n in REPLAYABLE_HEADERS
    ensures SafeName(n)
  {
  }

  /** A header survives the store and the replay unchanged iff it is whitelisted, provided its
      values carry no CR, LF or NUL. */
  lemma HeadersSurviveIffWhitelisted(h: Headers, n: string)
    requires n in h && h[n] != [] && forall i :: 0 <= i < |h[n]| ==> Clean(h[n][i])
    ensures n in DecodeHeaders(EncodeHeaders(h)) <==> n == "Content-Type" || n == "Location" || n == "ETag"
    ensures n in DecodeHeaders(EncodeHeaders(h)) ==> DecodeHeaders(EncodeHeaders(h))[n] == h[n]
  {
    forall i | 0 <= i < |h[n]| ensures SafeValue(h[n][i]) {
      SafeValueMeans(h[n][i]);
    }
    SafeValuesAreSafe(h[n]);
    Whitelist(n);
    if n in REPLAYABLE_HEADERS {
      WhitelistIsSafe(n);
    }
    hide SafeValue, Clean, SafeName, SafeValues, REPLAYABLE_HEADERS;
  }

  /** The wrapped writer: everything that reached the client. */
  class Client {
    var statuses: seq<int>
    var sent: seq<Byte>
    var headers: Headers

    constructor (headers: Headers)
      ensures statuses == [] && sent == [] && this.headers == headers
    {
      statuses, sent, this.headers := [], [], headers;
    }
  }

  class Recorder {
    const client: Client
    var status: int
    var wroteHeader: bool
    var body: seq<Byte>
    var overflow: bool

    /** The copy is the whole response, or the response is known not to fit. */
    ghost predicate Valid()
      reads this, client
    {
      && (overflow <==> |client.sent| > MAX_STORED_BODY)
      && (!overflow ==> body == client.sent)
      && body <= client.sent
      && (!wroteHeader ==> client.sent == [] && status == 200)
    }

    constructor (client: Client)
      requires client.sent == []
      ensures Valid() && this.client == client && status == 200 && !wroteHeader
    {
      this.client, status, wroteHeader, body, overflow := client, 200, false, [], false;
    }

    /** Only the first status counts; every call still reaches the client. */
    method WriteHeader(code: int)
      requires Valid()
      modifies this`status, this`wroteHeader, client`statuses
      ensures Valid() && wroteHeader
      ensures status == if old(wroteHeader) then old(status) else code
      ensures client.statuses == old(client.statuses) + [code]
    {
      if !wroteHeader {
        status, wroteHeader := code, true;
      }
      client.statuses := client.statuses + [code];
    }

    /** The client receives every byte, whether or not the copy still fits. */
    method Write(chunk: seq<Byte>)
      requires Valid()
      modifies this`wroteHeader, this`body, this`overflow, client`sent
      ensures Valid() && wroteHeader && status == old(status)
      ensures client.sent == old(client.sent) + chunk
    {
      wroteHeader := true;
      if !overflow {
        if |body| + |chunk| > MAX_STORED_BODY {
          overflow := true;
        } else {
          body := body + chunk;
        }
      }
      client.sent := client.sent + chunk;
    }

    /** The record is exact: the bytes are those the client received unless there were more than
        64 KiB of them, and overflow says which. */
    method Captured() returns (res: Response)
      requires Valid()
      ensures res.status == status && res.headers == client.headers
      ensures res.overflow <==> |client.sent| > 65536
      ensures !res.overflow ==> res.body == client.sent
    {
      res := Response(status, client.headers, body, overflow);
    }
  }
}
