/** One entry of the request log: what the proxy records about a forwarded
    request and its upstream response, and the constructor that builds it.
    The clock and the random source behind the identifier are parameters. */
module RequestLogs {
  import opened Wrappers
  import opened Headers
  import HeaderJson

  /** The eleven columns of `request_log`, in the order `save` inserts them. */
  datatype RequestLog = RequestLog(
    id: string,
    time: int,
    elapsedMS: int,
    verb: string,
    proxyURL: string,
    url: string,
    requestHeaders: string,
    requestBody: string,
    status: int,
    responseHeaders: string,
    responseBody: string)

  // ---------------------------------------------------------------------------
  // Identifiers: `uuid.NewString` draws 16 random bytes, stamps version 4 and
  // the RFC 4122 variant into them and prints them as 8-4-4-4-12 lower-case hex.

  predicate IsBytes(bs: seq<nat>)
  {
    forall i :: 0 <= i < |bs| ==> bs[i] < 256
  }

  /** Section 4.4 of RFC 4122: version 4 in the high nibble of byte 6, variant
      10 in the two high bits of byte 8. */
  function Stamp(random: seq<nat>): (r: seq<nat>)
    requires |random| == 16 && IsBytes(random)
    ensures |r| == 16 && IsBytes(r)
    ensures r[6] / 16 == 4 && r[8] / 64 == 2
    ensures forall i :: 0 <= i < 16 && i != 6 && i != 8 ==> r[i] == random[i]
    ensures r[6] % 16 == random[6] % 16 && r[8] % 64 == random[8] % 64
  {
    random[6 := random[6] % 16 + 0x40][8 := random[8] % 64 + 0x80]
  }

  function HexByte(b: nat): (r: string)
    requires b < 256
    ensures |r| == 2
  {
    [HeaderJson.HexDigit(b / 16), HeaderJson.HexDigit(b % 16)]
  }

  function Hex(bs: seq<nat>): (r: string)
    requires IsBytes(bs)
    ensures |r| == 2 * |bs|
  {
    if bs == [] then [] else HexByte(bs[0]) + Hex(bs[1..])
  }

  /** The 36-character text form of a UUID. */
  function FormatUuid(u: seq<nat>): (r: string)
    requires |u| == 16 && IsBytes(u)
    ensures |r| == 36
  {
    Hex(u[..4]) + "-" + Hex(u[4..6]) + "-" + Hex(u[6..8]) + "-" + Hex(u[8..10]) + "-" + Hex(u[10..])
  }

  function NewUuid(random: seq<nat>): string
    requires |random| == 16 && IsBytes(random)
  {
    FormatUuid(Stamp(random))
  }

  /** Reads hexadecimal digit pairs back into bytes. */
  function Unhex(s: string): (r: Option<seq<nat>>)
    requires |s| % 2 == 0
    ensures r.Some? ==> IsBytes(r.value)
  {
    if s == [] then Some([])
    else
      match (HeaderJson.HexValue(s[0]), HeaderJson.HexValue(s[1]), Unhex(s[2..]))
      case (Some(hi), Some(lo), Some(tail)) =>
        if hi < 16 && lo < 16 then Some([hi * 16 + lo] + tail) else None
      case _ => None
  }

  /** The inverse of `FormatUuid`: dashes at 8, 13, 18 and 23, hex elsewhere. */
  function ParseUuid(s: string): Option<seq<nat>>
  {
    if |s| != 36 || s[8] != '-' || s[13] != '-' || s[18] != '-' || s[23] != '-' then None
    else Unhex(s[..8] + s[9..13] + s[14..18] + s[19..23] + s[24..])
  }

  lemma HexByteRoundTrip(b: nat)
    requires b < 256
    ensures Unhex(HexByte(b)) == Some([b])
  {
    var s := HexByte(b);
    HeaderJson.HexDigitValue(b / 16);
    HeaderJson.HexDigitValue(b % 16);
    assert s[0] == HeaderJson.HexDigit(b / 16) && s[1] == HeaderJson.HexDigit(b % 16);
    assert s[2..] == [];
    assert Unhex(s[2..]) == Some([]);
    assert b / 16 * 16 + b % 16 == b;
    assert HeaderJson.HexValue(s[0]) == Some(b / 16);
    assert HeaderJson.HexValue(s[1]) == Some(b % 16);
    assert [b / 16 * 16 + b % 16] + [] == [b];
  }

  lemma {:induction false} HexRoundTrip(bs: seq<nat>)
    requires IsBytes(bs)
    ensures Unhex(Hex(bs)) == Some(bs)
  {
    if bs != [] {
      var s := Hex(bs);
      HexRoundTrip(bs[1..]);
      HexByteRoundTrip(bs[0]);
      assert s[2..] == Hex(bs[1..]);
      assert s[0] == HeaderJson.HexDigit(bs[0] / 16);
      assert s[1] == HeaderJson.HexDigit(bs[0] % 16);
      HeaderJson.HexDigitValue(bs[0] / 16);
      HeaderJson.HexDigitValue(bs[0] % 16);
      assert bs[0] / 16 * 16 + bs[0] % 16 == bs[0];
      assert [bs[0]] + bs[1..] == bs;
    }
  }

  lemma {:induction false} HexAppend(a: seq<nat>, b: seq<nat>)
    requires IsBytes(a) && IsBytes(b)
    ensures IsBytes(a + b) && Hex(a + b) == Hex(a) + Hex(b)
  {
    if a != [] {
      assert (a + b)[1..] == a[1..] + b;
      assert (a + b)[0] == a[0];
      HexAppend(a[1..], b);
      assert Hex(a + b) == HexByte(a[0]) + Hex(a[1..] + b);
      assert Hex(a) == HexByte(a[0]) + Hex(a[1..]);
      assert HexByte(a[0]) + (Hex(a[1..]) + Hex(b)) == (HexByte(a[0]) + Hex(a[1..])) + Hex(b);
    } else {
      assert a + b == b;
    }
  }

  /** Every text the generator prints reads back as the stamped random bytes. */
  lemma UuidRoundTrip(u: seq<nat>)
    requires |u| == 16 && IsBytes(u)
    ensures ParseUuid(FormatUuid(u)) == Some(u)
  {
    var s := FormatUuid(u);
    var h0, h1, h2, h3, h4 := Hex(u[..4]), Hex(u[4..6]), Hex(u[6..8]), Hex(u[8..10]), Hex(u[10..]);
    assert s == h0 + "-" + h1 + "-" + h2 + "-" + h3 + "-" + h4;
    assert s[..8] == h0;
    assert s[9..13] == h1;
    assert s[14..18] == h2;
    assert s[19..23] == h3;
    assert s[24..] == h4;
    HexAppend(u[..4], u[4..6]);
    assert u[..4] + u[4..6] == u[..6];
    HexAppend(u[..6], u[6..8]);
    assert u[..6] + u[6..8] == u[..8];
    HexAppend(u[..8], u[8..10]);
    assert u[..8] + u[8..10] == u[..10];
    HexAppend(u[..10], u[10..]);
    assert u[..10] + u[10..] == u;
    HexRoundTrip(u);
  }

  /** The character after the third dash is always '4' (version 4) and the one
      after the fourth dash one of '8', '9', 'a', 'b' (the variant). */
  lemma UuidVersion(random: seq<nat>)
    requires |random| == 16 && IsBytes(random)
    ensures NewUuid(random)[14] == '4'
    ensures NewUuid(random)[19] in {'8', '9', 'a', 'b'}
  {
    var u := Stamp(random);
    var s := FormatUuid(u);
    assert s[14..16] == Hex(u[6..8])[..2];
    assert Hex(u[6..8])[..2] == HexByte(u[6]);
    assert s[19..21] == Hex(u[8..10])[..2];
    assert Hex(u[8..10])[..2] == HexByte(u[8]);
    assert u[8] / 16 == 8 + (u[8] % 64) / 16;
  }

  // ---------------------------------------------------------------------------

  /** `requestlog.New`: headers are stored as their JSON text, the identifier
      is a fresh version-4 UUID, the time is `nowUnix` (seconds since the
      epoch, UTC) and every other field is the argument passed. */
  function New(verb: string, proxyURL: string, url: string, requestHeaders: Header,
               requestBody: string, status: int, responseHeaders: Header,
               responseBody: string, elapsedMS: int,
               random: seq<nat>, nowUnix: int): (r: RequestLog)
    requires |random| == 16 && IsBytes(random)
    ensures r.verb == verb && r.proxyURL == proxyURL && r.url == url
    ensures r.requestBody == requestBody && r.status == status && r.responseBody == responseBody
    ensures r.elapsedMS == elapsedMS && r.time == nowUnix
    ensures |r.id| == 36 && r.id == NewUuid(random)
  {
    RequestLog(
      id := NewUuid(random),
      time := nowUnix,
      elapsedMS := elapsedMS,
      verb := verb,
      proxyURL := proxyURL,
      url := url,
      requestHeaders := HeaderJson.Encode(requestHeaders),
      requestBody := requestBody,
      status := status,
      responseHeaders := HeaderJson.Encode(responseHeaders),
      responseBody := responseBody)
  }

  /** Both header columns of a new entry decode to the maps it was built from,
      and its identifier parses as the stamped random bytes. */
  lemma NewReadsBack(verb: string, proxyURL: string, url: string, requestHeaders: Header,
                     requestBody: string, status: int, responseHeaders: Header,
                     responseBody: string, elapsedMS: int,
                     random: seq<nat>, nowUnix: int)
    requires |random| == 16 && IsBytes(random)
    ensures var r := New(verb, proxyURL, url, requestHeaders, requestBody, status,
                         responseHeaders, responseBody, elapsedMS, random, nowUnix);
      && HeaderJson.Decode(r.requestHeaders) == Some(requestHeaders)
      && HeaderJson.Decode(r.responseHeaders) == Some(responseHeaders)
      && ParseUuid(r.id) == Some(Stamp(random))
  {
    HeaderJson.DecodeEncode(requestHeaders);
    HeaderJson.DecodeEncode(responseHeaders);
    UuidRoundTrip(Stamp(random));
  }
}
