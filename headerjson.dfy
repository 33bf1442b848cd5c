/** The JSON text that `json.Marshal` produces for an `http.Header`
    (`map[string][]string`): an object whose names appear in byte order, each
    mapped to an array of strings, with Go's string escaping (HTML-safe). Beside
    it, a decoder for that shape of JSON, so that what the request log stores can
    be read back; `Decode(Encode(h)) == Some(h)` is proved below. */
module HeaderJson {
  import opened Wrappers
  import opened Headers

  // ---------------------------------------------------------------------------
  // Order of object names. Go sorts map keys as strings (byte-wise); on valid
  // UTF-8 this is the order of code points.

  predicate KeyLessEq(a: string, b: string)
    decreases |a|
  {
    |a| == 0 || (|b| > 0 && (a[0] < b[0] || (a[0] == b[0] && KeyLessEq(a[1..], b[1..]))))
  }

  lemma KeyRefl(a: string)
    ensures KeyLessEq(a, a)
  {
  }

  lemma KeyTotal(a: string, b: string)
    ensures KeyLessEq(a, b) || KeyLessEq(b, a)
  {
  }

  lemma KeyAntisym(a: string, b: string)
    requires KeyLessEq(a, b) && KeyLessEq(b, a)
    ensures a == b
  {
    if |a| > 0 {
      KeyAntisym(a[1..], b[1..]);
      assert a == [a[0]] + a[1..] && b == [b[0]] + b[1..];
    }
  }

  lemma KeyTrans(a: string, b: string, c: string)
    requires KeyLessEq(a, b) && KeyLessEq(b, c)
    ensures KeyLessEq(a, c)
  {
  }

  predicate IsLeast(k: string, ks: set<string>)
  {
    k in ks && forall j :: j in ks ==> KeyLessEq(k, j)
  }

  lemma LeastExists(ks: set<string>)
    requires ks != {}
    ensures exists k :: IsLeast(k, ks)
    decreases |ks|
  {
    var x :| x in ks;
    KeyRefl(x);
    if ks == {x} {
      assert IsLeast(x, ks);
    } else {
      LeastExists(ks - {x});
      var m :| IsLeast(m, ks - {x});
      KeyTotal(x, m);
      if KeyLessEq(x, m) {
        forall j | j in ks ensures KeyLessEq(x, j) {
          if j != x { KeyTrans(x, m, j); }
        }
        assert IsLeast(x, ks);
      } else {
        assert IsLeast(m, ks);
      }
    }
  }

  lemma LeastUnique(ks: set<string>)
    ensures forall a, b :: IsLeast(a, ks) && IsLeast(b, ks) ==> a == b
  {
    forall a, b | IsLeast(a, ks) && IsLeast(b, ks) ensures a == b {
      KeyAntisym(a, b);
    }
  }

  /** The names of a header in the order `json.Marshal` writes them. */
  function SortedKeys(ks: set<string>): (r: seq<string>)
    ensures forall k :: k in ks <==> k in r
    ensures forall i, j :: 0 <= i < j < |r| ==> r[i] != r[j] && KeyLessEq(r[i], r[j])
    decreases |ks|
  {
    if ks == {} then []
    else
      LeastExists(ks);
      LeastUnique(ks);
      var k :| IsLeast(k, ks);
      [k] + SortedKeys(ks - {k})
  }

  // ---------------------------------------------------------------------------
  // Strings. `encoding/json` writes `\"`, `\\`, `\b`, `\f`, `\n`, `\r`, `\t` as
  // two-character escapes, every other control character, `<`, `>` and `&` (HTML
  // escaping is on for `json.Marshal`) and U+2028/U+2029 as `\u` and four
  // lower-case hex digits, and everything else as itself.

  function HexDigit(d: nat): (c: char)
    requires d < 16
  {
    if d < 10 then ('0' as int + d) as char else ('a' as int + d - 10) as char
  }

  function Hex4(n: nat): (r: string)
    requires n < 0x10000
    ensures |r| == 4
  {
    var r1 := n % 0x1000;
    var r2 := r1 % 0x100;
    [HexDigit(n / 0x1000), HexDigit(r1 / 0x100), HexDigit(r2 / 0x10), HexDigit(r2 % 0x10)]
  }

  predicate UnicodeEscaped(c: char)
  {
    (c as int < 0x20 && c as int != 8 && c as int != 12 && c != '\n' && c != '\r' && c != '\t')
    || c == '<' || c == '>' || c == '&' || c as int == 0x2028 || c as int == 0x2029
  }

  function EscapeChar(c: char): (r: string)
    ensures 0 < |r| && r[0] != '"'
  {
    if c == '"' then ['\\', '"']
    else if c == '\\' then ['\\', '\\']
    else if c as int == 8 then ['\\', 'b']
    else if c as int == 12 then ['\\', 'f']
    else if c == '\n' then ['\\', 'n']
    else if c == '\r' then ['\\', 'r']
    else if c == '\t' then ['\\', 't']
    else if UnicodeEscaped(c) then ['\\', 'u'] + Hex4(c as int)
    else [c]
  }

  function Escape(s: string): string
  {
    if s == [] then [] else EscapeChar(s[0]) + Escape(s[1..])
  }

  /** A JSON string literal. */
  function Quote(s: string): string
  {
    ['"'] + Escape(s) + ['"']
  }

  function HexValue(c: char): Option<nat>
  {
    if '0' <= c <= '9' then Some(c as int - '0' as int)
    else if 'a' <= c <= 'f' then Some(c as int - 'a' as int + 10)
    else if 'A' <= c <= 'F' then Some(c as int - 'A' as int + 10)
    else None
  }

  function ParseHex4(s: string): (r: Option<nat>)
    requires |s| >= 4
    ensures r.Some? ==> r.value < 0x10000
  {
    match (HexValue(s[0]), HexValue(s[1]), HexValue(s[2]), HexValue(s[3]))
    case (Some(a), Some(b), Some(c), Some(d)) =>
      if a < 16 && b < 16 && c < 16 && d < 16 then Some(a * 0x1000 + b * 0x100 + c * 0x10 + d) else None
    case _ => None
  }

  lemma HexDigitValue(d: nat)
    requires d < 16
    ensures HexValue(HexDigit(d)) == Some(d)
  {
  }

  lemma Hex4RoundTrip(n: nat)
    requires n < 0x10000
    ensures ParseHex4(Hex4(n)) == Some(n)
  {
    var r1 := n % 0x1000;
    var r2 := r1 % 0x100;
    var a, b, c, d := n / 0x1000, r1 / 0x100, r2 / 0x10, r2 % 0x10;
    assert n == a * 0x1000 + r1;
    assert r1 == b * 0x100 + r2;
    assert r2 == c * 0x10 + d;
    HexDigitValue(a);
    HexDigitValue(b);
    HexDigitValue(c);
    HexDigitValue(d);
    assert a * 0x1000 + b * 0x100 + c * 0x10 + d == n;
  }

  /** One character of a string body that does not close the string: the
      character and the number of input characters it takes. Control characters
      must be escaped; `\u` escapes naming a surrogate half are refused. */
  function ParseOne(s: string): (r: Option<(char, nat)>)
    requires |s| > 0 && s[0] != '"'
    ensures r.Some? ==> 0 < r.value.1 <= |s|
  {
    if s[0] == '\\' then
      if |s| < 2 then None
      else if s[1] == '"' then Some(('"', 2))
      else if s[1] == '\\' then Some(('\\', 2))
      else if s[1] == '/' then Some(('/', 2))
      else if s[1] == 'b' then Some((8 as char, 2))
      else if s[1] == 'f' then Some((12 as char, 2))
      else if s[1] == 'n' then Some(('\n', 2))
      else if s[1] == 'r' then Some(('\r', 2))
      else if s[1] == 't' then Some(('\t', 2))
      else if s[1] == 'u' && |s| >= 6 then
        match ParseHex4(s[2..6])
        case Some(n) => if 0xD800 <= n < 0xE000 then None else Some((n as char, 6))
        case None => None
      else None
    else if s[0] as int < 0x20 then None
    else Some((s[0], 1))
  }

  /** The body of a string literal after its opening quote: the decoded text and
      what follows the closing quote. */
  function ParseChars(s: string): (r: Option<(string, string)>)
    ensures r.Some? ==> |r.value.1| < |s|
    decreases |s|
  {
    if s == [] then None
    else if s[0] == '"' then Some(([], s[1..]))
    else
      match ParseOne(s)
      case None => None
      case Some((c, n)) =>
        match ParseChars(s[n..])
        case None => None
        case Some((t, rest)) => Some(([c] + t, rest))
  }

  lemma OneRoundTrip(c: char, t: string)
    ensures ParseOne(EscapeChar(c) + t) == Some((c, |EscapeChar(c)|))
  {
    var e := EscapeChar(c);
    var s := e + t;
    if UnicodeEscaped(c) && c != '"' && c != '\\' && c as int != 8 && c as int != 12 && c != '\n' && c != '\r' && c != '\t' {
      assert s[2..6] == Hex4(c as int);
      Hex4RoundTrip(c as int);
    }
  }

  lemma {:induction false} CharsRoundTrip(x: string, rest: string)
    ensures ParseChars(Escape(x) + ['"'] + rest) == Some((x, rest))
    decreases |x|
  {
    var s := Escape(x) + ['"'] + rest;
    if x == [] {
      assert s == ['"'] + rest;
    } else {
      var e := EscapeChar(x[0]);
      var t := Escape(x[1..]) + ['"'] + rest;
      assert s == e + t;
      OneRoundTrip(x[0], t);
      assert s[|e|..] == t;
      CharsRoundTrip(x[1..], rest);
      assert [x[0]] + x[1..] == x;
    }
  }

  // ---------------------------------------------------------------------------
  // The object: `{"Name":["v1","v2"],...}` with no white space (json.Marshal
  // writes none); the decoder accepts white space between tokens.

  predicate IsWs(c: char)
  {
    c == ' ' || c == '\t' || c == '\n' || c == '\r'
  }

  function SkipWs(s: string): (r: string)
    ensures |r| <= |s| && (r == [] || !IsWs(r[0]))
  {
    if s != [] && IsWs(s[0]) then SkipWs(s[1..]) else s
  }

  function ParseString(s: string): (r: Option<(string, string)>)
    ensures r.Some? ==> |r.value.1| < |s|
  {
    var t := SkipWs(s);
    if t != [] && t[0] == '"' then ParseChars(t[1..]) else None
  }

  /** The strings of a non-empty array, after its `[`, up to and including `]`. */
  function ParseItems(s: string): (r: Option<(seq<string>, string)>)
    ensures r.Some? ==> |r.value.1| < |s|
    decreases |s|
  {
    match ParseString(s)
    case None => None
    case Some((v, rest)) =>
      var t := SkipWs(rest);
      if t != [] && t[0] == ']' then Some(([v], t[1..]))
      else if t != [] && t[0] == ',' then
        match ParseItems(t[1..])
        case None => None
        case Some((vs, rest2)) => Some(([v] + vs, rest2))
      else None
  }

  function ParseArray(s: string): (r: Option<(seq<string>, string)>)
    ensures r.Some? ==> |r.value.1| < |s|
  {
    var t := SkipWs(s);
    if t == [] || t[0] != '[' then None
    else
      var u := SkipWs(t[1..]);
      if u != [] && u[0] == ']' then Some(([], u[1..])) else ParseItems(t[1..])
  }

  /** The members of a non-empty object, after its `{`, up to and including `}`. */
  function ParseMembers(s: string): (r: Option<(seq<(string, seq<string>)>, string)>)
    ensures r.Some? ==> |r.value.1| < |s|
    decreases |s|
  {
    match ParseString(s)
    case None => None
    case Some((k, rest)) =>
      var t := SkipWs(rest);
      if t == [] || t[0] != ':' then None
      else
        match ParseArray(t[1..])
        case None => None
        case Some((vs, rest2)) =>
          var u := SkipWs(rest2);
          if u != [] && u[0] == '}' then Some(([(k, vs)], u[1..]))
          else if u != [] && u[0] == ',' then
            match ParseMembers(u[1..])
            case None => None
            case Some((ms, rest3)) => Some(([(k, vs)] + ms, rest3))
          else None
  }

  function ParseObject(s: string): Option<(seq<(string, seq<string>)>, string)>
  {
    var t := SkipWs(s);
    if t == [] || t[0] != '{' then None
    else
      var u := SkipWs(t[1..]);
      if u != [] && u[0] == '}' then Some(([], u[1..])) else ParseMembers(t[1..])
  }

  /** Members in document order; a repeated name keeps its last list, as
      `json.Unmarshal` into a map does. */
  function ToHeader(ms: seq<(string, seq<string>)>): Header
  {
    if ms == [] then map[] else ToHeader(ms[..|ms| - 1])[ms[|ms| - 1].0 := ms[|ms| - 1].1]
  }

  /** The part of `json.Unmarshal` into an `http.Header` that `json.Marshal`'s
      output needs: surrogate-pair `\u` escapes, which `json.Marshal` never
      writes, are refused here although `json.Unmarshal` accepts them. */
  function Decode(s: string): Option<Header>
  {
    match ParseObject(s)
    case Some((ms, rest)) => if SkipWs(rest) == [] then Some(ToHeader(ms)) else None
    case None => None
  }

  // ---------------------------------------------------------------------------
  // Encoding.

  function Items(vs: seq<string>): (r: string)
    ensures vs != [] ==> |r| > 0 && r[0] == '"'
  {
    if vs == [] then []
    else if |vs| == 1 then Quote(vs[0])
    else Quote(vs[0]) + [','] + Items(vs[1..])
  }

  function EncodeArray(vs: seq<string>): string
  {
    ['['] + Items(vs) + [']']
  }

  function Members(ks: seq<string>, h: Header): (r: string)
    requires forall k :: k in ks ==> k in h
    ensures ks != [] ==> |r| > 0 && r[0] == '"'
  {
    if ks == [] then []
    else if |ks| == 1 then Quote(ks[0]) + [':'] + EncodeArray(h[ks[0]])
    else Quote(ks[0]) + [':'] + EncodeArray(h[ks[0]]) + [','] + Members(ks[1..], h)
  }

  /** `json.Marshal(h)` for a non-nil header whose lists are non-nil. */
  function Encode(h: Header): string
  {
    ['{'] + Members(SortedKeys(h.Keys), h) + ['}']
  }

  // ---------------------------------------------------------------------------
  // Round trip: decoding what was encoded gives back the header.

  lemma StringRoundTrip(v: string, rest: string)
    ensures ParseString(Quote(v) + rest) == Some((v, rest))
  {
    var s := Quote(v) + rest;
    assert s[1..] == Escape(v) + ['"'] + rest;
    CharsRoundTrip(v, rest);
  }

  lemma ItemsLast(s: string, v: string, rest: string)
    requires ParseString(s) == Some((v, rest)) && rest != [] && rest[0] == ']'
    ensures ParseItems(s) == Some(([v], rest[1..]))
  {
    assert SkipWs(rest) == rest;
  }

  lemma ItemsMore(s: string, v: string, rest: string, vs: seq<string>, rest2: string)
    requires ParseString(s) == Some((v, rest)) && rest != [] && rest[0] == ','
    requires ParseItems(rest[1..]) == Some((vs, rest2))
    ensures ParseItems(s) == Some(([v] + vs, rest2))
  {
    assert SkipWs(rest) == rest;
  }

  lemma ItemsRoundTripOne(v: string, rest: string)
    ensures ParseItems(Items([v]) + [']'] + rest) == Some(([v], rest))
  {
    var s := Items([v]) + [']'] + rest;
    assert s == Quote(v) + ([']'] + rest);
    StringRoundTrip(v, [']'] + rest);
    ItemsLast(s, v, [']'] + rest);
    assert ([']'] + rest)[1..] == rest;
  }

  lemma Assoc5(a: string, b: string, c: string, d: string, e: string)
    ensures (a + b + c) + d + e == a + (b + (c + d + e))
  {
  }

  lemma ItemsShape(vs: seq<string>, rest: string)
    requires |vs| > 1
    ensures Items(vs) + [']'] + rest == Quote(vs[0]) + ([','] + (Items(vs[1..]) + [']'] + rest))
  {
    var q, t := Quote(vs[0]), Items(vs[1..]);
    assert Items(vs) == q + [','] + t;
    Assoc5(q, [','], t, [']'], rest);
  }

  lemma ItemsRoundTripMore(vs: seq<string>, rest: string)
    requires |vs| > 1
    requires ParseItems(Items(vs[1..]) + [']'] + rest) == Some((vs[1..], rest))
    ensures ParseItems(Items(vs) + [']'] + rest) == Some((vs, rest))
  {
    var tail := Items(vs[1..]) + [']'] + rest;
    var after := [','] + tail;
    ItemsShape(vs, rest);
    assert after[1..] == tail;
    StringRoundTrip(vs[0], after);
    ItemsMore(Quote(vs[0]) + after, vs[0], after, vs[1..], rest);
    assert [vs[0]] + vs[1..] == vs;
  }

  lemma {:induction false} ItemsRoundTrip(vs: seq<string>, rest: string)
    requires vs != []
    ensures ParseItems(Items(vs) + [']'] + rest) == Some((vs, rest))
    decreases |vs|
  {
    if |vs| == 1 {
      assert vs == [vs[0]];
      ItemsRoundTripOne(vs[0], rest);
    } else {
      ItemsRoundTrip(vs[1..], rest);
      ItemsRoundTripMore(vs, rest);
    }
  }

  lemma ArrayRoundTrip(vs: seq<string>, rest: string)
    ensures ParseArray(EncodeArray(vs) + rest) == Some((vs, rest))
  {
    var s := EncodeArray(vs) + rest;
    assert s[1..] == Items(vs) + [']'] + rest;
    if vs == [] {
      assert s[1..] == [']'] + rest;
    } else {
      ItemsRoundTrip(vs, rest);
    }
  }

  /** The members a list of names stands for. */
  function Pairs(ks: seq<string>, h: Header): (r: seq<(string, seq<string>)>)
    requires forall k :: k in ks ==> k in h
    ensures |r| == |ks|
  {
    seq(|ks|, i requires 0 <= i < |ks| => (ks[i], h[ks[i]]))
  }

  lemma MembersLast(s: string, k: string, r1: string, vs: seq<string>, r2: string)
    requires ParseString(s) == Some((k, r1)) && r1 != [] && r1[0] == ':'
    requires ParseArray(r1[1..]) == Some((vs, r2)) && r2 != [] && r2[0] == '}'
    ensures ParseMembers(s) == Some(([(k, vs)], r2[1..]))
  {
    assert SkipWs(r1) == r1;
    assert SkipWs(r2) == r2;
  }

  lemma MembersMore(s: string, k: string, r1: string, vs: seq<string>, r2: string,
                    ms: seq<(string, seq<string>)>, r3: string)
    requires ParseString(s) == Some((k, r1)) && r1 != [] && r1[0] == ':'
    requires ParseArray(r1[1..]) == Some((vs, r2)) && r2 != [] && r2[0] == ','
    requires ParseMembers(r2[1..]) == Some((ms, r3))
    ensures ParseMembers(s) == Some(([(k, vs)] + ms, r3))
  {
    assert SkipWs(r1) == r1;
    assert SkipWs(r2) == r2;
  }

  /** What follows the first member's array in an encoded member list. */
  function AfterFirst(ks: seq<string>, h: Header, rest: string): string
    requires ks != [] && forall k :: k in ks ==> k in h
  {
    if |ks| == 1 then ['}'] + rest else [','] + (Members(ks[1..], h) + ['}'] + rest)
  }

  lemma MembersShapeOne(ks: seq<string>, h: Header, rest: string)
    requires |ks| == 1 && forall k :: k in ks ==> k in h
    ensures Members(ks, h) + ['}'] + rest
         == Quote(ks[0]) + ([':'] + (EncodeArray(h[ks[0]]) + (['}'] + rest)))
  {
    var q, a := Quote(ks[0]), EncodeArray(h[ks[0]]);
    assert Members(ks, h) == q + [':'] + a;
    Assoc5(q, [':'], a, ['}'], rest);
  }

  lemma Assoc7(q: string, b: string, a: string, c: string, m: string, d: string, rest: string)
    ensures (q + b + a + c + m) + d + rest == q + (b + (a + (c + (m + d + rest))))
  {
    Assoc5(q + b + a, c, m, d, rest);
    Assoc5(q, b, a, c + (m + d + rest), []);
  }

  lemma MembersShapeMore(ks: seq<string>, h: Header, rest: string)
    requires |ks| > 1 && forall k :: k in ks ==> k in h
    ensures Members(ks, h) + ['}'] + rest
         == Quote(ks[0]) + ([':'] + (EncodeArray(h[ks[0]]) + ([','] + (Members(ks[1..], h) + ['}'] + rest))))
  {
    var q, a, m := Quote(ks[0]), EncodeArray(h[ks[0]]), Members(ks[1..], h);
    assert Members(ks, h) == q + [':'] + a + [','] + m;
    Assoc7(q, [':'], a, [','], m, ['}'], rest);
  }

  lemma MembersShape(ks: seq<string>, h: Header, rest: string)
    requires ks != [] && forall k :: k in ks ==> k in h
    ensures Members(ks, h) + ['}'] + rest
         == Quote(ks[0]) + ([':'] + (EncodeArray(h[ks[0]]) + AfterFirst(ks, h, rest)))
  {
    if |ks| == 1 {
      MembersShapeOne(ks, h, rest);
    } else {
      MembersShapeMore(ks, h, rest);
    }
  }

  lemma {:induction false} MembersRoundTrip(ks: seq<string>, h: Header, rest: string)
    requires ks != [] && forall k :: k in ks ==> k in h
    ensures ParseMembers(Members(ks, h) + ['}'] + rest) == Some((Pairs(ks, h), rest))
    decreases |ks|
  {
    var k := ks[0];
    var after := AfterFirst(ks, h, rest);
    var r1 := [':'] + (EncodeArray(h[k]) + after);
    MembersShape(ks, h, rest);
    StringRoundTrip(k, r1);
    assert r1[1..] == EncodeArray(h[k]) + after;
    ArrayRoundTrip(h[k], after);
    if |ks| == 1 {
      assert after[1..] == rest;
      MembersLast(Quote(k) + r1, k, r1, h[k], after);
      assert Pairs(ks, h) == [(k, h[k])];
    } else {
      assert after[1..] == Members(ks[1..], h) + ['}'] + rest;
      MembersRoundTrip(ks[1..], h, rest);
      MembersMore(Quote(k) + r1, k, r1, h[k], after, Pairs(ks[1..], h), rest);
      PairsCons(ks, h);
    }
  }

  lemma PairsCons(ks: seq<string>, h: Header)
    requires ks != [] && forall k :: k in ks ==> k in h
    ensures Pairs(ks, h) == [(ks[0], h[ks[0]])] + Pairs(ks[1..], h)
  {
    var l, r := Pairs(ks, h), [(ks[0], h[ks[0]])] + Pairs(ks[1..], h);
    forall i | 0 <= i < |l|
      ensures l[i] == r[i]
    {
      if i > 0 {
        assert r[i] == Pairs(ks[1..], h)[i - 1];
      }
    }
  }

  lemma {:induction false} ToHeaderPairs(ks: seq<string>, h: Header)
    requires forall k :: k in ks ==> k in h
    ensures ToHeader(Pairs(ks, h)) == map k | k in ks :: h[k]
    decreases |ks|
  {
    if ks != [] {
      var n := |ks|;
      assert Pairs(ks, h)[..n - 1] == Pairs(ks[..n - 1], h);
      ToHeaderPairs(ks[..n - 1], h);
      assert ks == ks[..n - 1] + [ks[n - 1]];
    }
  }

  lemma ObjectStep(b: string)
    requires b != [] && b[0] == '"'
    ensures ParseObject(['{'] + b) == ParseMembers(b)
  {
    var t := ['{'] + b;
    assert SkipWs(t) == t;
    assert t[1..] == b;
    assert SkipWs(b) == b;
  }

  lemma EncodeShape(h: Header)
    ensures Encode(h) == ['{'] + (Members(SortedKeys(h.Keys), h) + ['}'] + [])
  {
  }

  lemma ObjectRoundTrip(h: Header)
    ensures ParseObject(Encode(h)) == Some((Pairs(SortedKeys(h.Keys), h), []))
  {
    var ks := SortedKeys(h.Keys);
    var b := Members(ks, h) + ['}'] + [];
    EncodeShape(h);
    if ks == [] {
      assert Encode(h) == ['{', '}'];
      assert Pairs(ks, h) == [];
    } else {
      assert b[0] == '"';
      ObjectStep(b);
      MembersRoundTrip(ks, h, []);
    }
  }

  lemma KeysCover(h: Header)
    ensures (map k | k in SortedKeys(h.Keys) :: h[k]) == h
  {
  }

  /** What the request log stores for a header decodes back to that header. */
  lemma DecodeEncode(h: Header)
    ensures Decode(Encode(h)) == Some(h)
  {
    var ks := SortedKeys(h.Keys);
    ObjectRoundTrip(h);
    ToHeaderPairs(ks, h);
    KeysCover(h);
  }
}
