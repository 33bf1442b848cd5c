/** The log viewer's helpers: escaping text for HTML and for regular
    expressions, classifying status codes, normalising the method, turning a
    parsed header object into rows, pretty-printing a body, the lower-cased
    search text of a log, and dropping repeated ids from a page of logs.
    `JSON.parse` and `JSON.stringify` are parameters. */
module WebUi {
  import opened Wrappers
  import opened TextUtil

  // ---------------------------------------------------------------------------
  // `escapeHtml`

  /** `s.replaceAll(c, rep)` for a one-character pattern. */
  function ReplaceAll(s: string, c: char, rep: string): string
  {
    if s == [] then [] else (if s[0] == c then rep else [s[0]]) + ReplaceAll(s[1..], c, rep)
  }

  /** `escapeHtml`: five `replaceAll`s in a row, the ampersand first. */
  function EscapeHtml(value: string): string
  {
    var amp := ReplaceAll(value, '&', "&amp;");
    var lt := ReplaceAll(amp, '<', "&lt;");
    var gt := ReplaceAll(lt, '>', "&gt;");
    var quot := ReplaceAll(gt, '"', "&quot;");
    ReplaceAll(quot, '\'', "&#39;")
  }

  /** The entity each character stands for in the escaped text. */
  function EntityOf(c: char): string
  {
    if c == '&' then "&amp;"
    else if c == '<' then "&lt;"
    else if c == '>' then "&gt;"
    else if c == '"' then "&quot;"
    else if c == '\'' then "&#39;"
    else [c]
  }

  /** Reference escaping: every character replaced by its entity, in one pass. */
  function Escaped(value: string): string
  {
    if value == [] then [] else EntityOf(value[0]) + Escaped(value[1..])
  }

  predicate HtmlSpecial(c: char)
  {
    c == '<' || c == '>' || c == '"' || c == '\''
  }

  lemma {:induction false} ReplaceAllAppend(a: string, b: string, c: char, rep: string)
    ensures ReplaceAll(a + b, c, rep) == ReplaceAll(a, c, rep) + ReplaceAll(b, c, rep)
  {
    if a != [] {
      var head := if a[0] == c then rep else [a[0]];
      assert (a + b)[0] == a[0] && (a + b)[1..] == a[1..] + b;
      assert ReplaceAll(a + b, c, rep) == head + ReplaceAll(a[1..] + b, c, rep);
      assert ReplaceAll(a, c, rep) == head + ReplaceAll(a[1..], c, rep);
      ReplaceAllAppend(a[1..], b, c, rep);
      assert head + (ReplaceAll(a[1..], c, rep) + ReplaceAll(b, c, rep))
          == (head + ReplaceAll(a[1..], c, rep)) + ReplaceAll(b, c, rep);
    } else {
      assert a + b == b;
    }
  }

  lemma {:induction false} ReplaceAllAbsent(s: string, c: char, rep: string)
    requires forall i :: 0 <= i < |s| ==> s[i] != c
    ensures ReplaceAll(s, c, rep) == s
  {
    if s != [] {
      ReplaceAllAbsent(s[1..], c, rep);
    }
  }

  lemma EscapeHtmlAppend(a: string, b: string)
    ensures EscapeHtml(a + b) == EscapeHtml(a) + EscapeHtml(b)
  {
    var a1, b1 := ReplaceAll(a, '&', "&amp;"), ReplaceAll(b, '&', "&amp;");
    ReplaceAllAppend(a, b, '&', "&amp;");
    var a2, b2 := ReplaceAll(a1, '<', "&lt;"), ReplaceAll(b1, '<', "&lt;");
    ReplaceAllAppend(a1, b1, '<', "&lt;");
    var a3, b3 := ReplaceAll(a2, '>', "&gt;"), ReplaceAll(b2, '>', "&gt;");
    ReplaceAllAppend(a2, b2, '>', "&gt;");
    var a4, b4 := ReplaceAll(a3, '"', "&quot;"), ReplaceAll(b3, '"', "&quot;");
    ReplaceAllAppend(a3, b3, '"', "&quot;");
    ReplaceAllAppend(a4, b4, '\'', "&#39;");
  }

  lemma ReplaceAllOne(x: char, c: char, rep: string)
    ensures ReplaceAll([x], c, rep) == if x == c then rep else [x]
  {
    assert [x][1..] == [];
  }

  /** The characters the entities are spelled with. */
  predicate EntityChar(ch: char)
  {
    ch == '&' || ch == ';' || ch == '#' || '0' <= ch <= '9' || 'a' <= ch <= 'z'
  }

  /** A later `replaceAll` leaves an entity (or another character) alone. */
  lemma EntityKept(x: char, d: char, rep: string)
    requires HtmlSpecial(d) && x != d
    ensures ReplaceAll(EntityOf(x), d, rep) == EntityOf(x)
  {
    var e := EntityOf(x);
    if x == '&' || HtmlSpecial(x) {
      assert forall i :: 0 <= i < |e| ==> EntityChar(e[i]);
    }
    ReplaceAllAbsent(e, d, rep);
  }

  /** Replacing `&` after the others would turn `&lt;` into `&amp;lt;`; in
      the order written, one character escapes to exactly its entity. */
  lemma EscapeHtmlChar(c: char)
    ensures EscapeHtml([c]) == EntityOf(c)
  {
    ReplaceAllOne(c, '&', "&amp;");
    if c == '&' {
      EntityKept(c, '<', "&lt;");
      EntityKept(c, '>', "&gt;");
      EntityKept(c, '"', "&quot;");
      EntityKept(c, '\'', "&#39;");
    } else {
      ReplaceAllOne(c, '<', "&lt;");
      if c == '<' {
        EntityKept(c, '>', "&gt;");
        EntityKept(c, '"', "&quot;");
        EntityKept(c, '\'', "&#39;");
      } else {
        ReplaceAllOne(c, '>', "&gt;");
        if c == '>' {
          EntityKept(c, '"', "&quot;");
          EntityKept(c, '\'', "&#39;");
        } else {
          ReplaceAllOne(c, '"', "&quot;");
          if c == '"' {
            EntityKept(c, '\'', "&#39;");
          } else {
            ReplaceAllOne(c, '\'', "&#39;");
          }
        }
      }
    }
  }

  /** The chain of `replaceAll`s is the one-pass escaping. */
  lemma {:induction false} EscapeHtmlIsEscaped(value: string)
    ensures EscapeHtml(value) == Escaped(value)
  {
    if value == [] {
      assert EscapeHtml(value) == [];
    } else {
      assert value == [value[0]] + value[1..];
      EscapeHtmlAppend([value[0]], value[1..]);
      EscapeHtmlChar(value[0]);
      EscapeHtmlIsEscaped(value[1..]);
    }
  }

  lemma {:induction false} EscapedHasNoSpecial(value: string)
    ensures forall i :: 0 <= i < |Escaped(value)| ==> !HtmlSpecial(Escaped(value)[i])
  {
    if value != [] {
      EscapedHasNoSpecial(value[1..]);
      var e, rest := EntityOf(value[0]), Escaped(value[1..]);
      forall i | 0 <= i < |e + rest|
        ensures !HtmlSpecial((e + rest)[i])
      {
        if i >= |e| {
          assert (e + rest)[i] == rest[i - |e|];
        }
      }
    }
  }

  /** `s` begins with one of the five entities `escapeHtml` writes. */
  predicate StartsWithEntity(s: string)
  {
    || (|s| >= 5 && s[..5] == "&amp;")
    || (|s| >= 4 && s[..4] == "&lt;")
    || (|s| >= 4 && s[..4] == "&gt;")
    || (|s| >= 6 && s[..6] == "&quot;")
    || (|s| >= 5 && s[..5] == "&#39;")
  }

  /** An entity followed by anything still starts with that entity. */
  lemma EntityThenRest(c: char, rest: string)
    requires c == '&' || HtmlSpecial(c)
    ensures StartsWithEntity(EntityOf(c) + rest)
  {
    var e := EntityOf(c);
    assert (e + rest)[..|e|] == e;
  }

  /** Every `&` in the escaped text begins an entity: no ampersand is left
      bare. */
  lemma {:induction false} EscapedAmpersands(value: string)
    ensures forall i :: 0 <= i < |Escaped(value)| && Escaped(value)[i] == '&' ==> StartsWithEntity(Escaped(value)[i..])
  {
    if value != [] {
      EscapedAmpersands(value[1..]);
      var e, rest := EntityOf(value[0]), Escaped(value[1..]);
      assert Escaped(value) == e + rest;
      forall i | 0 <= i < |e + rest| && (e + rest)[i] == '&'
        ensures StartsWithEntity((e + rest)[i..])
      {
        if i >= |e| {
          assert (e + rest)[i] == rest[i - |e|];
          assert (e + rest)[i..] == rest[i - |e|..];
        } else if value[0] == '&' || HtmlSpecial(value[0]) {
          assert e[1..] == (e + rest)[1..|e|];
          assert i == 0;
          EntityThenRest(value[0], rest);
        }
      }
    }
  }

  /** Reads entities back: `&amp;` `&lt;` `&gt;` `&quot;` `&#39;` become the
      character they stand for, anything else is kept. */
  function Unescape(s: string): string
  {
    if s == [] then []
    else if s[0] != '&' || |s| < 4 then [s[0]] + Unescape(s[1..])
    else if |s| >= 5 && s[1] == 'a' && s[2] == 'm' && s[3] == 'p' && s[4] == ';' then ['&'] + Unescape(s[5..])
    else if s[1] == 'l' && s[2] == 't' && s[3] == ';' then ['<'] + Unescape(s[4..])
    else if s[1] == 'g' && s[2] == 't' && s[3] == ';' then ['>'] + Unescape(s[4..])
    else if |s| >= 6 && s[1] == 'q' && s[2] == 'u' && s[3] == 'o' && s[4] == 't' && s[5] == ';' then
      ['"'] + Unescape(s[6..])
    else if |s| >= 5 && s[1] == '#' && s[2] == '3' && s[3] == '9' && s[4] == ';' then ['\''] + Unescape(s[5..])
    else [s[0]] + Unescape(s[1..])
  }

  lemma UnescapeStep(c: char, rest: string)
    ensures Unescape(EntityOf(c) + rest) == [c] + Unescape(rest)
  {
    var e := EntityOf(c);
    var s := e + rest;
    assert forall i :: 0 <= i < |e| ==> s[i] == e[i];
    assert s[|e|..] == rest;
  }

  lemma {:induction false} UnescapeEscaped(value: string)
    ensures Unescape(Escaped(value)) == value
  {
    if value != [] {
      UnescapeStep(value[0], Escaped(value[1..]));
      UnescapeEscaped(value[1..]);
      assert value == [value[0]] + value[1..];
    }
  }

  /** The escaped text holds no raw `<`, `>`, `"` or `'`, every `&` in it
      begins an entity, and the entities read back to exactly the original
      text. */
  lemma EscapeHtmlSafe(value: string)
    ensures forall i :: 0 <= i < |EscapeHtml(value)| ==> !HtmlSpecial(EscapeHtml(value)[i])
    ensures forall i :: 0 <= i < |EscapeHtml(value)| && EscapeHtml(value)[i] == '&' ==>
      StartsWithEntity(EscapeHtml(value)[i..])
    ensures Unescape(EscapeHtml(value)) == value
  {
    EscapeHtmlIsEscaped(value);
    EscapedHasNoSpecial(value);
    EscapedAmpersands(value);
    UnescapeEscaped(value);
  }

  // ---------------------------------------------------------------------------
  // `escapeRegExp`

  /** The characters of the class `[.*+?^${}()|[\]\\]`. */
  predicate RegExpSpecial(c: char)
  {
    c == '.' || c == '*' || c == '+' || c == '?' || c == '^' || c == '$' || c == '{' || c == '}'
    || c == '(' || c == ')' || c == '|' || c == '[' || c == ']' || c == '\\'
  }

  /** `value.replace(/[.*+?^${}()|[\]\\]/g, "\\$&")`: a backslash before each
      special character. */
  function EscapeRegExp(value: string): (r: string)
    ensures |r| >= |value|
  {
    if value == [] then []
    else (if RegExpSpecial(value[0]) then ['\\', value[0]] else [value[0]]) + EscapeRegExp(value[1..])
  }

  /** Drops the backslash of each escape pair. */
  function Unbackslash(s: string): string
  {
    if s == [] then []
    else if s[0] == '\\' && |s| >= 2 then [s[1]] + Unbackslash(s[2..])
    else [s[0]] + Unbackslash(s[1..])
  }

  /** Escaping loses nothing, and it changes the text exactly when the text
      holds a special character. */
  lemma {:induction false} EscapeRegExpRoundTrip(value: string)
    ensures Unbackslash(EscapeRegExp(value)) == value
    ensures EscapeRegExp(value) == value <==> forall i :: 0 <= i < |value| ==> !RegExpSpecial(value[i])
  {
    if value != [] {
      EscapeRegExpRoundTrip(value[1..]);
      var c, rest := value[0], EscapeRegExp(value[1..]);
      if RegExpSpecial(c) {
        var s := ['\\', c] + rest;
        assert s[1] == c && s[2..] == rest;
        assert |EscapeRegExp(value)| > |value|;
      } else {
        assert ([c] + rest)[1..] == rest;
        assert value == [c] + value[1..];
      }
    }
  }

  // ---------------------------------------------------------------------------
  // `statusClassOf`

  /** `statusClassOf`: the hundreds digit followed by `xx` for 200–599,
      otherwise `unknown`. */
  function StatusClassOf(status: int): (r: string)
    ensures r != "unknown" <==> 200 <= status < 600
    ensures 200 <= status < 600 ==> r == [DigitChar(status / 100)] + "xx"
  {
    if 200 <= status < 300 then "2xx"
    else if 300 <= status < 400 then "3xx"
    else if 400 <= status < 500 then "4xx"
    else if 500 <= status < 600 then "5xx"
    else "unknown"
  }

  // ---------------------------------------------------------------------------
  // `normalizeMethod`

  /** What `String.prototype.trim` removes: white space and line terminators. */
  predicate JsSpace(c: char)
  {
    var u := c as int;
    || 0x09 <= u <= 0x0D || u == 0x20 || u == 0xA0 || u == 0x1680 || 0x2000 <= u <= 0x200A
    || u == 0x2028 || u == 0x2029 || u == 0x202F || u == 0x205F || u == 0x3000 || u == 0xFEFF
  }

  function LeadingJsSpace(s: string): (n: nat)
    ensures n <= |s| && (forall i :: 0 <= i < n ==> JsSpace(s[i])) && (n < |s| ==> !JsSpace(s[n]))
  {
    if s != [] && JsSpace(s[0]) then 1 + LeadingJsSpace(s[1..]) else 0
  }

  function TrailingJsSpace(s: string): (n: nat)
    ensures n <= |s| && (forall i :: |s| - n <= i < |s| ==> JsSpace(s[i]))
    ensures n < |s| ==> !JsSpace(s[|s| - n - 1])
  {
    if s != [] && JsSpace(s[|s| - 1]) then 1 + TrailingJsSpace(s[..|s| - 1]) else 0
  }

  /** `s.trim()`: `s` without its leading and trailing white space. */
  function Trim(s: string): string
  {
    var a := LeadingJsSpace(s);
    var b := |s| - TrailingJsSpace(s);
    if b <= a then [] else s[a..b]
  }

  /** `r` sits in `s` at `a`, with only white space around it. */
  predicate TrimmedAt(s: string, r: string, a: int)
  {
    0 <= a <= |s| - |r| && r == s[a..a + |r|]
    && (forall i :: 0 <= i < a ==> JsSpace(s[i]))
    && (forall i :: a + |r| <= i < |s| ==> JsSpace(s[i]))
  }

  /** What `trim` removes is white space, and what it keeps is empty exactly
      for an all-white text, and otherwise starts and ends with something
      else. */
  lemma TrimShape(s: string)
    ensures TrimmedAt(s, Trim(s), LeadingJsSpace(s))
    ensures Trim(s) != [] ==> !JsSpace(Trim(s)[0]) && !JsSpace(Trim(s)[|Trim(s)| - 1])
    ensures Trim(s) == [] <==> forall i :: 0 <= i < |s| ==> JsSpace(s[i])
  {
    var a, n := LeadingJsSpace(s), TrailingJsSpace(s);
    var r := Trim(s);
    if |s| - n <= a {
      assert r == [] == s[a..a];
    } else {
      assert r == s[a..|s| - n];
      assert r[0] == s[a] && r[|r| - 1] == s[|s| - n - 1];
    }
  }

  lemma TrimKeeps(s: string)
    requires s == [] || (!JsSpace(s[0]) && !JsSpace(s[|s| - 1]))
    ensures Trim(s) == s
  {
    assert LeadingJsSpace(s) == 0;
    assert TrailingJsSpace(s) == 0;
  }

  predicate NoLowerAscii(s: string)
  {
    forall i :: 0 <= i < |s| ==> !('a' <= s[i] <= 'z')
  }

  /** `normalizeMethod`: the method upper-cased and trimmed, or `UNKNOWN`
      when nothing is left. */
  function NormalizeMethod(m: string): string
  {
    var t := Trim(Upper(m));
    if t == "" then "UNKNOWN" else t
  }

  lemma UpperSpace(m: string)
    ensures forall i :: 0 <= i < |m| ==> (JsSpace(m[i]) <==> JsSpace(Upper(m)[i]))
  {
  }

  lemma UpperNoLower(m: string)
    ensures NoLowerAscii(Upper(m))
  {
  }

  /** The result is never empty, has no lower-case letter and no white
      space at either end; unless it is `UNKNOWN` it is a piece of the
      upper-cased method with only white space cut off, and it is `UNKNOWN`
      for a method that is all white space. */
  lemma NormalizeMethodShape(m: string)
    ensures var r := NormalizeMethod(m);
      r != [] && NoLowerAscii(r) && !JsSpace(r[0]) && !JsSpace(r[|r| - 1])
    ensures var r := NormalizeMethod(m);
      r == "UNKNOWN" || TrimmedAt(Upper(m), r, LeadingJsSpace(Upper(m)))
    ensures (forall i :: 0 <= i < |m| ==> JsSpace(m[i])) ==> NormalizeMethod(m) == "UNKNOWN"
  {
    var u := Upper(m);
    TrimShape(u);
    if Trim(u) == "" {
      UpperSpace(m);
      UnknownShape();
    } else {
      UpperNoLower(m);
      PieceNoLower(u, Trim(u), LeadingJsSpace(u));
    }
  }

  lemma UnknownShape()
    ensures NoLowerAscii("UNKNOWN") && !JsSpace('U') && !JsSpace('N')
  {
  }

  lemma PieceNoLower(u: string, t: string, a: int)
    requires NoLowerAscii(u) && TrimmedAt(u, t, a)
    ensures NoLowerAscii(t)
  {
    assert forall i :: 0 <= i < |t| ==> t[i] == u[a + i];
  }

  lemma {:induction false} UpperKeeps(s: string)
    requires NoLowerAscii(s)
    ensures Upper(s) == s
  {
    if s != [] {
      assert NoLowerAscii(s[1..]) by {
        assert forall i :: 0 <= i < |s[1..]| ==> s[1..][i] == s[i + 1];
      }
      UpperKeeps(s[1..]);
    }
  }

  /** Normalising twice is normalising once. */
  lemma NormalizeMethodIdempotent(m: string)
    ensures NormalizeMethod(NormalizeMethod(m)) == NormalizeMethod(m)
  {
    var r := NormalizeMethod(m);
    NormalizeMethodShape(m);
    UpperKeeps(r);
    TrimKeeps(r);
  }

  // ---------------------------------------------------------------------------
  // `toHeaderEntries`

  /** What `JSON.parse` can produce; numbers are integers, and an object is
      its entries in enumeration order. */
  datatype JsValue =
    | JsNull
    | JsUndefined
    | JsBool(b: bool)
    | JsNumber(n: int)
    | JsString(s: string)
    | JsArray(items: seq<JsValue>)
    | JsObject(fields: seq<(string, JsValue)>)

  predicate Truthy(v: JsValue)
  {
    match v
    case JsNull => false
    case JsUndefined => false
    case JsBool(b) => b
    case JsNumber(n) => n != 0
    case JsString(s) => s != ""
    case _ => true
  }

  /** `typeof v === "object"`, which holds for `null` too. */
  predicate TypeofObject(v: JsValue)
  {
    v.JsNull? || v.JsArray? || v.JsObject?
  }

  /** `String(v)`; an array joins its elements with commas, writing `null`
      and `undefined` elements as nothing. */
  function ToText(v: JsValue): string
    decreases v, 0
  {
    match v
    case JsNull => "null"
    case JsUndefined => "undefined"
    case JsBool(b) => if b then "true" else "false"
    case JsNumber(n) => IntToString(n)
    case JsString(s) => s
    case JsArray(items) => Join(seq(|items|, i requires 0 <= i < |items| => ElementText(items[i])), ",")
    case JsObject(_) => "[object Object]"
  }

  /** How `Array.prototype.join` writes one element. */
  function ElementText(v: JsValue): string
    decreases v, 1
  {
    if v.JsNull? || v.JsUndefined? then "" else ToText(v)
  }

  datatype HeaderEntry = HeaderEntry(key: string, value: string)

  /** The value column: an array joined with ", ", anything else as
      `String(raw ?? "")`. */
  function EntryValue(raw: JsValue): string
  {
    match raw
    case JsArray(items) => Join(seq(|items|, i requires 0 <= i < |items| => ElementText(items[i])), ", ")
    case JsNull => ""
    case JsUndefined => ""
    case _ => ToText(raw)
  }

  /** `Object.entries(v)`: an array's entries are keyed by its indices. */
  function Entries(v: JsValue): seq<(string, JsValue)>
  {
    match v
    case JsArray(items) => seq(|items|, i requires 0 <= i < |items| => (IntToString(i), items[i]))
    case JsObject(fields) => fields
    case _ => []
  }

  /** `toHeaderEntries`: no rows unless the value is a truthy object; then
      one row per entry, in order. */
  function ToHeaderEntries(data: JsValue): (r: seq<HeaderEntry>)
    ensures !Truthy(data) || !TypeofObject(data) ==> r == []
    ensures Truthy(data) && TypeofObject(data) ==>
      |r| == |Entries(data)| &&
      forall i :: 0 <= i < |r| ==> r[i] == HeaderEntry(Entries(data)[i].0, EntryValue(Entries(data)[i].1))
  {
    if !Truthy(data) || !TypeofObject(data) then []
    else
      var es := Entries(data);
      seq(|es|, i requires 0 <= i < |es| => HeaderEntry(es[i].0, EntryValue(es[i].1)))
  }

  /** What `JSON.parse` makes of a stored header: an object whose keys map to
      arrays of strings. */
  function HeaderObject(pairs: seq<(string, seq<string>)>): JsValue
  {
    JsObject(seq(|pairs|, i requires 0 <= i < |pairs| => (pairs[i].0, StringArray(pairs[i].1))))
  }

  function StringArray(vs: seq<string>): JsValue
  {
    JsArray(seq(|vs|, j requires 0 <= j < |vs| => JsString(vs[j])))
  }

  lemma StringsJoin(vs: seq<string>)
    ensures EntryValue(StringArray(vs)) == Join(vs, ", ")
  {
    var items := StringArray(vs).items;
    var texts := seq(|items|, i requires 0 <= i < |items| => ElementText(items[i]));
    assert EntryValue(JsArray(items)) == Join(texts, ", ");
    assert forall i :: 0 <= i < |vs| ==> texts[i] == ToText(JsString(vs[i])) == vs[i];
    assert texts == vs;
  }

  /** A stored header shows as one row per header name, in the stored order,
      its values joined with ", ". */
  lemma HeaderRows(pairs: seq<(string, seq<string>)>)
    ensures ToHeaderEntries(HeaderObject(pairs))
         == seq(|pairs|, i requires 0 <= i < |pairs| => HeaderEntry(pairs[i].0, Join(pairs[i].1, ", ")))
  {
    var data := HeaderObject(pairs);
    var r := ToHeaderEntries(data);
    forall i | 0 <= i < |pairs|
      ensures r[i] == HeaderEntry(pairs[i].0, Join(pairs[i].1, ", "))
    {
      var vs := pairs[i].1;
      assert Entries(data)[i] == (pairs[i].0, StringArray(vs));
      StringsJoin(vs);
    }
  }

  // ---------------------------------------------------------------------------
  // `prettyBody`

  datatype Pretty = Pretty(text: string, isJSON: bool)

  /** `safeParseJSON`: `null` (here `JsNull`) for an empty text or one that
      does not parse. */
  function SafeParseJson(value: string, parse: string -> Option<JsValue>): JsValue
  {
    if value == "" then JsNull
    else match parse(value)
      case None => JsNull
      case Some(v) => v
  }

  /** `prettyBody`: the re-serialised JSON when the body parses to something
      other than `null`, else the body as it is. */
  function PrettyBody(value: string, parse: string -> Option<JsValue>, stringify: JsValue -> string): (r: Pretty)
    ensures r.isJSON <==> value != "" && parse(value).Some? && parse(value).value != JsNull
    ensures !r.isJSON ==> r.text == value
    ensures r.isJSON ==> r.text == stringify(parse(value).value)
  {
    if value == "" then Pretty("", false)
    else
      var parsed := SafeParseJson(value, parse);
      if parsed == JsNull then Pretty(value, false) else Pretty(stringify(parsed), true)
  }

  // ---------------------------------------------------------------------------
  // `buildSearchBlob`

  /** The log as the API hands it to the page (`verb` is its `method`). */
  datatype UiLog = UiLog(id: string, time: int, verb: string, proxyUrl: string, url: string,
                         requestHeaders: string, requestBody: string, status: int,
                         responseHeaders: string, responseBody: string)

  function SearchFields(log: UiLog): seq<string>
  {
    [log.id, log.verb, IntToString(log.status), log.proxyUrl, log.url,
     log.requestHeaders, log.responseHeaders, log.requestBody, log.responseBody]
  }

  /** `buildSearchBlob`: the fields joined with single spaces, lower-cased. */
  function BuildSearchBlob(log: UiLog): string
  {
    Lower(Join(SearchFields(log), " "))
  }

  lemma {:induction false} LowerKeeps(s: string)
    ensures Lower(Lower(s)) == Lower(s)
  {
    if s != [] {
      LowerKeeps(s[1..]);
      assert Lower(s)[1..] == Lower(s[1..]);
    }
  }

  /** The blob is lower case and holds every field, lower-cased: a search for
      any field's text in lower case finds the log. */
  lemma SearchBlobHoldsFields(log: UiLog, i: nat)
    requires i < |SearchFields(log)|
    ensures IsSubstring(Lower(SearchFields(log)[i]), BuildSearchBlob(log))
    ensures Lower(BuildSearchBlob(log)) == BuildSearchBlob(log)
  {
    var parts := SearchFields(log);
    assert Lower(" ") == " ";
    LowerJoin(parts, " ");
    var low := seq(|parts|, k requires 0 <= k < |parts| => Lower(parts[k]));
    JoinContainsPart(low, " ", i);
    LowerKeeps(Join(parts, " "));
  }

  // ---------------------------------------------------------------------------
  // `dedupeByID`

  /** A log with the fields the page derives from it. */
  datatype EnrichedLog = EnrichedLog(log: UiLog, methodNormalized: string, statusClass: string,
                                     timeFormatted: string, requestHeadersEntries: seq<HeaderEntry>,
                                     responseHeadersEntries: seq<HeaderEntry>, searchBlob: string)

  function Ids(logs: seq<EnrichedLog>): set<string>
  {
    set i | 0 <= i < |logs| :: logs[i].log.id
  }

  /** Each log whose id has not been seen before, in order. */
  function Dedupe(logs: seq<EnrichedLog>): seq<EnrichedLog>
    decreases |logs|
  {
    if logs == [] then []
    else
      var kept := Dedupe(logs[..|logs| - 1]);
      var last := logs[|logs| - 1];
      if last.log.id in Ids(kept) then kept else kept + [last]
  }

  lemma IdsSnoc(logs: seq<EnrichedLog>, x: EnrichedLog)
    ensures Ids(logs + [x]) == Ids(logs) + {x.log.id}
  {
    var s := logs + [x];
    forall id | id in Ids(s)
      ensures id in Ids(logs) + {x.log.id}
    {
      var i :| 0 <= i < |s| && s[i].log.id == id;
      if i < |logs| {
        assert logs[i] == s[i];
      }
    }
    forall id | id in Ids(logs)
      ensures id in Ids(s)
    {
      var i :| 0 <= i < |logs| && logs[i].log.id == id;
      assert s[i] == logs[i];
    }
    assert s[|logs|] == x;
  }

  /** `dedupeByID`: the `seen` set is exactly the ids kept so far. */
  method DedupeByID(logs: seq<EnrichedLog>) returns (result: seq<EnrichedLog>)
    ensures result == Dedupe(logs)
  {
    var seen: set<string> := {};
    result := [];
    for i := 0 to |logs|
      invariant result == Dedupe(logs[..i])
      invariant seen == Ids(result)
    {
      var log := logs[i];
      assert logs[..i + 1][..i] == logs[..i];
      if log.log.id in seen {
        continue;
      }
      IdsSnoc(result, log);
      seen := seen + {log.log.id};
      result := result + [log];
    }
    assert logs[..|logs|] == logs;
  }

  /** No id occurs twice among the kept logs. */
  lemma {:induction false} DedupeDistinct(logs: seq<EnrichedLog>)
    ensures forall a, b :: 0 <= a < b < |Dedupe(logs)| ==> Dedupe(logs)[a].log.id != Dedupe(logs)[b].log.id
    decreases |logs|
  {
    if logs != [] {
      var init := logs[..|logs| - 1];
      var last := logs[|logs| - 1];
      DedupeDistinct(init);
      var kept := Dedupe(init);
      if last.log.id !in Ids(kept) {
        var r := kept + [last];
        forall a, b | 0 <= a < b < |r|
          ensures r[a].log.id != r[b].log.id
        {
          if b == |kept| {
            assert r[a] == kept[a];
          } else {
            assert r[a] == kept[a] && r[b] == kept[b];
          }
        }
      }
    }
  }

  /** Every id of the input is kept. */
  lemma {:induction false} DedupeCovers(logs: seq<EnrichedLog>)
    ensures Ids(Dedupe(logs)) == Ids(logs)
    decreases |logs|
  {
    if logs != [] {
      var init := logs[..|logs| - 1];
      var last := logs[|logs| - 1];
      DedupeCovers(init);
      var kept := Dedupe(init);
      IdsSnoc(init, last);
      assert init + [last] == logs;
      if last.log.id !in Ids(kept) {
        IdsSnoc(kept, last);
      }
    }
  }

  /** `logs[j]` is the first log with its id. */
  predicate FirstOfId(logs: seq<EnrichedLog>, j: int)
    requires 0 <= j < |logs|
  {
    forall k :: 0 <= k < j ==> logs[k].log.id != logs[j].log.id
  }

  /** The kept logs are the first log of each id, in input order: they sit
      in the input at increasing positions that are first occurrences, and
      every first occurrence is among them. */
  predicate Embeds(idx: seq<int>, r: seq<EnrichedLog>, logs: seq<EnrichedLog>)
  {
    |idx| == |r| &&
    (forall k :: 0 <= k < |idx| ==> 0 <= idx[k] < |logs| && r[k] == logs[idx[k]] && FirstOfId(logs, idx[k])) &&
    (forall k, l :: 0 <= k < l < |idx| ==> idx[k] < idx[l]) &&
    (forall j :: 0 <= j < |logs| && FirstOfId(logs, j) ==> j in idx)
  }

  lemma FirstOfIdPrefix(init: seq<EnrichedLog>, logs: seq<EnrichedLog>, j: int)
    requires 0 <= j < |init| <= |logs| && init == logs[..|init|]
    ensures FirstOfId(init, j) <==> FirstOfId(logs, j)
  {
    assert forall k :: 0 <= k <= j ==> init[k] == logs[k];
  }

  /** A log that is not the first of its id adds nothing. */
  lemma EmbedsSkip(idx: seq<int>, kept: seq<EnrichedLog>, init: seq<EnrichedLog>, logs: seq<EnrichedLog>)
    requires Embeds(idx, kept, init) && |logs| == |init| + 1 && init == logs[..|init|]
    requires !FirstOfId(logs, |init|)
    ensures Embeds(idx, kept, logs)
  {
    forall k | 0 <= k < |idx|
      ensures kept[k] == logs[idx[k]] && FirstOfId(logs, idx[k])
    {
      FirstOfIdPrefix(init, logs, idx[k]);
    }
    forall j | 0 <= j < |logs| && FirstOfId(logs, j)
      ensures j in idx
    {
      FirstOfIdPrefix(init, logs, j);
    }
  }

  /** The first log of its id is kept, after the ones kept before it. */
  lemma EmbedsKeep(idx: seq<int>, kept: seq<EnrichedLog>, init: seq<EnrichedLog>, logs: seq<EnrichedLog>)
    requires Embeds(idx, kept, init) && |logs| == |init| + 1 && init == logs[..|init|]
    requires FirstOfId(logs, |init|)
    ensures Embeds(idx + [|init|], kept + [logs[|init|]], logs)
  {
    var idx', kept' := idx + [|init|], kept + [logs[|init|]];
    forall k | 0 <= k < |idx'|
      ensures kept'[k] == logs[idx'[k]] && FirstOfId(logs, idx'[k])
    {
      if k < |idx| {
        FirstOfIdPrefix(init, logs, idx[k]);
      }
    }
    forall j | 0 <= j < |logs| && FirstOfId(logs, j)
      ensures j in idx'
    {
      if j < |init| {
        FirstOfIdPrefix(init, logs, j);
        assert j in idx;
      } else {
        assert idx'[|idx|] == j;
      }
    }
  }

  /** Whether the last log is the first of its id depends on the ids
      before it. */
  lemma LastIsFirst(logs: seq<EnrichedLog>)
    requires logs != []
    ensures FirstOfId(logs, |logs| - 1) <==> logs[|logs| - 1].log.id !in Ids(logs[..|logs| - 1])
  {
    var n := |logs| - 1;
    var init := logs[..n];
    if logs[n].log.id in Ids(init) {
      var j :| 0 <= j < n && init[j].log.id == logs[n].log.id;
      assert logs[j] == init[j];
    } else {
      forall k | 0 <= k < n
        ensures logs[k].log.id != logs[n].log.id
      {
        assert logs[k] == init[k];
      }
    }
  }

  lemma {:induction false} DedupeKeepsFirst(logs: seq<EnrichedLog>)
    ensures exists idx :: Embeds(idx, Dedupe(logs), logs)
    decreases |logs|
  {
    if logs == [] {
      assert Embeds([], Dedupe(logs), logs);
    } else {
      var n := |logs| - 1;
      var init, last := logs[..n], logs[n];
      DedupeKeepsFirst(init);
      var kept := Dedupe(init);
      var idx :| Embeds(idx, kept, init);
      DedupeCovers(init);
      LastIsFirst(logs);
      if last.log.id in Ids(kept) {
        assert Dedupe(logs) == kept;
        EmbedsSkip(idx, kept, init, logs);
      } else {
        assert Dedupe(logs) == kept + [last];
        EmbedsKeep(idx, kept, init, logs);
      }
    }
  }
}
