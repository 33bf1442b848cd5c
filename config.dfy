/** Configuration: settings from the environment with defaults, overlaid by
    the TOML file the settings point at, and the reload of the proxy rules.
    The environment and the file system are parameters; a TOML file is
    represented by the keys it sets once decoded. */
module AppConfig {
  import opened Wrappers
  import opened TextUtil

  /** One routing rule: requests whose path starts with `prefix` go to
      `target`; `skipLogging` keeps them out of the request log. */
  datatype Proxy = Proxy(prefix: string, target: string, skipLogging: bool)

  type Env = map<string, string>

  /** `os.Getenv`: an unset variable reads as "". */
  function Getenv(env: Env, name: string): string
  {
    if name in env then env[name] else ""
  }

  // ---------------------------------------------------------------------------
  // White space, as `unicode.IsSpace` (and the scanner of package fmt) see it.

  predicate IsSpace(c: char)
  {
    var u := c as int;
    || 0x09 <= u <= 0x0D || u == 0x20 || u == 0x85 || u == 0xA0 || u == 0x1680
    || 0x2000 <= u <= 0x200A || u == 0x2028 || u == 0x2029 || u == 0x202F || u == 0x205F || u == 0x3000
  }

  predicate AllSpace(s: string)
  {
    forall i :: 0 <= i < |s| ==> IsSpace(s[i])
  }

  /** The number of white-space characters `s` starts with. */
  function LeadingSpace(s: string): (n: nat)
    ensures n <= |s| && AllSpace(s[..n]) && (n < |s| ==> !IsSpace(s[n]))
  {
    if s != [] && IsSpace(s[0]) then
      var n := 1 + LeadingSpace(s[1..]);
      assert s[..n] == [s[0]] + s[1..][..n - 1];
      n
    else 0
  }

  /** The number of white-space characters `s` ends with. */
  function TrailingSpace(s: string): (n: nat)
    ensures n <= |s| && AllSpace(s[|s| - n..]) && (n < |s| ==> !IsSpace(s[|s| - n - 1]))
  {
    if s != [] && IsSpace(s[|s| - 1]) then
      var m := TrailingSpace(s[..|s| - 1]);
      assert forall i :: |s| - 1 - m <= i < |s| - 1 ==> s[i] == s[..|s| - 1][i];
      1 + m
    else 0
  }

  /** `strings.TrimSpace`. */
  function TrimSpace(s: string): string
  {
    var l := LeadingSpace(s);
    var t := s[l..];
    t[..|t| - TrailingSpace(t)]
  }

  /** The trimmed text is what lies between a white-space head and a
      white-space tail of `s`, and it neither starts nor ends with white
      space; it is empty exactly when `s` is all white space. */
  lemma TrimSpaceShape(s: string)
    ensures var r := TrimSpace(s);
      && (exists pre, post :: s == pre + r + post && AllSpace(pre) && AllSpace(post))
      && (r != [] ==> !IsSpace(r[0]) && !IsSpace(r[|r| - 1]))
      && (r == [] <==> AllSpace(s))
  {
    var l := LeadingSpace(s);
    var t := s[l..];
    var m := TrailingSpace(t);
    var r := TrimSpace(s);
    assert s == s[..l] + r + t[|t| - m..];
    if r == [] {
      assert t[|t| - m..] == t;
      AllSpaceConcat(s[..l], t);
      assert s[..l] + t == s;
    } else {
      assert r[0] == s[l];
      assert r[|r| - 1] == t[|t| - m - 1];
    }
  }

  lemma AllSpaceConcat(a: string, b: string)
    requires AllSpace(a) && AllSpace(b)
    ensures AllSpace(a + b)
  {
    assert forall i :: 0 <= i < |a + b| ==> (a + b)[i] == if i < |a| then a[i] else b[i - |a|];
  }

  /** Trimming twice is trimming once. */
  lemma TrimSpaceIdempotent(s: string)
    ensures TrimSpace(TrimSpace(s)) == TrimSpace(s)
  {
    var r := TrimSpace(s);
    TrimSpaceShape(s);
    if r != [] {
      assert LeadingSpace(r) == 0;
      assert TrailingSpace(r) == 0;
      assert r[0..] == r;
    }
  }

  /** `getStringOrDefault`: the default for an empty or unset variable, the
      trimmed value otherwise. */
  function GetStringOrDefault(env: Env, name: string, def: string): (r: string)
    ensures Getenv(env, name) == "" ==> r == def
    ensures Getenv(env, name) != "" ==> r == TrimSpace(Getenv(env, name))
  {
    var value := Getenv(env, name);
    if |value| == 0 then def else TrimSpace(value)
  }

  /** A variable of white space only is set, so it yields "" and not the
      default. */
  lemma BlankSettingIsEmpty(env: Env, name: string, def: string)
    requires Getenv(env, name) != "" && AllSpace(Getenv(env, name))
    ensures GetStringOrDefault(env, name, def) == ""
  {
    TrimSpaceShape(Getenv(env, name));
  }

  // ---------------------------------------------------------------------------
  // `fmt.Sscanf(value, "%d", &result)` into a 64-bit `int`.

  const IntMin: int := -0x8000_0000_0000_0000
  const IntMax: int := 0x7FFF_FFFF_FFFF_FFFF

  /** The scanner skips white space before the number but stops with an
      error at a newline; `None` is that error. */
  function SkipSpace(s: string): (r: Option<string>)
    ensures r.Some? ==> r.value == [] || !IsSpace(r.value[0])
  {
    if s == [] then Some([])
    else if s[0] == '\n' then None
    else if IsSpace(s[0]) then SkipSpace(s[1..])
    else Some(s)
  }

  /** The longest run of decimal digits `s` starts with. */
  function LeadingDigits(s: string): (r: string)
    ensures |r| <= |s| && r == s[..|r|]
    ensures forall i :: 0 <= i < |r| ==> IsDigit(r[i])
    ensures |r| < |s| ==> !IsDigit(s[|r|])
  {
    if s != [] && IsDigit(s[0]) then [s[0]] + LeadingDigits(s[1..]) else []
  }

  function Signed(negative: bool, v: nat): int
  {
    if negative then 0 - v else v
  }

  /** The integer `%d` reads: optional white space, an optional sign, at
      least one digit, and a value that fits in 64 bits. Whatever follows
      the digits is left unread. */
  function ScanInt(s: string): (r: Option<int>)
    ensures r.Some? ==> IntMin <= r.value <= IntMax
  {
    match SkipSpace(s)
    case None => None
    case Some(t) =>
      if t == [] then None
      else
        var negative := t[0] == '-';
        var u := if t[0] == '+' || t[0] == '-' then t[1..] else t;
        var digits := LeadingDigits(u);
        if digits == [] then None
        else
          var v := Signed(negative, DigitsValue(digits));
          if IntMin <= v <= IntMax then Some(v) else None
  }

  lemma {:induction false} LeadingDigitsOf(d: string, rest: string)
    requires forall i :: 0 <= i < |d| ==> IsDigit(d[i])
    requires rest == [] || !IsDigit(rest[0])
    ensures LeadingDigits(d + rest) == d
  {
    if d != [] {
      assert (d + rest)[1..] == d[1..] + rest;
      LeadingDigitsOf(d[1..], rest);
    } else {
      assert d + rest == rest;
    }
  }

  /** Every 64-bit integer printed in decimal scans back, whatever non-digit
      text follows it. */
  lemma ScanIntToString(n: int, rest: string)
    requires IntMin <= n <= IntMax
    requires rest == [] || !IsDigit(rest[0])
    ensures ScanInt(IntToString(n) + rest) == Some(n)
  {
    var m: nat := if n < 0 then -n else n;
    var d := NatDigits(m);
    NatDigitsValue(m);
    LeadingDigitsOf(d, rest);
    var sign: string := if n < 0 then "-" else "";
    assert IntToString(n) + rest == sign + (d + rest);
    ScanSigned(d, rest, n < 0, n);
  }

  /** A digit run, signed or not, scans as its value when that fits. */
  lemma ScanSigned(d: string, rest: string, negative: bool, n: int)
    requires d != [] && forall i :: 0 <= i < |d| ==> IsDigit(d[i])
    requires LeadingDigits(d + rest) == d
    requires Signed(negative, DigitsValue(d)) == n && IntMin <= n <= IntMax
    ensures ScanInt((if negative then "-" else "") + (d + rest)) == Some(n)
  {
    var s := (if negative then "-" else "") + (d + rest);
    assert s[0] == if negative then '-' else d[0];
    assert SkipSpace(s) == Some(s);
    if negative {
      assert s[1..] == d + rest;
    } else {
      assert s == d + rest;
    }
  }

  /** `getIntOrDefault`: the default for an empty or unset variable or one
      that does not scan as an integer, the scanned integer otherwise. */
  function GetIntOrDefault(env: Env, name: string, def: int): (r: int)
    ensures Getenv(env, name) == "" ==> r == def
    ensures Getenv(env, name) != "" && ScanInt(Getenv(env, name)).None? ==> r == def
    ensures Getenv(env, name) != "" && ScanInt(Getenv(env, name)).Some? ==> r == ScanInt(Getenv(env, name)).value
  {
    var value := Getenv(env, name);
    if value == "" then def
    else match ScanInt(value)
      case None => def
      case Some(result) => result
  }

  /** A variable holding a printed integer gives that integer back. */
  lemma GetIntRoundTrip(env: Env, name: string, def: int, n: int)
    requires IntMin <= n <= IntMax && Getenv(env, name) == IntToString(n)
    ensures GetIntOrDefault(env, name, def) == n
  {
    ScanIntToString(n, []);
    assert IntToString(n) + [] == IntToString(n);
  }

  // ---------------------------------------------------------------------------
  // The configuration file.

  /** The keys a decoded TOML file sets; an absent key leaves the field it
      would decode into as it was. */
  datatype ConfigFile = ConfigFile(port: Option<string>, configPath: Option<string>, dbPath: Option<string>,
                                   retention: Option<int>, proxies: Option<seq<Proxy>>)

  /** What reading one path gives: an error from `os.ReadFile`, text that
      `toml.Decode` rejects with a message, or the decoded keys. */
  datatype FileEntry = Unreadable(msg: string) | Malformed(msg: string) | Toml(file: ConfigFile)

  type FileSystem = map<string, FileEntry>

  /** `os.ReadFile` and then `toml.Decode`. A missing path is a read error. */
  function Load(fs: FileSystem, path: string): (r: Result<ConfigFile, string>)
    ensures r.Success? <==> path in fs && fs[path].Toml?
    ensures r.Success? ==> r.value == fs[path].file
  {
    if path !in fs then Failure("open " + path + ": no such file or directory")
    else match fs[path]
      case Unreadable(msg) => Failure(msg)
      case Malformed(msg) => Failure(msg)
      case Toml(file) => Success(file)
  }

  function Overlay<T>(key: Option<T>, current: T): T
  {
    if key.Some? then key.value else current
  }

  const PortVar := "PROXYMINI_PORT"
  const ConfigVar := "PROXYMINI_CONFIG"
  const DbVar := "PROXYMINI_DB"
  const RetentionVar := "PROXYMINI_RETENTION"

  class Config {
    var port: string
    var configPath: string
    var dbPath: string
    /** Seconds; 0 keeps every log entry. */
    var retention: int
    var proxies: seq<Proxy>

    constructor(port: string, configPath: string, dbPath: string, retention: int, proxies: seq<Proxy>)
      ensures this.port == port && this.configPath == configPath && this.dbPath == dbPath
      ensures this.retention == retention && this.proxies == proxies
    {
      this.port := port;
      this.configPath := configPath;
      this.dbPath := dbPath;
      this.retention := retention;
      this.proxies := proxies;
    }

    /** `ReloadProxies`: reads the file at `configPath` again into a fresh
        configuration and takes only its rules. */
    method ReloadProxies(fs: FileSystem) returns (err: Option<string>)
      modifies this
      ensures err.Some? <==> Load(fs, old(configPath)).Failure?
      ensures err.Some? ==> err.value == Load(fs, old(configPath)).error && proxies == old(proxies)
      ensures err.None? ==> proxies == Overlay(Load(fs, old(configPath)).value.proxies, [])
      ensures port == old(port) && configPath == old(configPath) && dbPath == old(dbPath)
      ensures retention == old(retention)
    {
      var loaded := Load(fs, configPath);
      if loaded.Failure? {
        return Some(loaded.error);
      }
      proxies := Overlay(loaded.value.proxies, []);
      return None;
    }
  }

  /** `config.New`: the environment with its defaults, then the file named by
      the configuration path decoded over it. */
  method New(env: Env, fs: FileSystem) returns (c: Config?, err: Option<string>)
    ensures c == null <==> err.Some?
    ensures var path := GetStringOrDefault(env, ConfigVar, "proxymini.conf.toml");
      && (err.Some? <==> Load(fs, path).Failure?)
      && (err.Some? ==> err.value == Load(fs, path).error)
      && (c != null ==>
            var f := Load(fs, path).value;
            && fresh(c)
            && c.port == Overlay(f.port, GetStringOrDefault(env, PortVar, "14443"))
            && c.configPath == Overlay(f.configPath, path)
            && c.dbPath == Overlay(f.dbPath, GetStringOrDefault(env, DbVar, "rl.db"))
            && c.retention == Overlay(f.retention, GetIntOrDefault(env, RetentionVar, 0))
            && c.proxies == Overlay(f.proxies, []))
  {
    var port := GetStringOrDefault(env, PortVar, "14443");
    var configPath := GetStringOrDefault(env, ConfigVar, "proxymini.conf.toml");
    var dbPath := GetStringOrDefault(env, DbVar, "rl.db");
    var retention := GetIntOrDefault(env, RetentionVar, 0);
    var loaded := Load(fs, configPath);
    if loaded.Failure? {
      return null, Some(loaded.error);
    }
    var f := loaded.value;
    c := new Config(Overlay(f.port, port), Overlay(f.configPath, configPath), Overlay(f.dbPath, dbPath),
                    Overlay(f.retention, retention), Overlay(f.proxies, []));
    err := None;
  }
}
