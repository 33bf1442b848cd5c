/** The reverse-proxy handler: marks the response, reloads the routing rules,
    picks the last rule whose prefix starts the request path, forwards the
    request to the rewritten URL, streams the upstream response back and
    queues a log entry. The upstream call, the clocks and the identifier's
    random bytes are parameters. */
module ProxyHandler {
  import opened Wrappers
  import opened Headers
  import opened HttpResponse
  import opened Utils
  import opened AppConfig
  import opened RequestLogs
  import opened LogService

  /** The parts of an incoming `*http.Request` the handler reads. `body` is
      what `io.ReadAll(r.Body)` gives: the bytes or the error text. */
  datatype Request = Request(verb: string, host: string, tls: bool, path: string, rawQuery: string,
                             fragment: string, header: Header, body: Result<string, string>)

  /** The request sent upstream. */
  datatype Outgoing = Outgoing(verb: string, url: string, header: Header, body: string)

  /** What happens to the upstream request: `http.NewRequest` rejects it,
      `http.DefaultClient.Do` fails, or the upstream answers with a status,
      headers and a body read chunk by chunk. */
  datatype Upstream =
    | CreateFailed(msg: string)
    | DoFailed(msg: string)
    | Responded(status: int, header: Header, body: seq<ReadStep>)

  /** Readings of the clocks: the monotonic clock at the start and at the end
      of the exchange (nanoseconds), and the wall clock in Unix seconds when
      the entry is built. */
  datatype Clock = Clock(startedNs: int, finishedNs: int, nowUnix: int)

  const Marker := "X-Proxy-Mini"
  const ConfigErrorText := "error getting config: "
  const NoRouteText := "no matching proxy found for URL: "
  const BodyErrorText := "error reading request body: "
  const CreateErrorText := "error creating request: "
  const DoErrorText := "error making request: "
  const CopyErrorText := "error copying buffer: "

  // ---------------------------------------------------------------------------
  // URLs

  predicate HasPrefix(s: string, p: string)
  {
    |p| <= |s| && s[..|p|] == p
  }

  /** `strings.TrimPrefix`. */
  function TrimPrefix(s: string, p: string): (r: string)
    ensures HasPrefix(s, p) ==> p + r == s
    ensures !HasPrefix(s, p) ==> r == s
  {
    if HasPrefix(s, p) then s[|p|..] else s
  }

  /** The query and fragment, each with its separator, each only when set. */
  function Suffix(r: Request): string
  {
    (if r.rawQuery != "" then "?" + r.rawQuery else "") + (if r.fragment != "" then "#" + r.fragment else "")
  }

  function Origin(r: Request): string
  {
    (if r.tls then "https://" else "http://") + r.host
  }

  /** `fullURL`: the URL the client asked for. */
  function FullURL(r: Request): string
  {
    Origin(r) + r.path + Suffix(r)
  }

  /** The upstream URL: the target, then the path without the rule's prefix,
      then the query and the fragment. */
  function TargetURL(target: string, prefix: string, r: Request): string
  {
    target + TrimPrefix(r.path, prefix) + Suffix(r)
  }

  /** Forwarding rewrites the client's URL by replacing its origin and the
      matched prefix with the target; the rest of the path, the query and the
      fragment are carried over unchanged. */
  lemma Rewrite(r: Request, target: string, prefix: string)
    requires HasPrefix(r.path, prefix)
    ensures var rest := r.path[|prefix|..] + Suffix(r);
      && FullURL(r) == Origin(r) + prefix + rest
      && TargetURL(target, prefix, r) == target + rest
  {
    var rest := r.path[|prefix|..];
    assert r.path == prefix + rest;
    assert Origin(r) + r.path + Suffix(r) == Origin(r) + prefix + (rest + Suffix(r));
    assert target + rest + Suffix(r) == target + (rest + Suffix(r));
  }

  /** A rule whose prefix is not a prefix of the path leaves it whole. */
  lemma TargetKeepsUnmatchedPath(r: Request, target: string, prefix: string)
    requires !HasPrefix(r.path, prefix)
    ensures TargetURL(target, prefix, r) == target + r.path + Suffix(r)
  {
  }

  // ---------------------------------------------------------------------------
  // Route selection

  datatype Route = Route(target: string, prefix: string, skipLogging: bool)

  /** The position of the last rule whose prefix starts `path`. */
  function LastMatch(proxies: seq<Proxy>, path: string): (r: Option<nat>)
    ensures r.None? <==> forall i :: 0 <= i < |proxies| ==> !HasPrefix(path, proxies[i].prefix)
    ensures r.Some? ==> r.value < |proxies| && HasPrefix(path, proxies[r.value].prefix)
    ensures r.Some? ==> forall j :: r.value < j < |proxies| ==> !HasPrefix(path, proxies[j].prefix)
  {
    if proxies == [] then None
    else if HasPrefix(path, proxies[|proxies| - 1].prefix) then Some(|proxies| - 1)
    else
      var r := LastMatch(proxies[..|proxies| - 1], path);
      assert forall i :: 0 <= i < |proxies| - 1 ==> proxies[..|proxies| - 1][i] == proxies[i];
      r
  }

  /** What the loop leaves in `target`, `prefix` and `skipLogging`. */
  function RouteOf(proxies: seq<Proxy>, path: string): Route
  {
    match LastMatch(proxies, path)
    case None => Route("", "", false)
    case Some(k) => Route(proxies[k].target, proxies[k].prefix, proxies[k].skipLogging)
  }

  /** The route loop: every matching rule overwrites the three variables, so
      the last match wins. */
  method SelectRoute(proxies: seq<Proxy>, path: string) returns (route: Route)
    ensures route == RouteOf(proxies, path)
  {
    var target := "";
    var prefix := "";
    var skipLogging := false;
    for i := 0 to |proxies|
      invariant Route(target, prefix, skipLogging) == RouteOf(proxies[..i], path)
    {
      assert proxies[..i + 1][..i] == proxies[..i];
      if HasPrefix(path, proxies[i].prefix) {
        target := proxies[i].target;
        prefix := proxies[i].prefix;
        skipLogging := proxies[i].skipLogging;
      }
    }
    assert proxies[..|proxies|] == proxies;
    route := Route(target, prefix, skipLogging);
  }

  /** The chosen route's prefix starts the path whenever a target is chosen;
      no target is chosen when no rule matches or when the last matching
      rule has an empty target, whatever earlier rules say. */
  lemma RouteMeaning(proxies: seq<Proxy>, path: string)
    ensures var route := RouteOf(proxies, path);
      && (route.target != "" ==> HasPrefix(path, route.prefix))
      && (route.target == "" <==>
            (forall i :: 0 <= i < |proxies| ==> !HasPrefix(path, proxies[i].prefix))
            || proxies[LastMatch(proxies, path).value].target == "")
  {
  }

  // ---------------------------------------------------------------------------
  // Time

  /** `time.Duration.Milliseconds`: integer division truncated toward zero. */
  function Milliseconds(ns: int): (ms: int)
    ensures ns >= 0 ==> 0 <= ms && ms * 1_000_000 <= ns < (ms + 1) * 1_000_000
    ensures ns < 0 ==> ms <= 0 && -ns - 1_000_000 < -ms * 1_000_000 <= -ns
  {
    if ns >= 0 then ns / 1_000_000 else -((-ns) / 1_000_000)
  }

  // ---------------------------------------------------------------------------
  // What a request does

  /** `handleError`: the status (if none was written yet), then the error text
      written to the body as far as the client takes it. */
  function Failed(st: WriterState, status: int, msg: string): WriterState
  {
    var (n, _, rest) := WriteOutcome(st.script, msg);
    st.(status := if st.status == 0 then status else st.status, body := st.body + msg[..n], script := rest)
  }

  /** Everything one call of the handler changes: the response, the request
      sent upstream, the entry queued for the log, and the rules in force. */
  datatype Handled = Handled(response: WriterState, sent: Option<Outgoing>, entry: Option<RequestLog>,
                             proxies: seq<Proxy>)

  /** An upstream status line always carries a valid code. */
  predicate ValidUpstream(up: Upstream)
  {
    up.Responded? ==> ValidStatus(up.status)
  }

  /** The response once the upstream has answered: its headers appended, its
      status written, its body copied, and the copy error's text appended
      unless the client hung up (a broken pipe). A copy error never changes
      the status. */
  function Relay(marked: WriterState, up: Upstream): (res: (WriterState, Outcome))
    requires up.Responded? && ValidStatus(up.status)
    ensures res.0.header == Merged(marked.header, up.header)
    ensures res.0.status == if marked.status == 0 then up.status else marked.status
    ensures res.1 == Copy(up.body, marked.script)
    ensures var o := res.1;
      (o.err.None? || IsEpipe(o.err.value)) ==> res.0.body == marked.body + o.delivered
    ensures var o := res.1;
      o.err.Some? && !IsEpipe(o.err.value) && Drop(marked.script, o.writesUsed) == [] ==>
        res.0.body == marked.body + o.delivered + CopyErrorText + ErrorText(o.err.value)
  {
    var answered := marked.(header := Merged(marked.header, up.header),
                            status := if marked.status == 0 then up.status else marked.status);
    var o := Copy(up.body, answered.script);
    var copied := Apply(answered, o);
    (if o.err.Some? && !IsEpipe(o.err.value) then Failed(copied, 500, CopyErrorText + ErrorText(o.err.value))
     else copied,
     o)
  }

  /** The log entry of a proxied request, unless its route skips logging. */
  function EntryOf(route: Route, r: Request, up: Upstream, captured: string, clock: Clock,
                   random: seq<nat>): Option<RequestLog>
    requires |random| == 16 && IsBytes(random)
    requires r.body.Success? && up.Responded?
  {
    if route.skipLogging then None
    else Some(RequestLogs.New(r.verb, FullURL(r), TargetURL(route.target, route.prefix, r), r.header,
                              r.body.value, up.status, up.header, captured,
                              Milliseconds(clock.finishedNs - clock.startedNs), random, clock.nowUnix))
  }

  /** The part of the handler after a route is found. */
  function Forward(marked: WriterState, proxies: seq<Proxy>, route: Route, r: Request, up: Upstream,
                   clock: Clock, random: seq<nat>): Handled
    requires |random| == 16 && IsBytes(random) && ValidUpstream(up)
  {
    if r.body.Failure? then Handled(Failed(marked, 500, BodyErrorText + r.body.error), None, None, proxies)
    else if up.CreateFailed? then Handled(Failed(marked, 500, CreateErrorText + up.msg), None, None, proxies)
    else
      var sent := Outgoing(r.verb, TargetURL(route.target, route.prefix, r), Merged(map[], r.header), r.body.value);
      if up.DoFailed? then Handled(Failed(marked, 500, DoErrorText + up.msg), Some(sent), None, proxies)
      else
        var relayed := Relay(marked, up);
        Handled(relayed.0, Some(sent), EntryOf(route, r, up, relayed.1.captured, clock, random), proxies)
  }

  /** `ServeHTTP` as a function of the response before the call, the rules in
      force, the outcome of reloading the configuration file, the request and
      the upstream. */
  function Serve(w0: WriterState, proxies0: seq<Proxy>, loaded: Result<ConfigFile, string>, r: Request,
                 up: Upstream, clock: Clock, random: seq<nat>): Handled
    requires |random| == 16 && IsBytes(random) && ValidUpstream(up)
  {
    var marked := w0.(header := SetValue(w0.header, Marker, "true"));
    if loaded.Failure? then Handled(Failed(marked, 500, ConfigErrorText + loaded.error), None, None, proxies0)
    else
      var proxies := Overlay(loaded.value.proxies, []);
      var route := RouteOf(proxies, r.path);
      if route.target == "" then Handled(Failed(marked, 404, NoRouteText + FullURL(r)), None, None, proxies)
      else Forward(marked, proxies, route, r, up, clock, random)
  }

  class ProxyHandler {
    const svc: RequestLogService
    const config: Config

    constructor(svc: RequestLogService, config: Config)
      ensures this.svc == svc && this.config == config
    {
      this.svc := svc;
      this.config := config;
    }

    /** `ServeHTTP(w, r)`. */
    method ServeHTTP(w: ResponseWriter, r: Request, fs: FileSystem, up: Upstream, clock: Clock, random: seq<nat>)
      returns (sent: Option<Outgoing>)
      requires |random| == 16 && IsBytes(random) && ValidUpstream(up)
      requires up.Responded? ==> FitsBuffer(up.body, DefaultBufferSize)
      modifies w, config, svc
      ensures var h := Serve(old(w.State()), old(config.proxies), Load(fs, old(config.configPath)), r, up, clock, random);
        && w.State() == h.response && sent == h.sent && config.proxies == h.proxies
        && svc.queue == old(svc.queue) + (if h.entry.Some? then [h.entry.value] else [])
      ensures svc.table == old(svc.table) && svc.logged == old(svc.logged)
      ensures config.port == old(config.port) && config.configPath == old(config.configPath)
      ensures config.dbPath == old(config.dbPath) && config.retention == old(config.retention)
    {
      w.SetHeader(Marker, "true");
      var err := config.ReloadProxies(fs);
      if err.Some? {
        HandleError(w, ConfigErrorText + err.value, 500);
        return None;
      }
      var route := SelectRoute(config.proxies, r.path);
      if route.target == "" {
        HandleError(w, NoRouteText + FullURL(r), 404);
        return None;
      }
      sent := ForwardRequest(w, route, r, up, clock, random);
    }

    /** Everything after the route is found. */
    method ForwardRequest(w: ResponseWriter, route: Route, r: Request, up: Upstream, clock: Clock, random: seq<nat>)
      returns (sent: Option<Outgoing>)
      requires |random| == 16 && IsBytes(random) && ValidUpstream(up)
      requires up.Responded? ==> FitsBuffer(up.body, DefaultBufferSize)
      modifies w, svc
      ensures var h := Forward(old(w.State()), config.proxies, route, r, up, clock, random);
        && w.State() == h.response && sent == h.sent
        && svc.queue == old(svc.queue) + (if h.entry.Some? then [h.entry.value] else [])
      ensures svc.table == old(svc.table) && svc.logged == old(svc.logged)
    {
      if r.body.Failure? {
        HandleError(w, BodyErrorText + r.body.error, 500);
        return None;
      }
      var reqBody := r.body.value;
      var targetURL := TargetURL(route.target, route.prefix, r);
      if up.CreateFailed? {
        HandleError(w, CreateErrorText + up.msg, 500);
        return None;
      }
      var reqHeader := AddAll(map[], r.header);
      sent := Some(Outgoing(r.verb, targetURL, reqHeader, reqBody));
      if up.DoFailed? {
        HandleError(w, DoErrorText + up.msg, 500);
        return;
      }
      var body := RelayResponse(w, up);
      Record(route, r, up, body, clock, random);
    }

    /** The logging step: unless the route skips logging, the entry is built
        and handed to the log service; a failed save is only logged. */
    method Record(route: Route, r: Request, up: Upstream, captured: string, clock: Clock, random: seq<nat>)
      requires |random| == 16 && IsBytes(random)
      requires r.body.Success? && up.Responded?
      modifies svc
      ensures var e := EntryOf(route, r, up, captured, clock, random);
        svc.queue == old(svc.queue) + (if e.Some? then [e.value] else [])
      ensures svc.table == old(svc.table) && svc.logged == old(svc.logged)
    {
      if !route.skipLogging {
        var elapsedMS := Milliseconds(clock.finishedNs - clock.startedNs);
        var entry := RequestLogs.New(r.verb, FullURL(r), TargetURL(route.target, route.prefix, r), r.header,
                                     r.body.value, up.status, up.header, captured, elapsedMS, random, clock.nowUnix);
        var _ := svc.Save(entry);
      }
    }
  }

  /** Relays the upstream's answer to the client and returns the captured
      body. */
  method RelayResponse(w: ResponseWriter, up: Upstream) returns (captured: string)
    requires up.Responded? && ValidStatus(up.status) && FitsBuffer(up.body, DefaultBufferSize)
    modifies w
    ensures w.State() == Relay(old(w.State()), up).0 && captured == Relay(old(w.State()), up).1.captured
  {
    w.AddHeaders(up.header);
    w.WriteHeader(up.status);
    var empty := new char[0];
    var err;
    captured, err := CopyBuffer(w, up.body, empty);
    if err.Some? && !IsEpipe(err.value) {
      HandleError(w, CopyErrorText + ErrorText(err.value), 500);
    }
  }

  /** `handleError(w, err, status)`. */
  method HandleError(w: ResponseWriter, msg: string, status: int)
    requires ValidStatus(status)
    modifies w
    ensures w.State() == Failed(old(w.State()), status, msg)
  {
    w.WriteHeader(status);
    var _, _ := w.Write(msg);
  }

  // ---------------------------------------------------------------------------
  // What the handler promises

  /** The marker header is set before anything else, so every response,
      failed or not, carries it first. */
  lemma MarkerFirst(w0: WriterState, proxies0: seq<Proxy>, loaded: Result<ConfigFile, string>, r: Request,
                    up: Upstream, clock: Clock, random: seq<nat>)
    requires |random| == 16 && IsBytes(random) && ValidUpstream(up)
    ensures var h := Serve(w0, proxies0, loaded, r, up, clock, random);
      Values(h.response.header, Marker) != [] && Values(h.response.header, Marker)[0] == "true"
  {
    var marked := w0.(header := SetValue(w0.header, Marker, "true"));
    if up.Responded? {
      MergedValues(marked.header, up.header);
    }
  }

  /** The status the client sees on a fresh response, exit by exit: 500 when
      the configuration cannot be reloaded, 404 without a route, 500 when the
      request body cannot be read or the upstream request fails, and
      otherwise the upstream's status, which a later copy error does not
      change. */
  lemma StatusByExit(w0: WriterState, proxies0: seq<Proxy>, loaded: Result<ConfigFile, string>, r: Request,
                     up: Upstream, clock: Clock, random: seq<nat>)
    requires |random| == 16 && IsBytes(random) && ValidUpstream(up)
    requires w0.status == 0
    ensures var h := Serve(w0, proxies0, loaded, r, up, clock, random);
      h.response.status ==
        if loaded.Failure? then 500
        else if RouteOf(Overlay(loaded.value.proxies, []), r.path).target == "" then 404
        else if r.body.Failure? || !up.Responded? then 500
        else up.status
  {
  }

  /** A configuration that cannot be reloaded stops the request before any
      routing: nothing is sent upstream or logged, the rules stay as they
      were, and the error text goes to the client. */
  lemma ConfigErrorStops(w0: WriterState, proxies0: seq<Proxy>, loaded: Result<ConfigFile, string>, r: Request,
                         up: Upstream, clock: Clock, random: seq<nat>)
    requires |random| == 16 && IsBytes(random) && ValidUpstream(up)
    requires loaded.Failure?
    ensures var h := Serve(w0, proxies0, loaded, r, up, clock, random);
      && h.sent == None && h.entry == None && h.proxies == proxies0
      && h.response.body == w0.body + (ConfigErrorText + loaded.error)[..|h.response.body| - |w0.body|]
  {
  }

  /** A path that no rule with a target claims is answered with the client's
      own URL in the error text; nothing is sent upstream or logged, and the
      freshly loaded rules stay in force. */
  lemma NoRouteAnswer(w0: WriterState, proxies0: seq<Proxy>, loaded: Result<ConfigFile, string>, r: Request,
                      up: Upstream, clock: Clock, random: seq<nat>)
    requires |random| == 16 && IsBytes(random) && ValidUpstream(up)
    requires loaded.Success? && RouteOf(Overlay(loaded.value.proxies, []), r.path).target == ""
    ensures var h := Serve(w0, proxies0, loaded, r, up, clock, random);
      && h.sent == None && h.entry == None && h.proxies == Overlay(loaded.value.proxies, [])
      && h.response.body == w0.body + (NoRouteText + FullURL(r))[..|h.response.body| - |w0.body|]
      && (w0.script == [] ==> h.response.body == w0.body + NoRouteText + FullURL(r))
  {
  }

  /** Exactly the proxied requests of a route that does not skip logging
      are logged, and the entry records the request, the rewritten URL, the
      upstream status and headers and the bytes captured from the upstream
      body; a monotonic clock gives a non-negative duration. */
  lemma LoggedEntry(w0: WriterState, proxies0: seq<Proxy>, loaded: Result<ConfigFile, string>, r: Request,
                    up: Upstream, clock: Clock, random: seq<nat>)
    requires |random| == 16 && IsBytes(random) && ValidUpstream(up)
    ensures var h := Serve(w0, proxies0, loaded, r, up, clock, random);
      var route := RouteOf(if loaded.Success? then Overlay(loaded.value.proxies, []) else [], r.path);
      && (h.entry.Some? <==> loaded.Success? && route.target != "" && r.body.Success? && up.Responded?
                             && !route.skipLogging)
      && (h.entry.Some? ==>
            var e := h.entry.value;
            && e.verb == r.verb && e.proxyURL == FullURL(r) && e.url == TargetURL(route.target, route.prefix, r)
            && e.requestBody == r.body.value && e.status == up.status
            && HeaderJson.Decode(e.requestHeaders) == Some(r.header)
            && HeaderJson.Decode(e.responseHeaders) == Some(up.header)
            && e.responseBody == Copy(up.body, w0.script).captured
            && e.time == clock.nowUnix
            && (clock.startedNs <= clock.finishedNs ==> e.elapsedMS >= 0))
  {
    var h := Serve(w0, proxies0, loaded, r, up, clock, random);
    if h.entry.Some? {
      var e := h.entry.value;
      NewReadsBack(e.verb, e.proxyURL, e.url, r.header, e.requestBody, e.status, up.header, e.responseBody,
                   e.elapsedMS, random, e.time);
    }
  }

  /** A clean upstream body (chunks, then end of stream) sent to a client
      that takes every write reaches the client whole, after the marker and
      the upstream headers, and the logged copy is the same bytes. */
  lemma WholeResponse(w0: WriterState, proxies0: seq<Proxy>, loaded: Result<ConfigFile, string>, r: Request,
                      up: Upstream, clock: Clock, random: seq<nat>)
    requires |random| == 16 && IsBytes(random) && ValidUpstream(up)
    requires loaded.Success? && RouteOf(Overlay(loaded.value.proxies, []), r.path).target != ""
    requires r.body.Success? && up.Responded?
    requires FitsBuffer(up.body, DefaultBufferSize) && Accepting(w0.script, DefaultBufferSize)
    requires forall i :: 0 <= i < |up.body| ==> up.body[i].err == NoErr || (up.body[i].err == Eof && i == |up.body| - 1)
    ensures var h := Serve(w0, proxies0, loaded, r, up, clock, random);
      && h.response.body == w0.body + Chunks(up.body, 0, |up.body|)
      && h.response.header == Merged(SetValue(w0.header, Marker, "true"), up.header)
      && (h.entry.Some? ==> h.entry.value.responseBody == Chunks(up.body, 0, |up.body|))
  {
    CopyWholeStream(up.body, 0, w0.script, DefaultBufferSize);
  }
}
