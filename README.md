# proxymini core, modelled in Dafny

proxymini is a small reverse proxy with a request log and a web UI. It reads a
list of routing rules (prefix, target, skipLogging) from a TOML file, reloads it
on every request and forwards each request to the target of the last rule whose
prefix starts the request path. It streams the upstream response back while
capturing it, and hands a log record to a single writer that stores it in
SQLite. A janitor deletes records older than the retention period once an hour.
The web UI shows the stored records through a few pure helpers.

This project models that core and proves what it promises.

| module | file | models |
|---|---|---|
| `Wrappers` | wrappers.dfy | `Option` and `Result` |
| `TextUtil` | text.dfy | string join, ASCII case mapping, decimal digits, substrings |
| `Headers` | headers.dfy | `http.Header` as a map from names to value lists; `Set`, `Add` and the copy loops |
| `HeaderJson` | headerjson.dfy | `json.Marshal` of an `http.Header` (sorted keys, escaped strings) and a decoder for it |
| `RequestLogs` | requestlogs.dfy | the 11-field `RequestLog` record, `New`, and the UUID v4 text format |
| `LogService` | logservice.dfy | `RequestLogService`: the queue, the writer loop, the table and its queries |
| `HttpResponse` | response.dfy | the `http.ResponseWriter` the handler writes to |
| `Utils` | utils.dfy | `CopyBuffer`, the tee copy from upstream to client |
| `AppConfig` | config.dfy | the environment helpers, `Config`, `New`, `ReloadProxies` |
| `ProxyHandler` | proxy.dfy | `ServeHTTP`, `fullURL`, the target URL, `handleError` |
| `AppBuild` | build.dfy | `Build` and the retention scheduler |
| `WebUi` | webui.dfy | `escapeHtml`, `escapeRegExp`, `statusClassOf`, `normalizeMethod`, `toHeaderEntries`, `prettyBody`, `buildSearchBlob`, `dedupeByID` |

Everything outside the process is a parameter:

- the environment and the file system, as maps;
- the TOML decoder's result, per file;
- the upstream, which either fails to build the request, fails the call, or answers with a status, headers and a body read as a sequence of chunk results;
- the client, as a script of write results;
- the clocks;
- the 16 random bytes of the UUID;
- the outcome of each SQL statement.

SQLite's table is a sequence of rows, and its `id` primary key rejects duplicates.
Go's unbuffered channel is a FIFO queue that the writer drains.
The retention ticker is an explicit sequence of tick and cancellation events.

The repository's files do not agree on two record shapes. The model follows the
newer API used by the handler and the store:

- A rule carries `skipLogging` (internal/proxy/proxy.go:46, internal/integration/integration_test.go:233-240), although internal/config/config.go:44-47 shows a rule without it.
- A log record has 11 fields, including `ElapsedMS` and `ProxyURL`, and `New` takes nine arguments (internal/requestlog/service.go:51-52, internal/proxy/proxy.go:105-115, internal/requestlog/requestlog_test.go:11-25), although internal/requestlog/requestlog.go:11-23 shows a 9-field record and a 7-argument `New`.

## Model

| member | source | states |
|---|---|---|
| TextUtil.JoinContainsPart | webui/src/lib/utils.ts:95-109 | every part of a join occurs in the joined string |
| TextUtil.LowerJoin | webui/src/lib/utils.ts:96-108 | lower-casing a join with a lower-case separator is the join of the lower-cased parts |
| TextUtil.NatDigitsValue | internal/config/config.go:28 | the decimal text of a number reads back as that number; the `%d` scan relies on it, and so does `String(log.status)` at webui/src/lib/utils.ts:100 |
| Headers.SetValue | internal/proxy/proxy.go:30 | `Header.Set` makes the value the key's only value and leaves every other key alone |
| Headers.AddValue | internal/proxy/proxy.go:77 | `Header.Add` appends the value to the key's list and leaves every other key alone |
| Headers.MergedValues | internal/proxy/proxy.go:75-79 | after copying, each key carries the destination's values followed by the source's; keys with no values are not created |
| Headers.AddValues | internal/proxy/proxy.go:76-78 | the inner `for _, hv := range hvs` loop adds the values in order |
| Headers.AddAll | internal/proxy/proxy.go:88-92 | the outer loop over the source header gives the merged header, whatever the map order |
| HeaderJson.SortedKeys | internal/requestlog/requestlog.go:24-25 | the object keys `json.Marshal` writes are exactly the map's keys, distinct and in byte order |
| HeaderJson.CharsRoundTrip | internal/requestlog/requestlog.go:24-25 | JSON string escaping is undone by the string parser, which stops at the closing quote |
| HeaderJson.ArrayRoundTrip | internal/requestlog/requestlog.go:24-25 | an encoded value list parses back to the same list and leaves what follows |
| HeaderJson.MembersRoundTrip | internal/requestlog/requestlog.go:24-25 | encoded object members parse back to the same key/value pairs in order |
| HeaderJson.DecodeEncode | internal/requestlog/requestlog.go:24-25 | decoding a marshalled header gives back the same key→values map |
| RequestLogs.Stamp | internal/requestlog/requestlog.go:28 | a UUID v4 sets the version nibble to 4 and the variant bits to 10, and keeps every other random bit |
| RequestLogs.UuidRoundTrip | internal/requestlog/requestlog.go:28 | the 8-4-4-4-12 hex text of 16 bytes parses back to those bytes |
| RequestLogs.UuidVersion | internal/requestlog/requestlog.go:28 | the generated id shows version `4` and a variant digit among 8, 9, a, b |
| RequestLogs.New | internal/requestlog/requestlog.go:23-38 | the record copies method, both URLs, request body, status, response body and elapsed time verbatim, stamps the clock's time and carries a 36-character id |
| RequestLogs.NewReadsBack | internal/requestlog/requestlog.go:24-35 | both stored header strings decode to the headers passed in, and the id parses back to the stamped random bytes |
| LogService.Scan | internal/requestlog/service.go:38-41 | a row scans exactly when none of its text columns is NULL |
| LogService.ScanRoundTrip | internal/requestlog/service.go:49-56 | a stored record scans back as the same 11 fields, and only its own row scans to it |
| LogService.Insert | internal/requestlog/service.go:49-56 | an insert appends the record's row, and fails exactly when the database reports an error or the id is already in the table; a database error is returned as is |
| LogService.InsertKeepsUnique | internal/requestlog/service.go:49-56 | inserting keeps the ids in the table distinct, with or without a database error |
| LogService.InsertAllFifo | internal/requestlog/service.go:14-23 | entries with fresh ids whose inserts meet no database error are stored in queue order, one row each, with no failures |
| LogService.InsertAllFaulted | internal/requestlog/service.go:17-21 | when every insert meets a database error, nothing is stored and every entry is logged, in queue order |
| LogService.InsertAllAccounts | internal/requestlog/service.go:14-23 | whatever the database errors, the writer keeps the old rows in front and every queued entry is either stored or logged as failed |
| LogService.InsertAllDuplicates | internal/requestlog/service.go:14-23 | without database errors, an entry is logged as failed only when its id is already in the table |
| LogService.InsertAllUnique | internal/requestlog/service.go:14-23 | the writer loop keeps the ids in the table distinct |
| LogService.SortByTimeDescSorted | internal/requestlog/service.go:30 | `ORDER BY time DESC` gives the same rows, newest first |
| LogService.ScanAll | internal/requestlog/service.go:35-46 | scanning succeeds exactly when every row scans, and then gives one record per row that stores back as that row |
| LogService.ScanRows | internal/requestlog/service.go:35-46 | the `rows.Next` loop reads the rows up to the step at which the database fails, if any; it stops with an error at the first of those rows that fails to scan, otherwise collects all of them |
| LogService.ListRows | internal/requestlog/service.go:27-47 | a query error is returned as is; otherwise the list succeeds exactly when every row stepped through scans, and is then a prefix of the table's rows newest first |
| LogService.ListRowsMeaning | internal/requestlog/service.go:27-47 | a successful list is sorted newest first and holds only rows of the table; when no step fails it succeeds exactly when every row scans, and then holds every row once |
| LogService.ListRowsDropsStepError | internal/requestlog/service.go:35-46 | a step that fails before the only row gives an empty list and no error: `rows.Err()` is never checked |
| LogService.ListRowsCheckedComplete | internal/requestlog/service.go:35-46 | with `rows.Err()` checked after the loop, a list succeeds exactly when no query or step error occurs and every row scans, and then holds every row of the table once, newest first; a failed step returns its own error |
| LogService.KeepNewerExact | internal/requestlog/service.go:69-72 | the rows left are exactly those with time at or after the cutoff, each kept unchanged; nothing is deleted when none is older |
| LogService.KeepNewerTwice | internal/app/build.go:84-88 | two deletes in a row act as one delete at the later cutoff |
| LogService.RequestLogService.constructor | internal/requestlog/service.go:13-25 | a new service has an empty queue over the given table |
| LogService.RequestLogService.Save | internal/requestlog/service.go:58-61 | `Save` returns nil and only appends the record to the queue |
| LogService.RequestLogService.WriteOne | internal/requestlog/service.go:17-22 | one step of the writer pops the oldest entry; it stores it, or logs it when the insert meets a database error or a taken id |
| LogService.RequestLogService.Drain | internal/requestlog/service.go:14-23 | draining empties the queue, stores the entries in FIFO order and logs exactly the failed ones, each insert meeting its own database error, if any |
| LogService.RequestLogService.GetList | internal/requestlog/service.go:27-47 | the result is the as-written list: a query error is returned as is; a successful list is sorted newest first and holds only rows of the table; when no step fails it succeeds exactly when every row scans, and then holds every row once |
| LogService.RequestLogService.DeleteAll | internal/requestlog/service.go:63-67 | the table is empty unless the statement fails, and its error is returned |
| LogService.RequestLogService.DeleteOlderThan | internal/requestlog/service.go:69-72 | the rows older than the cutoff are removed unless the statement fails, and its error is returned |
| HttpResponse.WriteOutcome | internal/utils/utils.go:23 | a write accepts at most the bytes offered; an exhausted client script accepts everything |
| HttpResponse.ResponseWriter.constructor | internal/utils/utils.go:10 | a fresh response has no header, no status, no body |
| HttpResponse.ResponseWriter.SetHeader | internal/proxy/proxy.go:30 | `Header().Set` changes only the header |
| HttpResponse.ResponseWriter.AddHeaders | internal/proxy/proxy.go:88-92 | copying the upstream headers changes only the header, to the merged one |
| HttpResponse.ResponseWriter.WriteHeader | internal/proxy/proxy.go:94 | the first status written wins; later ones are ignored |
| HttpResponse.ResponseWriter.Write | internal/proxy/proxy.go:127 | the body grows by the bytes the client accepted, and writing commits status 200 if none was set |
| HttpResponse.ResponseWriter.Flush | internal/utils/utils.go:41 | a flush commits status 200 if none was set and changes nothing else |
| Utils.CopyFrom | internal/utils/utils.go:17-42 | there is one flush for every read that did not end the copy |
| Utils.CopyBuffer | internal/utils/utils.go:10-43 | the tee copy returns the capture and the error of the chunk-by-chunk specification, and leaves the client in the state that specification gives; an empty buffer becomes a 32 KiB one |
| Utils.CopyDelivers | internal/utils/utils.go:22-39 | the client receives a prefix of the capture, and all of it unless a write failed or was short |
| Utils.CopyCaptures | internal/utils/utils.go:18-24 | the capture is every chunk read, including the one whose write failed, but not a chunk that came with a read error |
| Utils.CopyWholeStream | internal/utils/utils.go:35-39 | a clean stream ending in EOF to a client that accepts everything gives no error, and client and capture each get the whole stream |
| Utils.CopyWriteError | internal/utils/utils.go:28-30 | a write error ends the copy at the failing write of a non-empty chunk |
| Utils.CopyShortWrite | internal/utils/utils.go:31-33 | a short write without error ends the copy with `io.ErrShortWrite` at a write that took fewer bytes than the chunk |
| Utils.CopyReadErrors | internal/utils/utils.go:19-21 | a read error is the one of the last read, and cancellation is returned only after its chunk is written |
| AppConfig.TrimSpaceShape | internal/config/config.go:18 | `strings.TrimSpace` removes white space only at both ends, and gives "" exactly for blank input |
| AppConfig.TrimSpaceIdempotent | internal/config/config.go:18 | trimming twice is trimming once |
| AppConfig.GetStringOrDefault | internal/config/config.go:11-19 | an unset or empty variable gives the default; any other value is trimmed |
| AppConfig.BlankSettingIsEmpty | internal/config/config.go:14-18 | a value made only of white space gives "", not the default |
| AppConfig.ScanInt | internal/config/config.go:28 | `Sscanf("%d")` gives only values in the range of Go's `int` |
| AppConfig.ScanIntToString | internal/config/config.go:28 | the decimal text of an `int`, followed by anything that is not a digit, scans back as that number |
| AppConfig.GetIntOrDefault | internal/config/config.go:21-34 | an empty or unparsable variable gives the default, otherwise the scanned number |
| AppConfig.GetIntRoundTrip | internal/config/config.go:21-34 | a variable holding an integer's text gives that integer |
| AppConfig.Load | internal/config/config.go:57-65 | reading and decoding succeed exactly when the file exists and decodes, giving its contents |
| AppConfig.Config.constructor | internal/config/config.go:36-42 | a configuration holds the given fields |
| AppConfig.Config.ReloadProxies | internal/config/config.go:70-85 | on a read or decode error the rules stay and the error is returned; on success only the rules change, to the file's list |
| AppConfig.New | internal/config/config.go:49-68 | defaults port 14443, file proxymini.conf.toml, database rl.db and retention 0 come from the environment, then the file's keys override them; a read or decode error returns no configuration |
| ProxyHandler.TrimPrefix | internal/proxy/proxy.go:61 | `strings.TrimPrefix` removes the prefix exactly when the string starts with it |
| ProxyHandler.Rewrite | internal/proxy/proxy.go:61-67 | the upstream URL is the client URL with origin and matched prefix replaced by the target, the rest of the path, the query and the fragment carried over |
| ProxyHandler.TargetKeepsUnmatchedPath | internal/proxy/proxy.go:61 | an unmatched prefix leaves the whole path |
| ProxyHandler.LastMatch | internal/proxy/proxy.go:39-48 | the chosen rule is the last one in list order whose prefix starts the path; none is chosen exactly when no prefix does |
| ProxyHandler.SelectRoute | internal/proxy/proxy.go:39-48 | the loop that overwrites target, prefix and skipLogging on every match ends with the last match's values |
| ProxyHandler.RouteMeaning | internal/proxy/proxy.go:39-53 | the target is empty exactly when no rule matches or the last match has no target, and a non-empty target's prefix starts the path |
| ProxyHandler.Milliseconds | internal/proxy/proxy.go:102 | `Duration.Milliseconds` truncates toward zero |
| ProxyHandler.Relay | internal/proxy/proxy.go:88-100 | the upstream headers are appended and its status is written before the body is copied; a later copy error does not change the status; the client gets the delivered bytes alone after a clean copy or a broken pipe, and the delivered bytes followed by "error copying buffer: " and the error text after any other copy error |
| ProxyHandler.ProxyHandler.constructor | internal/proxy/proxy.go:25-27 | the handler holds the given service and configuration |
| ProxyHandler.ProxyHandler.ServeHTTP | internal/proxy/proxy.go:29-122 | the handler leaves the response, the request sent upstream, the rules and the queue as the exchange's specification says; the table and the other configuration fields do not change |
| ProxyHandler.ProxyHandler.ForwardRequest | internal/proxy/proxy.go:55-121 | once a route is found, the handler leaves the response, the request sent upstream and the queue as the exchange's specification says |
| ProxyHandler.ProxyHandler.Record | internal/proxy/proxy.go:104-121 | one record is queued unless the route skips logging |
| ProxyHandler.RelayResponse | internal/proxy/proxy.go:88-100 | copying the upstream response leaves the client as `Relay` says and returns the capture |
| ProxyHandler.HandleError | internal/proxy/proxy.go:124-128 | `handleError` writes the status, unless one was written, then the error text as far as the client takes it |
| ProxyHandler.MarkerFirst | internal/proxy/proxy.go:30 | every response, on every exit, carries `X-Proxy-Mini: true` first |
| ProxyHandler.StatusByExit | internal/proxy/proxy.go:33-94 | the status is 500 for a config error, 404 with no target, 500 for a body or upstream failure, else the upstream status |
| ProxyHandler.ConfigErrorStops | internal/proxy/proxy.go:33-37 | a config error sends nothing upstream, logs nothing, keeps the rules and writes "error getting config: " and the error |
| ProxyHandler.NoRouteAnswer | internal/proxy/proxy.go:50-53 | without a target the body is "no matching proxy found for URL: " and the client's full URL, and nothing is sent or logged |
| ProxyHandler.LoggedEntry | internal/proxy/proxy.go:102-121 | a record is queued exactly for a forwarded request whose rule does not skip logging, carrying method, full URL, target URL, both headers, request body, status, capture and time, with a non-negative duration |
| ProxyHandler.WholeResponse | internal/proxy/proxy.go:88-100 | a clean upstream body reaches the client whole after the marker and the upstream headers, and the record captures exactly that body |
| AppBuild.Build | internal/app/build.go:26-74 | a nil configuration is an error; otherwise the server listens on the configured port and mounts exactly `/app` (redirect), `/app/` (web UI files), `/api/logs` and `/` (the proxy); it always migrates first, and registers the retention scheduler exactly when retention is positive |
| AppBuild.RunRetentionScheduler | internal/app/build.go:76-91 | after the events, the table is what the ticks' deletes leave and the log holds one line per failed delete, up to the cancellation |
| AppBuild.TickRound | internal/app/build.go:84-88 | one tick leaves exactly the rows at or after now minus the retention, or the table unchanged when the delete fails, and then logs that error and nothing else |
| AppBuild.RetainedIsOneDelete | internal/app/build.go:80-90 | the whole run acts as a single delete at the highest threshold that succeeded before the cancellation |
| AppBuild.CancelStops | internal/app/build.go:82-83 | events after the cancellation change neither the table nor the log |
| WebUi.EscapeHtmlIsEscaped | webui/src/lib/utils.ts:3-10 | the chain of `replaceAll` calls, with `&` first, escapes each character once, as its own entity |
| WebUi.EscapeHtmlSafe | webui/src/lib/utils.ts:3-10 | the escaped text holds no raw `<`, `>`, `"` or `'`, every `&` in it begins one of the five entities, and unescaping it gives the text back |
| WebUi.EscapeRegExpRoundTrip | webui/src/lib/utils.ts:12-14 | removing the added backslashes gives the text back, and the text is unchanged exactly when it holds no special character |
| WebUi.StatusClassOf | webui/src/lib/utils.ts:44-58 | statuses in [200, 600) map to their hundreds digit followed by "xx", everything else to "unknown" |
| WebUi.TrimShape | webui/src/lib/utils.ts:61 | `trim` removes JavaScript white space only at both ends, and gives "" exactly for blank input |
| WebUi.NormalizeMethodShape | webui/src/lib/utils.ts:60-63 | the result is the trimmed upper-cased method, or "UNKNOWN" when that is empty; it is never empty and has no lower-case letter |
| WebUi.NormalizeMethodIdempotent | webui/src/lib/utils.ts:60-63 | normalising a normalised method changes nothing |
| WebUi.ToHeaderEntries | webui/src/lib/utils.ts:69-80 | falsy and non-object values give no rows; otherwise each entry gives one row, arrays joined by ", " and null or undefined shown as "" |
| WebUi.HeaderRows | webui/src/lib/utils.ts:69-80 | a stored header map shows one row per name, with its values joined by ", " |
| WebUi.PrettyBody | webui/src/lib/utils.ts:82-93 | the body counts as JSON exactly when it is non-empty and parses to a non-null value; otherwise it is shown unchanged |
| WebUi.SearchBlobHoldsFields | webui/src/lib/utils.ts:95-109 | each of the nine fields, lower-cased, occurs in the search blob, and the blob is lower-case |
| WebUi.DedupeByID | webui/src/lib/utils.ts:126-139 | the loop with the `seen` set gives the first occurrence of each id |
| WebUi.DedupeDistinct | webui/src/lib/utils.ts:126-139 | the kept logs have pairwise distinct ids |
| WebUi.DedupeCovers | webui/src/lib/utils.ts:126-139 | every input id is kept |
| WebUi.DedupeKeepsFirst | webui/src/lib/utils.ts:126-139 | the result is the subsequence of the first occurrences, in input order |

## Left out

- Network and HTTP machinery: the upstream call, `http.NewRequest` and the client are parameters. Go's canonical header-key spelling and the difference between a nil and an empty value list are not modelled.
- The `panic` Go raises for an invalid `WriteHeader` code and 1xx interim responses: statuses are taken as valid codes.
- Go strings and byte slices are modelled as sequences of Unicode scalar values, that is as valid UTF-8 text. Chunk sizes and write counts count characters, not bytes. Text that is not valid UTF-8 is not modelled.
- HeaderJson.DecodeEncode: holds for header names and values that are valid UTF-8 only. `json.Marshal` rewrites each invalid byte as U+FFFD, so in Go a value such as `caf\xe9` does not decode back to itself; that replacement is not modelled.
- RequestLogs.NewReadsBack: the stored headers decode back only for valid UTF-8 header text, for the same reason as for `HeaderJson.DecodeEncode`.
- `ProxyHandler.ProxyHandler.ServeHTTP`: assumes no upstream read returns more than the 32 KiB buffer holds, which a Go reader cannot do.
- `errors.Is(err, syscall.EPIPE)` is a flag carried by each I/O error; how the operating system reports a closed connection is not modelled.
- The unused `written` counter of `CopyBuffer` is not modelled.
- Concurrency: the writer goroutine, the blocking of the unbuffered channel and the ticker's one-hour period are not modelled. The queue is drained explicitly, and ticks are events that carry the time read after them.
- SQLite is modelled through its effects only. The order among rows with equal times is whatever the sort gives. The only scan failure is a NULL text column. Every `INSERT` and `DELETE` can fail through an explicit fault parameter. The `SELECT` can fail through a query-error parameter, and stepping through its rows through a step-fault parameter (see "## Findings").
- The TOML decoder and `os.ReadFile` are a map from paths to decoded files or errors. TOML key case-insensitivity and type errors are inside that oracle.
- `AppBuild.TickRound`: the threshold is computed on unbounded integers; the int64 wrap-around of `now - retention` for absurd retentions is not modelled.
- `RequestLogs.New`: `json.Marshal` errors are impossible for a header map and are not modelled. `uuid.NewString` is the v4 formatting of 16 given random bytes.
- Upper- and lower-casing in the web UI cover ASCII letters only. JavaScript's full Unicode case mapping, including the length-changing ones, is not modelled.
- `WebUi.PrettyBody`: `JSON.parse` and `JSON.stringify` are parameters. Their own behaviour, and the two-space indentation, are not modelled.
- `WebUi.ToHeaderEntries`: JavaScript numbers are integers here. `Object.entries` gives the fields in their stored order, not the integer-keys-first order.
- `highlightText`, `formatTimestamp`, `normalizeText` beyond lower-casing, and `enrichLog` are presentation code and are not modelled.
- internal/handlers/*, internal/services/*, internal/requestlog/handler.go, internal/db/db.go, cmd/proxymini/main.go and the embedded assets are outside the core. They are older copies, HTTP wrappers, schema text or process wiring.

## Findings

| source | as written | input that shows it | evidently intended | confidence | as-written member | corrected member |
|---|---|---|---|---|---|---|
| internal/requestlog/service.go:35-46 | `GetList` loops `for rows.Next()` and returns `res, nil` without checking `rows.Err()`, so a database error while stepping ends the loop and the rows read so far are returned as a complete, successful list | a table with one row, and a `rows.Next` that fails (e.g. "database is locked") before delivering it: `GetList` returns an empty list and a nil error | check `rows.Err()` after the loop and return its error, so that a successful list holds every row; `LogService.ListRowsChecked` is that definition, `LogService.ListRows` the one as written | medium, not executed | LogService.ListRowsDropsStepError | LogService.ListRowsCheckedComplete |
