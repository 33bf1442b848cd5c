/** The parts of `http.ResponseWriter` the proxy uses: a header map, a status
    line that is written once, the body bytes the client has received and the
    flushes. Whether each `Write` reaches the client is a script of outcomes
    (the network), consumed one per call; once the script is exhausted every
    write succeeds in full. */
module HttpResponse {
  import opened Wrappers
  import opened Headers

  /** An I/O error; `epipe` says whether `errors.Is(err, syscall.EPIPE)`. */
  datatype IoError = IoError(msg: string, epipe: bool)

  /** How the client side takes one `Write`: at most `accepted` bytes, and an
      error or none. */
  datatype WriteStep = WriteStep(accepted: nat, err: Option<IoError>)

  function Min(a: nat, b: nat): nat
  {
    if a < b then a else b
  }

  /** The outcome of writing `p` against `script`: bytes taken, the error, and
      the script left over. */
  function WriteOutcome(script: seq<WriteStep>, p: string): (r: (nat, Option<IoError>, seq<WriteStep>))
    ensures r.0 <= |p|
    ensures script == [] ==> r == (|p|, None, [])
    ensures script != [] ==> r == (Min(script[0].accepted, |p|), script[0].err, script[1..])
  {
    if script == [] then (|p|, None, [])
    else (Min(script[0].accepted, |p|), script[0].err, script[1..])
  }

  /** Everything about a response writer that the client can observe, plus
      the script of write outcomes still to come. */
  datatype WriterState = WriterState(header: Header, status: int, body: string, flushes: nat, script: seq<WriteStep>)

  /** The codes `WriteHeader` accepts; it panics on any other. */
  predicate ValidStatus(code: int)
  {
    100 <= code <= 999
  }

  class ResponseWriter {
    var header: Header
    /** 0 until the status line is written. */
    var status: int
    var body: string
    var flushes: nat
    var script: seq<WriteStep>

    function State(): WriterState
      reads this
    {
      WriterState(header, status, body, flushes, script)
    }

    constructor(script: seq<WriteStep>)
      ensures header == map[] && status == 0 && body == [] && flushes == 0
      ensures this.script == script
    {
      header := map[];
      status := 0;
      body := [];
      flushes := 0;
      this.script := script;
    }

    /** `Header().Set(k, v)`. */
    method SetHeader(k: string, v: string)
      modifies this
      ensures header == SetValue(old(header), k, v)
      ensures Values(header, k) == [v]
      ensures status == old(status) && body == old(body) && flushes == old(flushes) && script == old(script)
    {
      header := SetValue(header, k, v);
    }

    /** `for hn, hvs := range src { for _, hv := range hvs { Header().Add(hn, hv) } }`. */
    method AddHeaders(src: Header)
      modifies this
      ensures header == Merged(old(header), src)
      ensures status == old(status) && body == old(body) && flushes == old(flushes) && script == old(script)
    {
      header := AddAll(header, src);
    }

    /** `WriteHeader(code)`: only the first call sets the status. */
    method WriteHeader(code: int)
      requires ValidStatus(code)
      modifies this
      ensures status == (if old(status) == 0 then code else old(status))
      ensures header == old(header) && body == old(body) && flushes == old(flushes) && script == old(script)
    {
      if status == 0 {
        status := code;
      }
    }

    /** `Write(p)`: an unwritten status becomes 200; the client receives the
        first `n` bytes of `p`. */
    method Write(p: string) returns (n: nat, err: Option<IoError>)
      modifies this
      ensures (n, err, script) == WriteOutcome(old(script), p)
      ensures n <= |p| && body == old(body) + p[..n]
      ensures status == (if old(status) == 0 then 200 else old(status))
      ensures header == old(header) && flushes == old(flushes)
    {
      if status == 0 {
        status := 200;
      }
      var outcome := WriteOutcome(script, p);
      n := outcome.0;
      err := outcome.1;
      script := outcome.2;
      body := body + p[..n];
    }

    /** `http.NewResponseController(w).Flush()`: sends what is buffered,
        writing a 200 status line first if none was written. */
    method Flush()
      modifies this
      ensures flushes == old(flushes) + 1
      ensures status == (if old(status) == 0 then 200 else old(status))
      ensures header == old(header) && body == old(body) && script == old(script)
    {
      if status == 0 {
        status := 200;
      }
      flushes := flushes + 1;
    }
  }
}
