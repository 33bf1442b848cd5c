/** `CopyBuffer`: streams a reader into the client, chunk by chunk, and keeps
    a copy of every byte read. The reader is a script of `Read` results; past
    its end it reads as end of stream. */
module Utils {
  import opened Wrappers
  import opened HttpResponse

  datatype ReadErr = NoErr | Eof | Canceled | Failed(e: IoError)

  /** One `Read`: the bytes placed in the buffer and the error returned with
      them. */
  datatype ReadStep = ReadStep(data: string, err: ReadErr)

  datatype CopyError = ReadFailed(e: IoError) | CopyCanceled | WriteFailed(e: IoError) | ShortWrite

  /** The error text `CopyBuffer` returns. */
  function ErrorText(e: CopyError): string
  {
    match e
    case ReadFailed(io) => io.msg
    case CopyCanceled => "context canceled"
    case WriteFailed(io) => io.msg
    case ShortWrite => "short write"
  }

  /** `errors.Is(err, syscall.EPIPE)`. */
  predicate IsEpipe(e: CopyError)
  {
    (e.ReadFailed? || e.WriteFailed?) && e.e.epipe
  }

  const DefaultBufferSize: nat := 32 * 1024

  function BufferSize(len: nat): nat
  {
    if len == 0 then DefaultBufferSize else len
  }

  /** An `io.Reader` never returns more bytes than the buffer holds. */
  predicate FitsBuffer(input: seq<ReadStep>, size: nat)
  {
    forall i :: 0 <= i < |input| ==> |input[i].data| <= size
  }

  /** The result of the `k`-th read. */
  function ReadAt(input: seq<ReadStep>, k: nat): ReadStep
  {
    if k < |input| then input[k] else ReadStep([], Eof)
  }

  /** What a whole `CopyBuffer` call does: the bytes captured, the bytes the
      client received, the flushes, how many reads and writes it made, and the
      error it returns. */
  datatype Outcome = Outcome(captured: string, delivered: string, flushes: nat,
                             readsUsed: nat, writesUsed: nat, err: Option<CopyError>)

  /** One turn of the loop: it either returns, or goes on after passing
      `data` through with `w` writes, leaving `script` to the client. */
  datatype Turn = Stop(o: Outcome) | Go(data: string, w: nat, script: seq<WriteStep>)

  function TurnOf(step: ReadStep, script: seq<WriteStep>): (t: Turn)
    ensures t.Go? ==> step.err == NoErr && t.data == step.data
    ensures t.Go? ==> t.w == (if step.data != [] then 1 else 0)
    ensures t.Stop? ==> t.o.flushes == 0 && t.o.readsUsed == 1
  {
    var data := step.data;
    var (nw, werr, rest) := WriteOutcome(script, data);
    if step.err.Failed? then Stop(Outcome([], [], 0, 1, 0, Some(ReadFailed(step.err.e))))
    else if data != [] && werr.Some? then Stop(Outcome(data, data[..nw], 0, 1, 1, Some(WriteFailed(werr.value))))
    else if data != [] && nw != |data| then Stop(Outcome(data, data[..nw], 0, 1, 1, Some(ShortWrite)))
    else
      var w := if data != [] then 1 else 0;
      if step.err == Eof then Stop(Outcome(data, data, 0, 1, w, None))
      else if step.err == Canceled then Stop(Outcome(data, data, 0, 1, w, Some(CopyCanceled)))
      else Go(data, w, if data != [] then rest else script)
  }

  /** The copy from the `k`-th read on. */
  function CopyFrom(input: seq<ReadStep>, k: nat, script: seq<WriteStep>): (o: Outcome)
    ensures o.flushes + 1 == o.readsUsed
    ensures k <= |input| ==> k + o.readsUsed <= |input| + 1
    decreases |input| - k
  {
    match TurnOf(ReadAt(input, k), script)
    case Stop(o) => o
    case Go(data, w, script') =>
      var r := CopyFrom(input, k + 1, script');
      Outcome(data + r.captured, data + r.delivered, r.flushes + 1, r.readsUsed + 1, w + r.writesUsed, r.err)
  }

  function Copy(input: seq<ReadStep>, script: seq<WriteStep>): Outcome
  {
    CopyFrom(input, 0, script)
  }

  /** The outcome of the remaining reads, after `n` reads and `w` writes that
      captured and delivered `prefix`. */
  function After(prefix: string, n: nat, w: nat, r: Outcome): Outcome
  {
    Outcome(prefix + r.captured, prefix + r.delivered, n + r.flushes, n + r.readsUsed, w + r.writesUsed, r.err)
  }

  function Drop<T>(s: seq<T>, n: nat): seq<T>
  {
    if n <= |s| then s[n..] else []
  }

  /** What a copy with outcome `o` does to a response writer: a status line
      of 200 if any write or flush happened before one was written, the
      delivered bytes after the body, the flushes, and the write outcomes
      used up. The header is left alone. */
  function Apply(w: WriterState, o: Outcome): WriterState
  {
    w.(status := if w.status == 0 && (o.writesUsed > 0 || o.flushes > 0) then 200 else w.status,
       body := w.body + o.delivered,
       flushes := w.flushes + o.flushes,
       script := Drop(w.script, o.writesUsed))
  }

  /** `n` reads that passed `data` through whole with `w` writes and flushed
      after each. */
  function Passed(data: string, n: nat, w: nat): Outcome
  {
    Outcome(data, data, n, n, w, None)
  }

  /** `CopyBuffer(dst, src, buf)`. An empty `buf` is replaced by a 32 KiB one. */
  method CopyBuffer(dst: ResponseWriter, src: seq<ReadStep>, buf: array<char>)
    returns (captured: string, err: Option<CopyError>)
    requires FitsBuffer(src, BufferSize(buf.Length))
    modifies dst, buf
    ensures var o := Copy(src, old(dst.script));
      && captured == o.captured && err == o.err
      && dst.State() == Apply(old(dst.State()), o)
  {
    var b := buf;
    if b.Length == 0 {
      b := new char[32 * 1024];
    }
    ghost var w0 := dst.State();
    ghost var wu: nat := 0;
    ghost var total := Copy(src, dst.script);
    captured := [];
    var i := 0;
    assert After(captured, i, wu, CopyFrom(src, i, dst.script)) == total;
    assert Apply(w0, Passed(captured, i, wu)) == w0;
    while true
      invariant b.Length == BufferSize(buf.Length)
      invariant Copying(src, total, w0, i, captured, wu, dst.State())
      decreases |src| - i
    {
      var stop, e;
      captured, stop, e, wu := Round(dst, b, src, total, w0, i, captured, wu);
      if stop {
        return captured, e;
      }
      i := i + 1;
    }
  }

  /** The loop invariant of `CopyBuffer` after `i` reads that captured
      `captured` and made `wu` writes: the rest of the copy completes `total`,
      and the writer shows exactly the reads so far. */
  ghost predicate Copying(src: seq<ReadStep>, total: Outcome, w0: WriterState,
                          i: nat, captured: string, wu: nat, st: WriterState)
  {
    && i <= |src|
    && total == After(captured, i, wu, CopyFrom(src, i, st.script))
    && st == Apply(w0, Passed(captured, i, wu))
  }

  /** One iteration of the loop of `CopyBuffer`. */
  method Round(dst: ResponseWriter, b: array<char>, src: seq<ReadStep>, ghost total: Outcome,
               ghost w0: WriterState, i: nat, captured: string, ghost wu: nat)
    returns (captured': string, stop: bool, err: Option<CopyError>, ghost wu': nat)
    requires FitsBuffer(src, b.Length)
    requires Copying(src, total, w0, i, captured, wu, dst.State())
    modifies dst, b
    ensures stop ==> captured' == total.captured && err == total.err && dst.State() == Apply(w0, total)
    ensures !stop ==> i < |src| && Copying(src, total, w0, i + 1, captured', wu', dst.State())
  {
    ghost var sc := dst.script;
    var step := ReadAt(src, i);
    ghost var turn := TurnOf(step, sc);
    var chunk;
    chunk, stop, err := Pass(dst, b, step);
    captured' := captured + chunk;
    wu' := wu;
    if stop {
      ApplyAfter(w0, captured, i, wu, turn.o);
      Finish(src, total, i, wu, captured, sc, turn.o);
    } else {
      ApplyAfter(w0, captured, i, wu, Passed(chunk, 1, turn.w));
      Continue(src, total, i, wu, captured, sc);
      assert After(captured, i, wu, Passed(chunk, 1, turn.w)) == Passed(captured', i + 1, wu + turn.w);
      wu' := wu + turn.w;
    }
  }

  /** One pass of the loop body: read into `buf`, write and capture what was
      read, and return or flush. */
  method Pass(dst: ResponseWriter, b: array<char>, step: ReadStep)
    returns (chunk: string, stop: bool, err: Option<CopyError>)
    requires |step.data| <= b.Length
    modifies dst, b
    ensures var t := TurnOf(step, old(dst.script));
      && stop == t.Stop?
      && (t.Stop? ==> chunk == t.o.captured && err == t.o.err && dst.State() == Apply(old(dst.State()), t.o))
      && (t.Go? ==> chunk == t.data && dst.script == t.script
                    && dst.State() == Apply(old(dst.State()), Passed(t.data, 1, t.w)))
  {
    // src.Read(buf)
    var nr := Fill(b, step.data);
    var rerr := step.err;
    if rerr.Failed? {
      return [], true, Some(ReadFailed(rerr.e));
    }
    chunk := [];
    if nr > 0 {
      chunk := b[..nr];
      var nw, werr := dst.Write(chunk);
      if werr.Some? {
        return chunk, true, Some(WriteFailed(werr.value));
      }
      if nr != nw {
        return chunk, true, Some(ShortWrite);
      }
    }
    if rerr != NoErr {
      if rerr == Eof {
        return chunk, true, None;
      }
      return chunk, true, Some(CopyCanceled);
    }
    dst.Flush();
    return chunk, false, None;
  }

  /** The bytes a `Read` places at the front of the buffer. */
  method Fill(b: array<char>, data: string) returns (n: nat)
    requires |data| <= b.Length
    modifies b
    ensures n == |data| && b[..n] == data
  {
    n := |data|;
    forall k | 0 <= k < n {
      b[k] := data[k];
    }
  }

  /** Applying a clean prefix and then the rest is applying the whole. */
  lemma ApplyAfter(w: WriterState, prefix: string, n: nat, x: nat, r: Outcome)
    ensures Apply(Apply(w, Passed(prefix, n, x)), r) == Apply(w, After(prefix, n, x, r))
  {
    assert (w.body + prefix) + r.delivered == w.body + (prefix + r.delivered);
  }

  /** A turn that returns ends the whole copy with its outcome. */
  lemma Finish(src: seq<ReadStep>, total: Outcome, i: nat, wu: nat, before: string,
               sc: seq<WriteStep>, o: Outcome)
    requires total == After(before, i, wu, CopyFrom(src, i, sc))
    requires TurnOf(ReadAt(src, i), sc) == Stop(o)
    ensures total == After(before, i, wu, o)
  {
  }

  /** A turn that goes on moves its chunk from the rest to the prefix. */
  lemma Continue(src: seq<ReadStep>, total: Outcome, i: nat, wu: nat, before: string,
                 sc: seq<WriteStep>)
    requires total == After(before, i, wu, CopyFrom(src, i, sc))
    requires TurnOf(ReadAt(src, i), sc).Go?
    ensures i < |src|
    ensures var t := TurnOf(ReadAt(src, i), sc);
      total == After(before + t.data, i + 1, wu + t.w, CopyFrom(src, i + 1, t.script))
  {
    var t := TurnOf(ReadAt(src, i), sc);
    var r := CopyFrom(src, i + 1, t.script);
    assert before + (t.data + r.captured) == (before + t.data) + r.captured;
    assert before + (t.data + r.delivered) == (before + t.data) + r.delivered;
  }

  // ---------------------------------------------------------------------------
  // What the copy promises, over every reader and every client.

  /** The bytes of `n` reads from the `k`-th on. */
  function Chunks(input: seq<ReadStep>, k: nat, n: nat): string
    decreases n
  {
    if n == 0 then [] else ReadAt(input, k).data + Chunks(input, k + 1, n - 1)
  }

  /** The client receives a prefix of the capture, and all of it unless a
      write failed or fell short. */
  lemma {:induction false} CopyDelivers(input: seq<ReadStep>, k: nat, script: seq<WriteStep>)
    ensures var o := CopyFrom(input, k, script);
      && |o.delivered| <= |o.captured| && o.captured[..|o.delivered|] == o.delivered
      && (o.err.None? || o.err == Some(CopyCanceled) || o.err.value.ReadFailed? ==> o.delivered == o.captured)
    decreases |input| - k
  {
    match TurnOf(ReadAt(input, k), script)
    case Stop(o) =>
    case Go(data, w, script') =>
      CopyDelivers(input, k + 1, script');
      var r := CopyFrom(input, k + 1, script');
      assert (data + r.captured)[..|data + r.delivered|] == data + r.captured[..|r.delivered|];
  }

  /** The capture is every chunk read, in order, including one whose write
      failed, and leaving out only the bytes of a read that failed. */
  lemma {:induction false} CopyCaptures(input: seq<ReadStep>, k: nat, script: seq<WriteStep>)
    ensures var o := CopyFrom(input, k, script);
      o.captured == Chunks(input, k, if o.err.Some? && o.err.value.ReadFailed? then o.readsUsed - 1 else o.readsUsed)
    decreases |input| - k
  {
    match TurnOf(ReadAt(input, k), script)
    case Stop(o) =>
      assert Chunks(input, k + 1, 0) == [];
    case Go(data, w, script') =>
      CopyCaptures(input, k + 1, script');
  }

  /** A client that takes every write whole, with no error. */
  predicate Accepting(script: seq<WriteStep>, size: nat)
  {
    forall i :: 0 <= i < |script| ==> script[i].err.None? && script[i].accepted >= size
  }

  /** A stream that ends in EOF, copied to a client that takes every write,
      reaches the client whole and is captured whole, with no error. */
  lemma {:induction false} CopyWholeStream(input: seq<ReadStep>, k: nat, script: seq<WriteStep>, size: nat)
    requires FitsBuffer(input, size) && Accepting(script, size)
    requires forall i :: 0 <= i < |input| ==> input[i].err == NoErr || (input[i].err == Eof && i == |input| - 1)
    ensures var o := CopyFrom(input, k, script);
      o.err == None && o.captured == o.delivered == Chunks(input, k, o.readsUsed)
      && (k <= |input| ==> Chunks(input, k, o.readsUsed) == Chunks(input, k, |input| - k))
    decreases |input| - k
  {
    match TurnOf(ReadAt(input, k), script)
    case Stop(o) =>
      if k < |input| {
        assert k == |input| - 1;
        assert Chunks(input, k + 1, 0) == [];
      }
    case Go(data, w, script') =>
      assert Accepting(script', size);
      CopyWholeStream(input, k + 1, script', size);
  }

  /** A write error ends the copy at once: the failing write is the last one
      made, it carried the bytes of the last read, and nothing after that read
      is read. */
  lemma {:induction false} CopyWriteError(input: seq<ReadStep>, k: nat, script: seq<WriteStep>)
    ensures var o := CopyFrom(input, k, script);
      o.err.Some? && o.err.value.WriteFailed? ==>
        && 1 <= o.writesUsed <= |script| && script[o.writesUsed - 1].err == Some(o.err.value.e)
        && k + o.readsUsed <= |input| && input[k + o.readsUsed - 1].data != []
    decreases |input| - k
  {
    match TurnOf(ReadAt(input, k), script)
    case Stop(o) =>
    case Go(data, w, script') =>
      CopyWriteError(input, k + 1, script');
  }

  /** A write that takes fewer bytes than the chunk, without an error, ends
      the copy with `io.ErrShortWrite`. */
  lemma {:induction false} CopyShortWrite(input: seq<ReadStep>, k: nat, script: seq<WriteStep>)
    ensures var o := CopyFrom(input, k, script);
      o.err == Some(ShortWrite) ==>
        && 1 <= o.writesUsed <= |script| && script[o.writesUsed - 1].err.None?
        && k + o.readsUsed <= |input|
        && script[o.writesUsed - 1].accepted < |input[k + o.readsUsed - 1].data|
    decreases |input| - k
  {
    match TurnOf(ReadAt(input, k), script)
    case Stop(o) =>
    case Go(data, w, script') =>
      CopyShortWrite(input, k + 1, script');
  }

  /** A read error other than EOF and cancellation is returned by the read
      that produced it, before its bytes are written or captured;
      cancellation is returned only after its bytes are written. */
  lemma {:induction false} CopyReadErrors(input: seq<ReadStep>, k: nat, script: seq<WriteStep>)
    ensures var o := CopyFrom(input, k, script);
      && (o.err.Some? && o.err.value.ReadFailed? ==>
            k + o.readsUsed <= |input| && input[k + o.readsUsed - 1].err == Failed(o.err.value.e))
      && (o.err == Some(CopyCanceled) ==>
            k + o.readsUsed <= |input| && input[k + o.readsUsed - 1].err == Canceled)
    decreases |input| - k
  {
    match TurnOf(ReadAt(input, k), script)
    case Stop(o) =>
    case Go(data, w, script') =>
      CopyReadErrors(input, k + 1, script');
  }
}
