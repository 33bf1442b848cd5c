/** The request-log store: a `request_log` table and the single writer that
    drains a queue of entries into it, one insert each, in arrival order. The
    database is a sequence of rows; SQL statements become functions on it. */
module LogService {
  import opened Wrappers
  import opened RequestLogs

  // ---------------------------------------------------------------------------
  // Rows of `request_log`. The TEXT columns other than the key may hold NULL.

  datatype Row = Row(
    id: string,
    time: int,
    elapsedMS: int,
    verb: Option<string>,
    proxyURL: Option<string>,
    url: Option<string>,
    requestHeaders: Option<string>,
    requestBody: Option<string>,
    status: int,
    responseHeaders: Option<string>,
    responseBody: Option<string>)

  /** The row `save` binds: every field of the entry, in column order. */
  function ToRow(rl: RequestLog): Row
  {
    Row(rl.id, rl.time, rl.elapsedMS, Some(rl.verb), Some(rl.proxyURL), Some(rl.url),
        Some(rl.requestHeaders), Some(rl.requestBody), rl.status,
        Some(rl.responseHeaders), Some(rl.responseBody))
  }

  /** `StructScan` into a `RequestLog`: a NULL in a column scanned into a Go
      string is an error. */
  function Scan(row: Row): (r: Option<RequestLog>)
    ensures r.Some? <==> Scannable(row)
  {
    if Scannable(row) then
      Some(RequestLog(row.id, row.time, row.elapsedMS, row.verb.value, row.proxyURL.value,
                      row.url.value, row.requestHeaders.value, row.requestBody.value,
                      row.status, row.responseHeaders.value, row.responseBody.value))
    else None
  }

  predicate Scannable(row: Row)
  {
    row.verb.Some? && row.proxyURL.Some? && row.url.Some? && row.requestHeaders.Some?
    && row.requestBody.Some? && row.responseHeaders.Some? && row.responseBody.Some?
  }

  /** What `save` stores, `GetList` reads back unchanged, and a row that scans
      is exactly the row of what it scans to. */
  lemma ScanRoundTrip(rl: RequestLog, row: Row)
    ensures Scan(ToRow(rl)) == Some(rl)
    ensures Scan(row) == Some(rl) ==> row == ToRow(rl)
  {
  }

  predicate HasId(table: seq<Row>, id: string)
  {
    exists i :: 0 <= i < |table| && table[i].id == id
  }

  predicate UniqueIds(table: seq<Row>)
  {
    forall i, j :: 0 <= i < j < |table| ==> table[i].id != table[j].id
  }

  /** The `INSERT` of `save`: a database error (`fault`) fails it, and so
      does a second row with an id already taken (the primary key); otherwise
      the row is added. */
  function Insert(table: seq<Row>, rl: RequestLog, fault: Option<string>): (r: Result<seq<Row>, string>)
    ensures r.Failure? <==> fault.Some? || HasId(table, rl.id)
    ensures r.Success? ==> r.value == table + [ToRow(rl)]
    ensures fault.Some? ==> r.error == fault.value
    ensures fault.None? && r.Failure? ==> r.error == DuplicateIdError
  {
    if fault.Some? then Failure(fault.value)
    else if HasId(table, rl.id) then Failure(DuplicateIdError)
    else Success(table + [ToRow(rl)])
  }

  const DuplicateIdError := "UNIQUE constraint failed: request_log.id"

  lemma InsertKeepsUnique(table: seq<Row>, rl: RequestLog, fault: Option<string>)
    requires UniqueIds(table)
    ensures Insert(table, rl, fault).Success? ==> UniqueIds(Insert(table, rl, fault).value)
  {
  }

  /** The database error of the `i`-th queued insert, if any; inserts past
      the end of `faults` succeed as far as the database goes. */
  function FaultAt(faults: seq<Option<string>>, i: int): Option<string>
  {
    if 0 <= i < |faults| then faults[i] else None
  }

  predicate NoFaults(faults: seq<Option<string>>, n: int)
  {
    forall i :: 0 <= i < n ==> FaultAt(faults, i).None?
  }

  /** The writer loop over a run of queued entries, the `i`-th meeting the
      database error `FaultAt(faults, i)`: the table after inserting them in
      order, and the entries whose insert failed (which are logged and
      skipped). */
  function InsertAll(table: seq<Row>, entries: seq<RequestLog>, faults: seq<Option<string>>)
    : (seq<Row>, seq<RequestLog>)
  {
    if entries == [] then (table, [])
    else
      var (t, failed) := InsertAll(table, entries[..|entries| - 1], faults);
      var e := entries[|entries| - 1];
      match Insert(t, e, FaultAt(faults, |entries| - 1))
      case Success(t') => (t', failed)
      case Failure(_) => (t, failed + [e])
  }

  function Rows(entries: seq<RequestLog>): (r: seq<Row>)
    ensures |r| == |entries|
    ensures forall i :: 0 <= i < |entries| ==> r[i] == ToRow(entries[i])
  {
    if entries == [] then [] else Rows(entries[..|entries| - 1]) + [ToRow(entries[|entries| - 1])]
  }

  predicate FreshIds(table: seq<Row>, entries: seq<RequestLog>)
  {
    (forall i :: 0 <= i < |entries| ==> !HasId(table, entries[i].id))
    && forall i, j :: 0 <= i < j < |entries| ==> entries[i].id != entries[j].id
  }

  /** Entries with fresh, distinct ids whose inserts meet no database error
      are all stored, in queue order, after the rows already there, and none
      is reported. */
  lemma {:induction false} InsertAllFifo(table: seq<Row>, entries: seq<RequestLog>, faults: seq<Option<string>>)
    requires FreshIds(table, entries) && NoFaults(faults, |entries|)
    ensures InsertAll(table, entries, faults) == (table + Rows(entries), [])
  {
    if entries != [] {
      var init := entries[..|entries| - 1];
      var e := entries[|entries| - 1];
      InsertAllFifo(table, init, faults);
      var t := table + Rows(init);
      assert t + [ToRow(e)] == table + Rows(entries);
    } else {
      assert table + Rows(entries) == table;
    }
  }

  /** When every insert meets a database error, nothing is stored and every
      entry is reported, in queue order. */
  lemma {:induction false} InsertAllFaulted(table: seq<Row>, entries: seq<RequestLog>, faults: seq<Option<string>>)
    requires forall i :: 0 <= i < |entries| ==> FaultAt(faults, i).Some?
    ensures InsertAll(table, entries, faults) == (table, entries)
  {
    if entries != [] {
      var init := entries[..|entries| - 1];
      InsertAllFaulted(table, init, faults);
      assert init + [entries[|entries| - 1]] == entries;
    }
  }

  /** A failed insert does not stop the loop: every entry is either stored or
      reported, and the rows already there stay in front. */
  lemma {:induction false} InsertAllAccounts(table: seq<Row>, entries: seq<RequestLog>, faults: seq<Option<string>>)
    ensures var (t, failed) := InsertAll(table, entries, faults);
      && |table| <= |t| && |t| - |table| + |failed| == |entries|
      && t[..|table|] == table
  {
    if entries != [] {
      var init := entries[..|entries| - 1];
      InsertAllAccounts(table, init, faults);
      var (t, failed) := InsertAll(table, init, faults);
      match Insert(t, entries[|entries| - 1], FaultAt(faults, |entries| - 1))
      case Success(t') =>
        assert t'[..|table|] == table by { assert t'[..|t|] == t; }
      case Failure(_) =>
    }
  }

  /** Without database errors, an entry is reported only when its id was
      already taken. */
  lemma {:induction false} InsertAllDuplicates(table: seq<Row>, entries: seq<RequestLog>, faults: seq<Option<string>>)
    requires NoFaults(faults, |entries|)
    ensures var (t, failed) := InsertAll(table, entries, faults);
      forall i :: 0 <= i < |failed| ==> HasId(t, failed[i].id)
  {
    if entries != [] {
      var init := entries[..|entries| - 1];
      InsertAllDuplicates(table, init, faults);
      var t := InsertAll(table, init, faults).0;
      var failed := InsertAll(table, init, faults).1;
      assert NoFaults(faults, |init|);
      assert var (t0, f0) := InsertAll(table, init, faults);
        forall i :: 0 <= i < |f0| ==> HasId(t0, f0[i].id);
      assert forall i :: 0 <= i < |failed| ==> HasId(t, failed[i].id);
      assert FaultAt(faults, |entries| - 1) == None;
      match Insert(t, entries[|entries| - 1], None)
      case Success(t') =>
        forall i | 0 <= i < |failed|
          ensures HasId(t', failed[i].id)
        {
          assert HasId(t, failed[i].id);
          var k :| 0 <= k < |t| && t[k].id == failed[i].id;
          assert t'[k] == t[k];
        }
      case Failure(_) =>
    }
  }

  /** The primary key holds: ids in the table stay pairwise distinct. */
  lemma {:induction false} InsertAllUnique(table: seq<Row>, entries: seq<RequestLog>, faults: seq<Option<string>>)
    requires UniqueIds(table)
    ensures UniqueIds(InsertAll(table, entries, faults).0)
  {
    if entries != [] {
      var init := entries[..|entries| - 1];
      InsertAllUnique(table, init, faults);
      InsertKeepsUnique(InsertAll(table, init, faults).0, entries[|entries| - 1], FaultAt(faults, |entries| - 1));
    }
  }

  // ---------------------------------------------------------------------------
  // `SELECT * FROM request_log ORDER BY time DESC`. SQLite sorts; ties have no
  // order the query promises, and this one keeps them in table order.

  predicate SortedDesc(rows: seq<Row>)
  {
    forall i, j :: 0 <= i < j < |rows| ==> rows[i].time >= rows[j].time
  }

  function InsertDesc(x: Row, s: seq<Row>): (r: seq<Row>)
    ensures |r| == |s| + 1
    ensures multiset(r) == multiset(s) + multiset{x}
  {
    if s == [] || s[0].time <= x.time then [x] + s
    else
      assert s == [s[0]] + s[1..];
      [s[0]] + InsertDesc(x, s[1..])
  }

  lemma ConsSorted(a: Row, t: seq<Row>)
    requires SortedDesc(t) && (t != [] ==> a.time >= t[0].time)
    ensures SortedDesc([a] + t)
  {
    forall i, j | 0 <= i < j < |[a] + t|
      ensures ([a] + t)[i].time >= ([a] + t)[j].time
    {
      if i == 0 && j > 1 {
        assert t[0].time >= t[j - 1].time;
      }
    }
  }

  lemma {:induction false} InsertDescSorted(x: Row, s: seq<Row>)
    requires SortedDesc(s)
    ensures SortedDesc(InsertDesc(x, s))
    ensures InsertDesc(x, s)[0] == x || (s != [] && InsertDesc(x, s)[0] == s[0])
  {
    if s == [] || s[0].time <= x.time {
      ConsSorted(x, s);
    } else {
      var tail := InsertDesc(x, s[1..]);
      InsertDescSorted(x, s[1..]);
      if s[1..] != [] {
        assert s[0].time >= s[1].time;
      }
      ConsSorted(s[0], tail);
    }
  }

  function SortByTimeDesc(rows: seq<Row>): (r: seq<Row>)
    ensures multiset(r) == multiset(rows)
  {
    if rows == [] then []
    else
      assert rows == [rows[0]] + rows[1..];
      InsertDesc(rows[0], SortByTimeDesc(rows[1..]))
  }

  /** The query returns every row once, newest first. */
  lemma {:induction false} SortByTimeDescSorted(rows: seq<Row>)
    ensures SortedDesc(SortByTimeDesc(rows))
    ensures multiset(SortByTimeDesc(rows)) == multiset(rows)
  {
    if rows != [] {
      SortByTimeDescSorted(rows[1..]);
      InsertDescSorted(rows[0], SortByTimeDesc(rows[1..]));
    }
  }

  /** The row loop of `GetList`: all rows scan, or the whole read fails. */
  function ScanAll(rows: seq<Row>): (r: Option<seq<RequestLog>>)
    ensures r.Some? <==> forall i :: 0 <= i < |rows| ==> Scannable(rows[i])
    ensures r.Some? ==> |r.value| == |rows| && Rows(r.value) == rows
  {
    if rows == [] then Some([])
    else
      match (ScanAll(rows[..|rows| - 1]), Scan(rows[|rows| - 1]))
      case (Some(init), Some(rl)) =>
        assert rows == rows[..|rows| - 1] + [rows[|rows| - 1]];
        assert (init + [rl])[..|init|] == init;
        Some(init + [rl])
      case _ => None
  }

  /** Whether `rows.Next` meets a database error (busy, I/O) while stepping
      through `rows`: `stepFault` is the number of rows it delivers before the
      failing step, and the error's text. A failing step past the last row's
      successor is never taken. */
  predicate StepFails(rows: seq<Row>, stepFault: Option<(nat, string)>)
  {
    stepFault.Some? && stepFault.value.0 <= |rows|
  }

  /** The rows `rows.Next` delivers: all of them, or those before the step
      that fails. */
  function Stepped(rows: seq<Row>, stepFault: Option<(nat, string)>): (r: seq<Row>)
    ensures r <= rows
    ensures !StepFails(rows, stepFault) ==> r == rows
    ensures StepFails(rows, stepFault) ==> |r| == stepFault.value.0
  {
    if StepFails(rows, stepFault) then rows[..stepFault.value.0] else rows
  }

  /** The `rows.Next` / `rows.Scan` loop of `GetList`: it stops at the first
      row that does not scan, or quietly at the step that fails. */
  method ScanRows(rows: seq<Row>, stepFault: Option<(nat, string)>) returns (r: Option<seq<RequestLog>>)
    ensures r == ScanAll(Stepped(rows, stepFault))
  {
    // `rows.Next` returns false after the last row or at the failing step.
    var last := if stepFault.Some? && stepFault.value.0 <= |rows| then stepFault.value.0 else |rows|;
    assert Stepped(rows, stepFault) == rows[..last];
    r := ScanFirst(rows, last);
  }

  /** The loop over the first `last` rows, stopping at one that does not scan. */
  method ScanFirst(rows: seq<Row>, last: nat) returns (r: Option<seq<RequestLog>>)
    requires last <= |rows|
    ensures r == ScanAll(rows[..last])
  {
    var res: seq<RequestLog> := [];
    var i := 0;
    while i < last
      invariant 0 <= i <= last
      invariant ScanAll(rows[..i]) == Some(res)
    {
      var rl := Scan(rows[i]);
      if rl.None? {
        ScanAllStops(rows, i, last);
        return None;
      }
      assert rows[..i + 1][..i] == rows[..i];
      res := res + [rl.value];
      i := i + 1;
    }
    return Some(res);
  }

  /** A row that does not scan, before the last one stepped, fails the read. */
  lemma ScanAllStops(rows: seq<Row>, i: nat, last: nat)
    requires i < last <= |rows| && !Scannable(rows[i])
    ensures ScanAll(rows[..last]) == None
  {
    assert rows[..last][i] == rows[i];
  }

  // ---------------------------------------------------------------------------
  // `DELETE FROM request_log WHERE time < ?`.

  function KeepNewer(table: seq<Row>, cutoff: int): (r: seq<Row>)
    ensures |r| <= |table|
  {
    if table == [] then []
    else
      (if table[0].time >= cutoff then [table[0]] else []) + KeepNewer(table[1..], cutoff)
  }

  /** Exactly the rows stamped at or after the cutoff survive, untouched and
      in their order. */
  lemma {:induction false} KeepNewerExact(table: seq<Row>, cutoff: int)
    ensures forall row :: row in KeepNewer(table, cutoff) <==> row in table && row.time >= cutoff
    ensures (forall i :: 0 <= i < |table| ==> table[i].time >= cutoff) ==> KeepNewer(table, cutoff) == table
    ensures multiset(KeepNewer(table, cutoff)) <= multiset(table)
  {
    KeepNewerMembers(table, cutoff);
    KeepNewerKeepsAll(table, cutoff);
    KeepNewerSubset(table, cutoff);
  }

  lemma {:induction false} KeepNewerMembers(table: seq<Row>, cutoff: int)
    ensures forall row :: row in KeepNewer(table, cutoff) <==> row in table && row.time >= cutoff
  {
    if table != [] {
      KeepNewerMembers(table[1..], cutoff);
      assert table == [table[0]] + table[1..];
    }
  }

  lemma {:induction false} KeepNewerKeepsAll(table: seq<Row>, cutoff: int)
    ensures (forall i :: 0 <= i < |table| ==> table[i].time >= cutoff) ==> KeepNewer(table, cutoff) == table
  {
    if table != [] {
      KeepNewerKeepsAll(table[1..], cutoff);
      assert table == [table[0]] + table[1..];
    }
  }

  lemma {:induction false} KeepNewerSubset(table: seq<Row>, cutoff: int)
    ensures multiset(KeepNewer(table, cutoff)) <= multiset(table)
  {
    if table != [] {
      KeepNewerSubset(table[1..], cutoff);
      assert table == [table[0]] + table[1..];
    }
  }

  /** Two sweeps are one sweep with the later cutoff. */
  lemma {:induction false} KeepNewerTwice(table: seq<Row>, a: int, b: int)
    ensures KeepNewer(KeepNewer(table, a), b) == KeepNewer(table, if a < b then b else a)
  {
    if table != [] {
      KeepNewerTwice(table[1..], a, b);
      var x := table[0];
      var rest := KeepNewer(table[1..], a);
      if x.time >= a {
        assert KeepNewer(table, a) == [x] + rest;
        assert ([x] + rest)[1..] == rest;
      } else {
        assert KeepNewer(table, a) == rest;
      }
    }
  }

  /** One more queued entry extends the writer loop by one insert. */
  lemma InsertAllStep(table: seq<Row>, q: seq<RequestLog>, faults: seq<Option<string>>, k: nat)
    requires k < |q|
    ensures var (t, failed) := InsertAll(table, q[..k], faults);
      InsertAll(table, q[..k + 1], faults) ==
        if FaultAt(faults, k).Some? || HasId(t, q[k].id) then (t, failed + [q[k]])
        else (t + [ToRow(q[k])], failed)
  {
    assert q[..k + 1][..k] == q[..k];
  }

  /** The sorted rows are the table's rows, and all of them scan exactly when
      all of the table's rows do. */
  lemma SortedRows(table: seq<Row>)
    ensures SortedDesc(SortByTimeDesc(table))
    ensures multiset(SortByTimeDesc(table)) == multiset(table)
    ensures (forall i :: 0 <= i < |table| ==> Scannable(table[i])) <==>
            (forall i :: 0 <= i < |SortByTimeDesc(table)| ==> Scannable(SortByTimeDesc(table)[i]))
  {
    var rows := SortByTimeDesc(table);
    SortByTimeDescSorted(table);
    forall i | 0 <= i < |rows|
      ensures rows[i] in table
    {
      assert rows[i] in multiset(rows);
    }
    forall i | 0 <= i < |table|
      ensures table[i] in rows
    {
      assert table[i] in multiset(table);
    }
  }

  /** `GetList` as written: after a successful query it returns the scanned
      rows `rows.Next` delivered, with a nil error even when stepping stopped
      on a database error. */
  function ListRows(table: seq<Row>, queryError: Option<string>, stepFault: Option<(nat, string)>)
    : (r: Result<seq<RequestLog>, string>)
    ensures queryError.Some? ==> r == Failure(queryError.value)
    ensures r.Success? ==> Rows(r.value) <= SortByTimeDesc(table)
    ensures r.Success? <==> queryError.None? && ScanAll(Stepped(SortByTimeDesc(table), stepFault)).Some?
  {
    if queryError.Some? then Failure(queryError.value)
    else match ScanAll(Stepped(SortByTimeDesc(table), stepFault))
      case None => Failure(NullScanError)
      case Some(res) => Success(res)
  }

  /** What a list from `GetList` means: sorted rows of the table, all of them
      when no step fails. */
  lemma ListRowsMeaning(table: seq<Row>, queryError: Option<string>, stepFault: Option<(nat, string)>)
    ensures var r := ListRows(table, queryError, stepFault);
      r.Success? ==> SortedDesc(Rows(r.value)) && multiset(Rows(r.value)) <= multiset(table)
    ensures var r := ListRows(table, queryError, stepFault);
      stepFault.None? ==>
        (r.Success? <==> queryError.None? && forall i :: 0 <= i < |table| ==> Scannable(table[i]))
    ensures var r := ListRows(table, queryError, stepFault);
      stepFault.None? && r.Success? ==> multiset(Rows(r.value)) == multiset(table)
  {
    var rows := SortByTimeDesc(table);
    SortedRows(table);
    var r := ListRows(table, queryError, stepFault);
    if r.Success? {
      PrefixOfSorted(rows, Rows(r.value));
    }
  }

  /** A prefix of rows sorted newest first is sorted, and holds some of them. */
  lemma PrefixOfSorted(rows: seq<Row>, p: seq<Row>)
    requires SortedDesc(rows) && p <= rows
    ensures SortedDesc(p) && multiset(p) <= multiset(rows)
  {
    assert rows == p + rows[|p|..];
    assert multiset(rows) == multiset(p) + multiset(rows[|p|..]);
  }

  /** The stepping error is lost: a table of one good row read with a step
      that fails at once lists no row, and reports success. */
  lemma ListRowsDropsStepError()
    ensures var table := [Row("a", 0, 0, Some(""), Some(""), Some(""), Some(""), Some(""), 200, Some(""), Some(""))];
      ListRows(table, None, Some((0, "database is locked"))) == Success([])
  {
    var table := [Row("a", 0, 0, Some(""), Some(""), Some(""), Some(""), Some(""), 200, Some(""), Some(""))];
    assert SortByTimeDesc(table) == table by {
      assert table[1..] == [];
    }
  }

  /** `GetList` with the `rows.Err()` check after the loop that the
      `database/sql` documentation asks for: a failed step is an error. */
  function ListRowsChecked(table: seq<Row>, queryError: Option<string>, stepFault: Option<(nat, string)>)
    : (r: Result<seq<RequestLog>, string>)
  {
    if queryError.Some? then Failure(queryError.value)
    else match ScanAll(Stepped(SortByTimeDesc(table), stepFault))
      case None => Failure(NullScanError)
      case Some(res) =>
        if StepFails(SortByTimeDesc(table), stepFault) then Failure(stepFault.value.1) else Success(res)
  }

  /** With the check, a successful list holds every row of the table, newest
      first, and a failed step is reported with its own text. */
  lemma ListRowsCheckedComplete(table: seq<Row>, queryError: Option<string>, stepFault: Option<(nat, string)>)
    ensures var r := ListRowsChecked(table, queryError, stepFault);
      r.Success? <==> queryError.None? && !StepFails(SortByTimeDesc(table), stepFault)
                      && forall i :: 0 <= i < |table| ==> Scannable(table[i])
    ensures var r := ListRowsChecked(table, queryError, stepFault);
      r.Success? ==> SortedDesc(Rows(r.value)) && multiset(Rows(r.value)) == multiset(table)
    ensures var r := ListRowsChecked(table, queryError, stepFault);
      (queryError.None? && StepFails(SortByTimeDesc(table), stepFault) &&
       ScanAll(Stepped(SortByTimeDesc(table), stepFault)).Some?) ==> r == Failure(stepFault.value.1)
  {
    SortedRows(table);
  }

  // ---------------------------------------------------------------------------

  /** `RequestLogService`: the table and the hand-off to the writer. The
      unbuffered channel is a queue; `Drain` is the writer goroutine's loop run
      until the queue is empty. `logged` holds the entries whose insert failed
      (each one a `log.Error` line). */
  class RequestLogService {
    var table: seq<Row>
    var queue: seq<RequestLog>
    var logged: seq<RequestLog>

    constructor(rows: seq<Row>)
      ensures table == rows && queue == [] && logged == []
    {
      table := rows;
      queue := [];
      logged := [];
    }

    /** `Save` hands the entry over and always reports success. */
    method Save(rl: RequestLog) returns (err: Option<string>)
      modifies this
      ensures err == None
      ensures queue == old(queue) + [rl]
      ensures table == old(table) && logged == old(logged)
    {
      queue := queue + [rl];
      err := None;
    }

    /** One turn of the writer loop: take the oldest entry and `save` it,
        meeting the database error `fault`, if any; a failed insert is logged
        and the entry dropped. */
    method WriteOne(fault: Option<string>)
      requires queue != []
      modifies this
      ensures queue == old(queue)[1..]
      ensures fault.None? && !HasId(old(table), old(queue)[0].id) ==>
                table == old(table) + [ToRow(old(queue)[0])] && logged == old(logged)
      ensures fault.Some? || HasId(old(table), old(queue)[0].id) ==>
                table == old(table) && logged == old(logged) + [old(queue)[0]]
    {
      var rl := queue[0];
      queue := queue[1..];
      var r := Insert(table, rl, fault);
      if r.Success? {
        table := r.value;
      } else {
        logged := logged + [rl];
      }
    }

    /** The writer loop until nothing is waiting; the `i`-th insert meets the
        database error `FaultAt(faults, i)`. */
    method Drain(faults: seq<Option<string>>)
      modifies this
      ensures queue == []
      ensures table == InsertAll(old(table), old(queue), faults).0
      ensures logged == old(logged) + InsertAll(old(table), old(queue), faults).1
    {
      ghost var q := queue;
      ghost var t0 := table;
      ghost var l0 := logged;
      var k := 0;
      while queue != []
        invariant 0 <= k <= |q| && queue == q[k..]
        invariant table == InsertAll(t0, q[..k], faults).0
        invariant logged == l0 + InsertAll(t0, q[..k], faults).1
        decreases |queue|
      {
        InsertAllStep(t0, q, faults, k);
        WriteOne(FaultAt(faults, k));
        assert q[k..][1..] == q[k + 1..];
        k := k + 1;
      }
      assert q[..k] == q;
    }

    /** `GetList`: the query's error, or a scan error if a row holds a NULL
        where a string is expected, or the rows newest first, as far as
        stepping through them succeeds: `rows.Err()` is never checked. */
    method GetList(queryError: Option<string>, stepFault: Option<(nat, string)>)
      returns (r: Result<seq<RequestLog>, string>)
      ensures r == ListRows(table, queryError, stepFault)
      ensures queryError.Some? ==> r == Failure(queryError.value)
      ensures r.Success? ==> SortedDesc(Rows(r.value)) && multiset(Rows(r.value)) <= multiset(table)
      ensures stepFault.None? ==>
        (r.Success? <==> queryError.None? && forall i :: 0 <= i < |table| ==> Scannable(table[i]))
      ensures stepFault.None? && r.Success? ==> multiset(Rows(r.value)) == multiset(table)
    {
      if queryError.Some? {
        return Failure(queryError.value);
      }
      var rows := SortByTimeDesc(table);
      ListRowsMeaning(table, queryError, stepFault);
      var scanned := ScanRows(rows, stepFault);
      if scanned.None? {
        return Failure(NullScanError);
      }
      return Success(scanned.value);
    }

    /** `DELETE FROM request_log`; the statement's error is a parameter. */
    method DeleteAll(fault: Option<string>) returns (err: Option<string>)
      modifies this
      ensures err == fault
      ensures table == (if fault.None? then [] else old(table))
      ensures queue == old(queue) && logged == old(logged)
    {
      if fault.None? {
        table := [];
      }
      err := fault;
    }

    /** `DELETE FROM request_log WHERE time < cutoff`. */
    method DeleteOlderThan(cutoff: int, fault: Option<string>) returns (err: Option<string>)
      modifies this
      ensures err == fault
      ensures table == (if fault.None? then KeepNewer(old(table), cutoff) else old(table))
      ensures queue == old(queue) && logged == old(logged)
    {
      if fault.None? {
        table := KeepNewer(table, cutoff);
      }
      err := fault;
    }
  }

  const NullScanError := "converting NULL to string is unsupported"
}
