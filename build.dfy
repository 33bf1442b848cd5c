/** Wiring of the application and the retention janitor. `Build` records what
    it registers (routes, start-up tasks, services) as values; the janitor
    runs over an explicit sequence of ticker ticks and a cancellation, each
    tick carrying the wall-clock time and whether the delete fails. */
module AppBuild {
  import opened Wrappers
  import opened AppConfig
  import opened LogService

  datatype Handler = RedirectToApp | AppFiles | LogsApi | ProxyAll

  datatype Mount = Mount(pattern: string, handler: Handler)

  /** Start-up tasks: the schema migration, which aborts the start on error,
      and the retention scheduler, which does not. */
  datatype StartupTask = Migrate | RetentionScheduler(retentionSeconds: int)

  function TaskName(t: StartupTask): string
  {
    match t
    case Migrate => "sqlite-migrate"
    case RetentionScheduler(_) => "logs-retention-scheduler"
  }

  function AbortOnError(t: StartupTask): bool
  {
    t.Migrate?
  }

  datatype Application = Application(port: string, mounts: seq<Mount>, startup: seq<StartupTask>,
                                     services: seq<string>)

  /** `Build(conf, db)`: a nil configuration is an error; otherwise the
      server on the configured port serves the web UI under /app/, the log
      API, and proxies everything else; the migration always runs at start,
      the retention scheduler only when a retention is configured. */
  method Build(conf: Config?) returns (r: Result<Application, string>)
    ensures conf == null <==> r.Failure?
    ensures conf == null ==> r.error == "config is required"
    ensures r.Success? ==> r.value.port == conf.port && r.value.services == ["api"]
    ensures r.Success? ==> |r.value.startup| >= 1 && r.value.startup[0] == Migrate
    ensures r.Success? ==> ((exists t :: t in r.value.startup && t.RetentionScheduler?) <==> conf.retention > 0)
    ensures r.Success? ==> forall t :: t in r.value.startup && t.RetentionScheduler? ==> t.retentionSeconds == conf.retention
    ensures r.Success? ==> r.value.mounts == [Mount("/app", RedirectToApp), Mount("/app/", AppFiles),
                                              Mount("/api/logs", LogsApi), Mount("/", ProxyAll)]
  {
    if conf == null {
      return Failure("config is required");
    }
    var mounts: seq<Mount> := [];
    mounts := mounts + [Mount("/app", RedirectToApp)];
    mounts := mounts + [Mount("/app/", AppFiles)];
    mounts := mounts + [Mount("/api/logs", LogsApi)];
    mounts := mounts + [Mount("/", ProxyAll)];
    var startup := [Migrate];
    if conf.retention > 0 {
      startup := startup + [RetentionScheduler(conf.retention)];
      assert startup[1] in startup;
    }
    r := Success(Application(conf.port, mounts, startup, ["api"]));
  }

  // ---------------------------------------------------------------------------
  // The retention janitor

  /** What reaches the `select`: a tick of the ticker with the time read
      after it (Unix seconds) and the outcome of that tick's delete, or the
      cancellation of the context. */
  datatype Event = Tick(nowUnix: int, fault: Option<string>) | Cancel

  /** The table after the janitor has seen `events`: each tick deletes the
      rows older than `now - retention` unless its delete fails; nothing
      happens from a cancellation on. */
  function Retained(table: seq<Row>, retention: int, events: seq<Event>): seq<Row>
    decreases |events|
  {
    if events == [] then table
    else match events[0]
      case Cancel => table
      case Tick(now, fault) =>
        Retained(if fault.None? then KeepNewer(table, now - retention) else table, retention, events[1..])
  }

  /** The errors the janitor logs: one per failed delete before the
      cancellation. */
  function Failures(events: seq<Event>): seq<string>
    decreases |events|
  {
    if events == [] then []
    else match events[0]
      case Cancel => []
      case Tick(_, fault) => (if fault.Some? then [fault.value] else []) + Failures(events[1..])
  }

  /** `startRetentionScheduler(ctx, rlSvc, retentionSeconds)`. */
  method RunRetentionScheduler(svc: RequestLogService, retentionSeconds: int, events: seq<Event>)
    returns (logged: seq<string>)
    modifies svc
    ensures svc.table == Retained(old(svc.table), retentionSeconds, events)
    ensures logged == Failures(events)
    ensures svc.queue == old(svc.queue) && svc.logged == old(svc.logged)
  {
    ghost var finalTable := Retained(svc.table, retentionSeconds, events);
    ghost var allFailures := Failures(events);
    logged := [];
    var i := 0;
    assert events[0..] == events;
    while i < |events|
      invariant Janitoring(finalTable, allFailures, retentionSeconds, events, i, logged, svc.table)
      invariant svc.queue == old(svc.queue) && svc.logged == old(svc.logged)
    {
      if events[i].Cancel? {
        CancelStep(svc.table, retentionSeconds, events, i);
        assert logged + [] == logged;
        return;
      }
      logged := TickRound(svc, retentionSeconds, events, i, finalTable, allFailures, logged);
      i := i + 1;
    }
    assert logged + [] == logged;
  }

  /** Where the janitor stands before event `i`: what is left of the run
      still leads to the final table and the final log. */
  ghost predicate Janitoring(finalTable: seq<Row>, allFailures: seq<string>, retention: int,
                             events: seq<Event>, i: int, logged: seq<string>, table: seq<Row>)
  {
    0 <= i <= |events| &&
    finalTable == Retained(table, retention, events[i..]) &&
    allFailures == logged + Failures(events[i..])
  }

  /** One tick of the `select`: delete the expired rows and log the error,
      if any. */
  method TickRound(svc: RequestLogService, retentionSeconds: int, events: seq<Event>, i: int,
                   ghost finalTable: seq<Row>, ghost allFailures: seq<string>, logged: seq<string>)
    returns (logged': seq<string>)
    requires Janitoring(finalTable, allFailures, retentionSeconds, events, i, logged, svc.table)
    requires i < |events| && events[i].Tick?
    modifies svc
    ensures svc.table == if events[i].fault.None?
      then KeepNewer(old(svc.table), events[i].nowUnix - retentionSeconds) else old(svc.table)
    ensures logged' == logged + (if events[i].fault.Some? then [events[i].fault.value] else [])
    ensures Janitoring(finalTable, allFailures, retentionSeconds, events, i + 1, logged', svc.table)
    ensures svc.queue == old(svc.queue) && svc.logged == old(svc.logged)
  {
    var e := events[i];
    ghost var before := svc.table;
    var threshold := e.nowUnix - retentionSeconds;
    var err := svc.DeleteOlderThan(threshold, e.fault);
    TickStep(before, svc.table, retentionSeconds, events, i);
    ghost var rest := Failures(events[i + 1..]);
    if err.Some? {
      logged' := logged + [err.value];
      assert logged + ([err.value] + rest) == logged' + rest;
    } else {
      logged' := logged;
      assert [] + rest == rest;
    }
  }

  lemma CancelStep(table: seq<Row>, retention: int, events: seq<Event>, i: nat)
    requires i < |events| && events[i].Cancel?
    ensures Retained(table, retention, events[i..]) == table && Failures(events[i..]) == []
  {
    assert events[i..][0] == events[i];
  }

  /** A tick moves the rest of the run on to the next event. */
  lemma TickStep(table: seq<Row>, table': seq<Row>, retention: int, events: seq<Event>, i: nat)
    requires i < |events| && events[i].Tick?
    requires table' == if events[i].fault.None? then KeepNewer(table, events[i].nowUnix - retention) else table
    ensures Retained(table, retention, events[i..]) == Retained(table', retention, events[i + 1..])
    ensures var f := events[i].fault;
      Failures(events[i..]) == (if f.Some? then [f.value] else []) + Failures(events[i + 1..])
  {
    assert events[i..][0] == events[i];
    assert events[i..][1..] == events[i + 1..];
  }

  function Max(a: int, b: int): int
  {
    if a < b then b else a
  }

  /** The highest threshold of a delete that succeeded before the
      cancellation, if any did. */
  function Cutoff(retention: int, events: seq<Event>): Option<int>
    decreases |events|
  {
    if events == [] then None
    else match events[0]
      case Cancel => None
      case Tick(now, fault) =>
        var rest := Cutoff(retention, events[1..]);
        if fault.Some? then rest
        else if rest.None? then Some(now - retention)
        else Some(Max(now - retention, rest.value))
  }

  /** However many ticks run and fail, the janitor's whole effect is a
      single delete at the highest threshold it reached: a row survives
      exactly when it is at least as new as every successful threshold. */
  lemma {:induction false} RetainedIsOneDelete(table: seq<Row>, retention: int, events: seq<Event>)
    ensures Retained(table, retention, events) ==
      (if Cutoff(retention, events).None? then table else KeepNewer(table, Cutoff(retention, events).value))
    decreases |events|
  {
    if events != [] && events[0].Tick? {
      var now, fault := events[0].nowUnix, events[0].fault;
      var t := now - retention;
      var next := if fault.None? then KeepNewer(table, t) else table;
      assert Retained(table, retention, events) == Retained(next, retention, events[1..]);
      RetainedIsOneDelete(next, retention, events[1..]);
      var rest := Cutoff(retention, events[1..]);
      if fault.Some? {
        assert Cutoff(retention, events) == rest;
      } else if rest.None? {
        assert Cutoff(retention, events) == Some(t);
      } else {
        assert Cutoff(retention, events) == Some(Max(t, rest.value));
        KeepNewerTwice(table, t, rest.value);
      }
    }
  }

  /** The loop returns at the cancellation: events after it have no effect
      on the table or on what is logged. */
  lemma {:induction false} CancelStops(table: seq<Row>, retention: int, events: seq<Event>, k: nat)
    requires k < |events| && events[k] == Cancel
    ensures Retained(table, retention, events) == Retained(table, retention, events[..k])
    ensures Failures(events) == Failures(events[..k])
    decreases k
  {
    var head := events[..k];
    if k > 0 {
      assert head[0] == events[0];
      assert head[1..] == events[1..][..k - 1];
      match events[0]
      case Cancel =>
      case Tick(now, fault) =>
        var next := if fault.None? then KeepNewer(table, now - retention) else table;
        CancelStops(next, retention, events[1..], k - 1);
        assert Retained(table, retention, head) == Retained(next, retention, head[1..]);
        assert Failures(head) == (if fault.Some? then [fault.value] else []) + Failures(head[1..]);
    }
  }
}
