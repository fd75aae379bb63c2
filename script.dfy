/** `main()`: the command-line action, the configuration check, the connection,
    the confirmation gate and the reset, with `close()` in the `finally`. */
module Script {
  import opened Text
  import opened Identifiers
  import opened Config
  import opened Catalog
  import opened Confirmation
  import opened Reset

  /** How a run ends: the usage text (no action given), the `ValueError` that
      escapes from the constructor, or a normal return from `main`, which
      has perhaps reported a general error (a truncate failure or an input
      error) that its `except` caught. */
  datatype Exit = Usage | ConfigurationError | Finished(generalError: bool)

  /** What a run did to the database, how it ended, and how many lines of
      standard input it read. */
  datatype Run = Run(trace: seq<Event>, exit: Exit, linesRead: nat)

  /** The actions that ask for confirmation and then reset. */
  predicate Destructive(action: string) {
    action == "complete" || action == "data"
  }

  /** The `if action == ...` chain once connected: the events of the chosen
      branch, whether it raised, and the lines it read. `check` and any
      unrecognised action do nothing. */
  function Dispatch(action: string, server: Server, input: seq<string>): (seq<Event>, bool, nat) {
    if Destructive(action) then
      var (answer, read) := ConfirmAction(input);
      if answer == Proceed then
        var (ev, failed) := ResetRun(server);
        (ev, failed, read)
      else ([], answer == InputClosed, read)
    else ([], false, 0)
  }

  /** A whole run of the script, given its arguments, its environment, the
      database it finds and its standard input. */
  function MainSpec(argv: seq<string>, env: Env, server: Server, input: seq<string>): Run {
    if |argv| < 2 then Run([], Usage, 0)
    else if SelectUrl(env).None? then Run([], ConfigurationError, 0)
    else
      var url := NormalizeUrl(SelectUrl(env).value);
      var (connect, ok) := ConnectFrom(url, 1, DefaultRetries, DefaultBaseDelay, server.reachable);
      var (body, error, read) := if ok then Dispatch(ToLower(argv[1]), server, input) else ([], false, 0);
      Run(connect + body + [Closed(ok)], Finished(error), read)
  }

  /** The `if action == ...` chain of `main` on a connected object. */
  method Act(db: DatabaseReset, action: string, server: Server, input: seq<string>)
    returns (generalError: bool, linesRead: nat)
    modifies db
    ensures db.log == old(db.log) + Dispatch(action, server, input).0
    ensures generalError == Dispatch(action, server, input).1
    ensures linesRead == Dispatch(action, server, input).2
    ensures db.connected == old(db.connected) && db.databaseUrl == old(db.databaseUrl)
  {
    generalError, linesRead := false, 0;
    if action == "check" {
    } else if action == "complete" {
      var (answer, read) := ConfirmAction(input);
      linesRead := read;
      if answer == Proceed {
        generalError := db.ResetComplete(server);
      } else {
        generalError := answer == InputClosed;
      }
    } else if action == "data" {
      var (answer, read) := ConfirmAction(input);
      linesRead := read;
      if answer == Proceed {
        generalError := db.ResetDataOnly(server);
      } else {
        generalError := answer == InputClosed;
      }
    }
  }

  /** `MainSpec` once construction succeeded, one component at a time. */
  lemma MainSpecConstructed(argv: seq<string>, env: Env, server: Server, input: seq<string>)
    requires |argv| >= 2 && SelectUrl(env).Some?
    ensures var c := ConnectFrom(NormalizeUrl(SelectUrl(env).value), 1, DefaultRetries, DefaultBaseDelay, server.reachable);
      var d := Dispatch(ToLower(argv[1]), server, input);
      var r := MainSpec(argv, env, server, input);
      r.trace == c.0 + (if c.1 then d.0 else []) + [Closed(c.1)] &&
      r.exit == Finished(c.1 && d.1) &&
      r.linesRead == (if c.1 then d.2 else 0)
  {
  }

  /** `main()` */
  method RunScript(argv: seq<string>, env: Env, server: Server, input: seq<string>) returns (r: Run)
    ensures r == MainSpec(argv, env, server, input)
  {
    if |argv| < 2 {
      return Run([], Usage, 0);
    }
    var action := ToLower(argv[1]);
    var created := Construct(env);
    if created.None? {
      return Run([], ConfigurationError, 0);
    }
    var db := created.value;
    ghost var c := ConnectFrom(db.databaseUrl, 1, DefaultRetries, DefaultBaseDelay, server.reachable);
    ghost var d := Dispatch(action, server, input);
    var generalError, linesRead := false, 0;
    // try
    var ok := db.Connect(DefaultRetries, DefaultBaseDelay, server.reachable);
    assert db.log == c.0 && ok == c.1;
    if ok {
      generalError, linesRead := Act(db, action, server, input);
    }
    // finally
    db.Close();
    r := Run(db.log, Finished(generalError), linesRead);
    MainSpecConstructed(argv, env, server, input);
    assert db.log == c.0 + (if c.1 then d.0 else []) + [Closed(c.1)];
  }

  // ------------------------------------------------------------ properties

  /** Without an action the script only prints its usage; when neither
      environment variable is set (or both are empty) construction fails
      before any connection attempt. */
  lemma NothingBeforeConfiguration(argv: seq<string>, env: Env, server: Server, input: seq<string>)
    ensures |argv| < 2 ==> MainSpec(argv, env, server, input) == Run([], Usage, 0)
    ensures |argv| >= 2 && !Truthy(env.publicUrl) && !Truthy(env.internalUrl) ==>
      MainSpec(argv, env, server, input) == Run([], ConfigurationError, 0)
  {
  }

  /** The order of the workflow: connecting, then backing up, then the
      catalog query and truncates, then the seed, then closing. */
  function Phase(e: Event): nat {
    match e
    case Attempt(_, _) => 0
    case Wait(_) => 0
    case Exec(s) =>
      (match s
       case FetchRows(_) => 1
       case FetchCatalog => 2
       case TruncateTable(_) => 2
       case DropTable(_) => 2
       case InsertUser(_) => 3)
    case Closed(_) => 4
  }

  predicate PhasesOrdered(ev: seq<Event>) {
    forall i, j :: 0 <= i < j < |ev| ==> Phase(ev[i]) <= Phase(ev[j])
  }

  /** Every event of `ev` belongs to a phase from `lo` to `hi`. */
  predicate InPhases(ev: seq<Event>, lo: nat, hi: nat) {
    forall i :: 0 <= i < |ev| ==> lo <= Phase(ev[i]) <= hi
  }

  /** Two ordered runs, the first ending no later than phase `m` and the
      second starting no earlier, make an ordered run. */
  lemma ConcatOrdered(a: seq<Event>, b: seq<Event>, lo: nat, m: nat, hi: nat)
    requires PhasesOrdered(a) && PhasesOrdered(b)
    requires lo <= m <= hi && InPhases(a, lo, m) && InPhases(b, m, hi)
    ensures PhasesOrdered(a + b) && InPhases(a + b, lo, hi)
  {
    var c := a + b;
    forall i, j | 0 <= i < j < |c|
      ensures Phase(c[i]) <= Phase(c[j])
    {
      if j < |a| {
        assert c[i] == a[i] && c[j] == a[j];
      } else if i >= |a| {
        assert c[i] == b[i - |a|] && c[j] == b[j - |a|];
      } else {
        assert c[i] == a[i] && c[j] == b[j - |a|];
      }
    }
    forall i | 0 <= i < |c|
      ensures lo <= Phase(c[i]) <= hi
    {
      if i < |a| { assert c[i] == a[i]; } else { assert c[i] == b[i - |a|]; }
    }
  }

  /** An event outside the phases of `ev` does not occur in it. */
  lemma NotInPhases(ev: seq<Event>, lo: nat, hi: nat, e: Event)
    requires InPhases(ev, lo, hi) && !(lo <= Phase(e) <= hi)
    ensures e !in ev
  {
  }

  /** The connection events of a run: only attempts and waits, each attempt
      using the normalised URL, between one and `DefaultRetries` attempts. */
  lemma ConnectEventsShape(url: string, reachable: seq<bool>)
    ensures var ev := ConnectFrom(url, 1, DefaultRetries, DefaultBaseDelay, reachable).0;
      |ev| >= 1 && ev[0] == Attempt(url, 1) && InPhases(ev, 0, 0) && PhasesOrdered(ev) &&
      forall i :: 0 <= i < |ev| ==>
        (ev[i].Attempt? ==> ev[i].url == url && 1 <= ev[i].attempt <= DefaultRetries)
  {
    ConnectSchedule(url, 1, DefaultRetries, DefaultBaseDelay, reachable);
  }

  /** A run that issues no statement: the connection events and the close. */
  lemma ConnectAndCloseIssueNothing(connect: seq<Event>, released: bool)
    requires InPhases(connect, 0, 0)
    ensures forall i :: 0 <= i < |connect + [Closed(released)]| ==> !(connect + [Closed(released)])[i].Exec?
  {
    var trace := connect + [Closed(released)];
    forall i | 0 <= i < |trace|
      ensures !trace[i].Exec?
    {
      if i < |connect| { assert trace[i] == connect[i]; }
    }
  }

  /** The backup fetches are all in the backup phase. */
  lemma BackupPhase(failing: set<Statement>)
    ensures var ev := BackupFrom(BackupTables, failing).0;
      |ev| >= 1 && ev[0] == Exec(FetchRows("usuarios")) && InPhases(ev, 1, 1) && PhasesOrdered(ev)
  {
    BackupFromShape(BackupTables, failing);
  }

  /** The truncate path starts with the catalog query and stays in its phase. */
  lemma TruncatePhase(server: Server)
    ensures var ev := TruncateRun(server).0;
      |ev| >= 1 && ev[0] == Exec(FetchCatalog) && InPhases(ev, 2, 2) && PhasesOrdered(ev)
  {
    TruncateRunTouchesOnlyTargets(server);
  }

  /** The events of a confirmed reset follow the phases: backup fetches,
      then the catalog query and truncates, then the seed. */
  lemma ResetEventsOrdered(server: Server)
    ensures var ev := ResetRun(server).0;
      PhasesOrdered(ev) && InPhases(ev, 1, 3)
  {
    ResetRunParts(server);
    var backup := BackupFrom(BackupTables, server.failing).0;
    var truncate := TruncateRun(server).0;
    var seed: seq<Event> := if TruncateRun(server).1 then [] else SeedEvents(server);
    BackupPhase(server.failing);
    TruncatePhase(server);
    ConcatOrdered(backup, truncate, 1, 1, 2);
    assert InPhases(seed, 3, 3) && PhasesOrdered(seed);
    ConcatOrdered(backup + truncate, seed, 1, 2, 3);
  }

  /** Whatever the action, the events it issues once connected follow the
      phases. */
  lemma DispatchOrdered(action: string, server: Server, input: seq<string>)
    ensures var body := Dispatch(action, server, input).0;
      PhasesOrdered(body) && InPhases(body, 1, 3)
  {
    ResetEventsOrdered(server);
  }

  /** Connection events, then the events of the action, then one close:
      ordered by phase, with the close last and nowhere else. */
  lemma WrappedRunShape(connect: seq<Event>, body: seq<Event>, released: bool)
    requires PhasesOrdered(connect) && InPhases(connect, 0, 0)
    requires PhasesOrdered(body) && InPhases(body, 1, 3)
    ensures var trace := connect + body + [Closed(released)];
      trace[|trace| - 1] == Closed(released) &&
      (forall i :: 0 <= i < |trace| - 1 ==> !trace[i].Closed?) &&
      PhasesOrdered(trace)
  {
    ConcatOrdered(connect, body, 0, 0, 3);
    ConcatOrdered(connect + body, [Closed(released)], 0, 3, 4);
    var trace := connect + body + [Closed(released)];
    forall i | 0 <= i < |trace| - 1
      ensures !trace[i].Closed?
    {
      assert trace[i] == (connect + body)[i];
    }
  }

  /** Every run that gets past construction follows the phases in order and
      ends with exactly one `close()`, which releases a connection exactly
      when one was opened: after a failed connection, a declined
      confirmation, an input error and a truncate error alike. */
  lemma CloseRunsOnceAtTheEnd(argv: seq<string>, env: Env, server: Server, input: seq<string>)
    requires |argv| >= 2 && SelectUrl(env).Some?
    ensures var r := MainSpec(argv, env, server, input);
      var url := NormalizeUrl(SelectUrl(env).value);
      |r.trace| >= 2 && r.exit.Finished? &&
      r.trace[|r.trace| - 1] == Closed(ConnectFrom(url, 1, DefaultRetries, DefaultBaseDelay, server.reachable).1) &&
      (forall i :: 0 <= i < |r.trace| - 1 ==> !r.trace[i].Closed?) &&
      PhasesOrdered(r.trace)
  {
    var url := NormalizeUrl(SelectUrl(env).value);
    var (connect, ok) := ConnectFrom(url, 1, DefaultRetries, DefaultBaseDelay, server.reachable);
    var body := if ok then Dispatch(ToLower(argv[1]), server, input).0 else [];
    MainSpecConstructed(argv, env, server, input);
    ConnectEventsShape(url, server.reachable);
    DispatchOrdered(ToLower(argv[1]), server, input);
    WrappedRunShape(connect, body, ok);
  }

  /** `check` and every action that is neither `complete` nor `data` (after
      lower-casing) read no input and issue no statement at all: the run is
      the connection attempts and the close. The action is only looked at
      after connecting, so even an unrecognised action connects. */
  lemma NonDestructiveActionsIssueNothing(argv: seq<string>, env: Env, server: Server, input: seq<string>)
    requires |argv| >= 2 && SelectUrl(env).Some? && !Destructive(ToLower(argv[1]))
    ensures var r := MainSpec(argv, env, server, input);
      r.linesRead == 0 && r.exit == Finished(false) && r.trace[0].Attempt? &&
      forall i :: 0 <= i < |r.trace| ==> !r.trace[i].Exec?
  {
    var url := NormalizeUrl(SelectUrl(env).value);
    var (connect, ok) := ConnectFrom(url, 1, DefaultRetries, DefaultBaseDelay, server.reachable);
    MainSpecConstructed(argv, env, server, input);
    ConnectEventsShape(url, server.reachable);
    ConnectAndCloseIssueNothing(connect, ok);
    assert MainSpec(argv, env, server, input).trace == connect + [Closed(ok)];
  }

  /** A failed connection ends the run before the action is looked at: no
      input is read, no statement issued, and `close()` has nothing to
      release. */
  lemma FailedConnectionStopsEarly(argv: seq<string>, env: Env, server: Server, input: seq<string>)
    requires |argv| >= 2 && SelectUrl(env).Some?
    requires forall j :: 1 <= j <= DefaultRetries ==> !Reaches(server.reachable, j)
    ensures var r := MainSpec(argv, env, server, input);
      r.linesRead == 0 && r.exit == Finished(false) &&
      r.trace[|r.trace| - 1] == Closed(false) &&
      forall i :: 0 <= i < |r.trace| ==> !r.trace[i].Exec?
  {
    var url := NormalizeUrl(SelectUrl(env).value);
    ConnectSucceedsIff(url, 1, DefaultRetries, DefaultBaseDelay, server.reachable);
    var connect := ConnectFrom(url, 1, DefaultRetries, DefaultBaseDelay, server.reachable).0;
    MainSpecConstructed(argv, env, server, input);
    ConnectEventsShape(url, server.reachable);
    ConnectAndCloseIssueNothing(connect, false);
    assert MainSpec(argv, env, server, input).trace == connect + [Closed(false)];
  }

  /** Input is read only after the connection is established. */
  lemma ConfirmationOnlyAfterConnecting(argv: seq<string>, env: Env, server: Server, input: seq<string>)
    requires MainSpec(argv, env, server, input).linesRead > 0
    ensures |argv| >= 2 && SelectUrl(env).Some? && Destructive(ToLower(argv[1]))
    ensures exists j :: 1 <= j <= DefaultRetries && Reaches(server.reachable, j)
  {
    var url := NormalizeUrl(SelectUrl(env).value);
    ConnectSucceedsIff(url, 1, DefaultRetries, DefaultBaseDelay, server.reachable);
  }

  /** A destructive action that is not confirmed does nothing; running out
      of input is the error `main` reports. */
  lemma DispatchDeclined(action: string, server: Server, input: seq<string>)
    requires Destructive(action) && ConfirmAction(input).0 != Proceed
    ensures Dispatch(action, server, input) == ([], ConfirmAction(input).0 == InputClosed, ConfirmAction(input).1)
  {
  }

  /** A destructive action that is not confirmed issues no statement and
      reads at most the two answers; once connected, an input error is
      reported as a general error and a refusal is not an error. */
  lemma DeclinedConfirmationIssuesNothing(argv: seq<string>, env: Env, server: Server, input: seq<string>)
    requires |argv| >= 2 && SelectUrl(env).Some? && Destructive(ToLower(argv[1]))
    requires ConfirmAction(input).0 != Proceed
    ensures var r := MainSpec(argv, env, server, input);
      var ok := ConnectFrom(NormalizeUrl(SelectUrl(env).value), 1, DefaultRetries, DefaultBaseDelay, server.reachable).1;
      (forall i :: 0 <= i < |r.trace| ==> !r.trace[i].Exec?) &&
      r.linesRead <= 2 &&
      r.exit == Finished(ok && ConfirmAction(input).0 == InputClosed)
  {
    var url := NormalizeUrl(SelectUrl(env).value);
    var (connect, ok) := ConnectFrom(url, 1, DefaultRetries, DefaultBaseDelay, server.reachable);
    MainSpecConstructed(argv, env, server, input);
    DispatchDeclined(ToLower(argv[1]), server, input);
    ConfirmActionReadsAtMostTwo(input);
    ConnectEventsShape(url, server.reachable);
    ConnectAndCloseIssueNothing(connect, ok);
    assert MainSpec(argv, env, server, input).trace == connect + [Closed(ok)];
  }

  /** A reset backs up, queries the catalog, and seeds the administrator
      exactly when the truncate path did not raise. */
  lemma ResetRunSteps(server: Server)
    ensures var ev := ResetRun(server).0;
      Exec(FetchRows("usuarios")) in ev && Exec(FetchCatalog) in ev &&
      (Exec(InsertUser(SeedAdmin)) in ev <==> !TruncateRun(server).1 && !server.hashFails)
  {
    ResetRunParts(server);
    var backup := BackupFrom(BackupTables, server.failing).0;
    var truncate := TruncateRun(server).0;
    var seed: seq<Event> := if TruncateRun(server).1 then [] else SeedEvents(server);
    BackupPhase(server.failing);
    TruncatePhase(server);
    assert backup[0] in backup && truncate[0] in truncate;
    ConcatOrdered(backup, truncate, 1, 1, 2);
    NotInPhases(backup + truncate, 1, 2, Exec(InsertUser(SeedAdmin)));
  }

  /** A run whose connection gets through: the attempts, the action's
      events and a close that releases the connection. */
  lemma ConnectedRun(argv: seq<string>, env: Env, server: Server, input: seq<string>)
    requires |argv| >= 2 && SelectUrl(env).Some?
    requires exists j :: 1 <= j <= DefaultRetries && Reaches(server.reachable, j)
    ensures var url := NormalizeUrl(SelectUrl(env).value);
      var connect := ConnectFrom(url, 1, DefaultRetries, DefaultBaseDelay, server.reachable).0;
      var d := Dispatch(ToLower(argv[1]), server, input);
      MainSpec(argv, env, server, input) == Run(connect + d.0 + [Closed(true)], Finished(d.1), d.2)
  {
    var url := NormalizeUrl(SelectUrl(env).value);
    ConnectSucceedsIff(url, 1, DefaultRetries, DefaultBaseDelay, server.reachable);
    MainSpecConstructed(argv, env, server, input);
  }

  /** A confirmed destructive action runs the reset after reading both
      lines. */
  lemma DispatchConfirmed(action: string, server: Server, input: seq<string>)
    requires Destructive(action) && ConfirmAction(input).0 == Proceed
    ensures Dispatch(action, server, input) == (ResetRun(server).0, ResetRun(server).1, 2)
  {
    ConfirmActionOutcome(input);
    ResetRunParts(server);
  }

  /** A confirmed `complete` or `data` run, once connected, backs up, then
      truncates exactly the valid non-migration catalog names, then seeds the
      administrator unless the truncate raised; the run reports a general
      error exactly when the truncate raised. */
  lemma ConfirmedResetRunsTheWorkflow(argv: seq<string>, env: Env, server: Server, input: seq<string>)
    requires |argv| >= 2 && SelectUrl(env).Some? && Destructive(ToLower(argv[1]))
    requires exists j :: 1 <= j <= DefaultRetries && Reaches(server.reachable, j)
    requires ConfirmAction(input).0 == Proceed
    ensures var r := MainSpec(argv, env, server, input);
      r.exit == Finished(TruncateRun(server).1) && r.linesRead == 2 &&
      Exec(FetchRows("usuarios")) in r.trace && Exec(FetchCatalog) in r.trace &&
      (Exec(InsertUser(SeedAdmin)) in r.trace <==> !TruncateRun(server).1 && !server.hashFails) &&
      r.trace[|r.trace| - 1] == Closed(true)
  {
    var url := NormalizeUrl(SelectUrl(env).value);
    var connect := ConnectFrom(url, 1, DefaultRetries, DefaultBaseDelay, server.reachable).0;
    ConnectedRun(argv, env, server, input);
    DispatchConfirmed(ToLower(argv[1]), server, input);
    var ev := ResetRun(server).0;
    assert MainSpec(argv, env, server, input) == Run(connect + ev + [Closed(true)], Finished(ResetRun(server).1), 2);
    ResetRunParts(server);
    ResetRunSteps(server);
    ConnectEventsShape(url, server.reachable);
    NotInPhases(connect, 0, 0, Exec(InsertUser(SeedAdmin)));
  }

  /** A statement `main` may issue: no DROP, and every TRUNCATE names a
      catalog entry that is a valid identifier other than the migration table. */
  predicate SafeEvent(e: Event, catalog: seq<string>) {
    e.Exec? ==>
      !e.stmt.DropTable? &&
      (e.stmt.TruncateTable? ==>
         IsIdentifier(e.stmt.table) && e.stmt.table != MigrationTable && e.stmt.table in catalog)
  }

  predicate AllSafe(ev: seq<Event>, catalog: seq<string>) {
    forall i :: 0 <= i < |ev| ==> SafeEvent(ev[i], catalog)
  }

  lemma ConcatSafe(a: seq<Event>, b: seq<Event>, catalog: seq<string>)
    requires AllSafe(a, catalog) && AllSafe(b, catalog)
    ensures AllSafe(a + b, catalog)
  {
    var c := a + b;
    forall i | 0 <= i < |c|
      ensures SafeEvent(c[i], catalog)
    {
      if i < |a| { assert c[i] == a[i]; } else { assert c[i] == b[i - |a|]; }
    }
  }

  /** Whatever the action, the statements it issues once connected are safe. */
  lemma DispatchIsSafe(action: string, server: Server, input: seq<string>)
    ensures AllSafe(Dispatch(action, server, input).0, server.catalog)
  {
    ResetRunParts(server);
    TruncateRunTouchesOnlyTargets(server);
    TruncateTargetsExactly(server.catalog);
    BackupFromShape(BackupTables, server.failing);
    var backup := BackupFrom(BackupTables, server.failing).0;
    var truncate := TruncateRun(server).0;
    var seed: seq<Event> := if TruncateRun(server).1 then [] else SeedEvents(server);
    assert AllSafe(backup, server.catalog);
    assert AllSafe(truncate, server.catalog);
    assert AllSafe(seed, server.catalog);
    ConcatSafe(backup, truncate, server.catalog);
    ConcatSafe(backup + truncate, seed, server.catalog);
  }

  /** The only destructive statements any run issues are TRUNCATEs, each of
      a name the catalog listed, that is a valid identifier and is not the
      migration table; `main` never drops. */
  lemma RunTruncatesOnlyValidCatalogNames(argv: seq<string>, env: Env, server: Server, input: seq<string>)
    ensures AllSafe(MainSpec(argv, env, server, input).trace, server.catalog)
  {
    if |argv| >= 2 && SelectUrl(env).Some? {
      var url := NormalizeUrl(SelectUrl(env).value);
      var (connect, ok) := ConnectFrom(url, 1, DefaultRetries, DefaultBaseDelay, server.reachable);
      var body := if ok then Dispatch(ToLower(argv[1]), server, input).0 else [];
      MainSpecConstructed(argv, env, server, input);
      ConnectEventsShape(url, server.reachable);
      DispatchIsSafe(ToLower(argv[1]), server, input);
      assert AllSafe(connect, server.catalog);
      ConcatSafe(connect, body, server.catalog);
      ConcatSafe(connect + body, [Closed(ok)], server.catalog);
    }
  }

  /** `complete` and `data` run the same steps. */
  lemma CompleteAndDataAgree(argv: seq<string>, argv': seq<string>, env: Env, server: Server, input: seq<string>)
    requires |argv| >= 2 && |argv'| >= 2
    requires ToLower(argv[1]) == "complete" && ToLower(argv'[1]) == "data"
    ensures MainSpec(argv, env, server, input) == MainSpec(argv', env, server, input)
  {
  }

  /** A backup that fails, a password hash that fails or a seed insert that
      fails changes neither how the run ends, nor how much input it reads,
      nor what the truncate path issues. */
  lemma BackupAndSeedFailuresAreSwallowed(argv: seq<string>, env: Env, server: Server, input: seq<string>,
                                          extra: set<Statement>, hashFails: bool)
    requires forall s :: s in extra ==> s.FetchRows? || s.InsertUser?
    ensures var server' := Server(server.reachable, server.catalog, server.failing + extra, hashFails);
      MainSpec(argv, env, server', input).exit == MainSpec(argv, env, server, input).exit &&
      MainSpec(argv, env, server', input).linesRead == MainSpec(argv, env, server, input).linesRead &&
      TruncateRun(server') == TruncateRun(server)
  {
    ResetIgnoresBackupAndSeedFailures(server, extra, hashFails);
  }
}
