/** The `DatabaseReset` object: its connection string, its connection, and
    an event log of every connection attempt, wait, statement and `close()`
    call, including a `close()` that finds no connection to release. The
    database itself is a `Server` value that fixes in advance which connection
    attempts get through, what the catalog lists and which statements fail. */
module Reset {
  import opened Text
  import opened Identifiers
  import opened Config
  import opened Catalog

  /** The tables `backup_data` reads, in order. */
  const BackupTables: seq<string> := ["usuarios", "produtos", "clientes", "vendas"]

  /** `connect()`'s defaults: three attempts, 1.5 s base delay (kept in
      tenths of a second). */
  const DefaultRetries := 3
  const DefaultBaseDelay := 15

  /** The row `create_admin_user` inserts, without its generated id and
      password hash. */
  datatype AdminRow = AdminRow(
    name: string, login: string, isAdmin: bool, active: bool, level: int, salary: int,
    canRefuel: bool, canManageExpenses: bool, canRefund: bool)

  const SeedAdmin := AdminRow("Neotrix Tecnologias", "Neotrix", true, true, 2, 0, true, true, true)

  datatype Statement =
    | FetchRows(table: string)       // SELECT * FROM <table>
    | FetchCatalog                   // SELECT tablename FROM pg_tables WHERE schemaname = 'public'
    | TruncateTable(table: string)   // TRUNCATE TABLE "<table>" RESTART IDENTITY CASCADE
    | DropTable(table: string)       // DROP TABLE IF EXISTS "<table>" CASCADE
    | InsertUser(row: AdminRow)      // INSERT INTO usuarios (...) VALUES (...)

  datatype Event =
    | Attempt(url: string, attempt: nat)  // asyncpg.connect(url, timeout=10)
    | Wait(tenths: nat)                   // asyncio.sleep(base_delay * attempt)
    | Exec(stmt: Statement)               // a fetch or execute on the connection
    | Closed(released: bool)              // close(); released when a connection was open

  /** The database as this run will find it. Attempt k (from 1) gets through
      when `reachable[k - 1]` holds; a statement in `failing` raises.
      `hashFails` stands for the one step before the seed insert that does not
      touch the database: importing werkzeug and hashing the password, which
      raise when the package is missing. */
  datatype Server = Server(reachable: seq<bool>, catalog: seq<string>, failing: set<Statement>, hashFails: bool)

  predicate Reaches(reachable: seq<bool>, k: int) {
    1 <= k <= |reachable| && reachable[k - 1]
  }

  // ---------------------------------------------------------------- connect

  /** The events of the retry loop from attempt `k` on, and whether it
      connects. */
  function ConnectFrom(url: string, k: int, retries: int, baseDelay: nat, reachable: seq<bool>): (seq<Event>, bool)
    requires k >= 1
    decreases retries + 1 - k
  {
    if k > retries then ([], false)
    else if Reaches(reachable, k) then ([Attempt(url, k)], true)
    else
      var wait := if k < retries then [Wait(baseDelay * k)] else [];
      var (rest, ok) := ConnectFrom(url, k + 1, retries, baseDelay, reachable);
      ([Attempt(url, k)] + wait + rest, ok)
  }

  /** The loop connects exactly when some attempt from `k` to `retries`
      gets through. */
  lemma {:induction false} ConnectSucceedsIff(url: string, k: int, retries: int, baseDelay: nat, reachable: seq<bool>)
    requires k >= 1
    ensures ConnectFrom(url, k, retries, baseDelay, reachable).1 <==>
            exists j :: k <= j <= retries && Reaches(reachable, j)
    decreases retries + 1 - k
  {
    if k <= retries && !Reaches(reachable, k) {
      ConnectSucceedsIff(url, k + 1, retries, baseDelay, reachable);
      if exists j :: k <= j <= retries && Reaches(reachable, j) {
        var j :| k <= j <= retries && Reaches(reachable, j);
        assert j != k;
      }
    }
  }

  /** The `i`-th event of a retry schedule that starts at attempt `k`:
      attempts at even positions, the wait after each failed attempt at odd
      positions. */
  function ScheduleAt(url: string, k: nat, baseDelay: nat, i: nat): Event {
    if i % 2 == 0 then Attempt(url, k + i / 2) else Wait(baseDelay * (k + i / 2))
  }

  lemma ScheduleShift(url: string, k: nat, baseDelay: nat, i: nat)
    requires i >= 2
    ensures ScheduleAt(url, k, baseDelay, i) == ScheduleAt(url, k + 1, baseDelay, i - 2)
    ensures k + i / 2 == (k + 1) + (i - 2) / 2
  {
  }

  /** The schedule of the retry loop: attempts numbered k, k+1, ... alternate
      with waits; the wait after failed attempt n is `baseDelay * n`; the
      loop stops at the first attempt that gets through, never waits after
      its last attempt, and gives up only after attempt `retries` failed. */
  lemma {:induction false} ConnectSchedule(url: string, k: int, retries: int, baseDelay: nat, reachable: seq<bool>)
    requires 1 <= k <= retries
    ensures var (ev, ok) := ConnectFrom(url, k, retries, baseDelay, reachable);
      |ev| % 2 == 1 && k + |ev| / 2 <= retries &&
      (forall i :: 0 <= i < |ev| ==> ev[i] == ScheduleAt(url, k, baseDelay, i)) &&
      (forall n :: k <= n < k + |ev| / 2 ==> !Reaches(reachable, n)) &&
      (ok <==> Reaches(reachable, k + |ev| / 2)) &&
      (!ok ==> k + |ev| / 2 == retries)
    decreases retries + 1 - k
  {
    if !Reaches(reachable, k) && k < retries {
      ConnectSchedule(url, k + 1, retries, baseDelay, reachable);
      var (rest, ok) := ConnectFrom(url, k + 1, retries, baseDelay, reachable);
      var ev := [Attempt(url, k)] + [Wait(baseDelay * k)] + rest;
      assert ConnectFrom(url, k, retries, baseDelay, reachable) == (ev, ok);
      assert |ev| / 2 == |rest| / 2 + 1;
      forall i | 0 <= i < |ev|
        ensures ev[i] == ScheduleAt(url, k, baseDelay, i)
      {
        if i >= 2 {
          ScheduleShift(url, k, baseDelay, i);
          assert ev[i] == rest[i - 2];
        }
      }
    }
  }

  /** With no attempts allowed the loop reports failure without trying. */
  lemma NoRetriesNoAttempts(url: string, retries: int, baseDelay: nat, reachable: seq<bool>)
    requires retries < 1
    ensures ConnectFrom(url, 1, retries, baseDelay, reachable) == ([], false)
  {
  }

  // ----------------------------------------------------------------- backup

  /** The fetches `backup_data` makes, stopping at the first that raises,
      and whether all of them succeeded. */
  function BackupFrom(tables: seq<string>, failing: set<Statement>): (r: (seq<Event>, bool))
    ensures |r.0| <= |tables|
    decreases |tables|
  {
    if tables == [] then ([], true)
    else if FetchRows(tables[0]) in failing then ([Exec(FetchRows(tables[0]))], false)
    else
      var (rest, ok) := BackupFrom(tables[1..], failing);
      ([Exec(FetchRows(tables[0]))] + rest, ok)
  }

  /** The backup fetches the tables in the given order, at least one when
      there is one, stops right after the first fetch that raises, and
      succeeds exactly when no fetch raises, in which case it fetched every
      table. */
  lemma {:induction false} BackupFromShape(tables: seq<string>, failing: set<Statement>)
    ensures var (ev, ok) := BackupFrom(tables, failing);
      (tables != [] ==> 1 <= |ev|) &&
      (forall i :: 0 <= i < |ev| ==> ev[i] == Exec(FetchRows(tables[i]))) &&
      (forall i :: 0 <= i < |ev| - 1 ==> FetchRows(tables[i]) !in failing) &&
      (!ok ==> FetchRows(tables[|ev| - 1]) in failing) &&
      (ok <==> forall t :: t in tables ==> FetchRows(t) !in failing) &&
      (ok ==> |ev| == |tables|)
    decreases |tables|
  {
    if tables != [] && FetchRows(tables[0]) !in failing {
      BackupFromShape(tables[1..], failing);
      var (rest, ok) := BackupFrom(tables[1..], failing);
      var ev := [Exec(FetchRows(tables[0]))] + rest;
      assert BackupFrom(tables, failing) == (ev, ok);
      assert forall t :: t in tables ==> t == tables[0] || t in tables[1..];
      forall i | 0 <= i < |ev|
        ensures ev[i] == Exec(FetchRows(tables[i]))
      {
        if i > 0 { assert ev[i] == rest[i - 1]; }
      }
    }
  }

  /** The backup from position `k` of `tables`: one fetch, then either the
      error or the backup from position `k + 1`. */
  lemma BackupFromAt(tables: seq<string>, k: nat, failing: set<Statement>)
    requires k < |tables|
    ensures var (ev, ok) := BackupFrom(tables[k..], failing);
      var (rest, restOk) := BackupFrom(tables[k + 1..], failing);
      if FetchRows(tables[k]) in failing then ev == [Exec(FetchRows(tables[k]))] && !ok
      else ev == [Exec(FetchRows(tables[k]))] + rest && ok == restOk
  {
    assert tables[k..][1..] == tables[k + 1..];
  }

  /** The keys of the dictionary `backup_data` returns. */
  function BackupResult(failing: set<Statement>): set<string> {
    if BackupFrom(BackupTables, failing).1 then {"usuarios", "produtos", "clientes", "vendas"} else {}
  }

  /** The backup is all or nothing: every table when all four fetches
      succeed, none at all when any of them raises. */
  lemma BackupResultAllOrNothing(failing: set<Statement>)
    ensures BackupResult(failing) == {} || BackupResult(failing) == {"usuarios", "produtos", "clientes", "vendas"}
    ensures BackupResult(failing) != {} <==> forall t :: t in BackupTables ==> FetchRows(t) !in failing
  {
    BackupFromShape(BackupTables, failing);
    if !BackupFrom(BackupTables, failing).1 {
      assert "usuarios" in BackupResult(failing) <==> false;
    } else {
      assert "usuarios" in BackupResult(failing);
    }
  }

  // --------------------------------------------------------------- truncate

  /** One TRUNCATE per name, in order. */
  function TruncateEvents(names: seq<string>): (r: seq<Event>)
    ensures |r| == |names|
    ensures forall j :: 0 <= j < |names| ==> r[j] == Exec(TruncateTable(names[j]))
    decreases |names|
  {
    if names == [] then [] else [Exec(TruncateTable(names[0]))] + TruncateEvents(names[1..])
  }

  /** The truncate loop from position `i` of the (already filtered) names:
      invalid names are skipped, and the first statement that raises ends
      the loop with the error. */
  function TruncateFrom(names: seq<string>, i: nat, failing: set<Statement>): (seq<Event>, bool)
    decreases |names| - i
  {
    if i >= |names| then ([], false)
    else if !IsIdentifier(names[i]) then TruncateFrom(names, i + 1, failing)
    else if TruncateTable(names[i]) in failing then ([Exec(TruncateTable(names[i]))], true)
    else
      var (rest, failed) := TruncateFrom(names, i + 1, failing);
      ([Exec(TruncateTable(names[i]))] + rest, failed)
  }

  /** `truncate_all_tables`: the catalog query, the early return on an empty
      catalog, the migration filter and the loop; the flag is the exception
      it re-raises. */
  function TruncateRun(server: Server): (seq<Event>, bool) {
    if FetchCatalog in server.failing then ([Exec(FetchCatalog)], true)
    else if server.catalog == [] then ([Exec(FetchCatalog)], false)
    else
      var (ev, failed) := TruncateFrom(WithoutMigrations(server.catalog), 0, server.failing);
      ([Exec(FetchCatalog)] + ev, failed)
  }

  /** One step of the validation filter at position `i`. */
  lemma KeepValidStep(names: seq<string>, i: nat)
    requires i < |names|
    ensures KeepValid(names[i..]) ==
      (if IsIdentifier(names[i]) then [names[i]] else []) + KeepValid(names[i + 1..])
  {
    assert names[i..] == [names[i]] + names[i + 1..];
  }

  /** The truncate loop issues the TRUNCATEs for the valid names in order,
      and all of them when none raises. */
  lemma {:induction false} TruncateFromFollowsTargets(names: seq<string>, i: nat, failing: set<Statement>)
    requires i <= |names|
    ensures var (ev, failed) := TruncateFrom(names, i, failing);
      var all := TruncateEvents(KeepValid(names[i..]));
      |ev| <= |all| && ev == all[..|ev|] && (!failed ==> ev == all)
    decreases |names| - i
  {
    if i < |names| {
      KeepValidStep(names, i);
      TruncateFromFollowsTargets(names, i + 1, failing);
      if IsIdentifier(names[i]) && TruncateTable(names[i]) !in failing {
        var rest := TruncateFrom(names, i + 1, failing).0;
        var all := TruncateEvents(KeepValid(names[i..]));
        var ev := [Exec(TruncateTable(names[i]))] + rest;
        assert all == [Exec(TruncateTable(names[i]))] + TruncateEvents(KeepValid(names[i + 1..]));
        assert ev == all[..|ev|];
      }
    }
  }

  /** The truncate loop raises exactly when the TRUNCATE of some valid name
      fails. */
  lemma {:induction false} TruncateFromFailsIff(names: seq<string>, i: nat, failing: set<Statement>)
    requires i <= |names|
    ensures TruncateFrom(names, i, failing).1 <==>
            exists t :: t in KeepValid(names[i..]) && TruncateTable(t) in failing
    decreases |names| - i
  {
    if i < |names| {
      KeepValidStep(names, i);
      TruncateFromFailsIff(names, i + 1, failing);
      var restTargets := KeepValid(names[i + 1..]);
      if IsIdentifier(names[i]) {
        assert forall t :: t in KeepValid(names[i..]) <==> t == names[i] || t in restTargets;
      }
    }
  }

  /** The truncate loop stops right after the first TRUNCATE that fails: the
      statements before it succeeded and the last one issued is the failure. */
  lemma {:induction false} TruncateFromStopsAtFirstFailure(names: seq<string>, i: nat, failing: set<Statement>)
    requires i <= |names|
    ensures var (ev, failed) := TruncateFrom(names, i, failing);
      var targets := KeepValid(names[i..]);
      |ev| <= |targets| &&
      (failed ==> |ev| > 0 && TruncateTable(targets[|ev| - 1]) in failing) &&
      (forall j :: 0 <= j < |ev| - 1 ==> TruncateTable(targets[j]) !in failing)
    decreases |names| - i
  {
    if i < |names| {
      KeepValidStep(names, i);
      TruncateFromStopsAtFirstFailure(names, i + 1, failing);
      if IsIdentifier(names[i]) && TruncateTable(names[i]) !in failing {
        var targets := KeepValid(names[i..]);
        var restTargets := KeepValid(names[i + 1..]);
        assert targets == [names[i]] + restTargets;
        var rest := TruncateFrom(names, i + 1, failing).0;
        forall j | 0 <= j < |rest|
          ensures TruncateTable(targets[j]) !in failing
        {
          if j > 0 { assert targets[j] == restTargets[j - 1]; }
        }
      }
    }
  }

  /** When no truncate raises, `truncate_all_tables` queries the catalog and
      then issues exactly one TRUNCATE per truncate target, in catalog order;
      an empty catalog issues none. */
  lemma TruncateRunIssuesTargets(server: Server)
    requires FetchCatalog !in server.failing
    requires forall t :: t in server.catalog ==> TruncateTable(t) !in server.failing
    ensures TruncateRun(server) == ([Exec(FetchCatalog)] + TruncateEvents(TruncateTargets(server.catalog)), false)
  {
    var names := WithoutMigrations(server.catalog);
    if server.catalog != [] {
      TruncateFromFollowsTargets(names, 0, server.failing);
      TruncateFromFailsIff(names, 0, server.failing);
      assert names[0..] == names;
      TruncateTargetsExactly(server.catalog);
    } else {
      assert TruncateTargets(server.catalog) == [];
      assert TruncateEvents(TruncateTargets(server.catalog)) == [];
      assert [Exec(FetchCatalog)] + [] == [Exec(FetchCatalog)];
    }
  }

  /** Every statement the truncate path issues after the catalog query is a
      TRUNCATE of a valid name other than the migration table that the
      catalog lists. */
  lemma TruncateRunTouchesOnlyTargets(server: Server)
    ensures var ev := TruncateRun(server).0;
      |ev| >= 1 && ev[0] == Exec(FetchCatalog) &&
      forall j :: 1 <= j < |ev| ==>
        (ev[j].Exec? && ev[j].stmt.TruncateTable? && ev[j].stmt.table in TruncateTargets(server.catalog))
  {
    if FetchCatalog !in server.failing && server.catalog != [] {
      var names := WithoutMigrations(server.catalog);
      TruncateFromFollowsTargets(names, 0, server.failing);
      assert names[0..] == names;
      var all := TruncateEvents(KeepValid(names));
      var ev := TruncateFrom(names, 0, server.failing).0;
      assert forall j :: 0 <= j < |ev| ==> ev[j] == all[j];
    }
  }

  /** `truncate_all_tables` raises exactly when the catalog query or the
      TRUNCATE of some target fails. What it issues is always a prefix of the
      catalog query followed by one TRUNCATE per target; a failed catalog
      query issues nothing more, and a failed TRUNCATE is the last statement
      issued. */
  lemma TruncateRunRaisesIff(server: Server)
    ensures TruncateRun(server).1 <==>
      FetchCatalog in server.failing ||
      exists t :: t in TruncateTargets(server.catalog) && TruncateTable(t) in server.failing
    ensures FetchCatalog in server.failing ==> TruncateRun(server).0 == [Exec(FetchCatalog)]
    ensures var ev := TruncateRun(server).0;
      var all := [Exec(FetchCatalog)] + TruncateEvents(TruncateTargets(server.catalog));
      1 <= |ev| <= |all| && ev == all[..|ev|]
    ensures var ev := TruncateRun(server).0;
      TruncateRun(server).1 && FetchCatalog !in server.failing ==>
        ev[|ev| - 1].Exec? && ev[|ev| - 1].stmt.TruncateTable? && ev[|ev| - 1].stmt in server.failing
  {
    var names := WithoutMigrations(server.catalog);
    TruncateFromFailsIff(names, 0, server.failing);
    TruncateFromFollowsTargets(names, 0, server.failing);
    TruncateFromStopsAtFirstFailure(names, 0, server.failing);
    assert names[0..] == names;
    if server.catalog == [] {
      assert TruncateTargets(server.catalog) == [];
    } else if FetchCatalog !in server.failing {
      var ev := TruncateFrom(names, 0, server.failing).0;
      var all := TruncateEvents(KeepValid(names));
      assert ([Exec(FetchCatalog)] + all)[..|ev| + 1] == [Exec(FetchCatalog)] + all[..|ev|];
    }
  }

  /** Whether the truncate path raises, and what it issues, depends on no
      failure other than those of the catalog query and the truncates. */
  lemma {:induction false} TruncateFromIgnoresOtherFailures(names: seq<string>, i: nat, failing: set<Statement>, extra: set<Statement>)
    requires forall s :: s in extra ==> !s.TruncateTable?
    ensures TruncateFrom(names, i, failing + extra) == TruncateFrom(names, i, failing)
    decreases |names| - i
  {
    if i < |names| {
      TruncateFromIgnoresOtherFailures(names, i + 1, failing, extra);
    }
  }

  // ------------------------------------------------------------------- drop

  /** One DROP per name, in order. */
  function DropEvents(names: seq<string>): (r: seq<Event>)
    ensures |r| == |names|
    ensures forall j :: 0 <= j < |names| ==> r[j] == Exec(DropTable(names[j]))
    decreases |names|
  {
    if names == [] then [] else [Exec(DropTable(names[0]))] + DropEvents(names[1..])
  }

  /** The drop loop from position `i`: invalid names are skipped, and a drop
      that raises is reported and the loop goes on. */
  function DropFrom(names: seq<string>, i: nat): seq<Event>
    decreases |names| - i
  {
    if i >= |names| then []
    else if !IsIdentifier(names[i]) then DropFrom(names, i + 1)
    else [Exec(DropTable(names[i]))] + DropFrom(names, i + 1)
  }

  /** `drop_all_tables`: the flag is the exception it re-raises, which only
      the catalog query can cause. */
  function DropRun(server: Server): (seq<Event>, bool) {
    if FetchCatalog in server.failing then ([Exec(FetchCatalog)], true)
    else if server.catalog == [] then ([Exec(FetchCatalog)], false)
    else ([Exec(FetchCatalog)] + DropFrom(server.catalog, 0), false)
  }

  lemma {:induction false} DropFromIsKeepValid(names: seq<string>, i: nat)
    requires i <= |names|
    ensures DropFrom(names, i) == DropEvents(KeepValid(names[i..]))
    decreases |names| - i
  {
    if i < |names| {
      assert names[i..] == [names[i]] + names[i + 1..];
      DropFromIsKeepValid(names, i + 1);
    }
  }

  /** Whatever fails among the drops, `drop_all_tables` issues one DROP for
      every valid catalog name, the migration table included, in catalog
      order, and raises only when the catalog query does. */
  lemma DropRunIssuesEveryValidName(server: Server)
    ensures DropRun(server).1 <==> FetchCatalog in server.failing
    ensures FetchCatalog !in server.failing ==>
      DropRun(server).0 == [Exec(FetchCatalog)] + DropEvents(KeepValid(server.catalog))
    ensures FetchCatalog !in server.failing && MigrationTable in server.catalog ==>
      Exec(DropTable(MigrationTable)) in DropRun(server).0
  {
    DropFromIsKeepValid(server.catalog, 0);
    assert server.catalog[0..] == server.catalog;
    DropTargetsExactly(server.catalog);
    if FetchCatalog !in server.failing && MigrationTable in server.catalog {
      var targets := KeepValid(server.catalog);
      var j :| 0 <= j < |targets| && targets[j] == MigrationTable;
      assert DropRun(server).0[j + 1] == Exec(DropTable(MigrationTable));
    }
  }

  // ------------------------------------------------------------ seed, reset

  /** `create_admin_user` issues its insert unless the password hashing
      before it raised; either failure is only reported. */
  function SeedEvents(server: Server): seq<Event> {
    if server.hashFails then [] else [Exec(InsertUser(SeedAdmin))]
  }

  /** `reset_complete` and `reset_data_only`: backup, truncate and, unless
      the truncate raised, seed; the flag is the exception they re-raise. */
  function ResetRun(server: Server): (seq<Event>, bool) {
    var backup := BackupFrom(BackupTables, server.failing).0;
    var (truncate, failed) := TruncateRun(server);
    (backup + truncate + (if failed then [] else SeedEvents(server)), failed)
  }

  /** `ResetRun` in terms of its three steps. */
  lemma ResetRunParts(server: Server)
    ensures ResetRun(server).1 == TruncateRun(server).1
    ensures ResetRun(server).0 == BackupFrom(BackupTables, server.failing).0 + TruncateRun(server).0 +
      (if TruncateRun(server).1 then [] else SeedEvents(server))
  {
  }

  /** A reset raises exactly when the truncate path does; a failed backup or
      a failed insert changes neither that nor anything the truncate path
      issues. */
  lemma ResetIgnoresBackupAndSeedFailures(server: Server, extra: set<Statement>, hashFails: bool)
    requires forall s :: s in extra ==> s.FetchRows? || s.InsertUser?
    ensures var server' := Server(server.reachable, server.catalog, server.failing + extra, hashFails);
      ResetRun(server').1 == ResetRun(server).1 == TruncateRun(server).1 &&
      TruncateRun(server') == TruncateRun(server)
  {
    TruncateFromIgnoresOtherFailures(WithoutMigrations(server.catalog), 0, server.failing, extra);
  }

  // ----------------------------------------------------------------- object

  class DatabaseReset {
    /** `self.database_url` */
    var databaseUrl: string
    /** `hasattr(self, 'conn')` */
    var connected: bool
    /** What has been sent to the database, in order. */
    var log: seq<Event>

    /** The constructor body after the configuration check: the two scheme
        rewrites, one after the other. */
    constructor (url: string)
      ensures databaseUrl == NormalizeUrl(url) && !connected && log == []
    {
      var current := url;
      if StartsWith(current, AsyncpgScheme) {
        current := ReplaceAll(current, AsyncpgScheme, PlainScheme);
      }
      if StartsWith(current, Psycopg2Scheme) {
        current := ReplaceAll(current, Psycopg2Scheme, PlainScheme);
      }
      databaseUrl := current;
      connected := false;
      log := [];
    }

    /** One `fetch` or `execute` on the connection. */
    method Execute(stmt: Statement, server: Server) returns (ok: bool)
      modifies this
      ensures ok <==> stmt !in server.failing
      ensures log == old(log) + [Exec(stmt)]
      ensures databaseUrl == old(databaseUrl) && connected == old(connected)
    {
      log := log + [Exec(stmt)];
      ok := stmt !in server.failing;
    }

    /** `connect(retries, base_delay)` */
    method Connect(retries: int, baseDelay: nat, reachable: seq<bool>) returns (ok: bool)
      modifies this
      ensures log == old(log) + ConnectFrom(databaseUrl, 1, retries, baseDelay, reachable).0
      ensures ok == ConnectFrom(databaseUrl, 1, retries, baseDelay, reachable).1
      ensures connected == (old(connected) || ok)
      ensures databaseUrl == old(databaseUrl)
    {
      var attempt := 1;
      while attempt <= retries
        invariant attempt >= 1
        invariant log + ConnectFrom(databaseUrl, attempt, retries, baseDelay, reachable).0
               == old(log) + ConnectFrom(databaseUrl, 1, retries, baseDelay, reachable).0
        invariant ConnectFrom(databaseUrl, attempt, retries, baseDelay, reachable).1
               == ConnectFrom(databaseUrl, 1, retries, baseDelay, reachable).1
        invariant connected == old(connected) && databaseUrl == old(databaseUrl)
        decreases retries + 1 - attempt
      {
        log := log + [Attempt(databaseUrl, attempt)];
        if Reaches(reachable, attempt) {
          connected := true;
          return true;
        }
        if attempt < retries {
          log := log + [Wait(baseDelay * attempt)];
        }
        attempt := attempt + 1;
      }
      return false;
    }

    /** `close()` */
    method Close()
      modifies this
      ensures log == old(log) + [Closed(old(connected))]
      ensures connected == old(connected) && databaseUrl == old(databaseUrl)
    {
      log := log + [Closed(connected)];
    }

    /** One of the four fetches of `backup_data()`: the backup from table `k`
        on is this fetch followed, when it succeeds, by the backup from table
        `k + 1` on. */
    method FetchForBackup(k: nat, server: Server) returns (ok: bool)
      requires k < |BackupTables|
      modifies this
      ensures ok <==> FetchRows(BackupTables[k]) !in server.failing
      ensures ok ==> log + BackupFrom(BackupTables[k + 1..], server.failing).0
                     == old(log) + BackupFrom(BackupTables[k..], server.failing).0
      ensures ok ==> BackupFrom(BackupTables[k + 1..], server.failing).1 == BackupFrom(BackupTables[k..], server.failing).1
      ensures !ok ==> log == old(log) + BackupFrom(BackupTables[k..], server.failing).0
      ensures !ok ==> !BackupFrom(BackupTables[k..], server.failing).1
      ensures connected == old(connected) && databaseUrl == old(databaseUrl)
    {
      ok := Execute(FetchRows(BackupTables[k]), server);
      BackupFromAt(BackupTables, k, server.failing);
    }

    /** `backup_data()`: the four fetches; the first that raises ends the
        backup with an empty result. */
    method BackupData(server: Server) returns (saved: set<string>)
      modifies this
      ensures log == old(log) + BackupFrom(BackupTables, server.failing).0
      ensures saved == BackupResult(server.failing)
      ensures connected == old(connected) && databaseUrl == old(databaseUrl)
    {
      assert BackupTables[0..] == BackupTables;
      var ok := FetchForBackup(0, server);
      if !ok { return {}; }
      ok := FetchForBackup(1, server);
      if !ok { return {}; }
      ok := FetchForBackup(2, server);
      if !ok { return {}; }
      ok := FetchForBackup(3, server);
      if !ok { return {}; }
      assert BackupTables[4..] == [];
      saved := {"usuarios", "produtos", "clientes", "vendas"};
    }

    /** `truncate_all_tables()`; `failed` is the exception it re-raises. */
    method TruncateAllTables(server: Server) returns (failed: bool)
      modifies this
      ensures log == old(log) + TruncateRun(server).0
      ensures failed == TruncateRun(server).1
      ensures connected == old(connected) && databaseUrl == old(databaseUrl)
    {
      var ok := Execute(FetchCatalog, server);
      if !ok { return true; }
      var tableNames := server.catalog;
      if tableNames == [] { return false; }
      tableNames := WithoutMigrations(tableNames);
      var i := 0;
      while i < |tableNames|
        invariant 0 <= i <= |tableNames|
        invariant log + TruncateFrom(tableNames, i, server.failing).0 == old(log) + TruncateRun(server).0
        invariant TruncateFrom(tableNames, i, server.failing).1 == TruncateRun(server).1
        invariant connected == old(connected) && databaseUrl == old(databaseUrl)
      {
        var table := tableNames[i];
        if IsIdentifier(table) {
          ok := Execute(TruncateTable(table), server);
          if !ok { return true; }
        }
        i := i + 1;
      }
      return false;
    }

    /** `drop_all_tables()`; `failed` is the exception it re-raises. */
    method DropAllTables(server: Server) returns (failed: bool)
      modifies this
      ensures log == old(log) + DropRun(server).0
      ensures failed == DropRun(server).1
      ensures connected == old(connected) && databaseUrl == old(databaseUrl)
    {
      var ok := Execute(FetchCatalog, server);
      if !ok { return true; }
      var tableNames := server.catalog;
      if tableNames == [] { return false; }
      var i := 0;
      while i < |tableNames|
        invariant 0 <= i <= |tableNames|
        invariant log + DropFrom(tableNames, i) == old(log) + DropRun(server).0
        invariant connected == old(connected) && databaseUrl == old(databaseUrl)
      {
        var table := tableNames[i];
        if IsIdentifier(table) {
          // a failing drop is reported and the loop goes on
          ok := Execute(DropTable(table), server);
        }
        i := i + 1;
      }
      return false;
    }

    /** `create_admin_user()`: a failing hash step sends nothing, a failing
      insert is only reported. */
    method CreateAdminUser(server: Server)
      modifies this
      ensures log == old(log) + SeedEvents(server)
      ensures connected == old(connected) && databaseUrl == old(databaseUrl)
    {
      if server.hashFails { return; }
      var _ := Execute(InsertUser(SeedAdmin), server);
    }

    /** `reset_complete()`; `failed` is the exception it re-raises. */
    method ResetComplete(server: Server) returns (failed: bool)
      modifies this
      ensures log == old(log) + ResetRun(server).0
      ensures failed == ResetRun(server).1
      ensures connected == old(connected) && databaseUrl == old(databaseUrl)
    {
      ResetRunParts(server);
      ghost var start := log;
      var _ := BackupData(server);
      ghost var backedUp := log;
      failed := TruncateAllTables(server);
      assert log == backedUp + TruncateRun(server).0;
      if failed { return; }
      CreateAdminUser(server);
    }

    /** `reset_data_only()`: the same steps as `reset_complete()`. */
    method ResetDataOnly(server: Server) returns (failed: bool)
      modifies this
      ensures log == old(log) + ResetRun(server).0
      ensures failed == ResetRun(server).1
      ensures connected == old(connected) && databaseUrl == old(databaseUrl)
    {
      ResetRunParts(server);
      ghost var start := log;
      var _ := BackupData(server);
      ghost var backedUp := log;
      failed := TruncateAllTables(server);
      assert log == backedUp + TruncateRun(server).0;
      if failed { return; }
      CreateAdminUser(server);
    }
  }

  /** `DatabaseReset()`: `None` is the `ValueError` raised when neither
      environment variable holds a connection string. */
  method Construct(env: Env) returns (db: Option<DatabaseReset>)
    ensures db.None? <==> !Truthy(env.publicUrl) && !Truthy(env.internalUrl)
    ensures db.Some? ==> fresh(db.value) && SelectUrl(env).Some?
    ensures db.Some? ==> db.value.databaseUrl == NormalizeUrl(SelectUrl(env).value)
    ensures db.Some? ==> !db.value.connected && db.value.log == []
  {
    var url := SelectUrl(env);
    if url.None? { return None; }
    var created := new DatabaseReset(url.value);
    return Some(created);
  }
}
