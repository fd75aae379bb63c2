# reset_database_online.py, modelled and proved in Dafny

`reset_database_online.py` is an operator script that erases the data of the
online PostgreSQL database, keeping its structure, and then seeds one
administrator account. This project models the decisions the script makes and
proves properties of them. The network, the clock and the terminal are not
modelled. The database is a `Server` value fixed in advance: which connection
attempts get through, which table names the catalog lists, and which
statements raise, and whether the password hashing before the seed insert
raises. Every connection attempt, wait, statement and `close()` call is
appended to the event log of a `DatabaseReset` object, including a `close()`
that finds no connection to release.

The modules follow the parts of the script:

- `Text`: the string operations the script relies on, with Python's semantics. These are `startswith`, `replace` (every occurrence), `strip()` (the `isspace` set) and `lower()`.
- `Identifiers`: the name validator `^[A-Za-z_][A-Za-z0-9_]*$`, both as intended and as Python's `re` evaluates it.
- `Config`: the choice of connection string (`DATABASE_PUBLIC_URL or DATABASE_URL`) and its two scheme rewrites.
- `Catalog`: which catalog names the TRUNCATE and DROP loops act on.
- `Confirmation`: the two-step confirmation gate, as a state machine over the lines standard input delivers.
- `Reset`: the class `DatabaseReset`, with fields `databaseUrl`, `connected` and `log`. Its methods are `Connect` (the retry loop), `Close`, `BackupData`, `TruncateAllTables`, `DropAllTables`, `CreateAdminUser`, `ResetComplete` and `ResetDataOnly`. Each method is proved against a pure function that gives its events (`ConnectFrom`, `BackupFrom`, `TruncateRun`, `DropRun`, `ResetRun`), and the lemmas are stated about those functions.
- `Script`: `main()`. `RunScript` is proved equal to the whole-run function `MainSpec`, and the lemmas about runs are stated on `MainSpec`.

Delays are kept in tenths of a second, so the default base delay of 1.5 s is 15.
`input()` at end of file raises `EOFError`. `main`'s `except Exception` catches
it, and the model names that outcome `InputClosed`.

Three behaviours of the code are easy to misread, and the model follows the code:

- `backup_data` returns `{}` as soon as any of its four fetches raises. It does not return the tables saved so far.
- `main` connects before it asks for confirmation.
- An unrecognised action still connects and closes.

## Model

| member | source | states |
|---|---|---|
| Text.ReplaceAllWithoutOccurrence | reset_database_online.py:31-34 | `str.replace` leaves a string in which the pattern does not occur unchanged |
| Text.StartsWith | reset_database_online.py:31-33 | `str.startswith`; a predicate with no contract of its own, used by `Config.NormalizeUrl` and the `Config.Normalize…` lemmas |
| Text.ReplaceAll | reset_database_online.py:31-34 | `str.replace`, scanning from the left; no contract of its own, specified by `Text.ReplaceAllWithoutOccurrence`, `Text.ReplaceAllAroundFirstOccurrence` and `Text.ReplaceAllRemovesEveryOccurrence` |
| Text.ReplaceAllAroundFirstOccurrence | reset_database_online.py:31-34 | the text before the first occurrence is kept as it is, that occurrence becomes the replacement, and the scan goes on after it |
| Text.ReplaceAllRemovesEveryOccurrence | reset_database_online.py:31-34 | when the replacement can recreate no occurrence, either inside itself or across its left edge, no occurrence of the pattern is left anywhere in the result |
| Text.IsSpace | reset_database_online.py:353-358 | the characters Python's `str.isspace()` accepts, which `strip()` removes; a predicate with no contract of its own, used by `Text.StripStartSpec`, `Text.StripEndSpec` and `Text.StripRemovesPadding` |
| Text.Strip | reset_database_online.py:353-358 | `strip()`; no contract of its own, specified by `Text.StripSpec` and `Text.StripRemovesPadding` |
| Text.StripStart | reset_database_online.py:353-358 | `lstrip()`; no contract of its own, specified by `Text.StripStartSpec` |
| Text.StripEnd | reset_database_online.py:353-358 | `rstrip()`; no contract of its own, specified by `Text.StripEndSpec` |
| Text.StripSpec | reset_database_online.py:353-358 | `strip()` leaves no whitespace at either end and keeps an unpadded string as it is |
| Text.StripStartSpec | reset_database_online.py:353 | `lstrip()` removes exactly the leading run of whitespace |
| Text.StripEndSpec | reset_database_online.py:358 | `rstrip()` removes exactly the trailing run of whitespace |
| Text.StripRemovesPadding | reset_database_online.py:353-358 | any whitespace around an unpadded answer is removed, and nothing else is |
| Text.ToLower | reset_database_online.py:378 | `lower()` keeps the length, maps each character by itself and leaves no upper-case ASCII letter |
| Identifiers.IsIdentifier | reset_database_online.py:156-158 | the grammar the validator at lines 121 and 157 is meant to enforce, which the loops of the model use; a predicate with no contract of its own, related to the pattern as written by `Identifiers.MatchesAsWrittenIff` |
| Identifiers.MatchesAsWritten | reset_database_online.py:156-158 | the pattern at lines 121 and 157 as Python's `re.match` evaluates it; a predicate with no contract of its own, characterised by `Identifiers.MatchesAsWrittenIff` |
| Identifiers.MatchesAsWrittenIff | reset_database_online.py:121-122 | the pattern as Python evaluates it accepts exactly the identifiers and the identifiers followed by one trailing newline |
| Identifiers.TrailingNewlinePassesAsWritten | reset_database_online.py:157-158 | the name `"a\n"` passes the pattern as written and is not an identifier |
| Identifiers.Quote | reset_database_online.py:159 | the quoted identifier `"<table>"` in the f-strings here and at line 124; no contract of its own, specified by `Identifiers.QuotedIdentifierIsClosed` |
| Identifiers.QuotedIdentifierIsClosed | reset_database_online.py:124 | a validated name, put between double quotes, has quotes only at the two delimiting positions, so it cannot end the quoted identifier early |
| Config.Truthy | reset_database_online.py:24-25 | Python truthiness of an `os.getenv` result for the `or` and the `not`: unset and empty are both false; a predicate with no contract of its own, used by `Config.SelectUrl` |
| Config.SelectUrl | reset_database_online.py:21-28 | no URL exactly when both variables are unset or empty; a non-empty public URL wins; otherwise the internal one |
| Config.NormalizeUrl | reset_database_online.py:31-34 | the two guarded rewrites; no contract of its own, specified by the `Config.Normalize…` lemmas below |
| Config.NormalizeRemovesDriverScheme | reset_database_online.py:31-34 | a URL that starts with a driver scheme has every occurrence of that scheme rewritten: none is left anywhere in the normalised URL |
| Config.NormalizeKeepsWhatFollowsTheScheme | reset_database_online.py:31-34 | a driver scheme followed by a rest that does not contain it becomes the plain scheme followed by that same rest: user, host and database are kept |
| Config.NormalizeUrlCases | reset_database_online.py:31-34 | an asyncpg or psycopg2 scheme at the front becomes `postgresql://` with every further occurrence of that scheme rewritten; any other URL is unchanged |
| Config.NormalizedSchemeIsPlain | reset_database_online.py:31-34 | a driver-prefixed URL ends up starting with `postgresql://` |
| Config.NormalizeKeepsOtherUrls | reset_database_online.py:31-34 | a URL containing neither driver scheme is unchanged |
| Config.NormalizeLeavesLaterSchemeAfterPlainPrefix | reset_database_online.py:31-34 | a URL already starting with the plain scheme is unchanged, whatever follows |
| Catalog.WithoutMigrations | reset_database_online.py:153 | no name in the result is `alembic_version` |
| Catalog.WithoutMigrationsCounts | reset_database_online.py:153 | the filter removes every copy of `alembic_version` and keeps every other name as often as it is listed |
| Catalog.KeepValid | reset_database_online.py:156-158 | every name kept passes the validator |
| Catalog.KeepValidCounts | reset_database_online.py:156-158 | every valid name is kept as often as it is listed, and no invalid one is kept |
| Catalog.KeepValidIsSubsequence | reset_database_online.py:156-158 | the validation filter keeps catalog order |
| Catalog.KeepMatchingAsWritten | reset_database_online.py:156-158 | the validation filter as written, here and at lines 120-122; no contract of its own, specified by the `Catalog.AsWrittenFilter…` lemmas |
| Catalog.AsWrittenFilterBound | reset_database_online.py:156-158 | every name the validation loop as written (here and at lines 120-122) lets through is an identifier, or an identifier followed by one newline |
| Catalog.AsWrittenFilterAgreesOffNewlines | reset_database_online.py:156-158 | for this loop and the one at lines 120-122, on a catalog with no name ending in a newline, the loop as written keeps exactly the names `Catalog.KeepValid` keeps |
| Catalog.AsWrittenFilterKeepsTrailingNewline | reset_database_online.py:156-158 | the catalog `["a\n"]` keeps its one name under the loop as written and none under the corrected validator |
| Catalog.TruncateTargets | reset_database_online.py:153-158 | the migration filter followed by the validator; no contract of its own, specified by `Catalog.TruncateTargetsExactly` |
| Catalog.TruncateTargetsExactly | reset_database_online.py:147-160 | the truncate targets are exactly the valid names other than `alembic_version`, with their multiplicities, in catalog order; an empty catalog gives none |
| Catalog.DropTargetsExactly | reset_database_online.py:115-127 | the drop targets are exactly the valid names, `alembic_version` included, in catalog order |
| Confirmation.Step | reset_database_online.py:353-361 | one line read in a pending state, stripped and compared with the token; no contract of its own, specified through `Confirmation.ConfirmActionOutcome` |
| Confirmation.RunGate | reset_database_online.py:353-364 | the gate from a given state; it never reads more lines than there are |
| Confirmation.ConfirmAction | reset_database_online.py:347-364 | `confirm_action` on the lines standard input delivers; no contract of its own, specified by the `Confirmation.ConfirmAction…` lemmas and the two examples below |
| Confirmation.ConfirmActionOutcome | reset_database_online.py:353-364 | the gate proceeds exactly when the first two lines strip to `CONFIRMO` and `SIM`; a first mismatch cancels after one line, a second mismatch after two; missing input ends it with the input error |
| Confirmation.ConfirmActionReadsAtMostTwo | reset_database_online.py:353-358 | the gate reads at most two lines, and hits end of input only after reading everything there was |
| Confirmation.ConfirmActionReadsOnlyWhatItUses | reset_database_online.py:353-362 | lines after the ones the gate read do not change its decision; after a wrong first answer the second line is never read |
| Confirmation.LowerCaseFirstAnswerCancels | reset_database_online.py:354 | the comparison is case-sensitive: `confirmo` cancels |
| Confirmation.PaddedAnswersProceed | reset_database_online.py:353-358 | the two tokens surrounded by any whitespace proceed |
| Reset.ConnectFrom | reset_database_online.py:39-63 | the retry loop's events from attempt `k` on and its verdict; no contract of its own, specified by `Reset.ConnectSucceedsIff`, `Reset.ConnectSchedule` and `Reset.NoRetriesNoAttempts` |
| Reset.ConnectSucceedsIff | reset_database_online.py:39-63 | the loop connects exactly when some attempt from 1 to `retries` gets through |
| Reset.ConnectSchedule | reset_database_online.py:39-63 | attempts numbered from 1 alternate with waits of `base_delay * k` after failed attempt k; the loop stops at the first attempt that succeeds, never waits after its last attempt, and fails only after attempt `retries` |
| Reset.NoRetriesNoAttempts | reset_database_online.py:39 | with no attempts allowed the loop fails without trying |
| Reset.BackupFrom | reset_database_online.py:76-101 | the fetches `backup_data` issues; it issues at most one per table, and `Reset.BackupFromShape` gives the rest |
| Reset.BackupResult | reset_database_online.py:74-101 | the keys of the dictionary `backup_data` returns; no contract of its own, specified by `Reset.BackupResultAllOrNothing` |
| Reset.BackupFromShape | reset_database_online.py:76-101 | the fetches go in table order; the first one that raises is the last one issued; the backup succeeds exactly when no fetch raises |
| Reset.BackupResultAllOrNothing | reset_database_online.py:75-101 | the backup holds all four tables when every fetch succeeds, and none at all otherwise |
| Reset.TruncateFrom | reset_database_online.py:156-161 | the truncate loop from position `i`; no contract of its own, specified by the four `Reset.TruncateFrom…` lemmas |
| Reset.TruncateRun | reset_database_online.py:139-165 | `truncate_all_tables`: catalog query, empty-catalog return, migration filter and loop; no contract of its own, specified by `Reset.TruncateRunRaisesIff`, `Reset.TruncateRunIssuesTargets` and `Reset.TruncateRunTouchesOnlyTargets` |
| Reset.TruncateFromFollowsTargets | reset_database_online.py:156-160 | the TRUNCATEs issued are a prefix of one statement per target, in order, and all of them when none raises |
| Reset.TruncateFromFailsIff | reset_database_online.py:156-165 | the loop raises exactly when the TRUNCATE of some target fails |
| Reset.TruncateFromStopsAtFirstFailure | reset_database_online.py:156-165 | every TRUNCATE before the last one issued succeeded, and on an error the last one issued is the one that failed |
| Reset.TruncateRunRaisesIff | reset_database_online.py:139-165 | `truncate_all_tables` raises exactly when the catalog query or some target's TRUNCATE fails; what it issues is a prefix of the catalog query followed by one TRUNCATE per target; a failed catalog query issues nothing more, and otherwise a raise ends at the failing TRUNCATE |
| Reset.TruncateRunIssuesTargets | reset_database_online.py:139-160 | when nothing raises, the catalog query is followed by exactly one TRUNCATE per target, in catalog order |
| Reset.TruncateRunTouchesOnlyTargets | reset_database_online.py:139-160 | after the catalog query, the truncate path issues only TRUNCATEs of targets |
| Reset.TruncateFromIgnoresOtherFailures | reset_database_online.py:156-165 | failures of other statements change nothing in the truncate loop |
| Reset.DropFrom | reset_database_online.py:120-127 | the drop loop from position `i`; no contract of its own, specified by `Reset.DropFromIsKeepValid` |
| Reset.DropRun | reset_database_online.py:107-133 | `drop_all_tables`; no contract of its own, specified by `Reset.DropRunIssuesEveryValidName` |
| Reset.DropFromIsKeepValid | reset_database_online.py:120-127 | the drop loop issues one DROP per valid name, in order, whatever fails |
| Reset.DropRunIssuesEveryValidName | reset_database_online.py:107-133 | `drop_all_tables` raises only when the catalog query does, and otherwise drops every valid name, `alembic_version` included |
| Reset.SeedEvents | reset_database_online.py:263-296 | what `create_admin_user` sends: the insert, or nothing when the hashing before it raises; no contract of its own, specified through `Reset.DatabaseReset.CreateAdminUser` and `Script.ResetRunSteps` |
| Reset.ResetRun | reset_database_online.py:303-322 | backup, truncate and, unless the truncate raised, seed; no contract of its own, specified by `Reset.ResetIgnoresBackupAndSeedFailures`, `Script.ResetEventsOrdered` and `Script.ResetRunSteps` |
| Reset.ResetIgnoresBackupAndSeedFailures | reset_database_online.py:262-322 | failing backup fetches (caught at lines 99-101), a failing password hash or a failing insert change neither whether a reset raises nor what the truncate path issues |
| Reset.DatabaseReset.constructor | reset_database_online.py:30-34 | the two scheme rewrites, applied in order, give `NormalizeUrl` of the chosen URL, with an empty log and no connection |
| Reset.Construct | reset_database_online.py:19-34 | construction fails exactly when both variables are unset or empty; otherwise it gives a fresh object holding the normalised URL |
| Reset.DatabaseReset.Execute | reset_database_online.py:159 | one `conn.execute` or `conn.fetch`, as here and at lines 124 and 270: it appends the statement and raises exactly when the server fails it |
| Reset.DatabaseReset.FetchForBackup | reset_database_online.py:78-95 | one of the four backup fetches: it appends that fetch, and its outcome decides whether the backup goes on with the tables after it or ends there |
| Reset.DatabaseReset.Connect | reset_database_online.py:36-63 | the loop appends exactly the events of `ConnectFrom`, returns its verdict, and records the connection |
| Reset.DatabaseReset.Close | reset_database_online.py:65-69 | `close()` appends one close event, which releases a connection exactly when one was open |
| Reset.DatabaseReset.BackupData | reset_database_online.py:71-101 | appends exactly the backup fetches and returns the all-or-nothing result |
| Reset.DatabaseReset.TruncateAllTables | reset_database_online.py:135-165 | appends exactly the events of `TruncateRun` and raises exactly when it does |
| Reset.DatabaseReset.DropAllTables | reset_database_online.py:103-133 | appends exactly the events of `DropRun` and raises exactly when it does |
| Reset.DatabaseReset.CreateAdminUser | reset_database_online.py:259-296 | appends the insert unless the password hashing before it raised, in which case nothing is sent; it never raises |
| Reset.DatabaseReset.ResetComplete | reset_database_online.py:298-322 | backup, truncate and, unless the truncate raised, seed; raises exactly when the truncate did |
| Reset.DatabaseReset.ResetDataOnly | reset_database_online.py:324-345 | the same steps and the same error as `reset_complete` |
| Script.Dispatch | reset_database_online.py:392-404 | the action chain once connected; no contract of its own, specified by `Script.Act` and the `Script` lemmas below |
| Script.MainSpec | reset_database_online.py:366-410 | the whole run of `main()`; no contract of its own, specified by `Script.RunScript` and the `Script` lemmas below |
| Script.Act | reset_database_online.py:392-404 | the action chain appends exactly the events of `Dispatch`, with its error flag and the lines it read |
| Script.RunScript | reset_database_online.py:366-410 | `main()` produces exactly the trace, the ending and the input consumption of `MainSpec` |
| Script.NothingBeforeConfiguration | reset_database_online.py:371-385 | without an action, or without a connection string, nothing is sent to the database |
| Script.ConnectEventsShape | reset_database_online.py:39-63 | the connection phase opens with attempt 1, holds only attempts and waits, and every attempt is on the given URL and numbered from 1 to 3 |
| Script.ResetEventsOrdered | reset_database_online.py:303-311 | a reset's events go backup, then catalog query and truncates, then seed |
| Script.ResetRunSteps | reset_database_online.py:303-311 | a reset fetches `usuarios`, queries the catalog, and sends the seed insert exactly when the truncate did not raise and the hash did not fail |
| Script.CloseRunsOnceAtTheEnd | reset_database_online.py:387-410 | once construction succeeds, every run follows the phases in order and ends with exactly one close, which releases a connection exactly when one was opened |
| Script.NonDestructiveActionsIssueNothing | reset_database_online.py:389-404 | `check` and unrecognised actions, after lower-casing, start by connecting, read no input, issue no statement and end without error |
| Script.FailedConnectionStopsEarly | reset_database_online.py:389-390 | a failed connection reads no input, issues no statement and releases nothing |
| Script.ConfirmationOnlyAfterConnecting | reset_database_online.py:389-400 | input is read only by `complete` or `data`, and only after a successful connection |
| Script.DeclinedConfirmationIssuesNothing | reset_database_online.py:395-407 | a declined confirmation issues no statement; once connected, only running out of input is reported as an error |
| Script.ConfirmedResetRunsTheWorkflow | reset_database_online.py:395-401 | a confirmed `complete` or `data` backs up, queries the catalog, sends the seed insert exactly when the truncate did not raise and the password hashing did not fail, reports an error exactly when it did, and closes the connection |
| Script.DispatchIsSafe | reset_database_online.py:392-404 | whatever the action, it issues no DROP, and every TRUNCATE names a valid catalog entry other than `alembic_version` |
| Script.RunTruncatesOnlyValidCatalogNames | reset_database_online.py:366-410 | no run of `main` drops a table, and every TRUNCATE it issues is of a valid catalog name other than `alembic_version` |
| Script.CompleteAndDataAgree | reset_database_online.py:395-401 | `complete` and `data` produce the same run |
| Script.BackupAndSeedFailuresAreSwallowed | reset_database_online.py:295-296 | failing backup fetches (caught at lines 99-101), a failing password hash or a failing seed insert change neither how a run ends, nor how much input it reads, nor what the truncate path issues |

## Left out

- The asyncpg calls (`connect`, `fetch`, `execute`, `close`) and `asyncio.sleep` are network and clock I/O. They are replaced by the `Server` value and the event log.
- The `timeout=10` argument of `asyncpg.connect` is not modelled. An attempt that times out is one that does not get through.
- `create_tables` (the DDL) is static SQL text, and `main` never calls it.
- Row contents fetched by `backup_data` are not modelled; only which fetches happen and the all-or-nothing result are.
- Password hashing with werkzeug and `uuid4()` in `create_admin_user` are foreign calls and randomness. The admin row is kept without its id and hash. Whether the import or the hash raises is the `hashFails` flag of `Server`.
- The `print` output, `load_dotenv`, the `.env` existence check (it only prints) and the dependency check under `__main__` are I/O and environment plumbing.
- The "WinError 64" and "handshake" hints, and `last_err`, only feed diagnostic output.
- The backoff delay is an integer in tenths of a second rather than a float.
- `table or ""`: the catalog is a sequence of strings, so a `None` table name cannot occur.
- `KeyboardInterrupt` during `input()` is not modelled. It is not an `Exception`, and it would end the script without `main`'s handler.
- Text.ToLower: maps only ASCII letters. Python's `lower()` also maps other letters, such as `'K'` (the Kelvin sign) to `'k'`, which the model would not recognise as `check`.
- Catalog.KeepValid, Reset.TruncateRun, Reset.DropRun, Reset.DatabaseReset.TruncateAllTables, Reset.DatabaseReset.DropAllTables, Script.DispatchIsSafe, Script.RunTruncatesOnlyValidCatalogNames: the TRUNCATE and DROP loops are modelled with the corrected validator `Identifiers.IsIdentifier`, not with the pattern as written (see Findings). On a catalog name that ends in a newline, such as `"a\n"`, the code as written issues a statement that the model does not. `Catalog.AsWrittenFilterBound` bounds what the code lets through, and `Catalog.AsWrittenFilterAgreesOffNewlines` shows that the two agree on every catalog without such a name.
- Reset.DatabaseReset.Close: a `close()` that raises is not modelled. asyncpg re-raises when a graceful close fails, and because the call sits in the `finally` at line 410, that exception would escape `main`. The model gives every constructed run a `Finished` exit, which `Script.CloseRunsOnceAtTheEnd` states. A second `close()` on an already closed connection is not modelled either, because `main` calls it once.

## Findings

| source | as written | input that shows it | evidently intended | confidence | as-written member | corrected member |
|---|---|---|---|---|---|---|
| reset_database_online.py:121, reset_database_online.py:157 | `re.match(r"^[A-Za-z_][A-Za-z0-9_]*$", table)`: Python's `$` also matches just before a final newline | the catalog name `"a\n"` passes the check and would be interpolated into the quoted identifier | only names made entirely of identifier characters pass (`\Z` or `re.fullmatch`) | not executed | Identifiers.TrailingNewlinePassesAsWritten | Identifiers.IsIdentifier |
