# Fabric-sample order tracker: record retention and its rule engines

This project models the bookkeeping core of a small Flask application that takes
fabric-sample orders. A customer submits a request form. An administrator logs in,
lists the requests and moves each one through the statuses Outstanding, In Progress
and Dispatched. Around this sits a retention layer that promises that no order is
ever lost:

- Rows may leave the active table only as part of archiving. Archived rows are never
  deleted.
- Every insert, update and archive is written to a bounded audit log (the newest
  10,000 entries).
- A record can be located in the active table, the archive table or the audit log,
  in that order, and can be recovered from its last audit snapshot.
- An integrity check looks for ids present in both tables and for audited ids
  present in neither. It recovers the latter and counts dispatched rows older
  than 120 days.
- An emergency-recovery pass scans the audit log, counts orphans and duplicates,
  checks that the records are complete, and restores from backup snapshots.
  Restores are additive and all-or-nothing.
- A backup orchestrator runs any operation between a mandatory pre-operation
  backup and a post-operation verification. The verification combines the health
  check, the integrity check and a business-data plausibility check.

The smaller rule engines are also modelled:

- the sliding-window rate limiter and the login lockout;
- the input validators;
- the alert state machine of the database health monitor;
- the decision logic of the routes;
- the database-URL normalisation of the configuration;
- the retry-with-backoff decorator;
- the status counts of the maintenance module.

## How the model is built

**Storage.** The database and the JSON files become one value of type
`Integrity.State`:

- the active table and the archive table, as sequences in table order;
- the id sequence;
- the audit-log file, which may be missing, unreadable or a list of entries;
- two flags: whether the database answers queries, and whether files can be written.

The class `Integrity.Database` holds the same fields and carries out each operation
step by step, with loops where the source loops. Every method's postcondition ties
the new state and its result to a function on `State`. The lemmas state what the
source promises about those functions.

**Other state-holding objects.** These are classes whose methods are proved against
pure transition functions in the same way:

- the orchestrator's backup files and operations log;
- the rate limiter's tables;
- the health monitor.

**Pure code.** Validators, URL normalisation and `to_dict` are pure code and are
modelled by functions.

**Time.** A database timestamp is a calendar value, `DateTime.Timestamp`, with
microseconds. `to_dict` drops the microseconds, which `DateTime.Truncate` makes
visible.

The rate limiter and the monitor each take their clock as a parameter, in integer
microseconds.

**Other inputs as parameters:**

- the outcomes of the wrapped call in the retry decorator;
- the health probe's result;
- whether a password matched;
- the JSON encoder of the fabric list;
- whether a file write succeeds.

**Where the model follows the code as written:**

- An audit-log file that does not parse makes the integrity check report `error`.
  The check's `json.load` raises inside its `try`. The file is not treated as empty.
- `recover_from_audit_log` rebuilds from the latest entry for the id whatever that
  entry's operation is. It does not restrict itself to inserts and updates.
- Failed, missing and unreadable audit logs are distinguished as the code
  distinguishes them:
  - `_log_operation` leaves a corrupt file alone;
  - `_check_audit_log_for_record` reads it as holding nothing.
- In `update_status`, `get_or_404` raises inside the `try` block. An unknown id
  therefore answers "Error updating status", not a 404. The model returns
  `UpdateError` for it.
- A JSON body whose `status` is not a string cannot equal a valid status. It is
  modelled as an absent status and rejected as invalid.

**Quirks of the code, kept as written and proved:**

- Recovery and restore never copy `id`, so a recovered row gets a fresh id.
  - The recovered id stays missing (`Integrity.RecoveredStillMissing`).
  - Restoring the same backup twice re-creates its active rows
    (`Recovery.RestoreActiveRepeats`). It does not re-create archived rows
    (`Recovery.RestoreArchivedAgain`).
- The emergency audit scan computes the known ids once. A lost record with two
  audit entries is therefore recovered twice, while the integrity check attempts it
  once (`Recovery.AuditScanRecoversTwice`).
- The login lockout reads a dictionary private to the decorator. Failures are
  recorded in a different, module-level one, so no login is ever locked out
  (`RateLimiter.NeverLockedOut`). Had the two been the same table, recorded
  failures would lock the client out (`RateLimiter.FailuresLockOut`).
- The rate limiter's branch that would reopen an elapsed window cannot run, because
  the cleanup has already dropped every elapsed window
  (`RateLimiter.ReopenUnreachable`).
- In the monitoring loop, the consecutive-failure threshold never changes the alert
  decision (`Monitor.FailureThresholdRedundant`):
  - a successful check resets the counter before the evaluation;
  - a counter that has reached a threshold of at least one therefore means the
    current check failed;
  - a failed check raises an alert by itself.

## Model

| member | source | states |
|---|---|---|
| Basics.KeepLast | data_integrity.py:101-102 | `xs[-n:]` keeps exactly the newest min(len, n) elements, as a suffix of the input |
| Basics.AppendToLogSpec | data_integrity.py:97-109 | after an append to a readable, writable log file: the list ends with the new entry, has length min(old+1, cap), and is the newest part of old ++ [entry]; an unreadable or unwritable file is left unchanged (the failure is swallowed) |
| Basics.AppendToLogBounded | data_integrity.py:100-102 | an append never makes a log longer than the larger of its old length and its cap |
| Basics.StripSpec | security.py:26 | `strip` keeps one contiguous piece of the input, drops only whitespace around it, and leaves no whitespace at either end |
| Basics.StripIdempotent | security.py:26 | stripping twice equals stripping once |
| Basics.StripLeftSpec | security.py:26 | the result is a suffix of the input; only whitespace was dropped, and it starts with a non-space |
| Basics.StripRightSpec | security.py:26 | the result is a prefix of the input; only whitespace was dropped, and it ends with a non-space |
| Basics.PrefixSlice | security.py:29 | Python's `text[:n]`: a prefix of length min(n, len) for n ≥ 0 and of length max(0, len+n) for negative n |
| Basics.Lower | backup_orchestrator.py:184 | `.lower()` keeps the length and lower-cases each (ASCII) letter in place |
| DateTime.Truncate | models.py:50 | the timestamp with its microseconds dropped: microsecond 0, and earlier on the microsecond scale by exactly the dropped microseconds |
| DateTime.DayNumber | data_integrity.py:224-228 | the day number lies within its year's range on the day scale used for date comparisons |
| DateTime.DayNumberOrdered | database_maintenance.py:14-18 | a later calendar date has a larger day number, so comparisons of timestamps follow the calendar |
| DateTime.DaysBeforeNextYear | data_integrity.py:224 | the closed form for days before a year steps by exactly that year's length (leap years included) |
| DateTime.Digits | models.py:50-51 | a zero-padded field of exactly w ASCII digits |
| DateTime.ParseDigitsOfDigits | data_integrity.py:171 | reading back a zero-padded field gives the number |
| DateTime.ReadRender | data_integrity.py:171 | reading a rendered layout of digit fields and literal characters gives back the layout |
| DateTime.ReplaceChar | data_integrity.py:171 | `str.replace` of one character: same length, every occurrence replaced and nothing else |
| DateTime.ReplaceRender | data_integrity.py:171 | replacing a non-digit character in the rendered text is replacing it in the layout |
| DateTime.FormatNonEmpty | database_recovery.py:225 | the `%Y-%m-%d %H:%M:%S` text is never empty, so restore always converts it back |
| DateTime.FormatParseRoundTrip | models.py:50-51 | formatting a timestamp, replacing the space by `T` and parsing with `fromisoformat` gives it back truncated to whole seconds (from year 1000 on) |
| Models.ToDictShape | models.py:35-52 | `to_dict` produces exactly the fifteen column keys; the dispatch date serialises to null exactly when it is absent; the submission date is always a string |
| Models.ToDictDatesRead | models.py:50-51 | both date keys of `to_dict` read back as the dates truncated to whole seconds |
| Models.DateOrNullReadsAs | models.py:51 | a serialised optional date reads back as the truncated date, and null as none |
| Models.ConvertReadsAs | data_integrity.py:169-173 | a date key is converted to the datetime it reads as; a null date is assigned as it is |
| Models.ConstructDefaults | models.py:11-29 | a new row gets status Outstanding and submission date now when these are not assigned, takes the id the database supplies, and an unassigned or None NOT NULL column refuses the row |
| Models.ConstructAssigned | models.py:8-30 | assigning every column of a row builds exactly that row |
| Models.RecreateId | data_integrity.py:168 | a rebuilt row has the id the database supplied, never the snapshot's |
| Models.RecreateFromText | data_integrity.py:167-173 | rebuilding from a serialised row copies every column but `id`, with both dates converted |
| Models.ConstructWithDates | data_integrity.py:167-173 | building a row after the date conversion gives the row with those dates under the new id |
| Models.RecreateToDict | data_integrity.py:163-176 | rebuilding a row from its `to_dict` gives the same row under the new id with both dates truncated to whole seconds |
| Models.RecreateArchivedFromText | database_recovery.py:241-247 | rebuilding an archive row copies `original_id` and converts the archive and dispatch dates |
| Models.ConstructArchivedOf | database_recovery.py:241-247 | building an archive row from assigned columns gives exactly that row |
| Models.RecreateArchivedToDict | database_recovery.py:241-247 | rebuilding an archive row from its serialised form gives it back with truncated dates |
| Integrity.InsertedValid | data_integrity.py:67-70 | an insert under the next id keeps the primary keys distinct and adds exactly the new id |
| Integrity.FindActive | data_integrity.py:122 | the found row is in the table with the id; none exactly when no row has the id |
| Integrity.FindArchived | data_integrity.py:127 | the found archive row has the `original_id`; none exactly when no archive row has it |
| Integrity.Without | data_integrity.py:43-55 | the table minus the row with the id: nothing else is removed and nothing is added |
| Integrity.DeleteActiveGuard | data_integrity.py:43-55 | a delete succeeds exactly when the archiving flag is set; without it nothing changes and the integrity error is raised; with it the row leaves the table, nothing else in the tables changes, and exactly one `archive` entry with the row's serialised form is logged |
| Integrity.Database.DeleteArchived | data_integrity.py:58-64 | deleting an archived row is always refused |
| Integrity.Latest | data_integrity.py:142-153 | the last entry in log order with the id; none exactly when no entry has it |
| Integrity.Database.CheckAuditLogForRecord | data_integrity.py:134-153 | the reverse scan returns the latest entry for the id, and none for a missing or unreadable log |
| Integrity.Locate | data_integrity.py:121-132 | active first, then the archive table, then the audit log, then not found, each exactly under its condition; an unreachable database is an error |
| Integrity.Database.VerifyRecordExists | data_integrity.py:116-132 | the lookup on the database agrees with `Locate` |
| Integrity.RecoverSpec | data_integrity.py:155-184 | recovery succeeds exactly when the database answers and the latest entry rebuilds into a row; a failure changes nothing; a success inserts exactly that row under the next id and logs it |
| Integrity.RecoveredStillMissing | data_integrity.py:168 | a lost id is still in neither table after its recovery, which only adds the next id |
| Integrity.RecoverLoggedRow | data_integrity.py:163-176 | recovery from an entry holding a row's `to_dict` gives back that row under the next id with truncated dates |
| Integrity.Database.RecoverFromAuditLog | data_integrity.py:155-184 | the recovery on the database agrees with `Recover` |
| Integrity.RecoverEachValid | data_integrity.py:218-220 | recovering a list of ids keeps the keys valid, leaves the archive and the flags alone, only appends active rows, and reports only ids it was given |
| Integrity.MissingIds | data_integrity.py:207-213 | exactly the audited ids (request table, operation not `archive`) in neither table, each once |
| Integrity.Database.CollectMissing | data_integrity.py:207-213 | the scan of the log agrees with `MissingIds` |
| Integrity.Database.RecoverAll | data_integrity.py:218-220 | the recovery loop agrees with `RecoverEach` |
| Integrity.OldDispatched | data_integrity.py:226-229 | at most the table size; zero exactly when no dispatched row has a dispatch date before the cutoff |
| Integrity.RecoveredIssues | data_integrity.py:219-220 | one "recovered" issue per recovered id, in order |
| Integrity.DuplicateIssues | data_integrity.py:198-200 | no issue, or a single one that names active ∩ archived ids |
| Integrity.IntegrityVerdict | data_integrity.py:239-251 | the status is error exactly when the database is down, the log does not load or the 120-day cutoff underflows; otherwise healthy exactly when there is no issue; a healthy check changed nothing, and every check keeps the keys valid and the archive unchanged |
| Integrity.IntegrityCheckFrame | data_integrity.py:186-251 | the check leaves the flags and the archive table alone and only appends recovered rows to the active table |
| Integrity.MissingIssuesSpec | data_integrity.py:212-216 | the missing-id issue appears exactly when some audited id is in neither table, and names exactly those ids |
| Integrity.IntegrityIssues | data_integrity.py:192-216 | duplicates come first and are exactly active ids ∩ archived `original_id`s; the missing-id issue names exactly audited − (active ∪ archived) |
| Integrity.ConcludeKeeps | data_integrity.py:222-243 | the earlier issues stay in front, and only the archive-age issue may follow |
| Integrity.Database.PerformIntegrityCheck | data_integrity.py:186-251 | the check on the database agrees with `IntegrityCheck` |
| Integrity.Database.CheckLoaded | data_integrity.py:190-243 | the check's body, once the tables answer and the log has loaded, agrees with `IntegrityCheck` |
| Integrity.SnapshotOf | data_integrity.py:266-278 | the snapshot holds every active and every archived row serialised, in table order |
| Integrity.CreateBackupSnapshot | data_integrity.py:263-290 | a snapshot is made exactly when the tables can be read and the file written, and it is the copy of both tables |
| Integrity.Database.LogOperation | data_integrity.py:78-109 | the new audit file is the bounded append of the entry and nothing else changes |
| Integrity.Database.InsertRow | data_integrity.py:67-70 | a flushed insert adds the row and its `insert` entry |
| Integrity.Database.Delete | data_integrity.py:43-55 | the delete on the session agrees with `DeleteActive` |
| Recovery.Attempts | database_recovery.py:95-99 | one attempt per qualifying entry, for exactly the audited ids in neither table |
| Recovery.RecoverMissingEach | database_recovery.py:95-107 | the attempts are the integrity check's recovery of the same ids, and each is either counted as recovered or reported as an issue |
| Recovery.AuditScanCounts | database_recovery.py:77-113 | the scan makes one attempt per qualifying entry for an unknown id, so at least one per missing audited id, and every success adds one active row |
| Recovery.AuditScanKeeps | database_recovery.py:77-113 | the scan keeps the archive table, the flags and valid keys |
| Recovery.AuditScanRecoversTwice | database_recovery.py:90-92 | with the id set computed once, a lost record with an insert and an update entry is recovered twice, into two new rows, while the integrity check attempts it once |
| Recovery.LostRecordIds | database_recovery.py:95-99 | in that database the scan attempts the id twice, the integrity check once |
| Recovery.ScanAuditLog | database_recovery.py:77-113 | the scan on the database agrees with `AuditScan` |
| Recovery.RecoverNext | database_recovery.py:103-107 | one attempt on the database agrees with one step of the scan |
| Recovery.OrphanCount | database_recovery.py:121-132 | at most the number of archived rows |
| Recovery.OrphanCountZero | database_recovery.py:121-132 | no orphan is counted exactly when no id is in both tables |
| Recovery.CheckOrphanedArchives | database_recovery.py:115-137 | the loop on the database counts the orphans, changes nothing, and gives 0 when the database does not answer |
| Recovery.VerifyAllClean | database_recovery.py:145-165 | no problem is reported exactly when every active row has name, email and street, a submission date, and a dispatch date once Dispatched, and every archived row has a dispatch date |
| Recovery.ActiveProblemsClean | database_recovery.py:145-157 | the active rows raise no problem exactly when all are well formed |
| Recovery.ArchivedProblemsClean | database_recovery.py:160-165 | the archived rows raise no problem exactly when all have a dispatch date |
| Recovery.VerifyAllRecords | database_recovery.py:139-171 | the loops on the database agree with `VerifyAll` (total = active + archived rows) |
| Recovery.DuplicatesFound | database_recovery.py:179-196 | zero exactly when no archived `original_id` is an active id |
| Recovery.ResolveDuplicates | database_recovery.py:173-201 | nothing is resolved and nothing changes; the found count is as computed |
| Recovery.RestoreActiveSpec | database_recovery.py:215-231 | the active half keeps the existing rows in front, adds its count of rows under consecutive fresh ids, skips entries whose id exists, and keeps the keys valid; without a failure the count is the number of entries whose id was absent when reached |
| Recovery.RestoreActiveCounts | database_recovery.py:215-231 | on every prefix of the list that raises nothing, the count is the number of entries not skipped |
| Recovery.NothingToRestoreActive | database_recovery.py:218-219 | when every entry's id exists the active half adds nothing and changes nothing |
| Recovery.RestoreArchivedSpec | database_recovery.py:234-250 | the archive half appends its count of rows and changes nothing else; without a failure the count is the number of entries with no matching archived row when reached |
| Recovery.RestoreArchivedCounts | database_recovery.py:234-250 | on every prefix of the archive list that raises nothing, the count is the number of entries not skipped |
| Recovery.RestoreSpec | database_recovery.py:203-263 | all or nothing: a missing or unreadable file, a database error or a row that cannot be rebuilt leaves both tables as they were; a success keeps every row, appends the counted rows under fresh ids, and reports as counts exactly the active and archived entries that were not skipped |
| Recovery.RestoreActiveRepeats | database_recovery.py:224 | restoring the same absent active entry twice adds a row each time, because the restored row gets a fresh id |
| Recovery.RestoreOneActive | database_recovery.py:219-231 | a single absent, rebuildable entry is restored as exactly one inserted row |
| Recovery.RestoreArchivedAgain | database_recovery.py:237-239 | a second restore of the same archive list adds nothing |
| Recovery.RestoredArchivedPresent | database_recovery.py:237-250 | after the archive half every entry has a matching archived row |
| Recovery.RecreateArchivedOriginal | database_recovery.py:241-247 | a rebuilt archive row carries the entry's `original_id` |
| Recovery.NothingToRestore | database_recovery.py:238-239 | when every entry has a matching row the archive half adds none |
| Recovery.RestoreActiveStops | database_recovery.py:260-263 | once a row has failed the rest of the list changes nothing |
| Recovery.RestoreArchivedStops | database_recovery.py:260-263 | likewise for the archive half |
| Recovery.RestoreFromBackup | database_recovery.py:203-263 | the restore on the session agrees with `Restore` |
| Recovery.RestoreActiveRows | database_recovery.py:215-231 | the loop over active entries agrees with `RestoreActive` |
| Recovery.RestoreActiveRow | database_recovery.py:216-231 | one active entry: skipped when its id exists, else rebuilt and added |
| Recovery.RestoreArchivedRows | database_recovery.py:234-250 | the loop over archived entries agrees with `RestoreArchived` |
| Recovery.FullRecoveryScanSpec | database_recovery.py:29-75 | only the audit recovery changes anything; nothing is restored from backup or resolved; the orphan count is zero exactly when no id is in both tables; the snapshot holds the final tables |
| Recovery.PerformFullRecoveryScan | database_recovery.py:29-75 | the five steps on the database agree with `FullRecoveryScan` |
| Orchestrator.DistinctNames | backup_orchestrator.py:183 | the distinct company names, each once, exactly those of some row |
| Orchestrator.Companies | backup_orchestrator.py:184 | the lower-cased names, or a failure exactly when some name is null |
| Orchestrator.RealCompaniesFound | backup_orchestrator.py:199-204 | at most the number of reference companies; zero exactly when none is mentioned |
| Orchestrator.TestCompanyIssuesSpec | backup_orchestrator.py:187-189 | a critical issue for exactly the known test companies whose exact name occurs |
| Orchestrator.SuspiciousNamesSpec | backup_orchestrator.py:192-196 | a warning for exactly each company and pattern it contains, and only warnings |
| Orchestrator.NameWarningsSpec | backup_orchestrator.py:194-196 | the warnings of one company name exactly its patterns |
| Orchestrator.BusinessVerdict | backup_orchestrator.py:210-217 | contaminated exactly when an exact test-company name occurs or there are no records |
| Orchestrator.BusinessWarnings | backup_orchestrator.py:191-196 | a suspicious pattern is only a warning, for exactly the names containing it |
| Orchestrator.BusinessLowCount | backup_orchestrator.py:213-214 | one or two records are a warning and not an issue |
| Orchestrator.ValidateBusinessData | backup_orchestrator.py:173-232 | the nested loops agree with `ValidateBusiness` |
| Orchestrator.FindTestCompanies | backup_orchestrator.py:187-189 | the loop agrees with `TestCompanyIssues` |
| Orchestrator.FindSuspiciousNames | backup_orchestrator.py:193-196 | the nested loop agrees with `SuspiciousNames` |
| Orchestrator.CountRealCompanies | backup_orchestrator.py:199-204 | the loop with its `break` agrees with `RealCompaniesFound` |
| Orchestrator.Compare | backup_orchestrator.py:234-274 | a comparison exactly when the backup file exists and reads and the tables answer; the deltas are current − backup and their sum is the total change |
| Orchestrator.PreBackupGate | backup_orchestrator.py:49-98 | the backup fails exactly when the database is down or the disk refuses the file; a failure writes no snapshot; a success writes the tables as they were before the integrity check; either way one pre-operation entry, marked succeeded or failed, is appended to the operations log |
| Orchestrator.CriticalIssues | backup_orchestrator.py:133-141 | one critical issue per failing check: none exactly when health, integrity and business are all good |
| Orchestrator.PostVerificationFails | backup_orchestrator.py:157-160 | verification fails exactly when the integrity check cannot run; it never touches the backups |
| Orchestrator.PostVerificationHealthy | backup_orchestrator.py:109-113 | a completed verification always saw a healthy database |
| Orchestrator.PostVerificationStatus | backup_orchestrator.py:143-145 | issues are found exactly when the integrity check or the business validation fails |
| Orchestrator.ExecuteGate | backup_orchestrator.py:316-322 | when the backup fails the operation is never run and the failure is re-raised |
| Orchestrator.ExecuteResult | backup_orchestrator.py:324-340 | success exactly when backup, operation and verification all complete, carrying the operation's own value whatever the verification found |
| Orchestrator.Orchestrator.LogBackupOperation | backup_orchestrator.py:276-303 | the operations log is the read-modify-write append kept to 1000 entries |
| Orchestrator.Orchestrator.PreOperationBackup | backup_orchestrator.py:49-98 | the method agrees with `PreBackup` |
| Orchestrator.Orchestrator.PostOperationVerification | backup_orchestrator.py:100-160 | the method agrees with `PostVerification` |
| Orchestrator.Orchestrator.ExecuteWithSafeguards | backup_orchestrator.py:305-346 | the method agrees with `Execute` |
| Maintenance.CountStatus | database_maintenance.py:36-38 | at most the row count; zero exactly when no row has the status |
| Maintenance.CountOther | database_maintenance.py:35-38 | zero exactly when every row has one of the three statuses |
| Maintenance.StatusPartition | database_maintenance.py:35-38 | the three status counts and the others add up to the total |
| Maintenance.OneStatus | database_maintenance.py:36-38 | a row counts under exactly one of the three statuses or as other |
| Maintenance.HealthCheck | database_maintenance.py:26-53 | healthy exactly when the database answers, and then outstanding + in progress + dispatched ≤ total, with equality exactly when every status is one of the three |
| Maintenance.MaxMicrosIsLast | database_maintenance.py:14 | the bound is the instant of 9999-12-31 23:59:59.999999, and no timestamp lies beyond it |
| Maintenance.CountBefore | database_maintenance.py:17-19 | zero exactly when no time is before the cutoff, all exactly when every time is |
| Maintenance.CountBeforeMonotone | database_maintenance.py:17-19 | a later cutoff counts at least as many rows |
| Maintenance.ArchiveOldRequests | database_maintenance.py:9-24 | an error exactly when the database is down or the cutoff leaves the datetime range; otherwise the count of rows submitted strictly before now − days_to_keep, and nothing is deleted |
| Maintenance.BackupDatabase | database_maintenance.py:55-61 | always reports success |
| RateLimiter.Live | rate_limiter.py:30-31 | exactly the windows that have not elapsed, unchanged |
| RateLimiter.RateLimitSpec | rate_limiter.py:20-53 | refused exactly when the client's live window is full; a refusal counts nothing; an admission counts one more or opens a window of one; no other client's window changes beyond the cleanup |
| RateLimiter.ReopenUnreachable | rate_limiter.py:45-47 | after the cleanup every surviving window is open, so the reopening branch never runs |
| RateLimiter.RateLimitBounded | rate_limiter.py:39-44 | no stored count ever exceeds `max_requests` |
| RateLimiter.RequestCounter.Check | rate_limiter.py:24-51 | the decorator's update of the table agrees with `RateLimit` |
| RateLimiter.LoginGateSpec | rate_limiter.py:66-79 | blocked exactly while a client at the limit is inside its lockout, with the whole minutes left rounded down; an expired lockout resets the attempts to 0 |
| RateLimiter.RecordFailure | rate_limiter.py:85-92 | a new client gets one attempt; a known one one more, with the time updated; no other entry changes |
| RateLimiter.ResetAttempts | rate_limiter.py:94-97 | the client's entry is removed, nothing else changes, and an absent client is a no-op |
| RateLimiter.FailuresLockOut | rate_limiter.py:71-73 | were the two tables the same, enough recorded failures would lock the client out until the lockout runs out |
| RateLimiter.NeverLockedOut | rate_limiter.py:57 | as wired, from the empty decorator table no login is ever locked out, however many failures are recorded |
| RateLimiter.LoginGuard.CheckLogin | rate_limiter.py:61-81 | agrees with `LoginGate` and leaves the failure table alone |
| RateLimiter.LoginGuard.RecordFailedLogin | rate_limiter.py:85-92 | agrees with `RecordFailure` and leaves the decorator's table alone |
| RateLimiter.LoginGuard.ResetLoginAttempts | rate_limiter.py:94-97 | agrees with `ResetAttempts` and leaves the decorator's table alone |
| Security.FirstIndex | security.py:9 | the first position of the character, none exactly when it does not occur |
| Security.LastIndex | security.py:9 | the last position of the character, none exactly when it does not occur |
| Security.MatchEmailCorrect | security.py:9 | the matcher accepts exactly a non-empty local part of `[A-Za-z0-9._%+-]`, `@`, a domain, `.` and a top-level domain of at least two letters |
| Security.ValidateEmailSpec | security.py:7-10 | accepted exactly when the address, or the address without a final newline (which `$` allows), has that shape |
| Security.Cleaned | security.py:17 | removing whitespace, `-`, `(` and `)` leaves none of them, never lengthens, keeps every other character, and leaves a string without them unchanged |
| Security.CleanedSingle | security.py:17 | one character is removed exactly when it is a formatting character |
| Security.CleanedAppend | security.py:17 | the removal works piece by piece |
| Security.CleanedIgnoresFormatting | security.py:17 | a formatting character anywhere makes no difference |
| Security.PhoneShapeExact | security.py:18 | the shape test holds exactly for an optional `+` followed by 7 to 15 ASCII digits |
| Security.ValidatePhone | security.py:12-19 | an empty or absent phone is accepted; any other is accepted exactly when its cleaned form is an optional `+` followed by 7 to 15 digits |
| Security.StrayCharacterRejected | security.py:14-19 | a character that is not formatting, not a digit and not `+` (a letter, say) makes the phone invalid |
| Security.ValidatePhoneIgnoresFormatting | security.py:14-19 | adding a formatting character to a non-empty phone never changes the verdict |
| Security.FormattingOnlyRejected | security.py:14-19 | a phone of a single formatting character is not empty but is rejected |
| Security.SanitizeInput | security.py:21-24 | a falsy text is returned unchanged |
| Security.SanitizeSpec | security.py:25-30 | a non-empty text becomes a prefix of its stripped form, no longer than a positive limit, and whole when the limit is absent, zero or not exceeded |
| Security.SanitizeIdempotent | security.py:21-30 | without a limit sanitizing twice equals sanitizing once |
| Security.SanitizeCutKeepsSpace | security.py:28-29 | the cut can end on whitespace |
| Security.SanitizeSecondPassStrips | security.py:26 | which a second pass strips, so with a limit sanitizing is not idempotent |
| Security.ValidateStatus | security.py:41-44 | true for exactly Outstanding, In Progress and Dispatched |
| Security.ValidateFabricCutting | security.py:46-54 | true when empty, false above 200 characters, otherwise true exactly when every character is allowed |
| Security.AllCutting | security.py:54 | true exactly when every character is in the allowed set |
| Config.Normalize | config.py:30-64 | an error exactly when the URL is missing, empty or not PostgreSQL, and a missing-URL error exactly for a missing or empty one (in both environments); an accepted URL extends the given one |
| Config.NormalizeSsl | config.py:61-64 | a URL naming `sslmode=` is kept; otherwise `sslmode=require` is appended after `&` when it has a `?`, after `?` otherwise |
| Config.NormalizedRequiresSsl | config.py:56-64 | every accepted URL names `sslmode` and is still a PostgreSQL URL |
| Config.NormalizeIdempotent | config.py:61-64 | normalising an accepted URL again changes nothing |
| Retry.RetryFromSpec | app.py:26-35 | from any attempt: the calls stay within the attempts left, all but the last failed with a connection error, and each was followed by its scheduled wait |
| Retry.RetryFromEnd | app.py:26-37 | the last call decides the result: its value, a re-raised other error, a re-raised connection error on the final attempt, or a rejected negative wait |
| Retry.RetrySpec | app.py:21-39 | at most `max_retries` calls; False exactly when `max_retries` ≤ 0; the k-th wait is delay·2^k; a final connection error is re-raised after `max_retries` calls with no wait after it; any other error or a value comes from the last call |
| Retry.Retrying | app.py:25-37 | the loop agrees with `RetryDbOperation` |
| Monitor.ValidatedSmtp | database_monitor.py:88-100 | email alerts stay on exactly when they were on and a user name is configured; nothing else changes |
| Monitor.MetricsOf | database_monitor.py:107-214 | the metrics carry the time and response time; the query succeeds, the status is healthy and there is no error message exactly when the database was reached |
| Monitor.AfterCheck | database_monitor.py:174 | a success resets the failure counter, any failure adds exactly one, nothing else changes |
| Monitor.AlertConditions | database_monitor.py:224-233 | each condition is listed exactly when its threshold is passed; none exactly when none is |
| Monitor.ShouldAlertSpec | database_monitor.py:216-246 | an alert exactly when outside the cooldown and some condition holds |
| Monitor.CooldownSuppresses | database_monitor.py:236-240 | after an alert no alert is raised until the cooldown has run |
| Monitor.TriggeredLog | database_monitor.py:347-377 | the alert sets the last alert time and its event ends the alert log with the conditions that caused it, within the 100-event cap |
| Monitor.StoredSpec | database_monitor.py:389-395 | the history ends with the new metrics, holds the newest min(len+1, 1000) entries in order, and nothing else changes |
| Monitor.FailureThresholdRedundant | database_monitor.py:447-473 | in the loop the alert decision is: outside the cooldown, and the response was slow or the check failed |
| Monitor.StepBounded | database_monitor.py:447-473 | a step keeps the history within 1000 and the alert log within its cap |
| Monitor.StartStopIdempotent | database_monitor.py:475-498 | starting an active monitor or stopping an idle one changes nothing; both are idempotent |
| Monitor.TrailingFailures | database_monitor.py:193 | at most the number of checks |
| Monitor.RunFailures | database_monitor.py:174-211 | after a run of checks the counter is the number of failures since the last success, or the old count plus every check when all failed |
| Monitor.Successes | database_monitor.py:426-430 | at most the number of checks; all exactly when every check succeeded |
| Monitor.SummaryOf | database_monitor.py:417-445 | no data exactly when the history is empty; otherwise the newest check's status and the success count among the last ten |
| Monitor.SummaryShowsFailure | database_monitor.py:426-430 | a failed newest check makes the recent successes fewer than the recent checks |
| Monitor.DatabaseMonitor.ValidateSmtpConfig | database_monitor.py:88-100 | the method agrees with `ValidatedSmtp` |
| Monitor.DatabaseMonitor.CheckDatabaseHealth | database_monitor.py:107-214 | returns `MetricsOf` and updates the counter as `AfterCheck` |
| Monitor.DatabaseMonitor.EvaluateAlertConditions | database_monitor.py:216-246 | the condition-list loop agrees with `ShouldAlert` |
| Monitor.DatabaseMonitor.TriggerAlert | database_monitor.py:317-350 | agrees with `Triggered` |
| Monitor.DatabaseMonitor.LogAlertEvent | database_monitor.py:352-387 | the alert log is the bounded append of the event |
| Monitor.DatabaseMonitor.StoreHealthMetrics | database_monitor.py:389-415 | agrees with `Stored` |
| Monitor.DatabaseMonitor.StartMonitoring | database_monitor.py:475-485 | agrees with `Started` |
| Monitor.DatabaseMonitor.StopMonitoring | database_monitor.py:487-498 | agrees with `Stopped` |
| Monitor.DatabaseMonitor.MonitorStep | database_monitor.py:447-473 | one pass of the loop agrees with `Step` |
| Routes.SlotValues | routes.py:43-50 | the stripped value of every slot, in slot order |
| Routes.NonEmpty | routes.py:47-50 | the filter never lengthens |
| Routes.NonEmptySpec | routes.py:47-50 | it keeps every non-empty value and nothing else |
| Routes.NonEmptyNone | routes.py:47-50 | nothing survives exactly when every value is empty |
| Routes.CuttingsSpec | routes.py:43-50 | at most five cuttings, each the non-empty stripped value of a slot; every filled slot is included; none exactly when all are blank |
| Routes.CollectFabricCuttings | routes.py:44-48 | the `for i in range(1, 6)` loop agrees with `Cuttings` |
| Routes.SubmitSpec | routes.py:19-79 | stored exactly when all eight required fields and one cutting are present and the database answers; a rejection changes nothing and names its reason |
| Routes.SubmitInserts | routes.py:53-68 | a stored submission is the insert of the new row under the next id |
| Routes.SubmitStoresValid | routes.py:53-68 | it keeps the keys distinct under an id no row had |
| Routes.SubmitStoresRow | routes.py:53-68 | it appends one Outstanding, undispatched row submitted now and leaves the archive alone |
| Routes.SubmitRequest | routes.py:19-79 | the handler on the database agrees with `Submit` |
| Routes.SessionNeedsPassword | routes.py:81-92 | a session is an admin one only after a login with the right password and no logout since, or when it already was one with no logout |
| Routes.WithStatus | routes.py:108-109 | exactly the rows with the status, from the table |
| Routes.Dashboard | routes.py:94-141 | an unauthenticated session is redirected; with a filter only rows of that status are shown (all of them), with none every row |
| Routes.RequestDetails | routes.py:143-154 | an unauthenticated session is redirected; an unknown id is not found; a shown row has the id |
| Routes.Replace | routes.py:173-177 | the table with the row of the id replaced and every other row kept |
| Routes.UpdateStatusGuards | routes.py:156-190 | only an admin session with a valid status for an existing row changes anything; every other request leaves the tables and the log alone |
| Routes.UpdateStatusRow | routes.py:173-177 | the update sets the status of that row only; the dispatch date is set by a first dispatch only, and never overwritten or cleared |
| Routes.UpdateStatusHandler | routes.py:156-190 | the handler on the database agrees with `UpdateStatus` |

## Left out

- File I/O: the JSON files are values. The audit log, the operations log, the alert log and the backups are `LogFile` or `BackupFile` values. Their encoding, pretty-printing and file names are not modelled.
- The SHA-256 checksum of audit entries: it is a foreign library call and the core never reads it back.
- ORM and Flask machinery: queries, sessions, listeners, templates and redirects. Listeners are modelled by their effects, guarded deletes and logged inserts and updates.
- Transactions: modelled as a final commit, or as a rollback that restores both tables. The id sequence and the audit entries of a rolled-back restore are kept, as a real sequence keeps them.
- The archiver imported at backup_orchestrator.py:23: it is not defined by database_maintenance.py, so it is not part of this model.
- The archive table: only `original_id`, `date_archived` and `date_dispatched` are modelled. The `ArchivedRequest` class is not part of this model.
- Column lengths (VARCHAR limits): not enforced by the model.
- Non-column keys of a snapshot: carried but ignored, as the ORM ignores them.
- Dates other than `YYYY-MM-DD` and `YYYY-MM-DD?HH:MM:SS`: `DateTime.ParseIso` accepts only these two forms of `fromisoformat`'s input.
- DateTime.FormatParseRoundTrip: holds only from year 1000, because `%Y` does not pad shorter years.
- Wall-clock time, `time.sleep` and the wait between retries: these are parameters or returned values.
- Retry.RetrySpec: the delay is an integer. Fractional delays are not modelled.
- The dashboard's ORDER BY sorting: the model shows the filtered rows in table order. For `DISTINCT` (company names) the order is first appearance.
- JSON encoding of the fabric list: a parameter of the submission.
- The `json.loads` of the details page: its failure is not modelled.
- The regular expressions' `\d` and letter classes: modelled as ASCII. Python's `\d` also accepts other Unicode digits.
- Case folding: `.lower()` is ASCII-only.
- Password hashing: a login attempt carries whether the password matched.
- Flash messages: their text is not modelled. The lockout message's whole minutes are computed by `RateLimiter.LoginGate`.
- Database monitor: threads, the lock-file protocol, SMTP and e-mail sending are not modelled. Neither are alert callbacks, pool introspection or the health JSON file.
- Monitor.SummaryOf: the average response time and the success-rate percentage are floats and are left out.
- Response times: integer microseconds.
- Integrity.MissingIds and Integrity.RecoverEach: the missing ids are kept in order of first appearance in the audit log. The source collects them in a Python set, whose iteration order the language does not fix, so the order of recovered rows and of their new ids is the model's choice.
- Configuration settings other than the database URL: session cookies, secret keys and the Neon pooler notice (config.py:67-70).
- `require_admin` (security.py:32-39): none of the routes in the core uses it. Their own session checks are modelled in `Routes`.
- email_service.py, init_db.py, main.py, add_iliv_columns.py and test_data_security.py: not part of this model.
