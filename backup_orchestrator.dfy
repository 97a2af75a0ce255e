/** The backup orchestrator: a pre-operation backup gated on database health,
    a post-operation verification that gathers the health check, the
    integrity check, a plausibility check of the business data and a
    comparison with the backup, a bounded log of its own operations, and the
    wrapper that runs an operation between the two. Backup files are named by
    the time of the backup, so a backup id is that timestamp. */
module Orchestrator {
  import opened Basics
  import opened DateTime
  import opened Models
  import opened Integrity
  import opened Maintenance

  // ---------------------------------------------------------------------------
  // Business data validation
  // ---------------------------------------------------------------------------

  const KnownTestCompanies: seq<string> :=
    ["test company", "test corp", "prestwood fabric green", "demo company", "sample company", "fake company"]

  const KnownRealCompanies: seq<string> :=
    ["TAITS INTERIORS", "Suzanne Brennan", "Menadue Floor Coverings", "David Hall",
     "Harvest & Home Interiors", "The Bank Art Museum", "TURBILL BLINDS", "Philippa Beak"]

  const SuspiciousPatterns: seq<string> := ["test", "demo", "sample", "fake", "lorem", "placeholder"]

  /** The three reference lists the validation works from. */
  datatype ReferenceLists = ReferenceLists(testCompanies: seq<string>, realCompanies: seq<string>, patterns: seq<string>)

  const Lists := ReferenceLists(KnownTestCompanies, KnownRealCompanies, SuspiciousPatterns)

  datatype BusinessIssue = TestCompanyFound(company: string) | NoRecords | ValidationFailed

  datatype BusinessWarning =
    | SuspiciousName(company: string, pattern: string)
    | NoReferenceCompanies
    | LowRecordCount(count: nat)

  datatype BusinessStatus = Clean | Contaminated | ValidationError

  datatype BusinessReport = BusinessReport(
    status: BusinessStatus,
    issues: seq<BusinessIssue>,
    warnings: seq<BusinessWarning>,
    totalCompanies: nat,
    realCompaniesFound: nat,
    totalRecords: nat)

  /** The distinct company names, in first-appearance order. */
  function DistinctNames(rows: seq<Record>): (r: seq<Option<string>>)
    ensures forall x :: x in r <==> exists row | row in rows :: row.companyName == x
    ensures forall i, j | 0 <= i < j < |r| :: r[i] != r[j]
  {
    if rows == [] then []
    else
      var n := |rows| - 1;
      var prev := DistinctNames(rows[..n]);
      if rows[n].companyName in prev then prev else prev + [rows[n].companyName]
  }

  /** The lower-cased distinct company names; a null name makes `.lower()`
      raise, which is `None` here. */
  function Companies(names: seq<Option<string>>): (r: Option<seq<string>>)
    ensures r.Some? <==> forall i | 0 <= i < |names| :: names[i].Some?
    ensures r.Some? ==> |r.value| == |names|
    ensures r.Some? ==> forall i | 0 <= i < |names| :: r.value[i] == Lower(names[i].value)
  {
    if names == [] then Some([])
    else
      var n := |names| - 1;
      var prev := Companies(names[..n]);
      if prev.None? || names[n].None? then None else Some(prev.value + [Lower(names[n].value)])
  }

  /** A critical issue for each known test company whose exact name is among
      the companies. */
  function TestCompanyIssues(tests: seq<string>, companies: seq<string>): seq<BusinessIssue>
  {
    if tests == [] then []
    else
      var n := |tests| - 1;
      TestCompanyIssues(tests[..n], companies)
      + (if Lower(tests[n]) in companies then [TestCompanyFound(tests[n])] else [])
  }

  /** A warning for each company and each pattern it contains. */
  function SuspiciousNames(companies: seq<string>, patterns: seq<string>): seq<BusinessWarning>
  {
    if companies == [] then []
    else
      var n := |companies| - 1;
      SuspiciousNames(companies[..n], patterns) + NameWarnings(companies[n], patterns)
  }

  function NameWarnings(company: string, patterns: seq<string>): seq<BusinessWarning>
  {
    if patterns == [] then []
    else
      var n := |patterns| - 1;
      NameWarnings(company, patterns[..n])
      + (if Contains(Lower(company), patterns[n]) then [SuspiciousName(company, patterns[n])] else [])
  }

  predicate Mentions(companies: seq<string>, reference: string)
  {
    exists c | c in companies :: Contains(Lower(c), Lower(reference))
  }

  /** The reference companies whose name occurs in some company name. */
  function RealCompaniesFound(reals: seq<string>, companies: seq<string>): (n: nat)
    ensures n <= |reals|
    ensures n == 0 <==> forall i | 0 <= i < |reals| :: !Mentions(companies, reals[i])
  {
    if reals == [] then 0
    else
      var m := |reals| - 1;
      assert forall i | 0 <= i < m :: reals[..m][i] == reals[i];
      RealCompaniesFound(reals[..m], companies) + (if Mentions(companies, reals[m]) then 1 else 0)
  }

  /** `_validate_business_data` on the active rows. A database that does not
      answer, or a null company name, gives the error result. */
  function ValidateBusiness(rows: seq<Record>, online: bool, lists: ReferenceLists): BusinessReport
  {
    var cs := if online then Companies(DistinctNames(rows)) else None;
    if cs.None? then BusinessReport(ValidationError, [ValidationFailed], [], 0, 0, 0)
    else
      var companies := cs.value;
      var issues := TestCompanyIssues(lists.testCompanies, companies) + (if |rows| == 0 then [NoRecords] else []);
      var found := RealCompaniesFound(lists.realCompanies, companies);
      var warnings := SuspiciousNames(companies, lists.patterns)
        + (if found == 0 && |companies| > 0 then [NoReferenceCompanies] else [])
        + (if 0 < |rows| < 3 then [LowRecordCount(|rows|)] else []);
      BusinessReport(if issues == [] then Clean else Contaminated, issues, warnings, |companies|, found, |rows|)
  }

  /** Exactly the known test companies that occur, each once per listing. */
  lemma {:induction false} TestCompanyIssuesSpec(tests: seq<string>, companies: seq<string>)
    ensures forall x :: TestCompanyFound(x) in TestCompanyIssues(tests, companies) <==>
      x in tests && Lower(x) in companies
    ensures NoRecords !in TestCompanyIssues(tests, companies)
    ensures TestCompanyIssues(tests, companies) == [] <==> forall t | t in tests :: Lower(t) !in companies
  {
    if tests != [] {
      var n := |tests| - 1;
      TestCompanyIssuesSpec(tests[..n], companies);
      assert forall t | t in tests :: t in tests[..n] || t == tests[n];
      assert forall t | t in tests[..n] :: t in tests;
    }
  }

  /** A warning names exactly a company and a pattern it contains. */
  lemma {:induction false} SuspiciousNamesSpec(companies: seq<string>, patterns: seq<string>)
    ensures forall c, p :: SuspiciousName(c, p) in SuspiciousNames(companies, patterns) <==>
      c in companies && p in patterns && Contains(Lower(c), p)
    ensures forall w | w in SuspiciousNames(companies, patterns) :: w.SuspiciousName?
  {
    if companies != [] {
      var n := |companies| - 1;
      SuspiciousNamesSpec(companies[..n], patterns);
      NameWarningsSpec(companies[n], patterns);
      assert forall c | c in companies :: c in companies[..n] || c == companies[n];
      assert forall c | c in companies[..n] :: c in companies;
    }
  }

  lemma {:induction false} NameWarningsSpec(company: string, patterns: seq<string>)
    ensures forall c, p :: SuspiciousName(c, p) in NameWarnings(company, patterns) <==>
      c == company && p in patterns && Contains(Lower(c), p)
    ensures forall w | w in NameWarnings(company, patterns) :: w.SuspiciousName?
  {
    if patterns != [] {
      var n := |patterns| - 1;
      NameWarningsSpec(company, patterns[..n]);
      assert forall p | p in patterns :: p in patterns[..n] || p == patterns[n];
      assert forall p | p in patterns[..n] :: p in patterns;
    }
  }

  /** The verdict: contaminated exactly when an exact test-company name occurs
      or there are no records. */
  lemma {:induction false} BusinessVerdict(rows: seq<Record>, lists: ReferenceLists, companies: seq<string>)
    requires Companies(DistinctNames(rows)) == Some(companies)
    ensures ValidateBusiness(rows, true, lists).status == Contaminated <==>
      |rows| == 0 || exists t | t in lists.testCompanies :: Lower(t) in companies
  {
    TestCompanyIssuesSpec(lists.testCompanies, companies);
  }

  /** A suspicious pattern is only a warning, raised for exactly the company
      names that contain it. */
  lemma {:induction false} BusinessWarnings(rows: seq<Record>, lists: ReferenceLists, companies: seq<string>)
    requires Companies(DistinctNames(rows)) == Some(companies)
    ensures forall c, p :: SuspiciousName(c, p) in ValidateBusiness(rows, true, lists).warnings <==>
      c in companies && p in lists.patterns && Contains(Lower(c), p)
  {
    SuspiciousNamesSpec(companies, lists.patterns);
  }

  /** One or two records are a warning, not an issue. */
  lemma {:induction false} BusinessLowCount(rows: seq<Record>, lists: ReferenceLists, companies: seq<string>)
    requires Companies(DistinctNames(rows)) == Some(companies) && 0 < |rows| < 3
    ensures LowRecordCount(|rows|) in ValidateBusiness(rows, true, lists).warnings
    ensures NoRecords !in ValidateBusiness(rows, true, lists).issues
  {
    TestCompanyIssuesSpec(lists.testCompanies, companies);
  }

  // ---------------------------------------------------------------------------
  // Comparison with the backup
  // ---------------------------------------------------------------------------

  datatype Comparison =
    | Compared(activeChange: int, archivedChange: int, totalChange: int,
               backupActive: nat, backupArchived: nat, currentActive: nat, currentArchived: nat)
    | CompareError

  /** `_compare_with_backup`: the count deltas, current minus backup. */
  function Compare(snapshots: map<Timestamp, BackupFile>, id: Timestamp, s: State): (c: Comparison)
    ensures c.Compared? <==> id in snapshots && snapshots[id].Stored? && s.online
    ensures c.Compared? ==>
      && c.backupActive == |snapshots[id].backup.active| && c.backupArchived == |snapshots[id].backup.archived|
      && c.currentActive == |s.active| && c.currentArchived == |s.archived|
      && c.activeChange == c.currentActive - c.backupActive
      && c.archivedChange == c.currentArchived - c.backupArchived
      && c.totalChange == c.activeChange + c.archivedChange
  {
    if id !in snapshots || !snapshots[id].Stored? || !s.online then CompareError
    else
      var b := snapshots[id].backup;
      Compared(|s.active| - |b.active|, |s.archived| - |b.archived|,
               (|s.active| + |s.archived|) - (|b.active| + |b.archived|),
               |b.active|, |b.archived|, |s.active|, |s.archived|)
  }

  // ---------------------------------------------------------------------------
  // The operations log, the backup, the verification
  // ---------------------------------------------------------------------------

  const OperationsLogCap := 1000

  datatype Step = PreOperationStep | PostOperationStep

  datatype BackupError = DatabaseUnhealthy | SnapshotNotWritten

  datatype VerifyStatus = VerifySuccess | VerifyIssuesFound

  datatype LogStatus = Succeeded | Failed | Verified(status: VerifyStatus)

  datatype OperationEntry = OperationEntry(at: Timestamp, step: Step, backupId: Timestamp, operationType: string, status: LogStatus)

  /** What the orchestrator keeps on disk: its operations log and the backup
      files by id. */
  datatype Files = Files(log: LogFile<OperationEntry>, snapshots: map<Timestamp, BackupFile>)

  /** `_log_backup_operation`: append, keep the newest 1000; a failure is
      swallowed. */
  function Logged(f: Files, e: OperationEntry, writable: bool): Files
  {
    f.(log := AppendToLog(f.log, e, OperationsLogCap, writable))
  }

  /** `pre_operation_backup` with the time of the backup as its id. An
      unhealthy database stops it before any snapshot is taken; otherwise the
      tables are copied, the integrity check runs (and may recover rows), and
      the snapshot is written. */
  function PreBackup(s: State, f: Files, now: Timestamp, operation: string): (State, Files, Result<Timestamp, BackupError>)
  {
    if !HealthCheck(s.active, s.online).Healthy? then
      (s, Logged(f, OperationEntry(now, PreOperationStep, now, operation, Failed), s.diskWritable), Err(DatabaseUnhealthy))
    else
      var b := SnapshotOf(s);
      var t := IntegrityCheck(s, now).0;
      if !t.diskWritable then
        (t, Logged(f, OperationEntry(now, PreOperationStep, now, operation, Failed), t.diskWritable), Err(SnapshotNotWritten))
      else
        (t, Logged(f.(snapshots := f.snapshots[now := Stored(b)]), OperationEntry(now, PreOperationStep, now, operation, Succeeded), t.diskWritable),
         Ok(now))
  }

  /** The gate: the backup fails exactly when the database is down or the disk
      does not take the file; a failed backup writes no snapshot, a successful
      one writes the tables as they were before the integrity check; either
      way one pre-operation entry, marked with the outcome, is logged. */
  lemma PreBackupGate(s: State, f: Files, now: Timestamp, operation: string)
    ensures var (t, g, r) := PreBackup(s, f, now, operation);
      && (r.Err? <==> !s.online || !s.diskWritable)
      && (r.Err? ==> g.snapshots == f.snapshots)
      && (!s.online ==> t == s && r == Err(DatabaseUnhealthy))
      && (r.Ok? ==> r.value == now && g.snapshots == f.snapshots[now := Stored(SnapshotOf(s))])
      && |s.active| <= |t.active| && t.active[..|s.active|] == s.active && t.archived == s.archived
      && g.log == AppendToLog(f.log, OperationEntry(now, PreOperationStep, now, operation,
                                                    if r.Ok? then Succeeded else Failed),
                              OperationsLogCap, s.diskWritable)
  {
    IntegrityCheckFrame(s, now);
  }

  datatype CriticalIssue =
    | HealthCompromised
    | IntegrityIssues(found: seq<Issue>)
    | BusinessContamination(problems: seq<BusinessIssue>)

  datatype Verification = Verification(
    status: VerifyStatus,
    health: Health,
    integrity: Report,
    business: BusinessReport,
    comparison: Comparison,
    critical: seq<CriticalIssue>)

  /** One critical issue per failing check, in the order of the checks. */
  function CriticalIssues(h: Health, integrity: Report, business: BusinessReport): (r: seq<CriticalIssue>)
    ensures r == [] <==> h.Healthy? && integrity.status == CheckStatus.Healthy && business.status == Clean
    ensures HealthCompromised in r <==> !h.Healthy?
    ensures |r| == (if h.Healthy? then 0 else 1) + (if integrity.status == CheckStatus.Healthy then 0 else 1)
      + (if business.status == Clean then 0 else 1)
  {
    (if !h.Healthy? then [HealthCompromised] else [])
    + (if integrity.status != CheckStatus.Healthy then [IntegrityIssues(integrity.issues)] else [])
    + (if business.status != Clean then [BusinessContamination(business.issues)] else [])
  }

  /** `post_operation_verification`. An integrity result of `error` carries
      no issue list, so reporting it raises; that is the failure result. */
  function PostVerification(s: State, f: Files, now: Timestamp, id: Timestamp, operation: string): (State, Files, Option<Verification>)
  {
    var h := HealthCheck(s.active, s.online);
    var (t, integrity) := IntegrityCheck(s, now);
    var business := ValidateBusiness(t.active, t.online, Lists);
    var comparison := Compare(f.snapshots, id, t);
    if integrity.status == CheckError then
      (t, Logged(f, OperationEntry(now, PostOperationStep, id, operation, Failed), t.diskWritable), None)
    else
      var critical := CriticalIssues(h, integrity, business);
      var status := if critical == [] then VerifySuccess else VerifyIssuesFound;
      (t, Logged(f, OperationEntry(now, PostOperationStep, id, operation, Verified(status)), t.diskWritable),
       Some(Verification(status, h, integrity, business, comparison, critical)))
  }

  /** The verification fails exactly when the integrity check cannot run. */
  lemma PostVerificationFails(s: State, f: Files, now: Timestamp, id: Timestamp, operation: string)
    ensures PostVerification(s, f, now, id, operation).2.None? <==>
      !s.online || s.audit.Corrupt? || Micros(now) < Days(ArchiveAfterDays)
    ensures PostVerification(s, f, now, id, operation).1.snapshots == f.snapshots
  {
    IntegrityVerdict(s, now);
  }

  /** An unreachable database also fails the integrity check, so a completed
      verification always saw a healthy database; the backups are untouched. */
  lemma PostVerificationHealthy(s: State, f: Files, now: Timestamp, id: Timestamp, operation: string)
    ensures PostVerification(s, f, now, id, operation).2.Some? ==>
      PostVerification(s, f, now, id, operation).2.value.health.Healthy?
  {
    IntegrityVerdict(s, now);
  }

  /** Issues are found exactly when the integrity check or the business
      validation fails. */
  lemma PostVerificationStatus(s: State, f: Files, now: Timestamp, id: Timestamp, operation: string)
    requires PostVerification(s, f, now, id, operation).2.Some?
    ensures var v := PostVerification(s, f, now, id, operation).2.value;
      v.status == VerifyIssuesFound <==>
        v.integrity.status != CheckStatus.Healthy || v.business.status != Clean
  {
    IntegrityVerdict(s, now);
  }

  // ---------------------------------------------------------------------------
  // The safeguarded operation
  // ---------------------------------------------------------------------------

  /** What a wrapped operation does to the database: it returns a value, or it
      raises (leaving whatever it committed). */
  datatype Outcome<T> = Returned(db: State, value: T) | Raised(db: State)

  datatype SafeguardError = BackupFailed(reason: BackupError) | OperationFailed | VerificationFailed

  datatype Safeguarded<T> = Safeguarded(operation: string, result: T, backupId: Timestamp, verification: Verification)

  /** `execute_with_safeguards`: backup, operation, verification; any failure
      becomes the error result. */
  function Execute<T>(s: State, f: Files, now: Timestamp, later: Timestamp, name: string, op: State -> Outcome<T>)
    : (State, Files, Result<Safeguarded<T>, SafeguardError>)
  {
    var (s1, f1, b) := PreBackup(s, f, now, name);
    if b.Err? then (s1, f1, Err(BackupFailed(b.error)))
    else
      match op(s1)
      case Raised(s2) => (s2, f1, Err(OperationFailed))
      case Returned(s2, v) =>
        var (s3, f2, ver) := PostVerification(s2, f1, later, b.value, name);
        if ver.None? then (s3, f2, Err(VerificationFailed))
        else (s3, f2, Ok(Safeguarded(name, v, b.value, ver.value)))
  }

  /** When the backup fails the operation is never run: any two operations
      give the same outcome. */
  lemma ExecuteGate<T>(s: State, f: Files, now: Timestamp, later: Timestamp, name: string, op1: State -> Outcome<T>, op2: State -> Outcome<T>)
    requires PreBackup(s, f, now, name).2.Err?
    ensures Execute(s, f, now, later, name, op1) == Execute(s, f, now, later, name, op2)
    ensures Execute(s, f, now, later, name, op1).2 == Err(BackupFailed(PreBackup(s, f, now, name).2.error))
  {
  }

  /** A successful run carries the operation's own value, whatever the
      verification found, and succeeds exactly when the backup, the operation
      and the verification all complete. */
  lemma ExecuteResult<T>(s: State, f: Files, now: Timestamp, later: Timestamp, name: string, op: State -> Outcome<T>)
    ensures var (s1, f1, b) := PreBackup(s, f, now, name);
      var r := Execute(s, f, now, later, name, op).2;
      && (r.Ok? <==>
            b.Ok? && op(s1).Returned? && PostVerification(op(s1).db, f1, later, b.value, name).2.Some?)
      && (r.Ok? ==> r.value.result == op(s1).value && r.value.backupId == now && r.value.operation == name)
      && (b.Ok? && op(s1).Raised? ==> r == Err(OperationFailed))
  {
  }

  class Orchestrator {
    var log: LogFile<OperationEntry>
    var snapshots: map<Timestamp, BackupFile>

    function Contents(): Files
      reads this
    {
      Files(log, snapshots)
    }

    constructor (f: Files)
      ensures Contents() == f
    {
      log, snapshots := f.log, f.snapshots;
    }

    /** `_log_backup_operation` as a read-modify-write of the list. */
    method LogBackupOperation(e: OperationEntry, writable: bool)
      modifies this
      ensures Contents() == Logged(old(Contents()), e, writable)
    {
      if log.Corrupt? {
        return;
      }
      var entries := Loaded(log);
      entries := entries + [e];
      if |entries| > OperationsLogCap {
        entries := entries[|entries| - OperationsLogCap..];
      }
      if writable {
        log := Entries(entries);
      }
    }

    method PreOperationBackup(db: Database, now: Timestamp, operation: string) returns (r: Result<Timestamp, BackupError>)
      modifies this, db
      ensures (db.Contents(), Contents(), r) == PreBackup(old(db.Contents()), old(Contents()), now, operation)
    {
      var health := HealthCheck(db.active, db.online);
      if !health.Healthy? {
        LogBackupOperation(OperationEntry(now, PreOperationStep, now, operation, Failed), db.diskWritable);
        return Err(DatabaseUnhealthy);
      }
      var b := SnapshotOf(db.Contents());
      var _ := db.PerformIntegrityCheck(now);
      if !db.diskWritable {
        LogBackupOperation(OperationEntry(now, PreOperationStep, now, operation, Failed), db.diskWritable);
        return Err(SnapshotNotWritten);
      }
      snapshots := snapshots[now := Stored(b)];
      LogBackupOperation(OperationEntry(now, PreOperationStep, now, operation, Succeeded), db.diskWritable);
      return Ok(now);
    }

    method PostOperationVerification(db: Database, now: Timestamp, id: Timestamp, operation: string) returns (v: Option<Verification>)
      modifies this, db
      ensures (db.Contents(), Contents(), v) == PostVerification(old(db.Contents()), old(Contents()), now, id, operation)
    {
      var health := HealthCheck(db.active, db.online);
      var integrity := db.PerformIntegrityCheck(now);
      var business := ValidateBusinessData(db, Lists);
      var comparison := Compare(snapshots, id, db.Contents());
      if integrity.status == CheckError {
        LogBackupOperation(OperationEntry(now, PostOperationStep, id, operation, Failed), db.diskWritable);
        return None;
      }
      var critical := CriticalIssues(health, integrity, business);
      var status := if critical == [] then VerifySuccess else VerifyIssuesFound;
      LogBackupOperation(OperationEntry(now, PostOperationStep, id, operation, Verified(status)), db.diskWritable);
      return Some(Verification(status, health, integrity, business, comparison, critical));
    }

    method ExecuteWithSafeguards<T>(db: Database, now: Timestamp, later: Timestamp, name: string, op: State -> Outcome<T>)
      returns (r: Result<Safeguarded<T>, SafeguardError>)
      modifies this, db
      ensures (db.Contents(), Contents(), r) == Execute(old(db.Contents()), old(Contents()), now, later, name, op)
    {
      var b := PreOperationBackup(db, now, name);
      if b.Err? {
        return Err(BackupFailed(b.error));
      }
      var outcome := op(db.Contents());
      db.Assign(outcome.db);
      if outcome.Raised? {
        return Err(OperationFailed);
      }
      var ver := PostOperationVerification(db, later, b.value, name);
      if ver.None? {
        return Err(VerificationFailed);
      }
      return Ok(Safeguarded(name, outcome.value, b.value, ver.value));
    }
  }

  /** `_validate_business_data` with its loops. */
  method ValidateBusinessData(db: Database, lists: ReferenceLists) returns (b: BusinessReport)
    ensures b == ValidateBusiness(db.active, db.online, lists)
  {
    var cs := if db.online then Companies(DistinctNames(db.active)) else None;
    if cs.None? {
      return BusinessReport(ValidationError, [ValidationFailed], [], 0, 0, 0);
    }
    var companies := cs.value;
    var issues := FindTestCompanies(lists.testCompanies, companies);
    var warnings := FindSuspiciousNames(companies, lists.patterns);
    var found := CountRealCompanies(lists.realCompanies, companies);
    var unknown := if found == 0 && |companies| > 0 then [NoReferenceCompanies] else [];
    var total := |db.active|;
    var empty := if total == 0 then [NoRecords] else [];
    var low := if 0 < total < 3 then [LowRecordCount(total)] else [];
    issues := issues + empty;
    warnings := warnings + unknown + low;
    b := BusinessReport(if issues == [] then Clean else Contaminated, issues, warnings, |companies|, found, total);
  }

  method FindTestCompanies(tests: seq<string>, companies: seq<string>) returns (issues: seq<BusinessIssue>)
    ensures issues == TestCompanyIssues(tests, companies)
  {
    issues := [];
    var i := 0;
    while i < |tests|
      invariant 0 <= i <= |tests|
      invariant issues == TestCompanyIssues(tests[..i], companies)
    {
      assert tests[..i + 1][..i] == tests[..i];
      if Lower(tests[i]) in companies {
        issues := issues + [TestCompanyFound(tests[i])];
      }
      i := i + 1;
    }
    assert tests[..i] == tests;
  }

  method FindSuspiciousNames(companies: seq<string>, patterns: seq<string>) returns (warnings: seq<BusinessWarning>)
    ensures warnings == SuspiciousNames(companies, patterns)
  {
    warnings := [];
    var i := 0;
    while i < |companies|
      invariant 0 <= i <= |companies|
      invariant warnings == SuspiciousNames(companies[..i], patterns)
    {
      assert companies[..i + 1][..i] == companies[..i];
      var j := 0;
      ghost var before := warnings;
      while j < |patterns|
        invariant 0 <= j <= |patterns|
        invariant warnings == before + NameWarnings(companies[i], patterns[..j])
      {
        assert patterns[..j + 1][..j] == patterns[..j];
        if Contains(Lower(companies[i]), patterns[j]) {
          warnings := warnings + [SuspiciousName(companies[i], patterns[j])];
        }
        j := j + 1;
      }
      assert patterns[..j] == patterns;
      i := i + 1;
    }
    assert companies[..i] == companies;
  }

  method CountRealCompanies(reals: seq<string>, companies: seq<string>) returns (found: nat)
    ensures found == RealCompaniesFound(reals, companies)
  {
    found := 0;
    var i := 0;
    while i < |reals|
      invariant 0 <= i <= |reals|
      invariant found == RealCompaniesFound(reals[..i], companies)
    {
      assert reals[..i + 1][..i] == reals[..i];
      var j := 0;
      var hit := false;
      while j < |companies| && !hit
        invariant 0 <= j <= |companies|
        invariant hit ==> Mentions(companies, reals[i])
        invariant !hit ==> forall k | 0 <= k < j :: !Contains(Lower(companies[k]), Lower(reals[i]))
      {
        if Contains(Lower(companies[j]), Lower(reals[i])) {
          hit := true;
        }
        j := j + 1;
      }
      if hit {
        found := found + 1;
      }
      i := i + 1;
    }
    assert reals[..i] == reals;
  }
}
