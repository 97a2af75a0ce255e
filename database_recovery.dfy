/** Emergency recovery: the full recovery scan (audit-log recovery, the
    orphan count, the record verification, the duplicate pass and a final
    snapshot) and the restore from a backup file. The recovery object keeps no
    state of its own, so its operations are functions on `State` and methods
    on a `Database`. */
module Recovery {
  import opened Basics
  import opened DateTime
  import opened Models
  import opened Integrity

  datatype RecoveryIssue =
    | FailedToRecover(id: int)
    | AuditRecoveryError
    | MissingRequiredFields(id: int)
    | DispatchedWithoutDate(id: int)
    | ArchivedWithoutDispatchDate(originalId: Option<int>)
    | VerificationError

  datatype ScanResult = ScanResult(recovered: nat, issues: seq<RecoveryIssue>)

  // ---------------------------------------------------------------------------
  // Recovery from the audit log
  // ---------------------------------------------------------------------------

  /** The ids of the qualifying log entries (request-table inserts and
      updates) whose id is in neither table, one per entry and in log order:
      an id that recurs in the log recurs here. */
  function Attempts(entries: seq<AuditEntry>, known: set<int>): (r: seq<int>)
    ensures |r| <= |entries|
    ensures forall x :: x in r <==>
      x !in known && exists e | e in entries :: Audited(e) && e.recordId == x
  {
    if entries == [] then []
    else
      var n := |entries| - 1;
      var e := entries[n];
      var prev := Attempts(entries[..n], known);
      assert forall f | f in entries :: f in entries[..n] || f == e;
      assert forall f | f in entries[..n] :: f in entries;
      if Audited(e) && e.recordId !in known then prev + [e.recordId] else prev
  }

  /** One recovery attempt, counted: a success adds one to the count, a
      failure adds an issue. */
  function RecoverStep(p: (State, ScanResult), id: int, now: Timestamp): (State, ScanResult)
  {
    var (u, ok) := Recover(p.0, id, now);
    (u, if ok then p.1.(recovered := p.1.recovered + 1) else p.1.(issues := p.1.issues + [FailedToRecover(id)]))
  }

  /** Each id in turn, with one issue per failed recovery. */
  function RecoverMissing(s: State, ids: seq<int>, now: Timestamp): (State, ScanResult)
  {
    if ids == [] then (s, ScanResult(0, []))
    else RecoverStep(RecoverMissing(s, ids[..|ids| - 1], now), ids[|ids| - 1], now)
  }

  /** `_recover_from_audit_log`. An absent log means nothing to do; a log that
      does not load or a database that does not answer gives one error issue.
      Otherwise the known ids are read once, before the loop, and every
      qualifying entry for an unknown id triggers its own recovery. */
  function AuditScan(s: State, now: Timestamp): (State, ScanResult)
  {
    if s.audit.Missing? then (s, ScanResult(0, []))
    else if s.audit.Corrupt? || !s.online then (s, ScanResult(0, [AuditRecoveryError]))
    else RecoverMissing(s, Attempts(s.audit.entries, Known(s)), now)
  }

  /** Step by step, the attempts are the integrity check's recovery applied
      to the same ids, and each one is either counted or reported. */
  lemma {:induction false} RecoverMissingEach(s: State, ids: seq<int>, now: Timestamp)
    ensures var (t, r) := RecoverMissing(s, ids, now);
      && t == RecoverEach(s, ids, now).0
      && r.recovered == |RecoverEach(s, ids, now).1|
      && r.recovered + |r.issues| == |ids|
      && |t.active| == |s.active| + r.recovered
      && forall i | 0 <= i < |r.issues| :: r.issues[i].FailedToRecover? && r.issues[i].id in ids
  {
    if ids != [] {
      var n := |ids| - 1;
      RecoverMissingEach(s, ids[..n], now);
      RecoverSpec(RecoverMissing(s, ids[..n], now).0, ids[n], now);
    }
  }

  /** The scan makes one attempt per qualifying entry for an unknown id, so
      at least one per audited id that is in neither table; every success
      adds one active row. */
  lemma AuditScanCounts(s: State, now: Timestamp)
    requires s.audit.Entries? && s.online
    ensures var (t, r) := AuditScan(s, now);
      && r.recovered + |r.issues| == |Attempts(s.audit.entries, Known(s))|
      && r.recovered + |r.issues| >= |AuditedElsewhere(s)|
      && |t.active| == |s.active| + r.recovered
  {
    var ids := Attempts(s.audit.entries, Known(s));
    RecoverMissingEach(s, ids, now);
    assert (set x | x in ids) == AuditedElsewhere(s) by {
      forall y | y in AuditedElsewhere(s) ensures y in ids {
        var x :| x in s.audit.entries && Audited(x) && x.recordId !in Known(s) && x.recordId == y;
      }
    }
    CardAtMost(ids);
  }

  /** A sequence has at least as many elements as its set. */
  lemma {:induction false} CardAtMost(xs: seq<int>)
    ensures |set x | x in xs| <= |xs|
  {
    if xs != [] {
      var n := |xs| - 1;
      CardAtMost(xs[..n]);
      assert (set x | x in xs) == (set x | x in xs[..n]) + {xs[n]};
    }
  }

  /** What the scan keeps: the archive table, the flags, valid keys. */
  lemma AuditScanKeeps(s: State, now: Timestamp)
    ensures var t := AuditScan(s, now).0;
      && t.archived == s.archived && t.online == s.online && t.diskWritable == s.diskWritable
      && (Valid(s) ==> Valid(t))
  {
    if s.audit.Entries? && s.online {
      var ids := Attempts(s.audit.entries, Known(s));
      RecoverMissingEach(s, ids, now);
      RecoverEachValid(s, ids, now);
    }
  }

  /** A database that has lost record `r0`: both tables empty, and the log
      holding its insert and a later update. */
  function LostRecord(r0: Record, n: int, t1: Timestamp, t2: Timestamp): State
  {
    State([], [], n,
          Entries([AuditEntry(t1, Insert, RequestTable, r0.id, ToDict(r0)),
                   AuditEntry(t2, Update, RequestTable, r0.id, ToDict(r0))]),
          true, true)
  }

  /** `r0` as recovery rebuilds it under the id `id`. */
  function Rebuilt(r0: Record, id: int): Record
  {
    r0.(id := id, dateSubmitted := Truncate(r0.dateSubmitted), dateDispatched := TruncateOpt(r0.dateDispatched))
  }

  /** A lost record with an insert and an update entry is recovered twice by
      the scan: two new rows, both rebuilt from the same snapshot, under two
      fresh ids. The integrity check's recovery of the same database attempts
      the id once. */
  lemma AuditScanRecoversTwice(r0: Record, n: int, t1: Timestamp, t2: Timestamp, now: Timestamp)
    requires RecordReadable(r0) && r0.id < n
    ensures var (t, r) := AuditScan(LostRecord(r0, n, t1, t2), now);
      && r.recovered == 2
      && t.active == [Rebuilt(r0, n), Rebuilt(r0, n + 1)]
    ensures var s := LostRecord(r0, n, t1, t2);
      RecoverEach(s, MissingIds(Loaded(s.audit), Known(s)), now).1 == [r0.id]
  {
    var s := LostRecord(r0, n, t1, t2);
    var s1 := Inserted(s, Rebuilt(r0, n), now);
    LostRecordIds(r0, n, t1, t2);
    FirstAttempt(r0, n, t1, t2, now);
    SecondAttempt(r0, n, t1, t2, now);
    RecoveredTwice(s, r0.id, now, s1, Inserted(s1, Rebuilt(r0, n + 1), now));
    InsertedTwice(s, Rebuilt(r0, n), Rebuilt(r0, n + 1), now);
    AttemptedOnce(r0, n, t1, t2, now);
  }

  /** Two successful attempts at the same id count two recoveries. */
  lemma RecoveredTwice(s: State, id: int, now: Timestamp, u1: State, u2: State)
    requires Recover(s, id, now) == (u1, true) && Recover(u1, id, now) == (u2, true)
    ensures RecoverMissing(s, [id, id], now) == (u2, ScanResult(2, []))
  {
    var ids := [id, id];
    assert ids[..1] == [id] && ids[..1][..0] == [];
    assert RecoverMissing(s, ids[..1], now) == (u1, ScanResult(1, []));
  }

  lemma InsertedTwice(s: State, a: Record, b: Record, now: Timestamp)
    requires s.active == []
    ensures Inserted(Inserted(s, a, now), b, now).active == [a, b]
  {
  }

  lemma AttemptedOnce(r0: Record, n: int, t1: Timestamp, t2: Timestamp, now: Timestamp)
    requires RecordReadable(r0)
    ensures RecoverEach(LostRecord(r0, n, t1, t2), [r0.id], now).1 == [r0.id]
  {
    FirstAttempt(r0, n, t1, t2, now);
    assert [r0.id][..0] == [];
  }

  lemma FirstAttempt(r0: Record, n: int, t1: Timestamp, t2: Timestamp, now: Timestamp)
    requires RecordReadable(r0)
    ensures Recover(LostRecord(r0, n, t1, t2), r0.id, now) ==
      (Inserted(LostRecord(r0, n, t1, t2), Rebuilt(r0, n), now), true)
  {
    var s := LostRecord(r0, n, t1, t2);
    var entries := s.audit.entries;
    assert entries[..1][..0] == [];
    assert Latest(entries, r0.id) == Some(entries[1]);
    RecoverLoggedRow(s, r0.id, now, r0);
  }

  lemma SecondAttempt(r0: Record, n: int, t1: Timestamp, t2: Timestamp, now: Timestamp)
    requires RecordReadable(r0) && r0.id < n
    ensures var s1 := Inserted(LostRecord(r0, n, t1, t2), Rebuilt(r0, n), now);
      Recover(s1, r0.id, now) == (Inserted(s1, Rebuilt(r0, n + 1), now), true)
  {
    var s1 := Inserted(LostRecord(r0, n, t1, t2), Rebuilt(r0, n), now);
    SecondLatest(r0, n, t1, t2, now);
    RecoverLoggedRow(s1, r0.id, now, r0);
  }

  /** After the first recovery the update entry is still the latest for `r0`. */
  lemma SecondLatest(r0: Record, n: int, t1: Timestamp, t2: Timestamp, now: Timestamp)
    requires r0.id < n
    ensures var s1 := Inserted(LostRecord(r0, n, t1, t2), Rebuilt(r0, n), now);
      && s1.online && s1.nextId == n + 1
      && Latest(Loaded(s1.audit), r0.id) == Some(AuditEntry(t2, Update, RequestTable, r0.id, ToDict(r0)))
  {
    var s := LostRecord(r0, n, t1, t2);
    var s1 := Inserted(s, Rebuilt(r0, n), now);
    var e3 := AuditEntry(now, Insert, RequestTable, n, ToDict(Rebuilt(r0, n)));
    var entries := s.audit.entries + [e3];
    assert KeepLast(entries, AuditCap) == entries;
    assert Loaded(s1.audit) == entries;
    assert entries[..2] == s.audit.entries;
  }

  /** In the lost-record database the scan attempts the id once per entry,
      the integrity check once in all. */
  lemma LostRecordIds(r0: Record, n: int, t1: Timestamp, t2: Timestamp)
    ensures Known(LostRecord(r0, n, t1, t2)) == {}
    ensures Attempts(LostRecord(r0, n, t1, t2).audit.entries, {}) == [r0.id, r0.id]
    ensures MissingIds(LostRecord(r0, n, t1, t2).audit.entries, {}) == [r0.id]
  {
    var entries := LostRecord(r0, n, t1, t2).audit.entries;
    assert entries[..1][..0] == [];
    assert Attempts(entries[..1], {}) == [r0.id];
    assert MissingIds(entries[..1], {}) == [r0.id];
  }

  /** The scan on the database: the known ids are collected once, then every
      qualifying entry for an unknown id is recovered. */
  method ScanAuditLog(db: Database, now: Timestamp) returns (r: ScanResult)
    modifies db
    ensures (db.Contents(), r) == AuditScan(old(db.Contents()), now)
  {
    if db.audit.Missing? {
      return ScanResult(0, []);
    }
    if db.audit.Corrupt? || !db.online {
      return ScanResult(0, [AuditRecoveryError]);
    }
    ghost var s0 := db.Contents();
    var entries := db.audit.entries;
    var known := ActiveIds(db.active) + ArchivedIds(db.archived);
    ghost var attempts: seq<int> := [];
    r := ScanResult(0, []);
    var i := 0;
    while i < |entries|
      invariant 0 <= i <= |entries|
      invariant attempts == Attempts(entries[..i], known)
      invariant (db.Contents(), r) == RecoverMissing(s0, attempts, now)
    {
      assert entries[..i + 1][..i] == entries[..i];
      var e := entries[i];
      if Audited(e) && e.recordId !in known {
        assert (attempts + [e.recordId])[..|attempts|] == attempts;
        attempts := attempts + [e.recordId];
        r := RecoverNext(db, r, e.recordId, now);
      }
      i := i + 1;
    }
    assert entries[..|entries|] == entries;
  }

  /** One counted recovery attempt on the database. */
  method RecoverNext(db: Database, r: ScanResult, id: int, now: Timestamp) returns (r': ScanResult)
    modifies db
    ensures (db.Contents(), r') == RecoverStep((old(db.Contents()), r), id, now)
  {
    var ok := db.RecoverFromAuditLog(id, now);
    if ok {
      r' := r.(recovered := r.recovered + 1);
    } else {
      r' := r.(issues := r.issues + [FailedToRecover(id)]);
    }
  }

  // ---------------------------------------------------------------------------
  // Orphans, verification, duplicates
  // ---------------------------------------------------------------------------

  /** The archived rows whose `original_id` is also an active id (a null
      `original_id` matches no row). */
  function OrphanCount(active: seq<Record>, archived: seq<ArchivedRow>): (n: nat)
    ensures n <= |archived|
  {
    if archived == [] then 0
    else
      var m := |archived| - 1;
      OrphanCount(active, archived[..m])
      + (if archived[m].originalId.Some? && archived[m].originalId.value in ActiveIds(active) then 1 else 0)
  }

  /** No orphan is counted exactly when no id is in both tables. */
  lemma {:induction false} OrphanCountZero(active: seq<Record>, archived: seq<ArchivedRow>)
    ensures OrphanCount(active, archived) == 0 <==> ActiveIds(active) * ArchivedIds(archived) == {}
  {
    if archived != [] {
      var m := |archived| - 1;
      var a := archived[m];
      OrphanCountZero(active, archived[..m]);
      assert ArchivedIds(archived) == ArchivedIds(archived[..m]) +
        (if a.originalId.Some? then {a.originalId.value} else {}) by {
        assert forall b | b in archived :: b in archived[..m] || b == a;
      }
      if a.originalId.Some? && a.originalId.value in ActiveIds(active) {
        assert a.originalId.value in ActiveIds(active) * ArchivedIds(archived);
      } else {
        assert ActiveIds(active) * ArchivedIds(archived) == ActiveIds(active) * ArchivedIds(archived[..m]);
      }
    }
  }

  /** `_check_orphaned_archives`: the count, or 0 when the database does not
      answer. */
  method CheckOrphanedArchives(db: Database) returns (count: nat)
    ensures count == if db.online then OrphanCount(db.active, db.archived) else 0
  {
    if !db.online {
      return 0;
    }
    var archived := db.archived;
    count := 0;
    var i := 0;
    while i < |archived|
      invariant 0 <= i <= |archived|
      invariant count == OrphanCount(db.active, archived[..i])
    {
      assert archived[..i + 1][..i] == archived[..i];
      var original := FindActive(db.active, if archived[i].originalId.Some? then archived[i].originalId.value else 0);
      if archived[i].originalId.Some? && original.Some? {
        count := count + 1;
      }
      i := i + 1;
    }
    assert archived[..|archived|] == archived;
  }

  /** The problems of one active row. A submission date is always present. */
  function RecordProblems(r: Record): seq<RecoveryIssue>
  {
    (if r.customerName == "" || r.email == "" || r.streetAddress == "" then [MissingRequiredFields(r.id)] else [])
    + (if r.status == Dispatched && r.dateDispatched.None? then [DispatchedWithoutDate(r.id)] else [])
  }

  function ActiveProblems(rows: seq<Record>): seq<RecoveryIssue>
  {
    if rows == [] then [] else ActiveProblems(rows[..|rows| - 1]) + RecordProblems(rows[|rows| - 1])
  }

  function ArchivedProblems(rows: seq<ArchivedRow>): seq<RecoveryIssue>
  {
    if rows == [] then []
    else
      var a := rows[|rows| - 1];
      ArchivedProblems(rows[..|rows| - 1])
      + (if a.dateDispatched.None? then [ArchivedWithoutDispatchDate(a.originalId)] else [])
  }

  predicate WellFormed(r: Record)
  {
    r.customerName != "" && r.email != "" && r.streetAddress != ""
    && (r.status == Dispatched ==> r.dateDispatched.Some?)
  }

  /** `_verify_all_records`: every row of both tables counted, with its
      problems; an unreachable database gives one error issue. */
  function VerifyAll(s: State): (nat, seq<RecoveryIssue>)
  {
    if !s.online then (0, [VerificationError])
    else (|s.active| + |s.archived|, ActiveProblems(s.active) + ArchivedProblems(s.archived))
  }

  /** The verification reports no problem exactly when every active row has
      its required fields (and a dispatch date once dispatched) and every
      archived row has a dispatch date. */
  lemma VerifyAllClean(s: State)
    requires s.online
    ensures VerifyAll(s).1 == [] <==>
      (forall r | r in s.active :: WellFormed(r))
      && (forall a | a in s.archived :: a.dateDispatched.Some?)
  {
    ActiveProblemsClean(s.active);
    ArchivedProblemsClean(s.archived);
  }

  lemma {:induction false} ActiveProblemsClean(rows: seq<Record>)
    ensures ActiveProblems(rows) == [] <==> forall r | r in rows :: WellFormed(r)
  {
    if rows != [] {
      var n := |rows| - 1;
      ActiveProblemsClean(rows[..n]);
      assert forall r | r in rows :: r in rows[..n] || r == rows[n];
      assert ActiveProblems(rows) == ActiveProblems(rows[..n]) + RecordProblems(rows[n]);
      assert RecordProblems(rows[n]) == [] <==> WellFormed(rows[n]);
    }
  }

  lemma {:induction false} ArchivedProblemsClean(rows: seq<ArchivedRow>)
    ensures ArchivedProblems(rows) == [] <==> forall a | a in rows :: a.dateDispatched.Some?
  {
    if rows != [] {
      var n := |rows| - 1;
      ArchivedProblemsClean(rows[..n]);
      assert forall a | a in rows :: a in rows[..n] || a == rows[n];
    }
  }

  method VerifyAllRecords(db: Database) returns (total: nat, issues: seq<RecoveryIssue>)
    ensures (total, issues) == VerifyAll(db.Contents())
  {
    if !db.online {
      return 0, [VerificationError];
    }
    var active := db.active;
    total, issues := 0, [];
    var i := 0;
    while i < |active|
      invariant 0 <= i <= |active|
      invariant total == i && issues == ActiveProblems(active[..i])
    {
      assert active[..i + 1][..i] == active[..i];
      total := total + 1;
      issues := issues + RecordProblems(active[i]);
      i := i + 1;
    }
    assert active[..|active|] == active;
    var archived := db.archived;
    ghost var fromActive := issues;
    var j := 0;
    while j < |archived|
      invariant 0 <= j <= |archived|
      invariant total == |active| + j && issues == fromActive + ArchivedProblems(archived[..j])
    {
      assert archived[..j + 1][..j] == archived[..j];
      total := total + 1;
      if archived[j].dateDispatched.None? {
        issues := issues + [ArchivedWithoutDispatchDate(archived[j].originalId)];
      }
      j := j + 1;
    }
    assert archived[..|archived|] == archived;
  }

  /** `_resolve_duplicates`'s count: archived rows whose `original_id` is an
      active id, up to and including the first of them without an archive
      date, where comparing the dates raises and ends the pass. */
  function DuplicatesFound(ids: set<int>, archived: seq<ArchivedRow>): (n: nat)
    ensures n <= |archived|
    ensures n == 0 <==> forall a | a in archived :: a.originalId.None? || a.originalId.value !in ids
  {
    if archived == [] then 0
    else
      var a := archived[0];
      assert forall b | b in archived :: b == a || b in archived[1..];
      if a.originalId.Some? && a.originalId.value in ids then
        1 + (if a.dateArchived.None? then 0 else DuplicatesFound(ids, archived[1..]))
      else DuplicatesFound(ids, archived[1..])
  }

  /** `_resolve_duplicates`: nothing is ever resolved (archived rows cannot be
      deleted) and nothing changes; it returns the resolved count and the
      found count. */
  method ResolveDuplicates(db: Database) returns (resolved: nat, found: nat)
    ensures resolved == 0
    ensures found == if db.online then DuplicatesFound(ActiveIds(db.active), db.archived) else 0
  {
    resolved := 0;
    if !db.online {
      return 0, 0;
    }
    var ids := ActiveIds(db.active);
    var archived := db.archived;
    found := 0;
    var i := 0;
    while i < |archived|
      invariant 0 <= i <= |archived|
      invariant found + DuplicatesFound(ids, archived[i..]) == DuplicatesFound(ids, archived)
    {
      var a := archived[i];
      assert archived[i..][1..] == archived[i + 1..];
      if a.originalId.Some? && a.originalId.value in ids {
        found := found + 1;
        if a.dateArchived.None? {
          return;
        }
      }
      i := i + 1;
    }
  }

  // ---------------------------------------------------------------------------
  // Restore from a backup file
  // ---------------------------------------------------------------------------

  /** How far a restore got: the session's state, the rows added so far, and
      the error that ended it, if any. */
  datatype Progress = Progress(state: State, count: nat, failure: Option<RowError>)

  /** The `id` of a serialised row (`dict.get`). */
  function IdOf(data: Snapshot): Value
  {
    if Id in data then data[Id] else Null
  }

  /** `query.get(id)` finds a row: only an integer id can. Rows restored
      earlier in the same restore are visible, since the query flushes them. */
  predicate ActiveExists(rows: seq<Record>, v: Value)
  {
    v.Int? && v.i in ActiveIds(rows)
  }

  /** The active half of `restore_from_backup`: a row whose id is present is
      skipped; any other is rebuilt, inserted under a fresh id and logged. */
  function RestoreActive(s: State, entries: seq<Snapshot>, now: Timestamp): Progress
  {
    if entries == [] then Progress(s, 0, None)
    else RestoreActiveStep(RestoreActive(s, entries[..|entries| - 1], now), entries[|entries| - 1], now)
  }

  /** One entry of the active list; nothing happens once a row has failed. */
  function RestoreActiveStep(p: Progress, d: Snapshot, now: Timestamp): Progress
  {
    if p.failure.Some? || ActiveExists(p.state.active, IdOf(d)) then p
    else
      match Recreate(d, p.state.nextId, now)
      case Err(m) => p.(failure := Some(m))
      case Ok(r) => Progress(Inserted(p.state, r, now), p.count + 1, None)
  }

  /** The `original_id` of a serialised archive row (`dict.get`). */
  function OriginalIdOf(data: Snapshot): Value
  {
    if OriginalId in data then data[OriginalId] else Null
  }

  /** `filter_by(original_id=v)` matches: None is `IS NULL`; a value that is
      not an integer matches no row. */
  predicate MatchesOriginal(a: ArchivedRow, v: Value)
  {
    match v
    case Null => a.originalId.None?
    case Int(i) => a.originalId == Some(i)
    case _ => false
  }

  predicate ArchivedExists(rows: seq<ArchivedRow>, v: Value)
  {
    exists a | a in rows :: MatchesOriginal(a, v)
  }

  /** The archive half: a row whose `original_id` is already archived is
      skipped; any other is rebuilt and added. */
  function RestoreArchived(s: State, entries: seq<Snapshot>): Progress
  {
    if entries == [] then Progress(s, 0, None)
    else RestoreArchivedStep(RestoreArchived(s, entries[..|entries| - 1]), entries[|entries| - 1])
  }

  function RestoreArchivedStep(p: Progress, d: Snapshot): Progress
  {
    if p.failure.Some? || ArchivedExists(p.state.archived, OriginalIdOf(d)) then p
    else
      match RecreateArchived(d)
      case Err(m) => p.(failure := Some(m))
      case Ok(a) => Progress(p.state.(archived := p.state.archived + [a]), p.count + 1, None)
  }

  datatype RestoreError = BackupFileNotFound | BackupUnreadable | DatabaseError | InvalidRow(reason: RowError)

  datatype RestoreOutcome = Restored(active: nat, archived: nat) | RestoreFailed(error: RestoreError)

  /** A rollback: the tables return to what they were, while the id sequence
      and the audit file keep what the flushed inserts did to them. */
  function RolledBack(s: State, t: State): State
  {
    s.(nextId := t.nextId, audit := t.audit)
  }

  /** `restore_from_backup`. */
  function Restore(s: State, file: BackupFile, now: Timestamp): (State, RestoreOutcome)
  {
    match file
    case NoFile => (s, RestoreFailed(BackupFileNotFound))
    case Unreadable => (s, RestoreFailed(BackupUnreadable))
    case Stored(b) =>
      if !s.online then
        if b.active == [] && b.archived == [] then (s, Restored(0, 0))
        else (s, RestoreFailed(DatabaseError))
      else
        var p := RestoreActive(s, b.active, now);
        if p.failure.Some? then (RolledBack(s, p.state), RestoreFailed(InvalidRow(p.failure.value)))
        else
          var q := RestoreArchived(p.state, b.archived);
          if q.failure.Some? then (RolledBack(s, q.state), RestoreFailed(InvalidRow(q.failure.value)))
          else (q.state, Restored(p.count, q.count))
  }

  /** The active half keeps the existing rows in front, adds `count` rows
      under consecutive fresh ids, and keeps the keys valid. */
  lemma {:induction false} RestoreActiveSpec(s: State, entries: seq<Snapshot>, now: Timestamp)
    ensures var p := RestoreActive(s, entries, now);
      p.count <= |entries| && ActiveGrown(s, p)
    ensures var p := RestoreActive(s, entries, now);
      p.failure.None? ==> p.count == FreshActive(s, entries, |entries|, now)
  {
    if entries != [] {
      var n := |entries| - 1;
      RestoreActiveSpec(s, entries[..n], now);
      RestoreActiveStepGrows(s, RestoreActive(s, entries[..n], now), entries[n], now);
    }
    if RestoreActive(s, entries, now).failure.None? {
      assert entries[..|entries|] == entries;
      RestoreActiveCounts(s, entries, |entries|, now);
    }
  }

  /** How many of the first `k` entries the active half does not skip: entry
      `i` is skipped when its `id` is present once the entries before it have
      been restored. */
  function FreshActive(s: State, entries: seq<Snapshot>, k: nat, now: Timestamp): nat
    requires k <= |entries|
  {
    if k == 0 then 0
    else
      FreshActive(s, entries, k - 1, now)
      + (if ActiveExists(RestoreActive(s, entries[..k - 1], now).state.active, IdOf(entries[k - 1])) then 0 else 1)
  }

  /** Without a failure the active count is the number of entries not
      skipped: every entry whose id is absent is restored, no other is. */
  lemma {:induction false} RestoreActiveCounts(s: State, entries: seq<Snapshot>, k: nat, now: Timestamp)
    requires k <= |entries| && RestoreActive(s, entries[..k], now).failure.None?
    ensures RestoreActive(s, entries[..k], now).count == FreshActive(s, entries, k, now)
  {
    if k > 0 {
      assert entries[..k][..k - 1] == entries[..k - 1];
      assert entries[..k][k - 1] == entries[k - 1];
      RestoreActiveCounts(s, entries, k - 1, now);
    }
  }

  /** When every entry's id is already present, the active half adds none. */
  lemma {:induction false} NothingToRestoreActive(u: State, entries: seq<Snapshot>, now: Timestamp)
    requires forall d | d in entries :: ActiveExists(u.active, IdOf(d))
    ensures RestoreActive(u, entries, now) == Progress(u, 0, None)
  {
    if entries != [] {
      NothingToRestoreActive(u, entries[..|entries| - 1], now);
    }
  }

  /** `p` holds the rows of `s` in front and `count` more under consecutive
      ids from `s.nextId` on, the id sequence moved past them, the other
      tables untouched and the keys still valid. */
  ghost predicate ActiveGrown(s: State, p: Progress)
  {
    && |p.state.active| == |s.active| + p.count
    && p.state.active[..|s.active|] == s.active
    && p.state.nextId == s.nextId + p.count
    && (forall i | |s.active| <= i < |p.state.active| ::
          p.state.active[i].id == s.nextId + i - |s.active|)
    && p.state == s.(active := p.state.active, nextId := p.state.nextId, audit := p.state.audit)
    && (Valid(s) ==> Valid(p.state))
  }

  lemma RestoreActiveStepGrows(s: State, p: Progress, d: Snapshot, now: Timestamp)
    requires ActiveGrown(s, p)
    ensures RestoreActiveStep(p, d, now).count <= p.count + 1
    ensures ActiveGrown(s, RestoreActiveStep(p, d, now))
  {
    if p.failure.None? && !ActiveExists(p.state.active, IdOf(d)) {
      var r := Recreate(d, p.state.nextId, now);
      if r.Ok? {
        RecreateId(d, p.state.nextId, now);
        if Valid(s) {
          InsertedValid(p.state, r.value, now);
        }
        var t := Inserted(p.state, r.value, now);
        assert t.active[..|s.active|] == p.state.active[..|s.active|];
      }
    }
  }

  /** The archive half appends `count` rows and changes nothing else. */
  lemma {:induction false} RestoreArchivedSpec(s: State, entries: seq<Snapshot>)
    ensures var p := RestoreArchived(s, entries);
      && p.count <= |entries|
      && |p.state.archived| == |s.archived| + p.count
      && p.state.archived[..|s.archived|] == s.archived
      && p.state == s.(archived := p.state.archived)
    ensures var p := RestoreArchived(s, entries);
      p.failure.None? ==> p.count == FreshArchived(s, entries, |entries|)
  {
    if entries != [] {
      var n := |entries| - 1;
      RestoreArchivedSpec(s, entries[..n]);
      var p := RestoreArchived(s, entries[..n]);
      if p.failure.None? && !ArchivedExists(p.state.archived, OriginalIdOf(entries[n])) {
        var r := RecreateArchived(entries[n]);
        if r.Ok? {
          assert (p.state.archived + [r.value])[..|s.archived|] == p.state.archived[..|s.archived|];
        }
      }
    }
    if RestoreArchived(s, entries).failure.None? {
      assert entries[..|entries|] == entries;
      RestoreArchivedCounts(s, entries, |entries|);
    }
  }

  /** How many of the first `k` entries the archive half does not skip: entry
      `i` is skipped when its `original_id` is archived once the entries
      before it have been restored. */
  function FreshArchived(s: State, entries: seq<Snapshot>, k: nat): nat
    requires k <= |entries|
  {
    if k == 0 then 0
    else
      FreshArchived(s, entries, k - 1)
      + (if ArchivedExists(RestoreArchived(s, entries[..k - 1]).state.archived, OriginalIdOf(entries[k - 1])) then 0 else 1)
  }

  /** Without a failure the archive count is the number of entries not
      skipped. */
  lemma {:induction false} RestoreArchivedCounts(s: State, entries: seq<Snapshot>, k: nat)
    requires k <= |entries| && RestoreArchived(s, entries[..k]).failure.None?
    ensures RestoreArchived(s, entries[..k]).count == FreshArchived(s, entries, k)
  {
    if k > 0 {
      assert entries[..k][..k - 1] == entries[..k - 1];
      assert entries[..k][k - 1] == entries[k - 1];
      RestoreArchivedCounts(s, entries, k - 1);
    }
  }

  /** All or nothing: a failed restore leaves both tables as they were; a
      successful one keeps every existing row, appends the counted rows under
      fresh consecutive ids, and keeps the keys valid. */
  lemma RestoreSpec(s: State, file: BackupFile, now: Timestamp)
    ensures var (t, out) := Restore(s, file, now);
      && t.online == s.online && t.diskWritable == s.diskWritable
      && t.nextId >= s.nextId
      && (out.RestoreFailed? ==> t.active == s.active && t.archived == s.archived)
      && (file.NoFile? ==> out == RestoreFailed(BackupFileNotFound) && t == s)
      && (out.Restored? ==>
            && |t.active| == |s.active| + out.active
            && t.active[..|s.active|] == s.active
            && |t.archived| == |s.archived| + out.archived
            && t.archived[..|s.archived|] == s.archived
            && t.nextId == s.nextId + out.active
            && (forall i | |s.active| <= i < |t.active| :: t.active[i].id == s.nextId + i - |s.active|))
      && (Valid(s) ==> Valid(t))
    ensures var (t, out) := Restore(s, file, now);
      out.Restored? ==> RestoredCounts(s, file, now, out)
  {
    if file.Stored? {
      RestoreActiveSpec(s, file.backup.active, now);
      var p := RestoreActive(s, file.backup.active, now);
      RestoreArchivedSpec(p.state, file.backup.archived);
      if p.failure.Some? && Valid(s) {
        assert RolledBack(s, p.state).active == s.active;
      }
    }
  }

  /** The counts a successful restore reports are the numbers of entries of
      each list that were not skipped. */
  predicate RestoredCounts(s: State, file: BackupFile, now: Timestamp, out: RestoreOutcome)
    requires out.Restored?
  {
    && file.Stored?
    && out.active == FreshActive(s, file.backup.active, |file.backup.active|, now)
    && out.archived == FreshArchived(RestoreActive(s, file.backup.active, now).state,
                                     file.backup.archived, |file.backup.archived|)
  }

  /** The active half is not idempotent: a restored row gets a fresh id, so
      its entry's `id` is still absent and restoring the same entry again adds
      another row. */
  lemma RestoreActiveRepeats(s: State, d: Snapshot, now: Timestamp)
    requires !ActiveExists(s.active, IdOf(d)) && IdOf(d) != Int(s.nextId)
    requires Recreate(d, s.nextId, now).Ok? && Recreate(d, s.nextId + 1, now).Ok?
    ensures RestoreActive(s, [d], now).count == 1
    ensures RestoreActive(RestoreActive(s, [d], now).state, [d], now).count == 1
  {
    var r := Recreate(d, s.nextId, now).value;
    RestoreOneActive(s, d, now);
    var u := Inserted(s, r, now);
    RecreateId(d, s.nextId, now);
    assert !ActiveExists(u.active, IdOf(d)) by {
      assert forall x | x in u.active :: x in s.active || x == r;
    }
    RestoreOneActive(u, d, now);
  }

  /** A single absent entry that can be rebuilt is restored as one row. */
  lemma RestoreOneActive(s: State, d: Snapshot, now: Timestamp)
    requires !ActiveExists(s.active, IdOf(d)) && Recreate(d, s.nextId, now).Ok?
    ensures RestoreActive(s, [d], now) == Progress(Inserted(s, Recreate(d, s.nextId, now).value, now), 1, None)
  {
    assert [d][..0] == [];
  }

  /** The archive half skips every entry of a backup once it has been
      restored: after one restore of the archive list (and whatever else
      happens to the tables meanwhile, as long as no archived row is
      removed), a second restore of the same list adds nothing. */
  lemma RestoreArchivedAgain(s: State, entries: seq<Snapshot>, u: State)
    requires RestoreArchived(s, entries).failure.None?
    requires forall a | a in RestoreArchived(s, entries).state.archived :: a in u.archived
    requires forall d | d in entries :: OriginalIdOf(d).Null? || OriginalIdOf(d).Int?
    ensures RestoreArchived(u, entries).count == 0
    ensures RestoreArchived(u, entries).state == u
  {
    RestoredArchivedPresent(s, entries);
    NothingToRestore(u, entries);
  }

  /** After the archive half, every entry has a matching row. */
  lemma {:induction false} RestoredArchivedPresent(s: State, entries: seq<Snapshot>)
    requires RestoreArchived(s, entries).failure.None?
    requires forall d | d in entries :: OriginalIdOf(d).Null? || OriginalIdOf(d).Int?
    ensures forall d | d in entries :: ArchivedExists(RestoreArchived(s, entries).state.archived, OriginalIdOf(d))
  {
    if entries != [] {
      var n := |entries| - 1;
      var p := RestoreArchived(s, entries[..n]);
      RestoredArchivedPresent(s, entries[..n]);
      var q := RestoreArchived(s, entries);
      assert forall a | a in p.state.archived :: a in q.state.archived;
      forall d | d in entries ensures ArchivedExists(q.state.archived, OriginalIdOf(d)) {
        if d in entries[..n] {
          var a :| a in p.state.archived && MatchesOriginal(a, OriginalIdOf(d));
          assert a in q.state.archived;
        } else {
          assert d == entries[n];
          if !ArchivedExists(p.state.archived, OriginalIdOf(d)) {
            var a := RecreateArchived(d).value;
            RecreateArchivedOriginal(d);
            assert a in q.state.archived;
          }
        }
      }
    }
  }

  /** A rebuilt archive row carries the entry's `original_id`. */
  lemma RecreateArchivedOriginal(d: Snapshot)
    requires RecreateArchived(d).Ok?
    requires OriginalIdOf(d).Null? || OriginalIdOf(d).Int?
    ensures MatchesOriginal(RecreateArchived(d).value, OriginalIdOf(d))
  {
    var d1 := ConvertDate(d, DateSubmitted).value;
    var d2 := ConvertDate(d1, DateDispatched).value;
    var d3 := ConvertDate(d2, DateArchived).value;
    assert OriginalId in d3 <==> OriginalId in d;
    assert OriginalId in d ==> d3[OriginalId] == d[OriginalId];
  }

  /** When every entry already has a matching row, the archive half adds none. */
  lemma {:induction false} NothingToRestore(u: State, entries: seq<Snapshot>)
    requires forall d | d in entries :: ArchivedExists(u.archived, OriginalIdOf(d))
    ensures RestoreArchived(u, entries) == Progress(u, 0, None)
  {
    if entries != [] {
      NothingToRestore(u, entries[..|entries| - 1]);
    }
  }

  /** Once a row has failed, the rest of the list changes nothing: the
      restore stops at the first failure. */
  lemma {:induction false} RestoreActiveStops(s: State, entries: seq<Snapshot>, k: nat, now: Timestamp)
    requires k <= |entries| && RestoreActive(s, entries[..k], now).failure.Some?
    ensures RestoreActive(s, entries, now) == RestoreActive(s, entries[..k], now)
    decreases |entries|
  {
    if k < |entries| {
      var n := |entries| - 1;
      assert entries[..n][..k] == entries[..k];
      RestoreActiveStops(s, entries[..n], k, now);
    } else {
      assert entries[..k] == entries;
    }
  }

  lemma {:induction false} RestoreArchivedStops(s: State, entries: seq<Snapshot>, k: nat)
    requires k <= |entries| && RestoreArchived(s, entries[..k]).failure.Some?
    ensures RestoreArchived(s, entries) == RestoreArchived(s, entries[..k])
    decreases |entries|
  {
    if k < |entries| {
      var n := |entries| - 1;
      assert entries[..n][..k] == entries[..k];
      RestoreArchivedStops(s, entries[..n], k);
    } else {
      assert entries[..k] == entries;
    }
  }

  /** `restore_from_backup` on the session: the rows are added one by one,
      the first row that cannot be rebuilt ends the restore, and a failure
      puts both tables back. */
  method RestoreFromBackup(db: Database, file: BackupFile, now: Timestamp) returns (out: RestoreOutcome)
    modifies db
    ensures (db.Contents(), out) == Restore(old(db.Contents()), file, now)
  {
    if file.NoFile? {
      return RestoreFailed(BackupFileNotFound);
    }
    if file.Unreadable? {
      return RestoreFailed(BackupUnreadable);
    }
    var b := file.backup;
    if !db.online {
      if b.active == [] && b.archived == [] {
        return Restored(0, 0);
      }
      return RestoreFailed(DatabaseError);
    }
    ghost var s := db.Contents();
    var savedActive, savedArchived := db.active, db.archived;
    var restoredActive, failure := RestoreActiveRows(db, b.active, now);
    if failure.Some? {
      RestoreActiveSpec(s, b.active, now);
      db.active, db.archived := savedActive, savedArchived;
      return RestoreFailed(InvalidRow(failure.value));
    }
    ghost var mid := db.Contents();
    var restoredArchived, failed := RestoreArchivedRows(db, b.archived);
    if failed.Some? {
      RestoreActiveSpec(s, b.active, now);
      RestoreArchivedSpec(mid, b.archived);
      db.active, db.archived := savedActive, savedArchived;
      return RestoreFailed(InvalidRow(failed.value));
    }
    return Restored(restoredActive, restoredArchived);
  }

  /** The loop over the backup's active rows. */
  method RestoreActiveRows(db: Database, entries: seq<Snapshot>, now: Timestamp)
    returns (count: nat, failure: Option<RowError>)
    modifies db
    ensures Progress(db.Contents(), count, failure) == RestoreActive(old(db.Contents()), entries, now)
  {
    ghost var s := db.Contents();
    count, failure := 0, None;
    var i := 0;
    while i < |entries| && failure.None?
      invariant 0 <= i <= |entries|
      invariant Progress(db.Contents(), count, failure) == RestoreActive(s, entries[..i], now)
    {
      assert entries[..i + 1][..i] == entries[..i];
      count, failure := RestoreActiveRow(db, count, entries[i], now);
      i := i + 1;
    }
    if failure.Some? {
      RestoreActiveStops(s, entries, i, now);
    } else {
      assert entries[..i] == entries;
    }
  }

  /** One active row: skipped when its id is present, else rebuilt and added. */
  method RestoreActiveRow(db: Database, count: nat, d: Snapshot, now: Timestamp)
    returns (count': nat, failure: Option<RowError>)
    modifies db
    ensures Progress(db.Contents(), count', failure) ==
      RestoreActiveStep(Progress(old(db.Contents()), count, None), d, now)
  {
    if ActiveExists(db.active, IdOf(d)) {
      return count, None;
    }
    var r := Recreate(d, db.nextId, now);
    if r.Err? {
      return count, Some(r.error);
    }
    db.InsertRow(r.value, now);
    return count + 1, None;
  }

  /** The loop over the backup's archived rows. */
  method RestoreArchivedRows(db: Database, entries: seq<Snapshot>)
    returns (count: nat, failure: Option<RowError>)
    modifies db
    ensures Progress(db.Contents(), count, failure) == RestoreArchived(old(db.Contents()), entries)
  {
    ghost var s := db.Contents();
    count, failure := 0, None;
    var i := 0;
    while i < |entries| && failure.None?
      invariant 0 <= i <= |entries|
      invariant Progress(db.Contents(), count, failure) == RestoreArchived(s, entries[..i])
    {
      assert entries[..i + 1][..i] == entries[..i];
      var d := entries[i];
      if !ArchivedExists(db.archived, OriginalIdOf(d)) {
        var a := RecreateArchived(d);
        if a.Err? {
          failure := Some(a.error);
        } else {
          db.archived := db.archived + [a.value];
          count := count + 1;
        }
      }
      i := i + 1;
    }
    if failure.Some? {
      RestoreArchivedStops(s, entries, i);
    } else {
      assert entries[..i] == entries;
    }
  }

  // ---------------------------------------------------------------------------
  // The full scan
  // ---------------------------------------------------------------------------

  datatype ScanReport = ScanReport(
    recoveredFromAudit: nat,
    recoveredFromBackup: nat,
    duplicatesResolved: nat,
    orphanedRecords: nat,
    totalVerified: nat,
    issues: seq<RecoveryIssue>,
    snapshot: Option<Backup>)

  /** `perform_full_recovery_scan`: every step catches its own errors, so the
      scan always completes; the snapshot is taken of the tables as the audit
      recovery left them. */
  function FullRecoveryScan(s: State, now: Timestamp): (State, ScanReport)
  {
    var (t, audit) := AuditScan(s, now);
    var orphans := if t.online then OrphanCount(t.active, t.archived) else 0;
    var (total, problems) := VerifyAll(t);
    (t, ScanReport(audit.recovered, 0, 0, orphans, total, audit.issues + problems, CreateBackupSnapshot(t)))
  }

  /** Only the audit recovery changes anything; nothing is ever restored from
      a backup or resolved; the orphan count is zero exactly when no id is in
      both tables; the snapshot, when written, holds the tables as they ended. */
  lemma FullRecoveryScanSpec(s: State, now: Timestamp)
    ensures var (t, rep) := FullRecoveryScan(s, now);
      && t == AuditScan(s, now).0
      && rep.recoveredFromBackup == 0 && rep.duplicatesResolved == 0
      && (t.online ==> (rep.orphanedRecords == 0 <==> ActiveIds(t.active) * ArchivedIds(t.archived) == {}))
      && (rep.snapshot.Some? <==> s.online && s.diskWritable)
      && (rep.snapshot.Some? ==> rep.snapshot.value == SnapshotOf(t))
  {
    var t := AuditScan(s, now).0;
    OrphanCountZero(t.active, t.archived);
    AuditScanKeeps(s, now);
  }

  method PerformFullRecoveryScan(db: Database, now: Timestamp) returns (rep: ScanReport)
    modifies db
    ensures (db.Contents(), rep) == FullRecoveryScan(old(db.Contents()), now)
  {
    var audit := ScanAuditLog(db, now);
    var orphans := CheckOrphanedArchives(db);
    var total, problems := VerifyAllRecords(db);
    var resolved, found := ResolveDuplicates(db);
    var snapshot := CreateBackupSnapshot(db.Contents());
    rep := ScanReport(audit.recovered, 0, resolved, orphans, total, audit.issues + problems, snapshot);
  }
}
