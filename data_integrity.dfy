/** The record-retention manager: the two tables and the audit-log file as one
    state, the delete guards, the bounded audit log, the lookups that locate a
    record, recovery of a record from its last audit snapshot, the integrity
    check and the backup snapshot. The functions on `State` say what each
    operation computes; the methods of `Database` carry it out step by step, as
    the manager does against the database and the log file. */
module Integrity {
  import opened Basics
  import opened DateTime
  import opened Models

  /** The audit log keeps at most this many entries. */
  const AuditCap := 10000

  /** The table name on every entry the application writes. */
  const RequestTable := "SampleRequest"

  datatype Operation = Insert | Update | Archive

  /** One audit-log entry; its checksum is not modelled. */
  datatype AuditEntry = AuditEntry(
    at: Timestamp, operation: Operation, table: string, recordId: int, data: Snapshot)

  /** Everything the manager reads and writes: the active table, the archive
      table, the id sequence, the audit-log file, whether the database answers
      queries, and whether files can be written. */
  datatype State = State(
    active: seq<Record>,
    archived: seq<ArchivedRow>,
    nextId: int,
    audit: LogFile<AuditEntry>,
    online: bool,
    diskWritable: bool)

  function ActiveIds(rows: seq<Record>): set<int>
  {
    set r | r in rows :: r.id
  }

  /** The non-null `original_id`s of the archive table. */
  function ArchivedIds(rows: seq<ArchivedRow>): set<int>
  {
    set a | a in rows && a.originalId.Some? :: a.originalId.value
  }

  /** Primary keys are distinct and below the next value of the sequence. */
  predicate Valid(s: State)
  {
    && (forall i, j | 0 <= i < j < |s.active| :: s.active[i].id != s.active[j].id)
    && (forall r | r in s.active :: r.id < s.nextId)
  }

  // ---------------------------------------------------------------------------
  // Inserts and deletes, with the ORM listeners that log them
  // ---------------------------------------------------------------------------

  /** A flushed insert of `r` (whose id the sequence supplied): the row is
      added and the insert listener logs it. */
  function Inserted(s: State, r: Record, now: Timestamp): State
  {
    s.(active := s.active + [r], nextId := s.nextId + 1,
       audit := AppendToLog(s.audit, AuditEntry(now, Insert, RequestTable, r.id, ToDict(r)),
                            AuditCap, s.diskWritable))
  }

  /** An insert under the next id keeps the keys distinct and fresh. */
  lemma InsertedValid(s: State, r: Record, now: Timestamp)
    requires Valid(s) && r.id == s.nextId
    ensures Valid(Inserted(s, r, now))
    ensures ActiveIds(Inserted(s, r, now).active) == ActiveIds(s.active) + {r.id}
  {
    var t := Inserted(s, r, now);
    forall i, j | 0 <= i < j < |t.active| ensures t.active[i].id != t.active[j].id {
      if j == |s.active| {
        assert t.active[i] in s.active;
      } else {
        assert t.active[i] == s.active[i] && t.active[j] == s.active[j];
      }
    }
  }

  /** The first active row with the given id. */
  function FindActive(rows: seq<Record>, id: int): (r: Option<Record>)
    ensures r.Some? ==> r.value in rows && r.value.id == id
    ensures r.None? <==> id !in ActiveIds(rows)
  {
    if rows == [] then None
    else if rows[0].id == id then Some(rows[0])
    else
      var rest := FindActive(rows[1..], id);
      assert ActiveIds(rows) == {rows[0].id} + ActiveIds(rows[1..]) by {
        assert forall r | r in rows :: r == rows[0] || r in rows[1..];
      }
      rest
  }

  /** The first archived row with the given `original_id`. */
  function FindArchived(rows: seq<ArchivedRow>, id: int): (r: Option<ArchivedRow>)
    ensures r.Some? ==> r.value in rows && r.value.originalId == Some(id)
    ensures r.None? <==> id !in ArchivedIds(rows)
  {
    if rows == [] then None
    else if rows[0].originalId == Some(id) then Some(rows[0])
    else
      var rest := FindArchived(rows[1..], id);
      assert ArchivedIds(rows) ==
        (if rows[0].originalId.Some? then {rows[0].originalId.value} else {}) + ArchivedIds(rows[1..]) by {
        assert forall a | a in rows :: a == rows[0] || a in rows[1..];
      }
      rest
  }

  /** The table without the row that has the given id. */
  function Without(rows: seq<Record>, id: int): (r: seq<Record>)
    ensures forall x | x in r :: x in rows && x.id != id
    ensures forall x | x in rows && x.id != id :: x in r
    ensures |r| <= |rows|
  {
    if rows == [] then []
    else if rows[0].id == id then Without(rows[1..], id)
    else [rows[0]] + Without(rows[1..], id)
  }

  datatype DeleteError = DeleteWithoutArchiving(id: int) | ArchivedRowImmutable(originalId: Option<int>)

  /** Deleting an active row: refused unless the archiving flag is set; with
      the flag, the listener logs an `archive` entry holding the row, and the
      row goes. */
  function DeleteActive(s: State, id: int, archiving: bool, now: Timestamp): (State, Result<(), DeleteError>)
    requires id in ActiveIds(s.active)
  {
    if !archiving then (s, Err(DeleteWithoutArchiving(id)))
    else
      var row := FindActive(s.active, id).value;
      var logged := AppendToLog(s.audit, AuditEntry(now, Archive, RequestTable, id, ToDict(row)),
                                AuditCap, s.diskWritable);
      (s.(active := Without(s.active, id), audit := logged), Ok(()))
  }

  /** Without the flag nothing changes and the delete fails; with it the row
      leaves the table, nothing else in the tables changes, and exactly one
      `archive` entry carrying the row's serialised form is appended. */
  lemma DeleteActiveGuard(s: State, id: int, archiving: bool, now: Timestamp)
    requires id in ActiveIds(s.active)
    ensures var (t, r) := DeleteActive(s, id, archiving, now);
      && (r.Ok? <==> archiving)
      && (!archiving ==> t == s && r == Err(DeleteWithoutArchiving(id)))
      && (archiving ==>
            && id !in ActiveIds(t.active)
            && ActiveIds(t.active) == ActiveIds(s.active) - {id}
            && t == s.(active := t.active, audit := t.audit)
            && exists row | row in s.active && row.id == id ::
                 t.audit == AppendToLog(s.audit, AuditEntry(now, Archive, RequestTable, id, ToDict(row)),
                                        AuditCap, s.diskWritable))
  {
    if archiving {
      var t := DeleteActive(s, id, archiving, now).0;
      var row := FindActive(s.active, id).value;
      assert row in s.active && row.id == id;
      forall x | x in ActiveIds(s.active) - {id} ensures x in ActiveIds(t.active) {
        var y :| y in s.active && y.id == x;
        assert y in t.active;
      }
    }
  }

  // ---------------------------------------------------------------------------
  // Looking a record up
  // ---------------------------------------------------------------------------

  /** `_check_audit_log_for_record`: the last entry in log order for the id;
      none when there is none. */
  function Latest(entries: seq<AuditEntry>, id: int): (r: Option<AuditEntry>)
    ensures r.Some? ==> r.value.recordId == id
    ensures r.None? <==> forall e | e in entries :: e.recordId != id
    ensures r.Some? ==> exists i | 0 <= i < |entries| ::
      entries[i] == r.value && forall j | i < j < |entries| :: entries[j].recordId != id
  {
    if entries == [] then None
    else
      var n := |entries| - 1;
      if entries[n].recordId == id then Some(entries[n])
      else
        var rest := Latest(entries[..n], id);
        assert forall e | e in entries :: e in entries[..n] || e == entries[n];
        if rest.Some? then
          assert exists i | 0 <= i < |entries| ::
            entries[i] == rest.value && forall j | i < j < |entries| :: entries[j].recordId != id by {
            var i :| 0 <= i < n && entries[..n][i] == rest.value
              && forall j | i < j < n :: entries[..n][j].recordId != id;
            assert entries[i] == rest.value;
            forall j | i < j < |entries| ensures entries[j].recordId != id {
              if j < n { assert entries[j] == entries[..n][j]; }
            }
          }
          rest
        else
          assert forall e | e in entries[..n] :: e.recordId != id;
          rest
  }

  datatype Location =
    | InActive(record: Record)
    | InArchive(row: ArchivedRow)
    | InAuditLog(entry: AuditEntry)
    | NotFound

  /** `verify_record_exists`: the active table first, then the archive table,
      then the audit log. The table queries raise when the database is down;
      a missing or unreadable log reads as holding nothing. */
  function Locate(s: State, id: int): (r: Result<Location, string>)
    ensures r.Err? <==> !s.online
    ensures r.Ok? && r.value.InActive? <==> s.online && id in ActiveIds(s.active)
    ensures r.Ok? && r.value.InActive? ==> r.value.record in s.active && r.value.record.id == id
    ensures r.Ok? && r.value.InArchive? <==>
      s.online && id !in ActiveIds(s.active) && id in ArchivedIds(s.archived)
    ensures r.Ok? && r.value.InArchive? ==>
      r.value.row in s.archived && r.value.row.originalId == Some(id)
    ensures r.Ok? && r.value.InAuditLog? ==>
      id !in ActiveIds(s.active) && id !in ArchivedIds(s.archived)
      && Latest(Loaded(s.audit), id) == Some(r.value.entry)
    ensures r.Ok? && r.value.NotFound? <==>
      s.online && id !in ActiveIds(s.active) && id !in ArchivedIds(s.archived)
      && Latest(Loaded(s.audit), id).None?
  {
    if !s.online then Err("database unavailable")
    else
      match FindActive(s.active, id)
      case Some(r) => Ok(InActive(r))
      case None =>
        match FindArchived(s.archived, id)
        case Some(a) => Ok(InArchive(a))
        case None =>
          match Latest(Loaded(s.audit), id)
          case Some(e) => Ok(InAuditLog(e))
          case None => Ok(NotFound)
  }

  // ---------------------------------------------------------------------------
  // Recovery from the audit log
  // ---------------------------------------------------------------------------

  /** `recover_from_audit_log`: rebuild a row from the snapshot in the last
      entry for the id, whatever that entry's operation, and insert it under a
      fresh id. Nothing changes when there is no entry, when a date does not
      parse, when a NOT NULL column is missing, or when the commit fails. */
  function Recover(s: State, id: int, now: Timestamp): (State, bool)
  {
    match Latest(Loaded(s.audit), id)
    case None => (s, false)
    case Some(e) =>
      if !s.online then (s, false)
      else
        match Recreate(e.data, s.nextId, now)
        case Err(_) => (s, false)
        case Ok(r) => (Inserted(s, r, now), true)
  }

  /** A failed recovery changes nothing; a successful one inserts exactly the
      row rebuilt from the last snapshot, under the next id, and logs it. */
  lemma RecoverSpec(s: State, id: int, now: Timestamp)
    ensures var (t, ok) := Recover(s, id, now);
      && (!ok ==> t == s)
      && (ok <==> s.online && Latest(Loaded(s.audit), id).Some?
                  && Recreate(Latest(Loaded(s.audit), id).value.data, s.nextId, now).Ok?)
      && (ok ==>
            var r := Recreate(Latest(Loaded(s.audit), id).value.data, s.nextId, now).value;
            && r.id == s.nextId
            && t == Inserted(s, r, now)
            && t.active == s.active + [r]
            && t.archived == s.archived)
      && (Valid(s) ==> Valid(t))
  {
    var (t, ok) := Recover(s, id, now);
    if ok {
      var e := Latest(Loaded(s.audit), id).value;
      var r := Recreate(e.data, s.nextId, now).value;
      RecreateId(e.data, s.nextId, now);
      if Valid(s) {
        InsertedValid(s, r, now);
      }
    }
  }

  /** Recovery does not bring the lost id back: the new row has the next id,
      so an id that was in neither table stays in neither table, and the next
      integrity check finds it missing again. */
  lemma RecoveredStillMissing(s: State, id: int, now: Timestamp)
    requires id !in Known(s) && id != s.nextId
    ensures id !in Known(Recover(s, id, now).0)
    ensures Recover(s, id, now).1 ==> Known(Recover(s, id, now).0) == Known(s) + {s.nextId}
  {
    RecoverSpec(s, id, now);
    var (t, ok) := Recover(s, id, now);
    if ok {
      var r := Recreate(Latest(Loaded(s.audit), id).value.data, s.nextId, now).value;
      assert ActiveIds(t.active) == ActiveIds(s.active) + {r.id} by {
        assert forall x | x in t.active :: x in s.active || x == r;
      }
    }
  }

  /** Recovery gives back the row whose serialised form the entry holds, under
      the next id and with its dates truncated to whole seconds. */
  lemma RecoverLoggedRow(s: State, id: int, now: Timestamp, row: Record)
    requires s.online && RecordReadable(row)
    requires Latest(Loaded(s.audit), id).Some? && Latest(Loaded(s.audit), id).value.data == ToDict(row)
    ensures Recover(s, id, now) ==
      (Inserted(s, row.(id := s.nextId, dateSubmitted := Truncate(row.dateSubmitted),
                         dateDispatched := TruncateOpt(row.dateDispatched)), now), true)
  {
    RecreateToDict(row, s.nextId, now);
  }

  /** The missing ids recovered one after another, with the ids for which
      recovery succeeded. */
  function RecoverEach(s: State, ids: seq<int>, now: Timestamp): (State, seq<int>)
  {
    if ids == [] then (s, [])
    else
      var (s1, done) := RecoverEach(s, ids[..|ids| - 1], now);
      var (s2, ok) := Recover(s1, ids[|ids| - 1], now);
      (s2, if ok then done + [ids[|ids| - 1]] else done)
  }

  lemma {:induction false} RecoverEachValid(s: State, ids: seq<int>, now: Timestamp)
    ensures Valid(s) ==> Valid(RecoverEach(s, ids, now).0)
    ensures RecoverEach(s, ids, now).0.archived == s.archived
    ensures RecoverEach(s, ids, now).0.online == s.online
    ensures RecoverEach(s, ids, now).0.diskWritable == s.diskWritable
    ensures forall x | x in RecoverEach(s, ids, now).1 :: x in ids
    ensures |s.active| <= |RecoverEach(s, ids, now).0.active|
    ensures RecoverEach(s, ids, now).0.active[..|s.active|] == s.active
  {
    if ids != [] {
      RecoverEachValid(s, ids[..|ids| - 1], now);
      var s1 := RecoverEach(s, ids[..|ids| - 1], now).0;
      RecoverSpec(s1, ids[|ids| - 1], now);
    }
  }

  // ---------------------------------------------------------------------------
  // The integrity check
  // ---------------------------------------------------------------------------

  /** The entries whose ids the check expects to find in a table. */
  predicate Audited(e: AuditEntry)
  {
    e.table == RequestTable && e.operation != Archive
  }

  /** The audited ids found in neither table, each once, in the order they
      first appear in the log. */
  function MissingIds(entries: seq<AuditEntry>, known: set<int>): (r: seq<int>)
    ensures forall x :: x in r <==>
      x !in known && exists e | e in entries :: Audited(e) && e.recordId == x
    ensures forall i, j | 0 <= i < j < |r| :: r[i] != r[j]
  {
    if entries == [] then []
    else
      var n := |entries| - 1;
      var e := entries[n];
      var prev := MissingIds(entries[..n], known);
      assert forall f | f in entries :: f in entries[..n] || f == e;
      assert forall f | f in entries[..n] :: f in entries;
      if Audited(e) && e.recordId !in known && e.recordId !in prev then prev + [e.recordId]
      else prev
  }

  /** The number of dispatched rows whose dispatch date is before the cutoff
      (NULL dates never compare). */
  function OldDispatched(rows: seq<Record>, cutoff: int): (n: nat)
    ensures n <= |rows|
    ensures n == 0 <==> forall r | r in rows :: !IsOldDispatched(r, cutoff)
  {
    if rows == [] then 0
    else
      assert forall r | r in rows :: r == rows[0] || r in rows[1..];
      (if IsOldDispatched(rows[0], cutoff) then 1 else 0) + OldDispatched(rows[1..], cutoff)
  }

  predicate IsOldDispatched(r: Record, cutoff: int)
  {
    r.status == Dispatched && r.dateDispatched.Some? && Micros(r.dateDispatched.value) < cutoff
  }

  /** Days after which a dispatched row is expected to be archived. */
  const ArchiveAfterDays := 120

  datatype Issue =
    | Duplicates(ids: set<int>)
    | MissingFromDatabase(ids: set<int>)
    | RecoveredRecord(id: int)
    | OldDispatchedRecords(count: nat)

  datatype CheckStatus = Healthy | IssuesFound | CheckError

  /** The check's result; an error result carries no issue list. */
  datatype Report = Report(status: CheckStatus, issues: seq<Issue>)

  function RecoveredIssues(ids: seq<int>): (r: seq<Issue>)
    ensures |r| == |ids| && forall i | 0 <= i < |ids| :: r[i] == RecoveredRecord(ids[i])
  {
    seq(|ids|, i requires 0 <= i < |ids| => RecoveredRecord(ids[i]))
  }

  /** `perform_integrity_check`. The duplicate and missing-id steps are set
      algebra over the ids of both tables; missing ids are recovered on the
      spot, and those recoveries stay committed even when a later step fails.
      A database that does not answer, an audit file that does not load, and a
      cutoff that falls before year 1 all end in an error result. The
      constraint probe of step 4 runs only on a reachable database, where it
      always succeeds, so it never adds an issue. */
  function IntegrityCheck(s: State, now: Timestamp): (State, Report)
  {
    if !s.online || s.audit.Corrupt? then (s, Report(CheckError, []))
    else
      var missing := MissingIds(Loaded(s.audit), Known(s));
      var (t, recovered) := RecoverEach(s, missing, now);
      (t, Conclude(t, DuplicateIssues(s) + MissingIssues(missing, recovered), now))
  }

  /** The ids found in either table. */
  function Known(s: State): set<int>
  {
    ActiveIds(s.active) + ArchivedIds(s.archived)
  }

  /** Step 1: active ids that are also the `original_id` of an archived row. */
  function DuplicateIssues(s: State): (r: seq<Issue>)
    ensures r == [] || r == [Duplicates(ActiveIds(s.active) * ArchivedIds(s.archived))]
  {
    var dup := ActiveIds(s.active) * ArchivedIds(s.archived);
    if dup != {} then [Duplicates(dup)] else []
  }

  /** Step 2's issues: the missing ids, then one entry per recovered id. */
  function MissingIssues(missing: seq<int>, recovered: seq<int>): seq<Issue>
  {
    if missing != [] then [MissingFromDatabase(set x | x in missing)] + RecoveredIssues(recovered)
    else []
  }

  /** Steps 3 and 5: the archive-age count over the table as recovery left it,
      and the verdict. */
  function Conclude(t: State, issues: seq<Issue>, now: Timestamp): Report
  {
    if Micros(now) < Days(ArchiveAfterDays) then Report(CheckError, [])
    else
      var stale := OldDispatched(t.active, Micros(now) - Days(ArchiveAfterDays));
      var all := issues + (if stale > 0 then [OldDispatchedRecords(stale)] else []);
      Report(if all == [] then Healthy else IssuesFound, all)
  }

  /** The verdict: an error exactly when the database is down, the audit file
      does not load or the cutoff underflows; otherwise healthy exactly when
      there is no issue. A healthy check changed nothing, and every check
      keeps the keys valid and the archive table as it was. */
  lemma IntegrityVerdict(s: State, now: Timestamp)
    ensures var (t, rep) := IntegrityCheck(s, now);
      && (rep.status == CheckError <==>
            !s.online || s.audit.Corrupt? || Micros(now) < Days(ArchiveAfterDays))
      && (rep.status == Healthy <==> rep.status != CheckError && rep.issues == [])
      && (rep.status == Healthy ==> t == s)
      && (Valid(s) ==> Valid(t))
      && t.archived == s.archived
  {
    if s.online && !s.audit.Corrupt? {
      var missing := MissingIds(Loaded(s.audit), Known(s));
      RecoverEachValid(s, missing, now);
      var (t, recovered) := RecoverEach(s, missing, now);
      if Conclude(t, DuplicateIssues(s) + MissingIssues(missing, recovered), now).status == Healthy {
        assert MissingIssues(missing, recovered) == [];
        assert missing == [];
      }
    }
  }

  /** The check never takes the database down or the disk away, leaves the
      archive alone and only appends recovered rows to the active table. */
  lemma IntegrityCheckFrame(s: State, now: Timestamp)
    ensures var t := IntegrityCheck(s, now).0;
      && t.online == s.online && t.diskWritable == s.diskWritable
      && t.archived == s.archived
      && |s.active| <= |t.active| && t.active[..|s.active|] == s.active
  {
    if s.online && !s.audit.Corrupt? {
      RecoverEachValid(s, MissingIds(Loaded(s.audit), Known(s)), now);
    }
  }

  /** The missing-id issue names exactly the audited ids found in neither
      table, and appears exactly when there is one. */
  lemma MissingIssuesSpec(s: State, recovered: seq<int>)
    ensures var missing := MissingIds(Loaded(s.audit), Known(s));
      forall ids :: MissingFromDatabase(ids) in MissingIssues(missing, recovered) <==>
        ids != {} && ids == AuditedElsewhere(s)
  {
    var missing := MissingIds(Loaded(s.audit), Known(s));
    var expected := AuditedElsewhere(s);
    assert (set x | x in missing) == expected by {
      forall y | y in expected ensures y in missing {
        var x :| x in Loaded(s.audit) && Audited(x) && x.recordId !in Known(s) && x.recordId == y;
      }
    }
    assert missing == [] <==> expected == {} by {
      if missing != [] { assert missing[0] in expected; }
    }
    forall ids ensures MissingFromDatabase(ids) in MissingIssues(missing, recovered) <==>
      ids != {} && ids == expected {
      if missing != [] {
        assert forall i | 0 <= i < |RecoveredIssues(recovered)| ::
          !RecoveredIssues(recovered)[i].MissingFromDatabase?;
        assert MissingIssues(missing, recovered)[0] == MissingFromDatabase(expected);
      }
    }
  }

  /** The audited ids of the log that neither table holds. */
  function AuditedElsewhere(s: State): set<int>
  {
    set x | x in Loaded(s.audit) && Audited(x) && x.recordId !in Known(s) :: x.recordId
  }

  /** What the issues say: the duplicates come first and are exactly the
      active ids that are also archived `original_id`s; the missing-id issue
      names exactly the audited ids found in neither table. */
  lemma IntegrityIssues(s: State, now: Timestamp)
    requires s.online && !s.audit.Corrupt? && Micros(now) >= Days(ArchiveAfterDays)
    ensures var rep := IntegrityCheck(s, now).1;
      var dup := ActiveIds(s.active) * ArchivedIds(s.archived);
      && (dup != {} <==> |rep.issues| > 0 && rep.issues[0] == Duplicates(dup))
      && forall ids :: MissingFromDatabase(ids) in rep.issues <==>
           ids != {} && ids == AuditedElsewhere(s)
  {
    var missing := MissingIds(Loaded(s.audit), Known(s));
    var (t, recovered) := RecoverEach(s, missing, now);
    var d := DuplicateIssues(s);
    var m := MissingIssues(missing, recovered);
    var rep := Conclude(t, d + m, now);
    MissingIssuesSpec(s, recovered);
    ConcludeKeeps(t, d + m, now);
    forall ids ensures MissingFromDatabase(ids) in rep.issues <==> MissingFromDatabase(ids) in m {
      assert MissingFromDatabase(ids) in d + m <==> MissingFromDatabase(ids) in m;
    }
    if m == [] && |rep.issues| > 0 {
      assert rep.issues[0] != Duplicates(ActiveIds(s.active) * ArchivedIds(s.archived)) || d != [];
    }
    if d == [] && m != [] {
      assert rep.issues[0] == m[0];
    }
  }

  /** Concluding keeps the earlier issues in front, adding at most the
      archive-age one. */
  lemma ConcludeKeeps(t: State, issues: seq<Issue>, now: Timestamp)
    requires Micros(now) >= Days(ArchiveAfterDays)
    ensures var rep := Conclude(t, issues, now);
      && rep.status != CheckError
      && rep.issues[..|issues|] == issues
      && (forall i | |issues| <= i < |rep.issues| :: rep.issues[i].OldDispatchedRecords?)
  {
  }

  // ---------------------------------------------------------------------------
  // Backup snapshot
  // ---------------------------------------------------------------------------

  /** The lists of serialised rows a backup file holds. */
  datatype Backup = Backup(active: seq<Snapshot>, archived: seq<Snapshot>)

  /** What `restore_from_backup` finds under a file name. */
  datatype BackupFile = NoFile | Unreadable | Stored(backup: Backup)

  function SnapshotOf(s: State): (b: Backup)
    ensures |b.active| == |s.active| && forall i | 0 <= i < |s.active| :: b.active[i] == ToDict(s.active[i])
    ensures |b.archived| == |s.archived|
    ensures forall i | 0 <= i < |s.archived| :: b.archived[i] == ArchivedToDict(s.archived[i])
  {
    Backup(seq(|s.active|, i requires 0 <= i < |s.active| => ToDict(s.active[i])),
           seq(|s.archived|, i requires 0 <= i < |s.archived| => ArchivedToDict(s.archived[i])))
  }

  /** `create_backup_snapshot`: both tables serialised in table order, or
      nothing when the tables cannot be read or the file cannot be written. */
  function CreateBackupSnapshot(s: State): (r: Option<Backup>)
    ensures r.Some? <==> s.online && s.diskWritable
    ensures r.Some? ==> r.value == SnapshotOf(s)
  {
    if s.online && s.diskWritable then Some(SnapshotOf(s)) else None
  }

  // ---------------------------------------------------------------------------
  // The database and the audit-log file, updated in place
  // ---------------------------------------------------------------------------

  class Database {
    var active: seq<Record>
    var archived: seq<ArchivedRow>
    var nextId: int
    var audit: LogFile<AuditEntry>
    var online: bool
    var diskWritable: bool

    function Contents(): State
      reads this
    {
      State(active, archived, nextId, audit, online, diskWritable)
    }

    constructor (s: State)
      ensures Contents() == s
    {
      active, archived, nextId := s.active, s.archived, s.nextId;
      audit, online, diskWritable := s.audit, s.online, s.diskWritable;
    }

    /** Replaces the whole state, as an operation outside this model may. */
    method Assign(s: State)
      modifies this
      ensures Contents() == s
    {
      active, archived, nextId := s.active, s.archived, s.nextId;
      audit, online, diskWritable := s.audit, s.online, s.diskWritable;
    }

    /** `_log_operation`: load the log (an absent file is empty), append, keep
        the newest `AuditCap` entries, write it back. A file that does not load
        or cannot be written is left alone and the failure is swallowed. */
    method LogOperation(op: Operation, id: int, data: Snapshot, now: Timestamp)
      modifies this
      ensures audit == AppendToLog(old(audit), AuditEntry(now, op, RequestTable, id, data),
                                   AuditCap, diskWritable)
      ensures Contents() == old(Contents()).(audit := audit)
    {
      if audit.Corrupt? {
        return;
      }
      var log := Loaded(audit);
      log := log + [AuditEntry(now, op, RequestTable, id, data)];
      if |log| > AuditCap {
        log := log[|log| - AuditCap..];
      }
      if diskWritable {
        audit := Entries(log);
      }
    }

    /** A flushed insert, with the insert listener's log entry. */
    method InsertRow(r: Record, now: Timestamp)
      modifies this
      ensures Contents() == Inserted(old(Contents()), r, now)
    {
      active := active + [r];
      nextId := nextId + 1;
      assert Contents() == old(Contents()).(active := old(active) + [r], nextId := old(nextId) + 1);
      LogOperation(Insert, r.id, ToDict(r), now);
    }

    /** Deleting an active row through the session, with the delete guard. */
    method Delete(id: int, archiving: bool, now: Timestamp) returns (r: Result<(), DeleteError>)
      requires id in ActiveIds(active)
      modifies this
      ensures (Contents(), r) == DeleteActive(old(Contents()), id, archiving, now)
    {
      if !archiving {
        return Err(DeleteWithoutArchiving(id));
      }
      var row := FindActive(active, id).value;
      LogOperation(Archive, id, ToDict(row), now);
      active := Without(active, id);
      return Ok(());
    }

    /** Deleting an archived row: always refused, and nothing changes. */
    method DeleteArchived(i: nat) returns (r: Result<(), DeleteError>)
      requires i < |archived|
      ensures r == Err(ArchivedRowImmutable(archived[i].originalId))
    {
      return Err(ArchivedRowImmutable(archived[i].originalId));
    }

    /** `_check_audit_log_for_record`: scans the log from its newest entry. */
    method CheckAuditLogForRecord(id: int) returns (r: Option<AuditEntry>)
      ensures r == Latest(Loaded(audit), id)
    {
      var entries := Loaded(audit);
      var i := |entries|;
      assert entries[..i] == entries;
      while i > 0
        invariant 0 <= i <= |entries|
        invariant Latest(entries, id) == Latest(entries[..i], id)
      {
        assert entries[..i][..i - 1] == entries[..i - 1];
        if entries[i - 1].recordId == id {
          return Some(entries[i - 1]);
        }
        i := i - 1;
      }
      return None;
    }

    method VerifyRecordExists(id: int) returns (r: Result<Location, string>)
      ensures r == Locate(Contents(), id)
    {
      if !online {
        return Err("database unavailable");
      }
      var found := FindActive(active, id);
      if found.Some? {
        return Ok(InActive(found.value));
      }
      var archivedRow := FindArchived(archived, id);
      if archivedRow.Some? {
        return Ok(InArchive(archivedRow.value));
      }
      var entry := CheckAuditLogForRecord(id);
      if entry.Some? {
        return Ok(InAuditLog(entry.value));
      }
      return Ok(NotFound);
    }

    method RecoverFromAuditLog(id: int, now: Timestamp) returns (ok: bool)
      modifies this
      ensures (Contents(), ok) == Recover(old(Contents()), id, now)
    {
      var entry := CheckAuditLogForRecord(id);
      if entry.None? || !online {
        return false;
      }
      var rebuilt := Recreate(entry.value.data, nextId, now);
      if rebuilt.Err? {
        return false;
      }
      InsertRow(rebuilt.value, now);
      return true;
    }

    /** Step 2's scan of the log for audited ids found in neither table. */
    method CollectMissing(entries: seq<AuditEntry>, known: set<int>) returns (missing: seq<int>)
      ensures missing == MissingIds(entries, known)
    {
      missing := [];
      var i := 0;
      while i < |entries|
        invariant 0 <= i <= |entries|
        invariant missing == MissingIds(entries[..i], known)
      {
        var e := entries[i];
        assert entries[..i + 1][..i] == entries[..i];
        if Audited(e) && e.recordId !in known && e.recordId !in missing {
          missing := missing + [e.recordId];
        }
        i := i + 1;
      }
      assert entries[..|entries|] == entries;
    }

    /** Step 2's recoveries, one missing id after another. */
    method RecoverAll(missing: seq<int>, now: Timestamp) returns (recovered: seq<int>)
      modifies this
      ensures (Contents(), recovered) == RecoverEach(old(Contents()), missing, now)
    {
      recovered := [];
      var k := 0;
      while k < |missing|
        invariant 0 <= k <= |missing|
        invariant (Contents(), recovered) == RecoverEach(old(Contents()), missing[..k], now)
      {
        assert missing[..k + 1][..k] == missing[..k];
        var ok := RecoverFromAuditLog(missing[k], now);
        if ok {
          recovered := recovered + [missing[k]];
        }
        k := k + 1;
      }
      assert missing[..|missing|] == missing;
    }

    method PerformIntegrityCheck(now: Timestamp) returns (report: Report)
      modifies this
      ensures (Contents(), report) == IntegrityCheck(old(Contents()), now)
    {
      if !online || audit.Corrupt? {
        return Report(CheckError, []);
      }
      report := CheckLoaded(now);
    }

    /** The check once the tables answer and the log has loaded. */
    method CheckLoaded(now: Timestamp) returns (report: Report)
      requires online && !audit.Corrupt?
      modifies this
      ensures (Contents(), report) == IntegrityCheck(old(Contents()), now)
    {
      var issues := DuplicateIssues(Contents());
      var missing := CollectMissing(Loaded(audit), ActiveIds(active) + ArchivedIds(archived));
      var recovered := RecoverAll(missing, now);
      issues := issues + MissingIssues(missing, recovered);
      report := Conclude(Contents(), issues, now);
    }
  }
}
