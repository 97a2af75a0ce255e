/** Maintenance utilities: the status-count health check, the count of old
    requests (nothing is deleted), and the backup placeholder. They only read
    the active table, so they are functions of its rows. */
module Maintenance {
  import opened Basics
  import opened DateTime
  import opened Models

  /** `filter_by(status=st).count()`. */
  function CountStatus(rows: seq<Record>, st: string): (n: nat)
    ensures n <= |rows|
    ensures n == 0 <==> forall r | r in rows :: r.status != st
  {
    if rows == [] then 0
    else
      var m := |rows| - 1;
      assert forall r | r in rows :: r in rows[..m] || r == rows[m];
      CountStatus(rows[..m], st) + (if rows[m].status == st then 1 else 0)
  }

  predicate KnownStatus(r: Record)
  {
    r.status == Outstanding || r.status == InProgress || r.status == Dispatched
  }

  /** The rows whose status is none of the three. */
  function CountOther(rows: seq<Record>): (n: nat)
    ensures n == 0 <==> forall i | 0 <= i < |rows| :: KnownStatus(rows[i])
  {
    if rows == [] then 0
    else
      var m := |rows| - 1;
      assert forall i | 0 <= i < m :: rows[..m][i] == rows[i];
      CountOther(rows[..m]) + (if KnownStatus(rows[m]) then 0 else 1)
  }

  /** Every row is counted under exactly one of the three statuses or as
      other. */
  lemma {:induction false} StatusPartition(rows: seq<Record>)
    ensures CountStatus(rows, Outstanding) + CountStatus(rows, InProgress) + CountStatus(rows, Dispatched)
      + CountOther(rows) == |rows|
  {
    if rows != [] {
      StatusPartition(rows[..|rows| - 1]);
      OneStatus(rows[|rows| - 1]);
    }
  }

  /** A row counts under at most one status, and under one exactly when its
      status is one of the three. */
  lemma OneStatus(r: Record)
    ensures (if r.status == Outstanding then 1 else 0) + (if r.status == InProgress then 1 else 0)
      + (if r.status == Dispatched then 1 else 0) + (if KnownStatus(r) then 0 else 1) == 1
  {
    assert Outstanding[0] == 'O' && InProgress[0] == 'I' && Dispatched[0] == 'D';
  }

  datatype Health =
    | Healthy(total: nat, outstanding: nat, inProgress: nat, dispatched: nat)
    | Unhealthy

  /** `database_health_check`: any failure to reach the database is reported
      as unhealthy, never as healthy. */
  function HealthCheck(rows: seq<Record>, online: bool): (h: Health)
    ensures h.Healthy? <==> online
    ensures h.Healthy? ==>
      && h.total == |rows|
      && h.outstanding + h.inProgress + h.dispatched <= h.total
      && (h.outstanding + h.inProgress + h.dispatched == h.total <==> forall i | 0 <= i < |rows| :: KnownStatus(rows[i]))
  {
    if !online then Unhealthy
    else
      StatusPartition(rows);
      Healthy(|rows|, CountStatus(rows, Outstanding), CountStatus(rows, InProgress), CountStatus(rows, Dispatched))
  }

  /** The `days_to_keep` default. */
  const DefaultDaysToKeep := 365

  /** The last instant a `datetime` can hold, on the microsecond scale. */
  const MaxMicros: nat := 315537897599999999

  /** `MaxMicros` is `datetime.max`, and no timestamp lies beyond it. */
  lemma MaxMicrosIsLast()
    ensures ValidCivil(Civil(9999, 12, 31, 23, 59, 59, 999999))
    ensures Micros(Civil(9999, 12, 31, 23, 59, 59, 999999)) == MaxMicros
    ensures forall t: Timestamp :: Micros(t) <= MaxMicros
  {
    forall t: Timestamp
      ensures Micros(t) <= MaxMicros
    {
      MicrosAtMostMax(t);
    }
  }

  lemma MicrosAtMostMax(t: Timestamp)
    ensures Micros(t) <= MaxMicros
  {
    DaysBeforeYearMonotone(t.year + 1, 10000);
    assert DaysBeforeYear(10000) == 3652059;
    assert DayNumber(t) <= 3652058;
    assert t.hour * 3600 + t.minute * 60 + t.second <= 86399;
  }

  /** The submission times of the rows, on the microsecond scale. */
  function Submitted(rows: seq<Record>): (ts: seq<int>)
    ensures |ts| == |rows|
  {
    seq(|rows|, i requires 0 <= i < |rows| => Micros(rows[i].dateSubmitted))
  }

  /** The times strictly before the cutoff. */
  function CountBefore(ts: seq<int>, cutoff: int): (n: nat)
    ensures n <= |ts|
    ensures n == 0 <==> forall i | 0 <= i < |ts| :: ts[i] >= cutoff
    ensures n == |ts| <==> forall i | 0 <= i < |ts| :: ts[i] < cutoff
  {
    if ts == [] then 0
    else
      var m := |ts| - 1;
      assert forall i | 0 <= i < m :: ts[..m][i] == ts[i];
      CountBefore(ts[..m], cutoff) + (if ts[m] < cutoff then 1 else 0)
  }

  /** A later cutoff counts at least as many rows. */
  lemma {:induction false} CountBeforeMonotone(ts: seq<int>, a: int, b: int)
    requires a <= b
    ensures CountBefore(ts, a) <= CountBefore(ts, b)
  {
    if ts != [] {
      CountBeforeMonotone(ts[..|ts| - 1], a, b);
    }
  }

  datatype ArchiveError = CutoffOutOfRange | DatabaseUnavailable

  /** `archive_old_requests`: the cutoff is `now` minus the retention period,
      which fails when it leaves the range of `datetime`; the result is a count
      only, since no row is deleted. */
  function ArchiveOldRequests(rows: seq<Record>, online: bool, now: Timestamp, daysToKeep: int): (r: Result<nat, ArchiveError>)
    ensures r.Err? <==> !online || Micros(now) - Days(daysToKeep) < 0 || Micros(now) - Days(daysToKeep) > MaxMicros
    ensures r.Ok? ==> r.value == CountBefore(Submitted(rows), Micros(now) - Days(daysToKeep)) && r.value <= |rows|
  {
    var cutoff := Micros(now) - Days(daysToKeep);
    if cutoff < 0 || cutoff > MaxMicros then Err(CutoffOutOfRange)
    else if !online then Err(DatabaseUnavailable)
    else Ok(CountBefore(Submitted(rows), cutoff))
  }

  /** `backup_database`: a placeholder that always reports success. */
  function BackupDatabase(): (ok: bool)
    ensures ok
  {
    true
  }
}
