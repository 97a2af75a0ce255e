/** The in-memory request limiter and the login lockout. Clock readings are
    integers in microseconds; a client is named by its address string. */
module RateLimiter {
  import opened Basics

  // ---------------------------------------------------------------------------
  // The sliding-window request limiter
  // ---------------------------------------------------------------------------

  const DefaultMaxRequests := 5
  const DefaultWindowSeconds := 60

  /** A client's current window: requests admitted and when it opened. */
  datatype Window = Window(count: nat, firstRequest: int)

  datatype Decision = Admitted | TooManyRequests

  function WindowLength(windowSeconds: int): int
  {
    windowSeconds * 1_000_000
  }

  /** The first step of every request: drop the windows that have elapsed. */
  function Live(counts: map<string, Window>, now: int, windowSeconds: int): (r: map<string, Window>)
    ensures forall k :: k in r <==> k in counts && now - counts[k].firstRequest < WindowLength(windowSeconds)
    ensures forall k | k in r :: r[k] == counts[k]
  {
    map k | k in counts && now - counts[k].firstRequest < WindowLength(windowSeconds) :: counts[k]
  }

  /** The `rate_limit` decorator's check, with the branch that reopens a
      window kept as written. */
  function RateLimit(counts: map<string, Window>, ip: string, now: int, maxRequests: int, windowSeconds: int)
    : (map<string, Window>, Decision)
  {
    var live := Live(counts, now, windowSeconds);
    if ip in live then
      if now - live[ip].firstRequest < WindowLength(windowSeconds) then
        if live[ip].count >= maxRequests then (live, TooManyRequests)
        else (live[ip := live[ip].(count := live[ip].count + 1)], Admitted)
      else (live[ip := Window(1, now)], Admitted)
    else (live[ip := Window(1, now)], Admitted)
  }

  /** A request is refused exactly when its client's live window is full; a
      refusal counts nothing, an admission counts one more (or opens a window
      of one), and no other client's window changes beyond the cleanup. */
  lemma RateLimitSpec(counts: map<string, Window>, ip: string, now: int, maxRequests: int, windowSeconds: int)
    ensures var (next, d) := RateLimit(counts, ip, now, maxRequests, windowSeconds);
      var live := Live(counts, now, windowSeconds);
      && (d == TooManyRequests <==> ip in live && live[ip].count >= maxRequests)
      && (d == TooManyRequests ==> next == live)
      && (d == Admitted ==>
            ip in next && next[ip] == (if ip in live then live[ip].(count := live[ip].count + 1) else Window(1, now)))
      && next.Keys == live.Keys + {ip}
      && (forall k | k in next && k != ip :: next[k] == counts[k])
  {
  }

  /** After the cleanup every surviving window is still open, so the branch
      that would reopen an elapsed window never runs. */
  lemma ReopenUnreachable(counts: map<string, Window>, ip: string, now: int, windowSeconds: int)
    requires ip in Live(counts, now, windowSeconds)
    ensures now - Live(counts, now, windowSeconds)[ip].firstRequest < WindowLength(windowSeconds)
  {
  }

  /** Every stored window has counted at least one and at most the limit (or
      one, for a limit below one). */
  predicate Bounded(counts: map<string, Window>, maxRequests: int)
  {
    forall k | k in counts :: 1 <= counts[k].count <= Max(maxRequests, 1)
  }

  lemma RateLimitBounded(counts: map<string, Window>, ip: string, now: int, maxRequests: int, windowSeconds: int)
    requires Bounded(counts, maxRequests)
    ensures Bounded(RateLimit(counts, ip, now, maxRequests, windowSeconds).0, maxRequests)
  {
    var live := Live(counts, now, windowSeconds);
    assert Bounded(live, maxRequests);
  }

  /** The module-level table of windows, as the decorator updates it. */
  class RequestCounter {
    var counts: map<string, Window>

    constructor ()
      ensures counts == map[]
    {
      counts := map[];
    }

    method Check(ip: string, now: int, maxRequests: int, windowSeconds: int) returns (d: Decision)
      modifies this
      ensures (counts, d) == RateLimit(old(counts), ip, now, maxRequests, windowSeconds)
    {
      counts := map k | k in counts && now - counts[k].firstRequest < WindowLength(windowSeconds) :: counts[k];
      if ip in counts {
        var w := counts[ip];
        if now - w.firstRequest < WindowLength(windowSeconds) {
          if w.count >= maxRequests {
            return TooManyRequests;
          }
          counts := counts[ip := w.(count := w.count + 1)];
        } else {
          // The cleanup above keeps only open windows.
          assert false;
        }
      } else {
        counts := counts[ip := Window(1, now)];
      }
      return Admitted;
    }
  }

  // ---------------------------------------------------------------------------
  // The login lockout
  // ---------------------------------------------------------------------------

  const DefaultMaxAttempts := 5
  const DefaultLockoutMinutes := 15

  datatype Attempts = Attempts(attempts: nat, lastAttempt: int)

  datatype LoginDecision = Proceed | LockedOut(remainingMinutes: int)

  function LockoutLength(minutes: int): int
  {
    minutes * 60_000_000
  }

  /** The `rate_limit_login` check on the table it is given. An expired
      lockout sets the client's count back to zero. */
  function LoginGate(table: map<string, Attempts>, ip: string, now: int, maxAttempts: int, lockoutMinutes: int)
    : (map<string, Attempts>, LoginDecision)
  {
    if ip in table && table[ip].attempts >= maxAttempts then
      var until := table[ip].lastAttempt + LockoutLength(lockoutMinutes);
      if now < until then (table, LockedOut((until - now) / 60_000_000))
      else (table[ip := Attempts(0, now)], Proceed)
    else (table, Proceed)
  }

  /** A login is blocked exactly while a client at the limit is inside its
      lockout; the message gives the whole minutes left, rounded down. */
  lemma LoginGateSpec(table: map<string, Attempts>, ip: string, now: int, maxAttempts: int, lockoutMinutes: int)
    ensures var (next, d) := LoginGate(table, ip, now, maxAttempts, lockoutMinutes);
      && (d.LockedOut? <==> ip in table && table[ip].attempts >= maxAttempts
                            && now < table[ip].lastAttempt + LockoutLength(lockoutMinutes))
      && (d.LockedOut? ==> next == table && d.remainingMinutes >= 0)
      && (d.LockedOut? ==>
            var left := table[ip].lastAttempt + LockoutLength(lockoutMinutes) - now;
            d.remainingMinutes * 60_000_000 <= left < (d.remainingMinutes + 1) * 60_000_000)
      && (d == Proceed && ip in table && table[ip].attempts >= maxAttempts ==> next == table[ip := Attempts(0, now)])
      && (!(ip in table && table[ip].attempts >= maxAttempts) ==> next == table)
  {
  }

  /** `record_failed_login`. */
  function RecordFailure(table: map<string, Attempts>, ip: string, now: int): (r: map<string, Attempts>)
    ensures r.Keys == table.Keys + {ip}
    ensures r[ip] == Attempts(if ip in table then table[ip].attempts + 1 else 1, now)
    ensures forall k | k in r && k != ip :: r[k] == table[k]
  {
    if ip !in table then table[ip := Attempts(1, now)]
    else table[ip := table[ip].(attempts := table[ip].attempts + 1, lastAttempt := now)]
  }

  /** `reset_login_attempts`. */
  function ResetAttempts(table: map<string, Attempts>, ip: string): (r: map<string, Attempts>)
    ensures r.Keys == table.Keys - {ip}
    ensures forall k | k in r :: r[k] == table[k]
    ensures ip !in table ==> r == table
  {
    if ip in table then table - {ip} else table
  }

  /** Were the gate and the failure counter the same table, enough failures
      would lock the client out until the lockout has run from the last one. */
  lemma FailuresLockOut(table: map<string, Attempts>, ip: string, t: int, now: int, maxAttempts: int, lockoutMinutes: int)
    requires ip in table ==> table[ip].attempts + 1 >= maxAttempts
    requires ip !in table ==> maxAttempts <= 1
    requires t <= now < t + LockoutLength(lockoutMinutes)
    ensures LoginGate(RecordFailure(table, ip, t), ip, now, maxAttempts, lockoutMinutes).1.LockedOut?
  {
  }

  /** What a client does: a login passes the gate, fails, or succeeds. */
  datatype LoginEvent =
    | LoginRequest(ip: string, now: int)
    | LoginFailed(ip: string, now: int)
    | LoginSucceeded(ip: string)

  /** The two tables of the source: the decorator's own, created empty when the
      decorator is applied, and the module-level one that failures and resets
      update. */
  datatype LoginTables = LoginTables(gate: map<string, Attempts>, failures: map<string, Attempts>)

  function Apply(t: LoginTables, e: LoginEvent, maxAttempts: int, lockoutMinutes: int): (LoginTables, LoginDecision)
  {
    match e
    case LoginRequest(ip, now) =>
      var (g, d) := LoginGate(t.gate, ip, now, maxAttempts, lockoutMinutes);
      (t.(gate := g), d)
    case LoginFailed(ip, now) => (t.(failures := RecordFailure(t.failures, ip, now)), Proceed)
    case LoginSucceeded(ip) => (t.(failures := ResetAttempts(t.failures, ip)), Proceed)
  }

  function Run(t: LoginTables, events: seq<LoginEvent>, maxAttempts: int, lockoutMinutes: int): (LoginTables, seq<LoginDecision>)
  {
    if events == [] then (t, [])
    else
      var n := |events| - 1;
      var (t1, ds) := Run(t, events[..n], maxAttempts, lockoutMinutes);
      var (t2, d) := Apply(t1, events[n], maxAttempts, lockoutMinutes);
      (t2, ds + [d])
  }

  /** As wired, the gate reads a table that only it writes, and it only ever
      writes entries already in it: from the empty table no login is ever
      locked out, however many failures are recorded. */
  lemma {:induction false} NeverLockedOut(failures: map<string, Attempts>, events: seq<LoginEvent>, maxAttempts: int, lockoutMinutes: int)
    ensures Run(LoginTables(map[], failures), events, maxAttempts, lockoutMinutes).0.gate == map[]
    ensures |Run(LoginTables(map[], failures), events, maxAttempts, lockoutMinutes).1| == |events|
    ensures forall i | 0 <= i < |events| ::
      Run(LoginTables(map[], failures), events, maxAttempts, lockoutMinutes).1[i] == Proceed
  {
    if events != [] {
      NeverLockedOut(failures, events[..|events| - 1], maxAttempts, lockoutMinutes);
    }
  }

  /** The two login tables and the operations on them. */
  class LoginGuard {
    var gate: map<string, Attempts>
    var failures: map<string, Attempts>

    constructor ()
      ensures gate == map[] && failures == map[]
    {
      gate, failures := map[], map[];
    }

    method CheckLogin(ip: string, now: int, maxAttempts: int, lockoutMinutes: int) returns (d: LoginDecision)
      modifies this
      ensures (gate, d) == LoginGate(old(gate), ip, now, maxAttempts, lockoutMinutes)
      ensures failures == old(failures)
    {
      if ip in gate {
        var a := gate[ip];
        if a.attempts >= maxAttempts {
          var until := a.lastAttempt + LockoutLength(lockoutMinutes);
          if now < until {
            return LockedOut((until - now) / 60_000_000);
          }
          gate := gate[ip := Attempts(0, now)];
        }
      }
      return Proceed;
    }

    method RecordFailedLogin(ip: string, now: int)
      modifies this
      ensures failures == RecordFailure(old(failures), ip, now)
      ensures gate == old(gate)
    {
      if ip !in failures {
        failures := failures[ip := Attempts(1, now)];
      } else {
        var a := failures[ip];
        failures := failures[ip := a.(attempts := a.attempts + 1)];
        failures := failures[ip := failures[ip].(lastAttempt := now)];
      }
    }

    method ResetLoginAttempts(ip: string)
      modifies this
      ensures failures == ResetAttempts(old(failures), ip)
      ensures gate == old(gate)
    {
      if ip in failures {
        failures := failures - {ip};
      }
    }
  }
}
