/** The database health monitor's state: the consecutive-failure counter, the
    alert cooldown, the bounded health history, the alert log file and the
    monitoring flag. A health probe's outcome, the clock (integer microseconds)
    and whether the log file can be written are parameters; response times are
    integer microseconds. */
module Monitor {
  import opened Basics

  // ---------------------------------------------------------------------------
  // Configuration and metrics
  // ---------------------------------------------------------------------------

  /** The thresholds; `smtpUsername` is the configured SMTP user name, absent
      when there are no SMTP settings. */
  datatype AlertConfig = AlertConfig(
    maxResponseTimeMs: int,
    maxFailedChecks: int,
    checkIntervalSeconds: int,
    alertCooldownMinutes: int,
    enableEmailAlerts: bool,
    smtpUsername: Option<string>)

  function DefaultConfig(smtpUsername: Option<string>): AlertConfig
  {
    AlertConfig(5000, 3, 60, 15, true, smtpUsername)
  }

  /** `_validate_smtp_config`: email alerts stay on only with a user name. */
  function ValidatedSmtp(c: AlertConfig): (r: AlertConfig)
    ensures r.enableEmailAlerts <==> c.enableEmailAlerts && c.smtpUsername.Some? && c.smtpUsername.value != []
    ensures r.(enableEmailAlerts := c.enableEmailAlerts) == c
  {
    if c.enableEmailAlerts && (c.smtpUsername.None? || c.smtpUsername.value == []) then c.(enableEmailAlerts := false)
    else c
  }

  datatype Connectivity = Healthy | Failed | Error

  datatype HealthMetrics = HealthMetrics(
    timestamp: int,
    status: Connectivity,
    responseMicros: int,
    connectionCount: nat,
    errorMessage: Option<string>,
    querySuccess: bool)

  /** What one health check meets: the database answered (with the pool's
      checked-out connections), a database-level failure (a connection or
      database error, a failed test query or a missing table), or any other
      exception. */
  datatype Probe =
    | Reached(responseMicros: int, connections: nat)
    | DatabaseFailure(responseMicros: int, message: string)
    | UnexpectedFailure(responseMicros: int, message: string)

  /** The metrics `check_database_health` reports. */
  function MetricsOf(probe: Probe, now: int): (m: HealthMetrics)
    ensures m.timestamp == now && m.responseMicros == probe.responseMicros
    ensures m.querySuccess <==> probe.Reached?
    ensures m.status == Healthy <==> probe.Reached?
    ensures m.errorMessage.None? <==> probe.Reached?
    ensures !probe.Reached? ==> m.connectionCount == 0
  {
    match probe
    case Reached(t, n) => HealthMetrics(now, Healthy, t, n, None, true)
    case DatabaseFailure(t, msg) => HealthMetrics(now, Failed, t, 0, Some(msg), false)
    case UnexpectedFailure(t, msg) => HealthMetrics(now, Error, t, 0, Some("Unexpected error: " + msg), false)
  }

  // ---------------------------------------------------------------------------
  // The monitor's state and its transitions
  // ---------------------------------------------------------------------------

  datatype AlertCondition =
    | HighResponseTime(responseMicros: int)
    | ConsecutiveFailures(count: nat)
    | ConnectivityLost(status: Connectivity)

  datatype AlertEvent = AlertEvent(
    timestamp: int,
    conditions: seq<AlertCondition>,
    metrics: HealthMetrics,
    consecutiveFailures: nat,
    production: bool)

  const HistoryCap := 1000
  const AlertLogCap := 100

  datatype MonitorState = MonitorState(
    config: AlertConfig,
    history: seq<HealthMetrics>,
    failures: nat,
    lastAlert: Option<int>,
    active: bool,
    alerts: LogFile<AlertEvent>)

  /** A new monitor; the alert log file is whatever is on disk. */
  function Initial(c: AlertConfig, alerts: LogFile<AlertEvent>): MonitorState
  {
    MonitorState(ValidatedSmtp(c), [], 0, None, false, alerts)
  }

  /** The counter after a check: a success resets it, any failure adds one. */
  function AfterCheck(s: MonitorState, probe: Probe): (t: MonitorState)
    ensures t.failures == if probe.Reached? then 0 else s.failures + 1
    ensures t.(failures := s.failures) == s
  {
    s.(failures := if probe.Reached? then 0 else s.failures + 1)
  }

  /** The conditions an alert is raised for, in the order they are listed. */
  function AlertConditions(c: AlertConfig, m: HealthMetrics, failures: nat): (r: seq<AlertCondition>)
    ensures HighResponseTime(m.responseMicros) in r <==> m.responseMicros > c.maxResponseTimeMs * 1000
    ensures ConsecutiveFailures(failures) in r <==> failures >= c.maxFailedChecks
    ensures ConnectivityLost(m.status) in r <==> m.status != Healthy
    ensures r == [] <==>
      m.responseMicros <= c.maxResponseTimeMs * 1000 && failures < c.maxFailedChecks && m.status == Healthy
  {
    (if m.responseMicros > c.maxResponseTimeMs * 1000 then [HighResponseTime(m.responseMicros)] else [])
    + (if failures >= c.maxFailedChecks then [ConsecutiveFailures(failures)] else [])
    + (if m.status != Healthy then [ConnectivityLost(m.status)] else [])
  }

  function CooldownMicros(c: AlertConfig): int
  {
    c.alertCooldownMinutes * 60_000_000
  }

  predicate InCooldown(s: MonitorState, now: int)
  {
    s.lastAlert.Some? && now < s.lastAlert.value + CooldownMicros(s.config)
  }

  /** `evaluate_alert_conditions`: no alert inside the cooldown, otherwise an
      alert exactly when some condition holds. */
  predicate ShouldAlert(s: MonitorState, m: HealthMetrics, now: int)
  {
    !InCooldown(s, now) && AlertConditions(s.config, m, s.failures) != []
  }

  lemma ShouldAlertSpec(s: MonitorState, m: HealthMetrics, now: int)
    ensures ShouldAlert(s, m, now) <==>
      && !(s.lastAlert.Some? && now < s.lastAlert.value + s.config.alertCooldownMinutes * 60_000_000)
      && (m.responseMicros > s.config.maxResponseTimeMs * 1000 || s.failures >= s.config.maxFailedChecks || m.status != Healthy)
  {
  }

  /** `trigger_alert` after the notifications: the alert time is now and the
      event is appended to the alert log, which keeps the newest hundred. */
  function Triggered(s: MonitorState, m: HealthMetrics, now: int, production: bool, writable: bool): MonitorState
  {
    var event := AlertEvent(m.timestamp, AlertConditions(s.config, m, s.failures), m, s.failures, production);
    s.(lastAlert := Some(now), alerts := AppendToLog(s.alerts, event, AlertLogCap, writable))
  }

  /** `store_health_metrics`: the history keeps the newest thousand. */
  function Stored(s: MonitorState, m: HealthMetrics): MonitorState
  {
    s.(history := KeepLast(s.history + [m], HistoryCap))
  }

  function Started(s: MonitorState): MonitorState { s.(active := true) }

  function Stopped(s: MonitorState): MonitorState { s.(active := false) }

  /** One pass of the monitoring loop: check, store, evaluate, and alert. */
  function Step(s: MonitorState, probe: Probe, now: int, production: bool, writable: bool): (MonitorState, bool)
  {
    var m := MetricsOf(probe, now);
    var s1 := Stored(AfterCheck(s, probe), m);
    if ShouldAlert(s1, m, now) then (Triggered(s1, m, now, production, writable), true) else (s1, false)
  }

  // ---------------------------------------------------------------------------
  // Properties
  // ---------------------------------------------------------------------------

  /** The history grows by the new metrics at the end and never passes its
      cap; nothing else changes. */
  lemma StoredSpec(s: MonitorState, m: HealthMetrics)
    ensures var t := Stored(s, m);
      && |t.history| == Min(|s.history| + 1, HistoryCap)
      && t.history[|t.history| - 1] == m
      && t.history == (s.history + [m])[|s.history| + 1 - |t.history|..]
      && t.(history := s.history) == s
  {
  }

  /** After an alert, no alert is raised again until the cooldown has run. */
  lemma CooldownSuppresses(s: MonitorState, m: HealthMetrics, now: int, production: bool, writable: bool,
                           m2: HealthMetrics, later: int)
    requires now <= later < now + CooldownMicros(s.config)
    ensures !ShouldAlert(Triggered(s, m, now, production, writable), m2, later)
  {
  }

  /** The alert log gets the event at its end, holding the conditions that
      caused it, and stays within its cap. */
  lemma TriggeredLog(s: MonitorState, m: HealthMetrics, now: int, production: bool, writable: bool)
    requires !s.alerts.Corrupt? && writable
    ensures var t := Triggered(s, m, now, production, writable);
      && t.alerts.Entries?
      && |t.alerts.entries| == Min(|Loaded(s.alerts)| + 1, AlertLogCap)
      && t.alerts.entries[|t.alerts.entries| - 1].conditions == AlertConditions(s.config, m, s.failures)
      && t.lastAlert == Some(now)
  {
    var event := AlertEvent(m.timestamp, AlertConditions(s.config, m, s.failures), m, s.failures, production);
    AppendToLogSpec(s.alerts, event, AlertLogCap, writable);
  }

  /** In the loop the failure threshold never decides anything: a success
      resets the counter before the evaluation, so whenever the counter has
      reached a positive threshold the current check has failed, which raises
      an alert by itself. */
  lemma FailureThresholdRedundant(s: MonitorState, probe: Probe, now: int, production: bool, writable: bool)
    requires s.config.maxFailedChecks >= 1
    ensures Step(s, probe, now, production, writable).1 <==>
      !InCooldown(s, now) && (probe.responseMicros > s.config.maxResponseTimeMs * 1000 || !probe.Reached?)
  {
  }

  /** A step keeps the history within its cap and the alert log within the
      larger of its length and its cap. */
  lemma StepBounded(s: MonitorState, probe: Probe, now: int, production: bool, writable: bool)
    requires |s.history| <= HistoryCap
    ensures var t := Step(s, probe, now, production, writable).0;
      && |t.history| <= HistoryCap
      && |Loaded(t.alerts)| <= Max(|Loaded(s.alerts)|, AlertLogCap)
  {
    var m := MetricsOf(probe, now);
    var s1 := Stored(AfterCheck(s, probe), m);
    var event := AlertEvent(m.timestamp, AlertConditions(s1.config, m, s1.failures), m, s1.failures, production);
    AppendToLogBounded(s1.alerts, event, AlertLogCap, writable);
  }

  /** Starting an active monitor or stopping an idle one changes nothing, and
      both are idempotent. */
  lemma StartStopIdempotent(s: MonitorState)
    ensures s.active ==> Started(s) == s
    ensures !s.active ==> Stopped(s) == s
    ensures Started(Started(s)) == Started(s) && Stopped(Stopped(s)) == Stopped(s)
  {
  }

  /** The checks of a run of the loop. */
  datatype Check = Check(probe: Probe, now: int)

  function Run(s: MonitorState, checks: seq<Check>, production: bool, writable: bool): MonitorState
  {
    if checks == [] then s
    else
      var n := |checks| - 1;
      Step(Run(s, checks[..n], production, writable), checks[n].probe, checks[n].now, production, writable).0
  }

  /** The failing checks at the end of a run. */
  function TrailingFailures(checks: seq<Check>): (n: nat)
    ensures n <= |checks|
  {
    if checks == [] || checks[|checks| - 1].probe.Reached? then 0
    else TrailingFailures(checks[..|checks| - 1]) + 1
  }

  /** The counter is the number of failures since the last success, or since
      the start when every check failed. */
  lemma {:induction false} RunFailures(s: MonitorState, checks: seq<Check>, production: bool, writable: bool)
    ensures Run(s, checks, production, writable).failures ==
      if TrailingFailures(checks) == |checks| then s.failures + |checks| else TrailingFailures(checks)
  {
    if checks != [] {
      RunFailures(s, checks[..|checks| - 1], production, writable);
    }
  }

  // ---------------------------------------------------------------------------
  // The health summary
  // ---------------------------------------------------------------------------

  const RecentChecks := 10

  /** The successful checks among `ms`. */
  function Successes(ms: seq<HealthMetrics>): (n: nat)
    ensures n <= |ms|
    ensures n == |ms| <==> forall i | 0 <= i < |ms| :: ms[i].querySuccess
  {
    if ms == [] then 0
    else
      var k := |ms| - 1;
      assert forall i | 0 <= i < k :: ms[..k][i] == ms[i];
      Successes(ms[..k]) + (if ms[k].querySuccess then 1 else 0)
  }

  /** `get_health_summary` without its floating-point figures: the success
      rate is `recentSuccesses` out of `recentChecks`. */
  datatype HealthSummary =
    | NoData
    | Summary(
        status: Connectivity,
        lastCheck: int,
        responseMicros: int,
        recentSuccesses: nat,
        recentChecks: nat,
        consecutiveFailures: nat,
        totalChecks: nat,
        monitoringActive: bool)

  function SummaryOf(s: MonitorState): (r: HealthSummary)
    ensures r.NoData? <==> s.history == []
    ensures r.Summary? ==>
      && r.status == s.history[|s.history| - 1].status
      && r.recentChecks == Min(|s.history|, RecentChecks) > 0
      && r.recentSuccesses <= r.recentChecks
      && r.totalChecks == |s.history|
  {
    if s.history == [] then NoData
    else
      var latest := s.history[|s.history| - 1];
      var recent := KeepLast(s.history, RecentChecks);
      Summary(latest.status, latest.timestamp, latest.responseMicros, Successes(recent), |recent|,
              s.failures, |s.history|, s.active)
  }

  /** A monitor whose newest check failed reports fewer successes than
      checks among the recent ones. */
  lemma SummaryShowsFailure(s: MonitorState)
    requires s.history != [] && !s.history[|s.history| - 1].querySuccess
    ensures SummaryOf(s).recentSuccesses < SummaryOf(s).recentChecks
  {
    var recent := KeepLast(s.history, RecentChecks);
    assert recent[|recent| - 1] == s.history[|s.history| - 1];
  }

  // ---------------------------------------------------------------------------
  // The monitor object
  // ---------------------------------------------------------------------------

  class DatabaseMonitor {
    var config: AlertConfig
    var healthHistory: seq<HealthMetrics>
    var consecutiveFailures: nat
    var lastAlertTime: Option<int>
    var monitoringActive: bool
    /** The alert log file the monitor reads and rewrites. */
    var alertLog: LogFile<AlertEvent>

    function State(): MonitorState
      reads this
    {
      MonitorState(config, healthHistory, consecutiveFailures, lastAlertTime, monitoringActive, alertLog)
    }

    constructor (c: AlertConfig, alerts: LogFile<AlertEvent>)
      ensures State() == Initial(c, alerts)
    {
      config := c;
      healthHistory := [];
      consecutiveFailures := 0;
      lastAlertTime := None;
      monitoringActive := false;
      alertLog := alerts;
      new;
      ValidateSmtpConfig();
    }

    method ValidateSmtpConfig()
      modifies this
      ensures State() == old(State()).(config := ValidatedSmtp(old(config)))
    {
      if config.enableEmailAlerts {
        var username := config.smtpUsername;
        if username.None? || username.value == [] {
          config := config.(enableEmailAlerts := false);
        }
      }
    }

    method CheckDatabaseHealth(probe: Probe, now: int) returns (m: HealthMetrics)
      modifies this
      ensures m == MetricsOf(probe, now)
      ensures State() == AfterCheck(old(State()), probe)
    {
      match probe {
        case Reached(t, n) =>
          m := HealthMetrics(now, Healthy, t, n, None, true);
          consecutiveFailures := 0;
        case DatabaseFailure(t, msg) =>
          m := HealthMetrics(now, Failed, t, 0, Some(msg), false);
          consecutiveFailures := consecutiveFailures + 1;
        case UnexpectedFailure(t, msg) =>
          m := HealthMetrics(now, Error, t, 0, Some("Unexpected error: " + msg), false);
          consecutiveFailures := consecutiveFailures + 1;
      }
    }

    method EvaluateAlertConditions(m: HealthMetrics, now: int) returns (alert: bool)
      ensures alert == ShouldAlert(State(), m, now)
    {
      var conditions: seq<AlertCondition> := [];
      if m.responseMicros > config.maxResponseTimeMs * 1000 {
        conditions := conditions + [HighResponseTime(m.responseMicros)];
      }
      if consecutiveFailures >= config.maxFailedChecks {
        conditions := conditions + [ConsecutiveFailures(consecutiveFailures)];
      }
      if m.status == Failed || m.status == Error {
        conditions := conditions + [ConnectivityLost(m.status)];
      }
      assert conditions == AlertConditions(config, m, consecutiveFailures);
      if lastAlertTime.Some? {
        var cooldownEnd := lastAlertTime.value + config.alertCooldownMinutes * 60_000_000;
        if now < cooldownEnd {
          return false;
        }
      }
      alert := conditions != [];
    }

    method TriggerAlert(m: HealthMetrics, now: int, production: bool, writable: bool)
      modifies this
      ensures State() == Triggered(old(State()), m, now, production, writable)
    {
      var conditions := AlertConditions(config, m, consecutiveFailures);
      lastAlertTime := Some(now);
      LogAlertEvent(m, conditions, production, writable);
    }

    method LogAlertEvent(m: HealthMetrics, conditions: seq<AlertCondition>, production: bool, writable: bool)
      modifies this
      ensures State() == old(State()).(alerts :=
        AppendToLog(old(alertLog), AlertEvent(m.timestamp, conditions, m, old(consecutiveFailures), production), AlertLogCap, writable))
    {
      var event := AlertEvent(m.timestamp, conditions, m, consecutiveFailures, production);
      if !alertLog.Corrupt? && writable {
        var alerts := if alertLog.Missing? then [] else alertLog.entries;
        alerts := alerts + [event];
        if |alerts| > AlertLogCap {
          alerts := alerts[|alerts| - AlertLogCap..];
        }
        alertLog := Entries(alerts);
      }
    }

    method StoreHealthMetrics(m: HealthMetrics)
      modifies this
      ensures State() == Stored(old(State()), m)
    {
      healthHistory := healthHistory + [m];
      if |healthHistory| > HistoryCap {
        healthHistory := healthHistory[|healthHistory| - HistoryCap..];
      }
    }

    method StartMonitoring()
      modifies this
      ensures State() == Started(old(State()))
    {
      if monitoringActive {
        return;
      }
      monitoringActive := true;
    }

    method StopMonitoring()
      modifies this
      ensures State() == Stopped(old(State()))
    {
      if !monitoringActive {
        return;
      }
      monitoringActive := false;
    }

    /** One pass of `monitoring_loop`. */
    method MonitorStep(probe: Probe, now: int, production: bool, writable: bool) returns (alerted: bool)
      modifies this
      ensures (State(), alerted) == Step(old(State()), probe, now, production, writable)
    {
      var m := CheckDatabaseHealth(probe, now);
      StoreHealthMetrics(m);
      alerted := EvaluateAlertConditions(m, now);
      if alerted {
        TriggerAlert(m, now, production, writable);
      }
    }
  }
}
