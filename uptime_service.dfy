/** Uptime monitoring: a probe's outcome classified as up, slow or down, the
    monitor's counters and timestamps advanced in memory and written to its
    row, and the scheduled run's tally. Times are whole seconds. */
module UptimeMonitors {
  import opened Common

  const SLOW_RESPONSE_THRESHOLD_MS := 300
  const STATUS_UP := "up"
  const STATUS_DOWN := "down"
  const STATUS_SLOW := "slow"
  /** The status recorded when the request itself fails. */
  const TRANSPORT_ERROR_STATUS := 408

  /** A row of `uptime_monitors` (creation and update stamps left out). */
  datatype MonitorRow = MonitorRow(
    id: nat, code: string, url: string, name: string, interval: int, isActive: bool,
    status: string, lastCheckedAt: Option<int>, lastHealthyAt: Option<int>, lastUnhealthyAt: Option<int>,
    totalChecks: int, healthyChecks: int, unhealthyChecks: int, nextCheckAt: Option<int>)

  /** Every check counted exactly once, as healthy or as unhealthy. */
  predicate Balanced(row: MonitorRow)
  {
    row.totalChecks == row.healthyChecks + row.unhealthyChecks
  }

  /** A value in the column map handed to `Updates`. */
  datatype Value = Text(s: string) | Count(n: int) | Time(t: int)

  /** `Updates(fields)` on a row: each named column takes the value given. */
  function ApplyFields(row: MonitorRow, fields: map<string, Value>): MonitorRow
  {
    row.(status := if "status" in fields && fields["status"].Text? then fields["status"].s else row.status,
         totalChecks := if "total_checks" in fields && fields["total_checks"].Count? then fields["total_checks"].n
                        else row.totalChecks,
         healthyChecks := if "healthy_checks" in fields && fields["healthy_checks"].Count? then fields["healthy_checks"].n
                          else row.healthyChecks,
         unhealthyChecks := if "unhealthy_checks" in fields && fields["unhealthy_checks"].Count?
                            then fields["unhealthy_checks"].n else row.unhealthyChecks,
         lastCheckedAt := if "last_checked_at" in fields && fields["last_checked_at"].Time?
                          then Some(fields["last_checked_at"].t) else row.lastCheckedAt,
         nextCheckAt := if "next_check_at" in fields && fields["next_check_at"].Time?
                        then Some(fields["next_check_at"].t) else row.nextCheckAt,
         lastHealthyAt := if "last_healthy_at" in fields && fields["last_healthy_at"].Time?
                          then Some(fields["last_healthy_at"].t) else row.lastHealthyAt,
         lastUnhealthyAt := if "last_unhealthy_at" in fields && fields["last_unhealthy_at"].Time?
                            then Some(fields["last_unhealthy_at"].t) else row.lastUnhealthyAt)
  }

  // ---------------------------------------------------------------------
  // Classification

  /** What the HTTP request produced: a status code, or None for a transport
      error (timeout, refused connection), with the measured time. */
  datatype Probe = Probe(response: Option<int>, responseTimeMs: int)

  datatype CheckResult = CheckResult(
    statusCode: int, responseTimeMs: int, isHealthy: bool, status: string, errorMessage: string)

  /** performHttpCheck: a transport error is recorded as 408 and unhealthy;
      otherwise healthy exactly for a 2xx status. */
  function PerformHttpCheck(p: Probe): (r: CheckResult)
    ensures p.response.None? ==> r.statusCode == TRANSPORT_ERROR_STATUS && !r.isHealthy
    ensures p.response.Some? ==> r.statusCode == p.response.value && (r.isHealthy <==> 200 <= r.statusCode < 300)
    ensures r.responseTimeMs == p.responseTimeMs && r.status == "" && r.errorMessage == ""
  {
    match p.response
    case None => CheckResult(TRANSPORT_ERROR_STATUS, p.responseTimeMs, false, "", "")
    case Some(code) => CheckResult(code, p.responseTimeMs, 200 <= code < 300, "", "")
  }

  /** evaluateSlowResponse: slow exactly when healthy and over 300 ms, down
      exactly when unhealthy, up otherwise (300 ms itself is up). */
  function EvaluateSlowResponse(c: CheckResult): (r: CheckResult)
    ensures r.status == STATUS_SLOW <==> c.isHealthy && c.responseTimeMs > SLOW_RESPONSE_THRESHOLD_MS
    ensures r.status == STATUS_DOWN <==> !c.isHealthy
    ensures r.status == STATUS_UP <==> c.isHealthy && c.responseTimeMs <= SLOW_RESPONSE_THRESHOLD_MS
    ensures r == c.(status := r.status)
  {
    var status :=
      if c.isHealthy && c.responseTimeMs > SLOW_RESPONSE_THRESHOLD_MS then STATUS_SLOW
      else if !c.isHealthy then STATUS_DOWN
      else STATUS_UP;
    c.(status := status)
  }

  /** generateErrorMessage: empty exactly when healthy, otherwise "HTTP <status>". */
  function GenerateErrorMessage(c: CheckResult): (r: CheckResult)
    ensures r.errorMessage == "" <==> c.isHealthy
    ensures !c.isHealthy ==> r.errorMessage == "HTTP " + IntToString(c.statusCode)
    ensures r == c.(errorMessage := r.errorMessage)
  {
    if c.isHealthy then c.(errorMessage := "")
    else c.(errorMessage := "HTTP " + IntToString(c.statusCode))
  }

  /** The three steps of Check. */
  function Classify(p: Probe): CheckResult
  {
    GenerateErrorMessage(EvaluateSlowResponse(PerformHttpCheck(p)))
  }

  /** The classification keeps the status code and the health verdict and
      gives every probe exactly one of the three states. */
  lemma ClassifyStates(p: Probe)
    ensures var r := Classify(p);
            r.statusCode == PerformHttpCheck(p).statusCode && r.isHealthy == PerformHttpCheck(p).isHealthy
            && (r.status == STATUS_UP || r.status == STATUS_SLOW || r.status == STATUS_DOWN)
            && (r.status == STATUS_DOWN <==> r.errorMessage != "")
    ensures p.response.None? ==> Classify(p).status == STATUS_DOWN && Classify(p).errorMessage == "HTTP 408"
  {
    if p.response.None? {
      assert IntToString(408) == "408" by {
        assert NatToString(408) == NatToString(40) + [DigitChar(8)];
      }
    }
  }

  // ---------------------------------------------------------------------
  // Counters

  /** The monitor after updateMonitorStats. */
  function StatsRow(m: MonitorRow, r: CheckResult, now: int): MonitorRow
  {
    var n := m.(status := r.status, totalChecks := m.totalChecks + 1,
                lastCheckedAt := Some(now), nextCheckAt := Some(now + m.interval));
    if r.isHealthy then n.(healthyChecks := m.healthyChecks + 1, lastHealthyAt := Some(now))
    else n.(unhealthyChecks := m.unhealthyChecks + 1, lastUnhealthyAt := Some(now))
  }

  /** A check counts once, as healthy or as unhealthy, stamps the check and
      schedules the next one `interval` seconds later; nothing else changes. */
  lemma StatsRowFields(m: MonitorRow, r: CheckResult, now: int)
    ensures var n := StatsRow(m, r, now);
            n.totalChecks == m.totalChecks + 1
            && (r.isHealthy ==> n.healthyChecks == m.healthyChecks + 1 && n.unhealthyChecks == m.unhealthyChecks
                                && n.lastHealthyAt == Some(now) && n.lastUnhealthyAt == m.lastUnhealthyAt)
            && (!r.isHealthy ==> n.unhealthyChecks == m.unhealthyChecks + 1 && n.healthyChecks == m.healthyChecks
                                 && n.lastUnhealthyAt == Some(now) && n.lastHealthyAt == m.lastHealthyAt)
            && n.lastCheckedAt == Some(now) && n.nextCheckAt == Some(now + m.interval) && n.status == r.status
            && n.(status := m.status, totalChecks := m.totalChecks, healthyChecks := m.healthyChecks,
                  unhealthyChecks := m.unhealthyChecks, lastCheckedAt := m.lastCheckedAt,
                  nextCheckAt := m.nextCheckAt, lastHealthyAt := m.lastHealthyAt,
                  lastUnhealthyAt := m.lastUnhealthyAt) == m
  {
  }

  /** The column map updateMonitorStats returns. */
  function StatsFields(m: MonitorRow, r: CheckResult, now: int): map<string, Value>
  {
    var base := map["status" := Text(r.status), "total_checks" := Count(m.totalChecks + 1),
                    "last_checked_at" := Time(now), "next_check_at" := Time(now + m.interval)];
    var withHealth :=
      if r.isHealthy then base["healthy_checks" := Count(m.healthyChecks + 1)]["last_healthy_at" := Time(now)]
      else base["unhealthy_checks" := Count(m.unhealthyChecks + 1)]["last_unhealthy_at" := Time(now)];
    if r.status == STATUS_SLOW then withHealth["last_unhealthy_at" := Time(now)] else withHealth
  }

  /** The row written from the returned fields agrees with the monitor kept
      in memory except for `last_unhealthy_at`, which only the row gets on a
      slow check. */
  lemma {:induction false} FieldsAgreeWithMonitor(m: MonitorRow, r: CheckResult, now: int)
    ensures ApplyFields(m, StatsFields(m, r, now)) ==
            StatsRow(m, r, now).(lastUnhealthyAt := if r.status == STATUS_SLOW then Some(now)
                                                   else StatsRow(m, r, now).lastUnhealthyAt)
  {
    var f := StatsFields(m, r, now);
    assert "status" in f && f["status"] == Text(r.status);
    assert "total_checks" in f && f["total_checks"] == Count(m.totalChecks + 1);
    assert "last_checked_at" in f && f["last_checked_at"] == Time(now);
    assert "next_check_at" in f && f["next_check_at"] == Time(now + m.interval);
    if r.isHealthy {
      assert "healthy_checks" in f && f["healthy_checks"] == Count(m.healthyChecks + 1);
      assert "unhealthy_checks" !in f;
      assert "last_healthy_at" in f && f["last_healthy_at"] == Time(now);
    } else {
      assert "unhealthy_checks" in f && f["unhealthy_checks"] == Count(m.unhealthyChecks + 1);
      assert "healthy_checks" !in f;
      assert "last_healthy_at" !in f;
      assert "last_unhealthy_at" in f && f["last_unhealthy_at"] == Time(now);
    }
    if r.status == STATUS_SLOW {
      assert "last_unhealthy_at" in f && f["last_unhealthy_at"] == Time(now);
    } else if r.isHealthy {
      assert "last_unhealthy_at" !in f;
    }
  }

  /** A check keeps `total = healthy + unhealthy`, in memory and in the row. */
  lemma StatsKeepBalance(m: MonitorRow, r: CheckResult, now: int)
    requires Balanced(m)
    ensures Balanced(StatsRow(m, r, now))
    ensures Balanced(ApplyFields(m, StatsFields(m, r, now)))
  {
    FieldsAgreeWithMonitor(m, r, now);
  }

  datatype MonitorLog = MonitorLog(
    monitorId: nat, statusCode: int, responseTimeMs: int, isHealthy: bool, errorMessage: string, checkedAt: int)

  function LogOf(id: nat, r: CheckResult, now: int): MonitorLog
  {
    MonitorLog(id, r.statusCode, r.responseTimeMs, r.isHealthy, r.errorMessage, now)
  }

  /** The monitor struct a handler or the scheduler holds; its fields change in place. */
  class UptimeMonitor {
    var id: nat
    var code: string
    var url: string
    var name: string
    var interval: int
    var isActive: bool
    var status: string
    var lastCheckedAt: Option<int>
    var lastHealthyAt: Option<int>
    var lastUnhealthyAt: Option<int>
    var totalChecks: int
    var healthyChecks: int
    var unhealthyChecks: int
    var nextCheckAt: Option<int>

    function Row(): MonitorRow
      reads this
    {
      MonitorRow(id, code, url, name, interval, isActive, status, lastCheckedAt, lastHealthyAt,
                 lastUnhealthyAt, totalChecks, healthyChecks, unhealthyChecks, nextCheckAt)
    }

    constructor(row: MonitorRow)
      ensures Row() == row
    {
      id, code, url, name, interval, isActive := row.id, row.code, row.url, row.name, row.interval, row.isActive;
      status, lastCheckedAt, lastHealthyAt, lastUnhealthyAt := row.status, row.lastCheckedAt, row.lastHealthyAt, row.lastUnhealthyAt;
      totalChecks, healthyChecks, unhealthyChecks, nextCheckAt := row.totalChecks, row.healthyChecks, row.unhealthyChecks, row.nextCheckAt;
    }
  }

  /** The monitors table. */
  class MonitorRepository {
    var rows: map<nat, MonitorRow>
    var nextId: nat

    predicate Valid()
      reads this
    {
      nextId >= 1 && forall id :: id in rows ==> rows[id].id == id && id < nextId
    }

    constructor(rows: map<nat, MonitorRow>, nextId: nat)
      requires nextId >= 1 && forall id :: id in rows ==> rows[id].id == id && id < nextId
      ensures this.rows == rows && this.nextId == nextId && Valid()
    {
      this.rows := rows;
      this.nextId := nextId;
    }

    /** FindByID: a freshly loaded struct, or nothing. */
    method FindByID(id: nat) returns (m: UptimeMonitor?)
      ensures (m != null) <==> id in rows
      ensures m != null ==> fresh(m) && m.Row() == rows[id]
    {
      if id in rows {
        m := new UptimeMonitor(rows[id]);
      } else {
        m := null;
      }
    }

    /** Store: `Create` assigns the next id to the struct and inserts it. */
    method Store(m: UptimeMonitor, fails: bool) returns (ok: bool)
      requires Valid()
      modifies this, m`id
      ensures Valid()
      ensures ok == !fails
      ensures fails ==> rows == old(rows) && nextId == old(nextId) && m.id == old(m.id)
      ensures !fails ==> m.id == old(nextId) && nextId == old(nextId) + 1
                         && rows == old(rows)[m.id := old(m.Row()).(id := m.id)]
    {
      if fails {
        return false;
      }
      m.id := nextId;
      rows := rows[m.id := m.Row()];
      nextId := nextId + 1;
      ok := true;
    }

    /** Update: `Save` writes every column of the struct. */
    method Update(m: UptimeMonitor, fails: bool) returns (ok: bool)
      requires Valid() && m.id < nextId
      modifies this`rows
      ensures Valid()
      ensures ok == !fails
      ensures rows == if fails then old(rows) else old(rows)[m.id := m.Row()]
    {
      if fails {
        return false;
      }
      rows := rows[m.id := m.Row()];
      ok := true;
    }

    /** UpdateFields: `Updates(fields)` on the row with that id, if there is one. */
    method UpdateFields(id: nat, fields: map<string, Value>)
      requires Valid()
      modifies this`rows
      ensures Valid()
      ensures rows == if id in old(rows) then old(rows)[id := ApplyFields(old(rows)[id], fields)] else old(rows)
    {
      if id in rows {
        rows := rows[id := ApplyFields(rows[id], fields)];
      }
    }
  }

  /** The monitor log table, append-only. */
  class LogRepository {
    var logs: seq<MonitorLog>

    constructor()
      ensures logs == []
    {
      logs := [];
    }

    method Store(log: MonitorLog)
      modifies this
      ensures logs == old(logs) + [log]
    {
      logs := logs + [log];
    }
  }

  /** How many probes come out healthy. */
  function HealthyCount(probes: seq<Probe>): (n: nat)
    ensures n <= |probes|
  {
    if probes == [] then 0
    else HealthyCount(probes[..|probes| - 1]) + (if PerformHttpCheck(probes[|probes| - 1]).isHealthy then 1 else 0)
  }

  /** The rows of a batch of monitor structs, in order. */
  ghost function Rows(monitors: seq<UptimeMonitor>): (r: seq<MonitorRow>)
    reads set m | m in monitors
    ensures |r| == |monitors| && forall k :: 0 <= k < |monitors| ==> r[k] == monitors[k].Row()
  {
    if monitors == [] then [] else Rows(monitors[..|monitors| - 1]) + [monitors[|monitors| - 1].Row()]
  }

  /** The first `i` monitors of the batch have been checked, the rest are untouched. */
  ghost predicate CheckedUpTo(monitors: seq<UptimeMonitor>, before: seq<MonitorRow>, probes: seq<Probe>, now: int, i: nat)
    requires |probes| == |monitors| == |before| && i <= |monitors|
    reads set m | m in monitors
  {
    && (forall k :: 0 <= k < i ==> monitors[k].Row() == StatsRow(before[k], Classify(probes[k]), now))
    && (forall k :: i <= k < |monitors| ==> monitors[k].Row() == before[k])
  }

  /** The logs a batch of checks appends: one per monitor, in order. */
  function CheckLogs(ms: seq<MonitorRow>, probes: seq<Probe>, now: int): (logs: seq<MonitorLog>)
    requires |probes| == |ms|
    ensures |logs| == |ms|
  {
    if ms == [] then []
    else CheckLogs(ms[..|ms| - 1], probes[..|ms| - 1], now) + [LogOf(ms[|ms| - 1].id, Classify(probes[|ms| - 1]), now)]
  }

  /** One check's write: its columns onto the row with the monitor's id, if
      that row exists. */
  function WriteCheck(rows: map<nat, MonitorRow>, m: MonitorRow, probe: Probe, now: int): map<nat, MonitorRow>
  {
    if m.id in rows then rows[m.id := ApplyFields(rows[m.id], StatsFields(m, Classify(probe), now))] else rows
  }

  /** The monitors table after a batch of checks: each check writes its
      columns onto the row with the monitor's id, in order. */
  function ChecksApplied(rows: map<nat, MonitorRow>, ms: seq<MonitorRow>, probes: seq<Probe>, now: int): map<nat, MonitorRow>
    requires |probes| == |ms|
  {
    if ms == [] then rows
    else WriteCheck(ChecksApplied(rows, ms[..|ms| - 1], probes[..|ms| - 1], now), ms[|ms| - 1], probes[|ms| - 1], now)
  }


  /** Checking one more probe adds one to the healthy count when it is healthy. */
  lemma HealthyCountStep(probes: seq<Probe>, i: nat)
    requires i < |probes|
    ensures HealthyCount(probes[..i + 1]) == HealthyCount(probes[..i]) + if PerformHttpCheck(probes[i]).isHealthy then 1 else 0
  {
    assert probes[..i + 1][..i] == probes[..i];
  }

  /** The scheduler's tally after the first `i` probes of a batch. */
  ghost predicate Tallied(results: map<string, int>, probes: seq<Probe>, i: nat)
    requires i <= |probes|
  {
    && results.Keys == {"total", "healthy", "unhealthy"}
    && results["total"] == i && results["total"] == results["healthy"] + results["unhealthy"]
    && results["healthy"] == HealthyCount(probes[..i])
  }

  /** The scheduler's counting of one check: one to the total, and one to
      healthy or unhealthy. */
  method CountCheck(tally: map<string, int>, probes: seq<Probe>, i: nat, healthy: bool) returns (results: map<string, int>)
    requires i < |probes| && Tallied(tally, probes, i) && healthy == PerformHttpCheck(probes[i]).isHealthy
    ensures Tallied(results, probes, i + 1)
  {
    HealthyCountStep(probes, i);
    results := tally["total" := tally["total"] + 1];
    if healthy {
      results := results["healthy" := results["healthy"] + 1];
    } else {
      results := results["unhealthy" := results["unhealthy"] + 1];
    }
  }

  /** Checking one more monitor appends its log to the batch's logs. */
  lemma CheckLogsStep(ms: seq<MonitorRow>, probes: seq<Probe>, now: int, i: nat)
    requires |probes| == |ms| && i < |ms|
    ensures CheckLogs(ms[..i + 1], probes[..i + 1], now) ==
            CheckLogs(ms[..i], probes[..i], now) + [LogOf(ms[i].id, Classify(probes[i]), now)]
  {
    assert ms[..i + 1][..i] == ms[..i];
    assert probes[..i + 1][..i] == probes[..i];
  }

  /** Checking one more monitor writes its columns onto the table so far. */
  lemma ChecksAppliedStep(rows: map<nat, MonitorRow>, ms: seq<MonitorRow>, probes: seq<Probe>, now: int, i: nat)
    requires |probes| == |ms| && i < |ms|
    ensures ChecksApplied(rows, ms[..i + 1], probes[..i + 1], now) ==
            WriteCheck(ChecksApplied(rows, ms[..i], probes[..i], now), ms[i], probes[i], now)
  {
    assert ms[..i + 1][..i] == ms[..i];
    assert probes[..i + 1][..i] == probes[..i];
  }

  /** The `k`-th log of a batch is the `k`-th monitor's check. */
  lemma {:induction false} CheckLogsPointwise(ms: seq<MonitorRow>, probes: seq<Probe>, now: int)
    requires |probes| == |ms|
    ensures forall k :: 0 <= k < |ms| ==> CheckLogs(ms, probes, now)[k] == LogOf(ms[k].id, Classify(probes[k]), now)
    decreases |ms|
  {
    if ms != [] {
      var n := |ms| - 1;
      CheckLogsPointwise(ms[..n], probes[..n], now);
    }
  }

  /** A batch of checks adds or removes no row. */
  lemma {:induction false} ChecksAppliedKeys(rows: map<nat, MonitorRow>, ms: seq<MonitorRow>, probes: seq<Probe>, now: int)
    requires |probes| == |ms|
    ensures ChecksApplied(rows, ms, probes, now).Keys == rows.Keys
    decreases |ms|
  {
    if ms != [] {
      var n := |ms| - 1;
      ChecksAppliedKeys(rows, ms[..n], probes[..n], now);
    }
  }

  /** A batch of checks leaves the row of every id outside the batch as it was. */
  lemma {:induction false} ChecksAppliedOthers(rows: map<nat, MonitorRow>, ms: seq<MonitorRow>, probes: seq<Probe>, now: int, id: nat)
    requires |probes| == |ms| && id in rows
    requires forall k :: 0 <= k < |ms| ==> ms[k].id != id
    ensures id in ChecksApplied(rows, ms, probes, now) && ChecksApplied(rows, ms, probes, now)[id] == rows[id]
    decreases |ms|
  {
    if ms != [] {
      var n := |ms| - 1;
      assert forall k :: 0 <= k < n ==> ms[..n][k].id != id;
      ChecksAppliedOthers(rows, ms[..n], probes[..n], now, id);
      assert ms[n].id != id;
    }
  }

  /** With distinct ids, a batch writes onto each monitor's own row the
      columns of that monitor's check. */
  lemma {:induction false} ChecksAppliedOwn(rows: map<nat, MonitorRow>, ms: seq<MonitorRow>, probes: seq<Probe>, now: int, k: nat)
    requires |probes| == |ms| && k < |ms| && ms[k].id in rows
    requires forall i, j :: 0 <= i < j < |ms| ==> ms[i].id != ms[j].id
    ensures ms[k].id in ChecksApplied(rows, ms, probes, now)
    ensures ChecksApplied(rows, ms, probes, now)[ms[k].id] ==
            ApplyFields(rows[ms[k].id], StatsFields(ms[k], Classify(probes[k]), now))
    decreases |ms|
  {
    var n := |ms| - 1;
    var pre := ms[..n];
    var id := ms[k].id;
    var before := ChecksApplied(rows, pre, probes[..n], now);
    assert ChecksApplied(rows, ms, probes, now) == WriteCheck(before, ms[n], probes[n], now);
    if k == n {
      assert forall i :: 0 <= i < n ==> pre[i].id != id;
      ChecksAppliedOthers(rows, pre, probes[..n], now, id);
    } else {
      assert pre[k] == ms[k] && probes[..n][k] == probes[k];
      ChecksAppliedOwn(rows, pre, probes[..n], now, k);
      assert ms[n].id != id;
    }
  }

  /** The column map of updateMonitorStats, built key by key from the
      monitor as it was before the check. */
  method StatsColumns(m: MonitorRow, result: CheckResult, now: int) returns (fields: map<string, Value>)
    ensures fields == StatsFields(m, result, now)
  {
    var nextCheck := now + m.interval;
    fields := map["status" := Text(result.status), "total_checks" := Count(m.totalChecks + 1),
                  "last_checked_at" := Time(now), "next_check_at" := Time(nextCheck)];
    if result.isHealthy {
      fields := fields["healthy_checks" := Count(m.healthyChecks + 1)];
      fields := fields["last_healthy_at" := Time(now)];
    } else {
      fields := fields["unhealthy_checks" := Count(m.unhealthyChecks + 1)];
      fields := fields["last_unhealthy_at" := Time(now)];
    }
    if result.status == STATUS_SLOW {
      fields := fields["last_unhealthy_at" := Time(now)];
    }
  }

  /** The in-memory half of updateMonitorStats: the struct's fields advanced in place. */
  method AdvanceMonitor(monitor: UptimeMonitor, result: CheckResult, now: int)
    modifies monitor
    ensures monitor.Row() == StatsRow(old(monitor.Row()), result, now)
  {
    StampCheck(monitor, result.status, now);
    CountOutcome(monitor, result.isHealthy, now);
  }

  /** The status, the total and the two check times. */
  method StampCheck(monitor: UptimeMonitor, status: string, now: int)
    modifies monitor
    ensures monitor.Row() == old(monitor.Row()).(status := status, totalChecks := old(monitor.totalChecks) + 1,
                                                 lastCheckedAt := Some(now),
                                                 nextCheckAt := Some(now + old(monitor.interval)))
  {
    var nextCheck := now + monitor.interval;
    monitor.status := status;
    monitor.totalChecks := monitor.totalChecks + 1;
    monitor.lastCheckedAt := Some(now);
    monitor.nextCheckAt := Some(nextCheck);
  }

  /** One more healthy or one more unhealthy check, stamped now. */
  method CountOutcome(monitor: UptimeMonitor, healthy: bool, now: int)
    modifies monitor
    ensures monitor.Row() == if healthy
                             then old(monitor.Row()).(healthyChecks := old(monitor.healthyChecks) + 1, lastHealthyAt := Some(now))
                             else old(monitor.Row()).(unhealthyChecks := old(monitor.unhealthyChecks) + 1, lastUnhealthyAt := Some(now))
  {
    if healthy {
      monitor.healthyChecks := monitor.healthyChecks + 1;
      monitor.lastHealthyAt := Some(now);
    } else {
      monitor.unhealthyChecks := monitor.unhealthyChecks + 1;
      monitor.lastUnhealthyAt := Some(now);
    }
  }

  class UptimeMonitorService {
    const monitorRepo: MonitorRepository
    const logRepo: LogRepository

    constructor(monitorRepo: MonitorRepository, logRepo: LogRepository)
      ensures this.monitorRepo == monitorRepo && this.logRepo == logRepo
    {
      this.monitorRepo := monitorRepo;
      this.logRepo := logRepo;
    }

    /** updateMonitorStats: advance the struct and return the columns to write. */
    method UpdateMonitorStats(monitor: UptimeMonitor, result: CheckResult, now: int) returns (fields: map<string, Value>)
      modifies monitor
      ensures fields == StatsFields(old(monitor.Row()), result, now)
      ensures monitor.Row() == StatsRow(old(monitor.Row()), result, now)
    {
      fields := StatsColumns(monitor.Row(), result, now);
      AdvanceMonitor(monitor, result, now);
    }

    /** Check: classify the probe, log it, advance the monitor and write its row. */
    method Check(monitor: UptimeMonitor, probe: Probe, now: int) returns (healthy: bool)
      requires monitorRepo.Valid()
      modifies monitor, monitorRepo`rows, logRepo
      ensures monitorRepo.Valid()
      ensures healthy == PerformHttpCheck(probe).isHealthy
      ensures logRepo.logs == old(logRepo.logs) + [LogOf(old(monitor.id), Classify(probe), now)]
      ensures monitor.Row() == StatsRow(old(monitor.Row()), Classify(probe), now)
      ensures monitorRepo.rows ==
                if old(monitor.id) in old(monitorRepo.rows)
                then old(monitorRepo.rows)[old(monitor.id) := ApplyFields(old(monitorRepo.rows)[old(monitor.id)],
                                                                        StatsFields(old(monitor.Row()), Classify(probe), now))]
                else old(monitorRepo.rows)
    {
      var result := PerformHttpCheck(probe);
      result := EvaluateSlowResponse(result);
      result := GenerateErrorMessage(result);
      logRepo.Store(LogOf(monitor.id, result, now));
      var fields := UpdateMonitorStats(monitor, result, now);
      monitorRepo.UpdateFields(monitor.id, fields);
      healthy := result.isHealthy;
    }

    /** After the first `i` checks of a batch: their logs are appended, their
        columns written, their structs advanced, and the rest untouched. */
    ghost predicate Progress(monitors: seq<UptimeMonitor>, probes: seq<Probe>, now: int, i: nat,
                             before: seq<MonitorRow>, logs0: seq<MonitorLog>, rows0: map<nat, MonitorRow>)
      requires |probes| == |monitors| == |before| && i <= |monitors|
      reads this, monitorRepo, logRepo, set m | m in monitors
    {
      && monitorRepo.Valid()
      && logRepo.logs == logs0 + CheckLogs(before[..i], probes[..i], now)
      && monitorRepo.rows == ChecksApplied(rows0, before[..i], probes[..i], now)
      && CheckedUpTo(monitors, before, probes, now, i)
    }

    /** Check a monitor whose row is `row`, stated on that row. */
    method CheckRow(monitor: UptimeMonitor, probe: Probe, now: int, ghost row: MonitorRow) returns (healthy: bool)
      requires monitorRepo.Valid() && monitor.Row() == row
      modifies monitor, monitorRepo`rows, logRepo
      ensures monitorRepo.Valid()
      ensures healthy == PerformHttpCheck(probe).isHealthy
      ensures logRepo.logs == old(logRepo.logs) + [LogOf(row.id, Classify(probe), now)]
      ensures monitor.Row() == StatsRow(row, Classify(probe), now)
      ensures monitorRepo.rows == WriteCheck(old(monitorRepo.rows), row, probe, now)
    {
      healthy := Check(monitor, probe, now);
    }

    /** Check the `i`-th monitor of the batch. */
    method AdvanceAt(monitors: seq<UptimeMonitor>, probes: seq<Probe>, now: int, i: nat,
                     ghost before: seq<MonitorRow>, ghost logs0: seq<MonitorLog>, ghost rows0: map<nat, MonitorRow>)
      returns (healthy: bool)
      requires |probes| == |monitors| == |before| && i < |monitors|
      requires forall j, k :: 0 <= j < k < |monitors| ==> monitors[j] != monitors[k]
      requires Progress(monitors, probes, now, i, before, logs0, rows0)
      modifies monitors[i], monitorRepo`rows, logRepo
      ensures healthy == PerformHttpCheck(probes[i]).isHealthy
      ensures Progress(monitors, probes, now, i + 1, before, logs0, rows0)
    {
      CheckLogsStep(before, probes, now, i);
      ChecksAppliedStep(rows0, before, probes, now, i);
      healthy := CheckRow(monitors[i], probes[i], now, before[i]);
      forall k | 0 <= k < |monitors| && k != i
        ensures monitors[k].Row() == old(monitors[k].Row())
      {
        assert monitors[k] != monitors[i];
      }
    }

    /** One pass of the scheduler's loop: count the `i`-th monitor of the
        batch and check it. */
    method CheckAt(monitors: seq<UptimeMonitor>, probes: seq<Probe>, now: int, i: nat, tally: map<string, int>,
                   ghost before: seq<MonitorRow>, ghost logs0: seq<MonitorLog>, ghost rows0: map<nat, MonitorRow>)
      returns (results: map<string, int>)
      requires |probes| == |monitors| == |before| && i < |monitors|
      requires forall j, k :: 0 <= j < k < |monitors| ==> monitors[j] != monitors[k]
      requires Tallied(tally, probes, i)
      requires Progress(monitors, probes, now, i, before, logs0, rows0)
      modifies monitors[i], monitorRepo`rows, logRepo
      ensures Tallied(results, probes, i + 1)
      ensures Progress(monitors, probes, now, i + 1, before, logs0, rows0)
    {
      var healthy := AdvanceAt(monitors, probes, now, i, before, logs0, rows0);
      results := CountCheck(tally, probes, i, healthy);
    }

    /** The scheduler's loop over one batch, each monitor in turn. */
    method CheckBatch(monitors: seq<UptimeMonitor>, probes: seq<Probe>, now: int,
                      ghost before: seq<MonitorRow>, ghost logs0: seq<MonitorLog>, ghost rows0: map<nat, MonitorRow>)
      returns (results: map<string, int>)
      requires |probes| == |monitors| == |before|
      requires forall i, j :: 0 <= i < j < |monitors| ==> monitors[i] != monitors[j]
      requires Progress(monitors, probes, now, 0, before, logs0, rows0)
      modifies (set m | m in monitors), monitorRepo`rows, logRepo
      ensures Tallied(results, probes, |monitors|)
      ensures Progress(monitors, probes, now, |monitors|, before, logs0, rows0)
    {
      results := map["total" := 0, "healthy" := 0, "unhealthy" := 0];
      var i := 0;
      while i < |monitors|
        invariant 0 <= i <= |monitors|
        invariant Tallied(results, probes, i)
        invariant Progress(monitors, probes, now, i, before, logs0, rows0)
      {
        results := CheckAt(monitors, probes, now, i, results, before, logs0, rows0);
        i := i + 1;
      }
    }

    /** RunScheduledChecks over the due monitors (the batching left out),
        each a separate element of the batch: every monitor is checked once,
        in order, so it adds one log, one advance of its struct and one
        write of its row, and one to the total and to healthy or unhealthy. */
    method RunScheduledChecks(monitors: seq<UptimeMonitor>, probes: seq<Probe>, now: int) returns (results: map<string, int>)
      requires |probes| == |monitors| && monitorRepo.Valid()
      requires forall i, j :: 0 <= i < j < |monitors| ==> monitors[i] != monitors[j]
      modifies (set m | m in monitors), monitorRepo`rows, logRepo
      ensures monitorRepo.Valid()
      ensures results.Keys == {"total", "healthy", "unhealthy"}
      ensures results["total"] == |monitors| && results["total"] == results["healthy"] + results["unhealthy"]
      ensures results["healthy"] == HealthyCount(probes)
      ensures logRepo.logs == old(logRepo.logs) + CheckLogs(old(Rows(monitors)), probes, now)
      ensures forall k :: 0 <= k < |monitors| ==>
                monitors[k].Row() == StatsRow(old(Rows(monitors))[k], Classify(probes[k]), now)
      ensures monitorRepo.rows == ChecksApplied(old(monitorRepo.rows), old(Rows(monitors)), probes, now)
    {
      ghost var before := Rows(monitors);
      assert before[..0] == [] && probes[..0] == [];
      results := CheckBatch(monitors, probes, now, before, logRepo.logs, monitorRepo.rows);
      assert probes[..|monitors|] == probes;
      assert before[..|monitors|] == before;
    }
  }
}
