/** The uptime-monitor handlers that write: Store copies the validated
    request into a new monitor, Update merges the request into the loaded
    monitor field by field. */
module UptimeController {
  import opened Common
  import opened Validator
  import opened Responses
  import opened UptimeMonitors

  const NOT_FOUND := "Uptime monitor not found"
  const INVALID_BODY_MESSAGE := "Invalid request body"
  const STORE_FAILED := "Failed to store uptime monitor"
  const STORED := "Uptime monitor stored successfully"
  const UPDATE_FAILED := "Failed to update uptime monitor"
  const UPDATED := "Uptime monitor updated successfully"

  datatype StoreRequest = StoreRequest(code: string, url: string, name: string, interval: int, isActive: bool)
  datatype UpdateRequest = UpdateRequest(code: string, url: string, name: string, interval: int, isActive: bool)

  datatype MonitorResponse = ValidationFailed(errors: Errors) | Answered(envelope: Envelope<MonitorRow>)

  /** `uint(id)`: a negative id wraps round to a 64-bit unsigned value. */
  function AsUint(id: int): nat
  {
    if id < 0 then (id % 0x1_0000_0000_0000_0000) as nat else id as nat
  }

  /** The new monitor before `Create`: the five request fields, everything else zero. */
  function NewMonitor(req: StoreRequest): (m: MonitorRow)
    ensures m.code == req.code && m.url == req.url && m.name == req.name
            && m.interval == req.interval && m.isActive == req.isActive
    ensures m.status == "" && m.totalChecks == 0 && Balanced(m)
    ensures m.lastCheckedAt.None? && m.lastHealthyAt.None? && m.lastUnhealthyAt.None? && m.nextCheckAt.None?
  {
    MonitorRow(0, req.code, req.url, req.name, req.interval, req.isActive, "", None, None, None, 0, 0, 0, None)
  }

  /** Update's merge: a text field or the interval replaces the stored one
      only when non-empty or non-zero; `is_active` is always taken (an absent
      key reads as false); status, counters and timestamps are kept. */
  function Merged(m: MonitorRow, req: UpdateRequest): MonitorRow
  {
    m.(code := if req.code != "" then req.code else m.code,
       url := if req.url != "" then req.url else m.url,
       name := if req.name != "" then req.name else m.name,
       interval := if req.interval != 0 then req.interval else m.interval,
       isActive := req.isActive)
  }

  /** The merge field by field. */
  lemma MergedFields(m: MonitorRow, req: UpdateRequest)
    ensures var n := Merged(m, req);
            n.code == (if req.code != "" then req.code else m.code)
            && n.url == (if req.url != "" then req.url else m.url)
            && n.name == (if req.name != "" then req.name else m.name)
            && n.interval == (if req.interval != 0 then req.interval else m.interval)
            && n.isActive == req.isActive
            && n.(code := m.code, url := m.url, name := m.name, interval := m.interval, isActive := m.isActive) == m
  {
  }

  /** Sending the same body twice changes nothing the second time. */
  lemma MergeIdempotent(m: MonitorRow, req: UpdateRequest)
    ensures Merged(Merged(m, req), req) == Merged(m, req)
  {
  }

  /** An empty body (`{}`) switches the monitor off and changes nothing else;
      a check's balance survives any merge. */
  lemma EmptyBodyDeactivates(m: MonitorRow)
    ensures Merged(m, UpdateRequest("", "", "", 0, false)) == m.(isActive := false)
    ensures Balanced(m) ==> forall req :: Balanced(Merged(m, req))
  {
  }

  /** The assignments Update makes to the loaded struct. */
  method AssignRequest(monitor: UptimeMonitor, request: UpdateRequest)
    modifies monitor
    ensures monitor.Row() == Merged(old(monitor.Row()), request)
  {
    if request.code != "" {
      monitor.code := request.code;
    }
    if request.url != "" {
      monitor.url := request.url;
    }
    if request.name != "" {
      monitor.name := request.name;
    }
    if request.interval != 0 {
      monitor.interval := request.interval;
    }
    monitor.isActive := request.isActive;
  }

  class UptimeMonitorController {
    const repo: MonitorRepository

    constructor(repo: MonitorRepository)
      ensures this.repo == repo
    {
      this.repo := repo;
    }

    /** Store: the rule checker's errors first; a failed insert answers 400
        and leaves the table alone; otherwise 200 with the stored monitor and
        its new id. */
    method Store(req: StoreRequest, ruleErrors: Option<Errors>, storeFails: bool) returns (r: MonitorResponse)
      requires repo.Valid()
      modifies repo
      ensures repo.Valid()
      ensures ruleErrors.Some? ==> r == ValidationFailed(ruleErrors.value) && repo.rows == old(repo.rows)
      ensures ruleErrors.None? && storeFails ==>
                r == Answered(ErrorResponse(400, STORE_FAILED)) && repo.rows == old(repo.rows)
      ensures ruleErrors.None? && !storeFails ==>
                var stored := NewMonitor(req).(id := old(repo.nextId));
                r == Answered(SuccessResponse(STORED, Some(stored)))
                && repo.rows == old(repo.rows)[stored.id := stored]
                && stored.id !in old(repo.rows)
    {
      if ruleErrors.Some? {
        return ValidationFailed(ruleErrors.value);
      }
      var monitor := new UptimeMonitor(NewMonitor(req));
      var ok := repo.Store(monitor, storeFails);
      if !ok {
        return Answered(ErrorResponse(400, STORE_FAILED));
      }
      r := Answered(SuccessResponse(STORED, Some(monitor.Row())));
    }

    /** Update: an unknown id answers 404 before the body is read, an
        unreadable body 400; a failed save answers 400 and writes nothing;
        otherwise the merged monitor is saved and returned. `id` is the
        path parameter as `strconv.Atoi` read it (0 when it did not parse). */
    method Update(id: int, body: Option<UpdateRequest>, saveFails: bool) returns (r: MonitorResponse)
      requires repo.Valid()
      modifies repo`rows
      ensures repo.Valid()
      ensures AsUint(id) !in old(repo.rows) ==>
                r == Answered(ErrorResponse(404, NOT_FOUND)) && repo.rows == old(repo.rows)
      ensures AsUint(id) in old(repo.rows) && body.None? ==>
                r == Answered(ErrorResponse(400, INVALID_BODY_MESSAGE)) && repo.rows == old(repo.rows)
      ensures AsUint(id) in old(repo.rows) && body.Some? ==>
                var merged := Merged(old(repo.rows)[AsUint(id)], body.value);
                if saveFails then r == Answered(ErrorResponse(400, UPDATE_FAILED)) && repo.rows == old(repo.rows)
                else r == Answered(SuccessResponse(UPDATED, Some(merged)))
                     && repo.rows == old(repo.rows)[AsUint(id) := merged]
    {
      var monitor := repo.FindByID(AsUint(id));
      if monitor == null {
        return Answered(ErrorResponse(404, NOT_FOUND));
      }
      if body.None? {
        return Answered(ErrorResponse(400, INVALID_BODY_MESSAGE));
      }
      AssignRequest(monitor, body.value);
      var ok := repo.Update(monitor, saveFails);
      if !ok {
        return Answered(ErrorResponse(400, UPDATE_FAILED));
      }
      r := Answered(SuccessResponse(UPDATED, Some(monitor.Row())));
    }
  }
}
