/** The activity-log repository: an append-only table and a search on
    `log_name LIKE %search%`, approximated as substring containment.

    The Go repository reassigns its own `db` handle when FindAllPaginated gets
    a search. From then on the handle is no longer a fresh GORM session. Every
    later chain through the same repository value adds to one shared
    statement. So the LIKE clauses of later Counts and searches accumulate,
    and the LIMIT/OFFSET of the last page stays on it. A Count then runs with
    that window. Before the first search every call builds its own statement.
    `sticky`, `conditions` and `window` record the shared statement. */
module ActivityLogs {
  import opened Common
  import opened Database
  import opened Paging

  /** The entry's log name contains every condition. */
  predicate MatchesAll(entry: ActivityLog, conditions: seq<string>)
  {
    forall k :: 0 <= k < |conditions| ==> Contains(entry.logName, conditions[k])
  }

  /** The entries that satisfy every condition, in table order. */
  function Matching(logs: seq<ActivityLog>, conditions: seq<string>): (r: seq<ActivityLog>)
    ensures |r| <= |logs|
    ensures forall k :: 0 <= k < |r| ==> r[k] in logs && MatchesAll(r[k], conditions)
  {
    if logs == [] then []
    else
      var rest := Matching(logs[..|logs| - 1], conditions);
      if MatchesAll(logs[|logs| - 1], conditions) then rest + [logs[|logs| - 1]] else rest
  }

  /** An entry is selected exactly when it is in the table and matches. */
  lemma {:induction false} MatchingMembership(logs: seq<ActivityLog>, conditions: seq<string>, e: ActivityLog)
    ensures e in Matching(logs, conditions) <==> e in logs && MatchesAll(e, conditions)
  {
    if logs != [] {
      var init := logs[..|logs| - 1];
      MatchingMembership(init, conditions, e);
      assert logs == init + [logs[|logs| - 1]];
    }
  }

  /** With no conditions every entry is selected, in order. */
  lemma {:induction false} MatchingNoConditions(logs: seq<ActivityLog>)
    ensures Matching(logs, []) == logs
  {
    if logs != [] {
      MatchingNoConditions(logs[..|logs| - 1]);
      assert logs == logs[..|logs| - 1] + [logs[|logs| - 1]];
    }
  }

  /** `LIKE '%%'` matches everything, so an empty search selects what the
      earlier conditions select. */
  lemma {:induction false} MatchingEmptySearch(logs: seq<ActivityLog>, conditions: seq<string>)
    ensures Matching(logs, conditions + [""]) == Matching(logs, conditions)
  {
    if logs != [] {
      MatchingEmptySearch(logs[..|logs| - 1], conditions);
      var e := logs[|logs| - 1];
      assert OccursAt(e.logName, "", 0);
      assert MatchesAll(e, conditions + [""]) == MatchesAll(e, conditions) by {
        forall k | 0 <= k < |conditions| ensures (conditions + [""])[k] == conditions[k] { }
      }
    }
  }

  /** A further condition can only remove entries: what it selects is a
      selection of what was selected before. */
  lemma {:induction false} MatchingNarrows(logs: seq<ActivityLog>, conditions: seq<string>, c: string)
    ensures Matching(logs, conditions + [c]) == Matching(Matching(logs, conditions), [c])
  {
    if logs != [] {
      var init := logs[..|logs| - 1];
      var e := logs[|logs| - 1];
      MatchingNarrows(init, conditions, c);
      var before := Matching(init, conditions);
      assert MatchesAll(e, conditions + [c]) <==> MatchesAll(e, conditions) && MatchesAll(e, [c]) by {
        if MatchesAll(e, conditions) && MatchesAll(e, [c]) {
          forall k | 0 <= k < |conditions + [c]| ensures Contains(e.logName, (conditions + [c])[k]) {
            if k < |conditions| { assert (conditions + [c])[k] == conditions[k]; }
          }
        }
        if MatchesAll(e, conditions + [c]) {
          forall k | 0 <= k < |conditions| ensures Contains(e.logName, conditions[k]) {
            assert (conditions + [c])[k] == conditions[k];
          }
          assert (conditions + [c])[|conditions|] == c;
        }
      }
      if MatchesAll(e, conditions) {
        var extended := before + [e];
        assert extended[..|extended| - 1] == before;
      }
    }
  }

  /** The LIMIT/OFFSET clause left on the shared statement. */
  datatype Window = Window(limit: nat, offset: nat)

  /** GORM's merge of `Limit(limit).Offset(offset)` into a statement that
      already has a window: the limit is replaced, and so is the offset,
      except that a zero offset keeps an earlier non-zero one. */
  function MergeWindow(previous: Option<Window>, limit: nat, offset: nat): (w: Window)
    ensures w.limit == limit
    ensures offset > 0 || previous.None? ==> w.offset == offset
    ensures offset == 0 && previous.Some? ==> w.offset == previous.value.offset
  {
    if offset == 0 && previous.Some? && previous.value.offset > 0 then Window(limit, previous.value.offset)
    else Window(limit, offset)
  }

  /** `SELECT count(*) ... LIMIT l OFFSET o` yields its single row only when
      the offset is zero; with no row GORM reports a count of 0. */
  function CountUnder(window: Option<Window>, total: nat): (count: nat)
    ensures count == 0 || count == total
    ensures count == total <==> window.None? || window.value.offset == 0 || total == 0
  {
    if window.Some? && window.value.offset > 0 then 0 else total
  }

  class ActivityLogRepository {
    const db: Db
    /** The handle has been reassigned, so its statement is shared. */
    var sticky: bool
    /** The `log_name LIKE` clauses on the shared statement. */
    var conditions: seq<string>
    /** The LIMIT/OFFSET clause on the shared statement. */
    var window: Option<Window>

    /** A fresh handle carries no clauses. */
    predicate Valid()
      reads this
    {
      !sticky ==> conditions == [] && window.None?
    }

    constructor(db: Db)
      ensures this.db == db && !sticky && conditions == [] && window.None? && Valid()
    {
      this.db := db;
      sticky := false;
      conditions := [];
      window := None;
    }

    /** `Count(search)`: the entries whose log name contains the search text
        and every clause already on the statement. On a shared statement the
        search stays there, and a leftover non-zero offset makes the count 0. */
    method Count(search: string) returns (count: nat)
      requires Valid()
      modifies this`conditions
      ensures Valid()
      ensures conditions == if sticky then old(conditions) + [search] else old(conditions)
      ensures count == CountUnder(window, |Matching(db.activityLogs, old(conditions) + [search])|)
      ensures count <= |db.activityLogs|
      ensures !sticky ==> count == |Matching(db.activityLogs, [search])|
      ensures search == "" && !sticky ==> count == |db.activityLogs|
    {
      var total := |Matching(db.activityLogs, conditions + [search])|;
      if sticky {
        conditions := conditions + [search];
      } else {
        assert conditions + [search] == [search];
        if search == "" {
          MatchingEmptySearch(db.activityLogs, []);
          MatchingNoConditions(db.activityLogs);
        }
      }
      count := if window.Some? && window.value.offset > 0 then 0 else total;
    }

    /** `FindAllPaginated`: a non-empty search reassigns the handle and adds
        its clause for good. On a shared statement the window is merged into
        the one already there; otherwise the page is the plain LIMIT/OFFSET. */
    method FindAllPaginated(page: int, limit: int, search: string) returns (rows: seq<ActivityLog>)
      requires Valid() && page >= 1 && limit >= 1
      modifies this`sticky, this`conditions, this`window
      ensures Valid()
      ensures sticky == (old(sticky) || search != "")
      ensures conditions == if search == "" then old(conditions) else old(conditions) + [search]
      ensures window == if sticky then Some(MergeWindow(old(window), limit, Offset(page, limit))) else None
      ensures rows == LimitOffset(Matching(db.activityLogs, conditions), limit,
                                  if sticky then window.value.offset else Offset(page, limit))
      ensures !sticky ==> rows == Page(db.activityLogs, page, limit)
      ensures |rows| <= limit
      ensures forall k :: 0 <= k < |rows| ==> rows[k] in db.activityLogs && MatchesAll(rows[k], conditions)
    {
      var offset := Offset(page, limit);
      if search != "" {
        sticky := true;
        conditions := conditions + [search];
      }
      var matching := Matching(db.activityLogs, conditions);
      if sticky {
        window := Some(MergeWindow(window, limit, offset));
        offset := window.value.offset;
      } else {
        MatchingNoConditions(db.activityLogs);
        PageIsLimitOffset(db.activityLogs, page, limit);
      }
      rows := LimitOffset(matching, limit, offset);
      forall k | 0 <= k < |rows| ensures rows[k] in db.activityLogs && MatchesAll(rows[k], conditions) {
        assert rows[k] == matching[offset + k];
        MatchingMembership(db.activityLogs, conditions, rows[k]);
      }
    }

    /** `Store`: one entry appended at the end, or nothing when the insert
        fails; an INSERT uses none of the statement's clauses. */
    method Store(entry: ActivityLog, fails: bool) returns (ok: bool)
      modifies db`activityLogs
      ensures ok == !fails
      ensures db.activityLogs == if ok then old(db.activityLogs) + [entry] else old(db.activityLogs)
    {
      ok := !fails;
      if ok {
        db.activityLogs := db.activityLogs + [entry];
      }
    }
  }
}
