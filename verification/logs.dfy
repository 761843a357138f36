/**
 * The activity-log endpoints: the query a caller's role builds, the capped
 * newest-first listing, the uncapped export over the same filter, and the
 * super-only delete.
 */
module Logs {
  import opened Wrappers
  import opened Http
  import opened Text
  import opened Calendar
  import opened Accounts
  import opened Schemas
  import opened TenantStore
  import Ordering

  /** The listing's cap. */
  const ListLimit: nat := 1000

  /** The query-string parameters; an empty string counts as absent. */
  datatype LogRequest = LogRequest(actor: Option<string>, startDate: Option<Moment>, endDate: Option<Moment>, action: Option<string>)

  /** The database filter: an exact actor, an inclusive date range and a case-insensitive action pattern. */
  datatype LogFilter = LogFilter(actor: Option<string>, from: Option<Moment>, to: Option<Moment>, action: Option<string>)

  predicate Given(v: Option<string>) { v.Some? && v.value != [] }

  /**
   * An admin only ever sees their own entries, whatever actor they ask for;
   * a super admin filters by actor only when one is given.
   */
  function BuildFilter(caller: Principal, q: LogRequest): (f: LogFilter)
    ensures caller.IsAdmin() ==> f.actor == Some(caller.username)
    ensures caller.IsSuper() ==> (f.actor.Some? <==> Given(q.actor)) && (Given(q.actor) ==> f.actor == q.actor)
    ensures !caller.IsAdmin() && !caller.IsSuper() ==> f.actor.None?
    ensures f.from == q.startDate && f.to == q.endDate
    ensures f.action.Some? <==> Given(q.action)
    ensures f.action.Some? ==> f.action == q.action
  {
    var actor := if caller.IsAdmin() then Some(caller.username)
                 else if caller.IsSuper() && Given(q.actor) then q.actor
                 else None;
    LogFilter(actor, q.startDate, q.endDate, if Given(q.action) then q.action else None)
  }

  predicate Matches(l: ActivityLog, f: LogFilter)
  {
    (f.actor.None? || l.actor == f.actor.value)
    && InRange(l.date, f.from, f.to)
    && (f.action.None? || IsSubstring(Lower(f.action.value), Lower(l.action)))
  }

  function Keep(f: LogFilter): ActivityLog -> bool
  {
    (l: ActivityLog) => Matches(l, f)
  }

  function DateKey(e: (nat, ActivityLog)): int { Ordinal(e.1.date) }

  /** `exportActivityLogs`: every entry the caller's filter admits, newest first. */
  function ExportActivityLogs(s: Store, caller: Principal, q: LogRequest): (rows: seq<(nat, ActivityLog)>)
    requires Consistent(s)
    ensures Ordering.SortedDesc(rows, DateKey)
    ensures forall e :: e in rows <==> e.0 in s.logs && e.1 == s.logs[e.0] && Matches(e.1, BuildFilter(caller, q))
    ensures caller.IsAdmin() ==> forall e :: e in rows ==> e.1.actor == caller.username
    ensures forall i, j :: 0 <= i < j < |rows| ==> rows[i].0 != rows[j].0
    ensures Ordering.TiesAscend(rows, DateKey, Ordering.Id)
  {
    Ordering.SortedWhere(s.logs, s.nextId, Keep(BuildFilter(caller, q)), DateKey)
  }

  /**
   * `getActivityLogs`: the export's first 1000 rows. Nothing newer than a
   * listed entry is left out, and below the cap nothing is left out.
   */
  function GetActivityLogs(s: Store, caller: Principal, q: LogRequest): (rows: seq<(nat, ActivityLog)>)
    requires Consistent(s)
    ensures |rows| <= ListLimit
    ensures |rows| <= |ExportActivityLogs(s, caller, q)| && rows == ExportActivityLogs(s, caller, q)[..|rows|]
    ensures |rows| == ListLimit || rows == ExportActivityLogs(s, caller, q)
    ensures Ordering.SortedDesc(rows, DateKey)
    ensures forall e, x :: e in ExportActivityLogs(s, caller, q) && e !in rows && x in rows ==> DateKey(x) >= DateKey(e)
    ensures forall i, j :: 0 <= i < j < |rows| ==> rows[i].0 != rows[j].0
  {
    Ordering.Take(ExportActivityLogs(s, caller, q), ListLimit, DateKey)
  }

  /** `deleteActivityLog`: super admins only, and only an existing entry. */
  function DeleteActivityLog(s: Store, caller: Principal, id: nat): (r: (Store, Response<string>))
    ensures r.1.Reply? <==> caller.IsSuper() && id in s.logs
    ensures !caller.IsSuper() ==> r.1 == Refused(403, "Only super users can delete logs")
    ensures caller.IsSuper() && id !in s.logs ==> r.1 == Refused(404, "Log not found")
    ensures r.1.Refused? ==> r.0 == s
    ensures r.1.Reply? ==> r.0 == s.(logs := s.logs - {id})
  {
    if !caller.IsSuper() then (s, Refused(403, "Only super users can delete logs"))
    else if id !in s.logs then (s, Refused(404, "Log not found"))
    else (s.(logs := s.logs - {id}), Reply(200, "Log deleted successfully"))
  }

  /** Whatever actor an admin asks for, the listing shows only their own entries. */
  lemma AdminSeesOnlyOwn(s: Store, caller: Principal, q: LogRequest)
    requires Consistent(s) && caller.IsAdmin()
    ensures forall e :: e in GetActivityLogs(s, caller, q) ==> e.1.actor == caller.username
  {
    var all := ExportActivityLogs(s, caller, q);
    var rows := GetActivityLogs(s, caller, q);
    forall e | e in rows ensures e.1.actor == caller.username {
      assert e in all[..|rows|];
    }
  }
}
