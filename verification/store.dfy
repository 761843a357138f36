/**
 * One tenant's database as the controllers see it through the tenant-scoped
 * models: a map of documents per collection, ids drawn from one counter so
 * that id order is creation order. Isolation between tenants is proved on
 * the generic facade (module TenantDb); the controllers work on one
 * tenant's view.
 */
module TenantStore {
  import opened Wrappers
  import opened Calendar
  import opened Accounts
  import opened Schemas

  datatype Store = Store(
    members: map<nat, Member>,
    subgroups: map<nat, Subgroup>,
    expenditures: map<nat, Expenditure>,
    receipts: map<nat, Receipt>,
    reminders: map<nat, Reminder>,
    logs: map<nat, ActivityLog>,
    types: map<nat, ContributionType>,
    contributions: map<nat, Contribution>,
    nextId: nat)

  /** Every stored id was drawn from the counter. */
  predicate Consistent(s: Store)
  {
    (forall k :: k in s.members ==> k < s.nextId)
    && (forall k :: k in s.subgroups ==> k < s.nextId)
    && (forall k :: k in s.expenditures ==> k < s.nextId)
    && (forall k :: k in s.receipts ==> k < s.nextId)
    && (forall k :: k in s.reminders ==> k < s.nextId)
    && (forall k :: k in s.logs ==> k < s.nextId)
    && (forall k :: k in s.types ==> k < s.nextId)
    && (forall k :: k in s.contributions ==> k < s.nextId)
  }

  /** `Math.floor(a / d)` on exact quotients, for either sign of the divisor. */
  function FloorDiv(a: int, d: int): (q: int)
    requires d != 0
    ensures d > 0 ==> q * d <= a < q * d + d
    ensures d < 0 ==> q * d >= a > q * d + d
  {
    if d > 0 then a / d else (-a) / (-d)
  }

  /**
   * The `if (req.user.role === 'admin')` block the handlers end with: only
   * an admin caller leaves an activity entry, under a fresh id.
   */
  function AdminLog(s: Store, caller: Principal, action: string, affected: Option<string>, now: Moment): (r: (Store, Option<nat>))
    requires Consistent(s)
    ensures Consistent(r.0) && r.0.(logs := s.logs, nextId := s.nextId) == s
    ensures r.1.Some? <==> caller.IsAdmin()
    ensures r.1.None? ==> r.0 == s
    ensures r.1.Some? ==> r.1.value !in s.logs
                          && r.0.logs == s.logs[r.1.value := ActivityLog(caller.username, AdminRole, action, now, affected)]
  {
    if caller.IsAdmin() then
      (s.(logs := s.logs[s.nextId := ActivityLog(caller.username, AdminRole, action, now, affected)], nextId := s.nextId + 1), Some(s.nextId))
    else (s, None)
  }
}
