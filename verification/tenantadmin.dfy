/**
 * The platform operator's tenant handlers: approval and rejection of
 * registrations (controllers/tenantApprovalController.js) and status,
 * metadata, deletion and restoration (controllers/tenantController.js).
 * Every handler takes the registry and returns the new registry with the
 * reply; a save goes through the schema validators and unique indexes.
 */
module TenantAdmin {
  import opened Wrappers
  import opened Http
  import Calendar
  import opened Text
  import opened Accounts
  import opened TenantModel

  /** The status names a request may carry. */
  function StatusName(st: TenantStatus): string
  {
    match st
    case Pending => "pending"
    case Active => "active"
    case Inactive => "inactive"
    case Rejected => "rejected"
    case Archived => "archived"
  }

  /** `['active', 'inactive', 'archived'].includes(status)` */
  function SettableStatus(s: Option<string>): (r: Option<TenantStatus>)
    ensures r.Some? <==> s == Some("active") || s == Some("inactive") || s == Some("archived")
    ensures r.Some? ==> StatusName(r.value) == s.value && SchemaStatusAllowed(r.value)
  {
    if s == Some("active") then Some(Active)
    else if s == Some("inactive") then Some(Inactive)
    else if s == Some("archived") then Some(Archived)
    else None
  }

  /** Every status the operator can set is named by exactly one string. */
  lemma SettableStatusNamesRoundTrip(st: TenantStatus)
    ensures SchemaStatusAllowed(st) <==> SettableStatus(Some(StatusName(st))) == Some(st)
  {
  }

  /** The ids below `n` of tenants satisfying `p`, newest first (`sort({ createdAt: -1 })`). */
  function TenantsDesc(tenants: map<nat, Tenant>, p: Tenant -> bool, n: nat): (r: seq<nat>)
    ensures forall i :: 0 <= i < |r| ==> r[i] in tenants && r[i] < n && p(tenants[r[i]])
    ensures forall k :: k in tenants && k < n && p(tenants[k]) ==> k in r
    ensures forall i, j :: 0 <= i < j < |r| ==> r[i] > r[j]
  {
    if n == 0 then []
    else if n - 1 in tenants && p(tenants[n - 1]) then [n - 1] + TenantsDesc(tenants, p, n - 1)
    else TenantsDesc(tenants, p, n - 1)
  }

  /** Each handler refuses a caller without the system role with its own text. */
  const ApproveForbidden: Response<Tenant> := Refused(403, "Only system users can approve tenants")
  const RejectForbidden: Response<Tenant> := Refused(403, "Only system users can reject tenants")
  const StatusForbidden: Response<Tenant> := Refused(403, "Only system users can update tenant status")
  const DeleteForbidden: Response<Tenant> := Refused(403, "Only system users can delete tenants")
  const RestoreForbidden: Response<Tenant> := Refused(403, "Only system users can restore tenants")
  const UpdateForbidden: Response<Tenant> := Refused(403, "Only system users can update tenants")
  const NotFound: Response<Tenant> := Refused(404, "Tenant not found")

  /** A rejected save is an uncaught error: 500 and no change. */
  function Persist(m: Master, id: nat, t: Tenant): (r: (Master, Response<Tenant>))
    requires Valid(m) && id in m.tenants
    ensures Valid(r.0)
    ensures r.1.Reply? <==> SaveTenant(m, id, t).Ok?
    ensures r.1.Reply? ==> r.1 == Reply(200, t) && r.0.tenants == m.tenants[id := t] && r.0.users == m.users
    ensures r.1.Refused? ==> r.0 == m && r.1.code == 500
  {
    match SaveTenant(m, id, t)
    case Ok(m') => (m', Reply(200, t))
    case Err(_) => (m, Refused(500, "Tenant could not be saved"))
  }

  // ---------- approval ----------

  /** `getPendingTenants`: pending tenants that are not soft-deleted, newest first. */
  function PendingTenants(caller: Principal, m: Master): (r: Result<seq<nat>, nat>)
    ensures r.Err? <==> !caller.IsSystem()
    ensures r.Err? ==> r.error == 403
    ensures r.Ok? ==> (forall i :: 0 <= i < |r.value| ==>
                         r.value[i] in m.tenants && m.tenants[r.value[i]].status == Pending && m.tenants[r.value[i]].deletedAt.None?)
                      && (forall i, j :: 0 <= i < j < |r.value| ==> r.value[i] > r.value[j])
    ensures r.Ok? && Valid(m) ==> forall k :: k in m.tenants && m.tenants[k].status == Pending && m.tenants[k].deletedAt.None? ==> k in r.value
  {
    if !caller.IsSystem() then Err(403)
    else Ok(TenantsDesc(m.tenants, (t: Tenant) => t.status == Pending && t.deletedAt.None?, m.nextId))
  }

  /** `approveTenant`: a pending tenant becomes active, stamped with the time and the approver. */
  function ApproveTenant(caller: Principal, m: Master, id: nat, now: Calendar.Moment): (r: (Master, Response<Tenant>))
    requires Valid(m)
    ensures Valid(r.0)
    ensures !caller.IsSystem() ==> r == (m, ApproveForbidden)
    ensures caller.IsSystem() && id !in m.tenants ==> r == (m, NotFound)
    ensures caller.IsSystem() && id in m.tenants && m.tenants[id].status != Pending ==> r.0 == m && r.1.Refused? && r.1.code == 400
    ensures r.1.Reply? ==>
              caller.IsSystem() && id in m.tenants && m.tenants[id].status == Pending
              && r.1.body.status == Active && r.1.body.approvedAt == Some(now) && r.1.body.approvedBy == caller.userId
              && r.1.body == m.tenants[id].(status := Active, approvedAt := Some(now), approvedBy := caller.userId)
              && r.0.tenants == m.tenants[id := r.1.body] && r.0.users == m.users
    ensures r.1.Refused? ==> r.0 == m
  {
    if !caller.IsSystem() then (m, ApproveForbidden)
    else if id !in m.tenants then (m, NotFound)
    else
      var t := m.tenants[id];
      if t.status != Pending then (m, Refused(400, "Tenant is not pending. Current status: " + StatusName(t.status)))
      else Persist(m, id, t.(status := Active, approvedAt := Some(now), approvedBy := caller.userId))
  }

  /** `rejectTenant`: the reason is checked before any lookup; a pending tenant becomes rejected. */
  function RejectTenant(caller: Principal, m: Master, id: nat, reason: Option<string>): (r: (Master, Response<Tenant>))
    requires Valid(m)
    ensures Valid(r.0)
    ensures !caller.IsSystem() ==> r == (m, RejectForbidden)
    ensures caller.IsSystem() && (reason.None? || Trim(reason.value) == []) ==> r.0 == m && r.1 == Refused(400, "Rejection reason is required")
    ensures caller.IsSystem() && reason.Some? && Trim(reason.value) != [] && id !in m.tenants ==> r == (m, NotFound)
    ensures r.1.Reply? ==>
              caller.IsSystem() && reason.Some? && Trim(reason.value) != [] && id in m.tenants && m.tenants[id].status == Pending
              && r.1.body == m.tenants[id].(status := Rejected, rejectionReason := Some(Trim(reason.value)), approvedBy := caller.userId)
              && r.0.tenants == m.tenants[id := r.1.body] && r.0.users == m.users
    ensures r.1.Refused? ==> r.0 == m
  {
    if !caller.IsSystem() then (m, RejectForbidden)
    else if reason.None? || Trim(reason.value) == [] then (m, Refused(400, "Rejection reason is required"))
    else if id !in m.tenants then (m, NotFound)
    else
      var t := m.tenants[id];
      if t.status != Pending then (m, Refused(400, "Tenant is not pending. Current status: " + StatusName(t.status)))
      else Persist(m, id, t.(status := Rejected, rejectionReason := Some(Trim(reason.value)), approvedBy := caller.userId))
  }

  /** A decision is final: once approved or rejected, neither handler changes the tenant again. */
  lemma DecisionsAreFinal(caller: Principal, m: Master, id: nat, now: Calendar.Moment, reason: Option<string>)
    requires Valid(m) && id in m.tenants && m.tenants[id].status != Pending
    ensures ApproveTenant(caller, m, id, now).0 == m && ApproveTenant(caller, m, id, now).1.Refused?
    ensures RejectTenant(caller, m, id, reason).0 == m && RejectTenant(caller, m, id, reason).1.Refused?
  {
  }

  /** The rejection reason stored is never blank, so the tenant context shows it rather than the default text. */
  lemma StoredReasonNotBlank(caller: Principal, m: Master, id: nat, reason: Option<string>)
    requires Valid(m) && RejectTenant(caller, m, id, reason).1.Reply?
    ensures var t := RejectTenant(caller, m, id, reason).1.body;
            t.rejectionReason.Some? && t.rejectionReason.value != [] && Trim(t.rejectionReason.value) == t.rejectionReason.value
  {
    TrimIdempotent(reason.value);
  }

  // ---------- tenant management ----------

  /** `getAllTenants`: tenants that are not soft-deleted, newest first. */
  function AllTenants(caller: Principal, m: Master): (r: Result<seq<nat>, nat>)
    ensures r.Err? <==> !caller.IsSystem()
    ensures r.Ok? ==> (forall i :: 0 <= i < |r.value| ==> r.value[i] in m.tenants && m.tenants[r.value[i]].deletedAt.None?)
                      && (forall i, j :: 0 <= i < j < |r.value| ==> r.value[i] > r.value[j])
    ensures r.Ok? && Valid(m) ==> forall k :: k in NotDeletedIds(m) ==> k in r.value
  {
    if !caller.IsSystem() then Err(403)
    else Ok(TenantsDesc(m.tenants, (t: Tenant) => t.deletedAt.None?, m.nextId))
  }

  /** The status assignment shared by `updateTenantStatus` and `updateTenant`: archived iff deleted now. */
  function WithStatus(t: Tenant, st: TenantStatus, now: Calendar.Moment): (r: Tenant)
    ensures r.status == st && DeletionCoupled(r)
    ensures r == t.(status := st, deletedAt := r.deletedAt)
    ensures st == Archived ==> r.deletedAt == Some(now)
  {
    t.(status := st, deletedAt := if st == Archived then Some(now) else None)
  }

  /** `updateTenantStatus`: one of the three settable statuses, with `deletedAt` following it. */
  function UpdateTenantStatus(caller: Principal, m: Master, id: nat, status: Option<string>, now: Calendar.Moment)
    : (r: (Master, Response<Tenant>))
    requires Valid(m)
    ensures Valid(r.0)
    ensures !caller.IsSystem() ==> r == (m, StatusForbidden)
    ensures caller.IsSystem() && SettableStatus(status).None? ==> r == (m, Refused(400, "Invalid status"))
    ensures caller.IsSystem() && SettableStatus(status).Some? && id !in m.tenants ==> r == (m, NotFound)
    ensures r.1.Reply? ==> id in m.tenants && SettableStatus(status).Some?
                           && r.1.body == WithStatus(m.tenants[id], SettableStatus(status).value, now)
                           && r.0.tenants == m.tenants[id := r.1.body]
    ensures r.1.Reply? ==> DeletionCoupled(r.0.tenants[id])
    ensures r.1.Refused? ==> r.0 == m
  {
    if !caller.IsSystem() then (m, StatusForbidden)
    else
      var st := SettableStatus(status);
      if st.None? then (m, Refused(400, "Invalid status"))
      else if id !in m.tenants then (m, NotFound)
      else Persist(m, id, WithStatus(m.tenants[id], st.value, now))
  }

  /** `deleteTenant`: soft deletion. */
  function DeleteTenant(caller: Principal, m: Master, id: nat, now: Calendar.Moment): (r: (Master, Response<Tenant>))
    requires Valid(m)
    ensures Valid(r.0)
    ensures !caller.IsSystem() ==> r == (m, DeleteForbidden)
    ensures caller.IsSystem() && id !in m.tenants ==> r == (m, NotFound)
    ensures r.1.Reply? ==> id in m.tenants && r.1.body == SoftDelete(m.tenants[id], now)
                           && r.0.tenants == m.tenants[id := r.1.body]
                           && r.0.tenants[id].status == Archived && r.0.tenants[id].deletedAt.Some?
    ensures r.1.Refused? ==> r.0 == m
  {
    if !caller.IsSystem() then (m, DeleteForbidden)
    else if id !in m.tenants then (m, NotFound)
    else Persist(m, id, SoftDelete(m.tenants[id], now))
  }

  /** `restoreTenant`: active and undeleted, whatever the tenant was before. */
  function RestoreTenant(caller: Principal, m: Master, id: nat): (r: (Master, Response<Tenant>))
    requires Valid(m)
    ensures Valid(r.0)
    ensures !caller.IsSystem() ==> r == (m, RestoreForbidden)
    ensures caller.IsSystem() && id !in m.tenants ==> r == (m, NotFound)
    ensures r.1.Reply? ==> id in m.tenants && r.1.body == Restore(m.tenants[id])
                           && r.0.tenants == m.tenants[id := r.1.body]
                           && r.0.tenants[id].status == Active && r.0.tenants[id].deletedAt.None?
    ensures r.1.Refused? ==> r.0 == m
  {
    if !caller.IsSystem() then (m, RestoreForbidden)
    else if id !in m.tenants then (m, NotFound)
    else Persist(m, id, Restore(m.tenants[id]))
  }

  /** Deleting and then restoring brings a tenant back to what a restore alone gives. */
  lemma DeleteThenRestore(caller: Principal, m: Master, id: nat, now: Calendar.Moment)
    requires Valid(m) && caller.IsSystem() && id in m.tenants
    requires DeleteTenant(caller, m, id, now).1.Reply?
    ensures var m1 := DeleteTenant(caller, m, id, now).0;
            RestoreTenant(caller, m1, id).1.Reply? ==> RestoreTenant(caller, m1, id).1.body == Restore(m.tenants[id])
  {
  }

  /** The fields `updateTenant` reads from the body. */
  datatype TenantEdit = TenantEdit(name: Option<string>, slug: Option<string>, status: Option<string>, contact: Option<Contact>)

  /** Another live tenant already uses the slug. */
  predicate SlugTaken(m: Master, id: nat, slug: string)
  {
    exists k :: k in m.tenants && k != id && m.tenants[k].slug == slug && m.tenants[k].deletedAt.None?
  }

  /** `slug && slug !== tenant.slug` */
  predicate SlugChange(t: Tenant, e: TenantEdit) { e.slug.Some? && e.slug.value != [] && e.slug.value != t.slug }

  /** The tenant `updateTenant` saves, once the slug check has passed. */
  function Edited(t: Tenant, e: TenantEdit, now: Calendar.Moment): (r: Tenant)
    ensures r.slug == (if e.slug.Some? && e.slug.value != [] && e.slug.value != t.slug then Lower(e.slug.value) else t.slug)
    ensures r.name == (if e.name.Some? && e.name.value != [] then e.name.value else t.name)
    ensures SettableStatus(e.status).Some? ==> r.status == SettableStatus(e.status).value && DeletionCoupled(r)
    ensures SettableStatus(e.status).None? ==> r.status == t.status && r.deletedAt == t.deletedAt
    ensures r.contact == (if e.contact.Some? then MergeContact(t.contact, e.contact.value) else t.contact)
    ensures r.databaseName == t.databaseName && r.config == t.config && r.rejectionReason == t.rejectionReason
  {
    var t1 := if e.slug.Some? && e.slug.value != [] && e.slug.value != t.slug then t.(slug := Lower(e.slug.value)) else t;
    var t2 := if e.name.Some? && e.name.value != [] then t1.(name := e.name.value) else t1;
    var t3 := if SettableStatus(e.status).Some? then WithStatus(t2, SettableStatus(e.status).value, now) else t2;
    if e.contact.Some? then t3.(contact := MergeContact(t3.contact, e.contact.value)) else t3
  }

  /** `updateTenant`: a changed slug must be free among live tenants; other statuses are ignored silently. */
  function UpdateTenant(caller: Principal, m: Master, id: nat, e: TenantEdit, now: Calendar.Moment): (r: (Master, Response<Tenant>))
    requires Valid(m)
    ensures Valid(r.0)
    ensures !caller.IsSystem() ==> r == (m, UpdateForbidden)
    ensures caller.IsSystem() && id !in m.tenants ==> r == (m, NotFound)
    ensures caller.IsSystem() && id in m.tenants && SlugChange(m.tenants[id], e) && SlugTaken(m, id, Lower(e.slug.value)) ==>
              r == (m, Refused(400, "Slug already exists"))
    ensures r.1.Reply? ==> id in m.tenants && r.1.body == Edited(m.tenants[id], e, now)
                           && r.0.tenants == m.tenants[id := r.1.body]
                           && (r.1.body.slug == m.tenants[id].slug || !SlugTaken(m, id, r.1.body.slug))
    ensures r.1.Refused? ==> r.0 == m
  {
    if !caller.IsSystem() then (m, UpdateForbidden)
    else if id !in m.tenants then (m, NotFound)
    else
      var t := m.tenants[id];
      if SlugChange(t, e) && SlugTaken(m, id, Lower(e.slug.value)) then
        (m, Refused(400, "Slug already exists"))
      else Persist(m, id, Edited(t, e, now))
  }

  /**
   * The status paths keep "deleted iff archived": starting from a coupled
   * tenant, any successful status update, edit, deletion or restore leaves it
   * coupled.
   */
  lemma StatusPathsKeepCoupling(caller: Principal, m: Master, id: nat, e: TenantEdit, st: Option<string>, now: Calendar.Moment)
    requires Valid(m) && id in m.tenants && DeletionCoupled(m.tenants[id])
    ensures UpdateTenant(caller, m, id, e, now).1.Reply? ==> DeletionCoupled(UpdateTenant(caller, m, id, e, now).0.tenants[id])
    ensures UpdateTenantStatus(caller, m, id, st, now).1.Reply? ==> DeletionCoupled(UpdateTenantStatus(caller, m, id, st, now).0.tenants[id])
    ensures DeleteTenant(caller, m, id, now).1.Reply? ==> DeletionCoupled(DeleteTenant(caller, m, id, now).0.tenants[id])
    ensures RestoreTenant(caller, m, id).1.Reply? ==> DeletionCoupled(RestoreTenant(caller, m, id).0.tenants[id])
  {
  }
}
