/**
 * The tenant context resolver (middleware/tenantMiddleware.js): an ordered
 * decision procedure over the principal, the user store and the tenant
 * registry, ending in one `Outcome` per exit of the handler. The connection
 * attempts and the schema initialisation between them are parameters.
 */
module TenantContext {
  import opened Wrappers
  import opened Accounts
  import opened TenantModel
  import opened Connections

  /** `DEFAULT_TENANT_NAME` and `DEFAULT_TENANT_DB`. */
  datatype DemoEnv = DemoEnv(slug: Option<string>, databaseName: Option<string>)

  function DemoSlug(e: DemoEnv): (s: string)
    ensures e.slug.None? || e.slug.value == [] ==> s == "demo"
    ensures e.slug.Some? && e.slug.value != [] ==> s == e.slug.value
  {
    if e.slug.Some? && e.slug.value != [] then e.slug.value else "demo"
  }

  function DemoDatabase(e: DemoEnv): (s: string)
    ensures e.databaseName.None? || e.databaseName.value == [] ==> s == "demo-tenant"
    ensures e.databaseName.Some? && e.databaseName.value != [] ==> s == e.databaseName.value
  {
    if e.databaseName.Some? && e.databaseName.value != [] then e.databaseName.value else "demo-tenant"
  }

  const DemoName: string := "Demo Organization"

  /** The demo tenant the resolver creates: active, default branding, no contact. */
  function DemoTenant(e: DemoEnv): (t: Tenant)
    ensures t.status == Active && t.deletedAt.None? && t.slug == DemoSlug(e) && t.databaseName == DemoDatabase(e)
    ensures t.config.branding.primaryColor == DefaultPrimaryColor && t.config.branding.secondaryColor == DefaultSecondaryColor
  {
    NewTenant(DemoName, DemoSlug(e), DemoDatabase(e), Active, DefaultConfig(DemoName), Contact(None, None, None), None)
  }

  /** `{ slug: demoTenantName, deletedAt: null }` */
  predicate IsLiveDemo(t: Tenant, slug: string) { t.slug == slug && t.deletedAt.None? }

  /**
   * Find the live demo tenant, or create it. A failed save leaves the registry
   * as it was and yields no tenant.
   */
  function FindOrCreateDemo(m: Master, e: DemoEnv): (r: (Master, Option<nat>))
    requires Valid(m)
    ensures Valid(r.0) && r.0.users == m.users
    ensures forall k :: k in m.tenants ==> k in r.0.tenants && r.0.tenants[k] == m.tenants[k]
    ensures r.1.Some? ==> r.1.value in r.0.tenants && IsLiveDemo(r.0.tenants[r.1.value], DemoSlug(e))
    ensures (exists k :: k in m.tenants && IsLiveDemo(m.tenants[k], DemoSlug(e))) ==> r.0 == m && r.1.Some?
    ensures r.1.Some? && r.1.value !in m.tenants ==> r.0.tenants[r.1.value] == DemoTenant(e)
    ensures r.1.None? ==> r.0 == m
  {
    var slug := DemoSlug(e);
    var found := FindFirst(m, t => IsLiveDemo(t, slug));
    if found.Some? then (m, found)
    else
      match InsertTenant(m, DemoTenant(e))
      case Err(_) => (m, None)
      case Ok((m', id)) => (m', Some(id))
  }

  /** Why the tenant id could not be resolved before the registry lookup. */
  datatype Resolution = Resolved(tenantId: Option<nat>) | UserMissing

  /**
   * Lines 24-94: the token's tenant; else the stored user's tenant; else the
   * demo tenant, recorded on the user. A principal without a user id skips
   * the lookup. `userSaves` says whether the user's save at line 83
   * succeeds; when it fails the error is swallowed, the request goes on
   * without a tenant id, and a demo tenant created on the way stays.
   */
  function ResolveTenantId(m: Master, p: Option<Principal>, e: DemoEnv, userSaves: bool): (r: (Master, Resolution))
    requires Valid(m)
    ensures Valid(r.0) && r.0.users.Keys == m.users.Keys
    ensures forall k :: k in m.tenants ==> k in r.0.tenants && r.0.tenants[k] == m.tenants[k]
    ensures p.Some? && p.value.tenantId.Some? ==> r == (m, Resolved(p.value.tenantId))
    ensures (p.None? || p.value.tenantId.None?) && (p.None? || p.value.userId.None?) ==> r == (m, Resolved(None))
    ensures r.1.UserMissing? <==> p.Some? && p.value.tenantId.None? && p.value.userId.Some? && p.value.userId.value !in m.users
    ensures r.1.UserMissing? ==> r.0 == m
    ensures r.1 == Resolved(None) ==> r.0.users == m.users
    ensures r.1 == Resolved(None) && r.0 != m ==> !userSaves && r.0 == FindOrCreateDemo(m, e).0
    ensures r.1.Resolved? && r.1.tenantId.Some? && r.0 != m ==>
              p.Some? && p.value.userId.Some? && r.1.tenantId.value in r.0.tenants
    ensures forall u :: u in m.users && (p.None? || p.value.userId != Some(u)) ==> r.0.users[u] == m.users[u]
    ensures forall u :: u in m.users && r.0.users[u] != m.users[u] ==>
              m.users[u].tenantId.None? && r.0.users[u] == m.users[u].(tenantId := r.1.tenantId)
              && r.1.tenantId.Some? && r.1.tenantId.value in r.0.tenants
              && IsLiveDemo(r.0.tenants[r.1.tenantId.value], DemoSlug(e))
  {
    if p.Some? && p.value.tenantId.Some? then (m, Resolved(p.value.tenantId))
    else if p.None? || p.value.userId.None? then (m, Resolved(None))
    else
      var uid := p.value.userId.value;
      if uid !in m.users then (m, UserMissing)
      else
        var user := m.users[uid];
        if user.tenantId.Some? then (m, Resolved(user.tenantId))
        else
          var (m1, demo) := FindOrCreateDemo(m, e);
          if demo.None? then (m, Resolved(None))
          else if !userSaves then (m1, Resolved(None))
          else (m1.(users := m1.users[uid := user.(tenantId := demo)]), Resolved(demo))
  }

  /**
   * Lines 24-94 as the repository has them: `models/User.js` exports no
   * `getUserModel`, so the call at line 28 throws a `TypeError`, which the
   * catch at lines 89-93 swallows. Only the token's tenant id survives.
   */
  function ResolveTenantIdAsWritten(m: Master, p: Option<Principal>): (r: (Master, Resolution))
    ensures r.0 == m && r.1.Resolved?
    ensures r.1.tenantId.Some? <==> p.Some? && p.value.tenantId.Some?
  {
    if p.Some? && p.value.tenantId.Some? then (m, Resolved(p.value.tenantId)) else (m, Resolved(None))
  }

  /** The request context a successful resolution sets. */
  datatype Context = Context(tenantId: nat, tenant: Tenant, connection: Conn, databaseName: string, isPendingTenant: bool)

  /** Every exit of `setTenantContext`. */
  datatype Outcome =
    | SystemBypass
    | UserNotFound
    | TenantIdRequired
    | TenantNotFound
    | TenantRejected(reason: string)
    | TenantNotActive(status: TenantStatus)
    | TenantDeleted
    | ConnectionFailed
    | Bound(ctx: Context)
  {
    /** The status code the exit sends; 200 stands for passing on to the next handler. */
    function Code(): nat
    {
      match this
      case SystemBypass => 200
      case Bound(_) => 200
      case UserNotFound => 404
      case TenantNotFound => 404
      case TenantIdRequired => 400
      case TenantRejected(_) => 403
      case TenantNotActive(_) => 403
      case TenantDeleted => 403
      case ConnectionFailed => 500
    }
  }

  const NoReason: string := "No reason provided"

  /** `tenant.rejectionReason || 'No reason provided'` */
  function RejectionMessage(t: Tenant): (s: string)
    ensures t.rejectionReason.Some? && t.rejectionReason.value != [] ==> s == t.rejectionReason.value
    ensures t.rejectionReason.None? || t.rejectionReason.value == [] ==> s == NoReason
  {
    if t.rejectionReason.Some? && t.rejectionReason.value != [] then t.rejectionReason.value else NoReason
  }

  /** The status gates of lines 122-146, in order: rejected, not active or pending, soft-deleted. */
  function Gate(t: Tenant): (r: Option<Outcome>)
    ensures r.None? <==> (t.status == Active || t.status == Pending) && t.deletedAt.None?
    ensures t.status == Rejected ==> r == Some(TenantRejected(RejectionMessage(t)))
    ensures t.status != Rejected && t.status != Active && t.status != Pending ==> r == Some(TenantNotActive(t.status))
    ensures (t.status == Active || t.status == Pending) && t.deletedAt.Some? ==> r == Some(TenantDeleted)
  {
    if t.status == Rejected then Some(TenantRejected(RejectionMessage(t)))
    else if t.status != Active && t.status != Pending then Some(TenantNotActive(t.status))
    else if t.deletedAt.Some? then Some(TenantDeleted)
    else None
  }

  /**
   * Lines 148-206: connect; on failure initialise the schema once and retry
   * once. `first` and `retry` say whether each attempt opens its connection,
   * `initialises` whether the schema initialisation succeeds.
   */
  function Connect(pool: Pool, name: string, env: Env, first: bool, initialises: bool, retry: bool)
    : (r: (Pool, Option<Conn>))
    ensures r.1.Some? ==> name in r.0 && r.0[name] == r.1.value && r.1.value.ready
    ensures forall k :: k != name ==> (k in r.0 <==> k in pool) && (k in pool ==> r.0[k] == pool[k])
    ensures GetTenantConnection(pool, name, env, first).1.Ok? ==> r == (GetTenantConnection(pool, name, env, first).0, Some(GetTenantConnection(pool, name, env, first).1.value))
    ensures r.1.Some? ==> GetTenantConnection(pool, name, env, first).1.Ok? || (initialises && retry)
    ensures r.1.None? ==> name !in r.0 || name == []
  {
    var (p1, c1) := GetTenantConnection(pool, name, env, first);
    if c1.Ok? then (p1, Some(c1.value))
    else if !initialises then (p1, None)
    else
      var (p2, c2) := GetTenantConnection(p1, name, env, retry);
      if c2.Ok? then (p2, Some(c2.value)) else (p2, None)
  }

  /**
   * Lines 96-223: everything after the tenant id is resolved: the 400 without
   * one, the registry lookup, the status gates and the connection.
   */
  function Bind(m1: Master, pool: Pool, res: Resolution, env: Env, first: bool, initialises: bool, retry: bool)
    : (r: (Pool, Outcome))
    requires Valid(m1)
    ensures res == Resolved(None) ==> r == (pool, TenantIdRequired)
    ensures res.UserMissing? ==> r == (pool, UserNotFound)
    ensures res.Resolved? && res.tenantId.Some? && res.tenantId.value !in m1.tenants ==> r == (pool, TenantNotFound)
    ensures r.1 != SystemBypass && (r.1.UserNotFound? ==> res.UserMissing? && r.0 == pool)
    ensures r.1.Bound? ==>
              var c := r.1.ctx;
              res == Resolved(Some(c.tenantId))
              && c.tenantId in m1.tenants && c.tenant == m1.tenants[c.tenantId]
              && (c.tenant.status == Active || c.tenant.status == Pending) && c.tenant.deletedAt.None?
              && (c.isPendingTenant <==> c.tenant.status == Pending)
              && c.databaseName == c.tenant.databaseName
              && c.connection.ready && c.databaseName in r.0 && r.0[c.databaseName] == c.connection
  {
    match res
    case UserMissing => (pool, UserNotFound)
    case Resolved(None) => (pool, TenantIdRequired)
    case Resolved(Some(tid)) =>
      if tid !in m1.tenants then (pool, TenantNotFound)
      else
        var t := m1.tenants[tid];
        match Gate(t)
        case Some(o) => (pool, o)
        case None =>
          var (pool1, conn) := Connect(pool, t.databaseName, env, first, initialises, retry);
          if conn.None? then (pool1, ConnectionFailed)
          else (pool1, Bound(Context(tid, t, conn.value, t.databaseName, t.status == Pending)))
  }

  /** `setTenantContext`: the new registry, the new connection cache and the exit taken. */
  function SetTenantContext(m: Master, pool: Pool, p: Option<Principal>, e: DemoEnv, env: Env,
                            userSaves: bool, first: bool, initialises: bool, retry: bool): (r: (Master, Pool, Outcome))
    requires Valid(m)
    ensures Valid(r.0)
    ensures r.2 == SystemBypass <==> p.Some? && p.value.IsSystem()
    ensures r.2 == SystemBypass ==> r.0 == m && r.1 == pool
    ensures r.2.UserNotFound? ==> r.0 == m && r.1 == pool
    ensures r.2.Bound? ==>
              var c := r.2.ctx;
              c.tenantId in r.0.tenants && c.tenant == r.0.tenants[c.tenantId]
              && (c.tenant.status == Active || c.tenant.status == Pending) && c.tenant.deletedAt.None?
              && (c.isPendingTenant <==> c.tenant.status == Pending)
              && c.databaseName == c.tenant.databaseName
              && c.connection.ready && c.databaseName in r.1 && r.1[c.databaseName] == c.connection
    ensures r.2.Bound? && p.Some? && p.value.tenantId.Some? ==> r.2.ctx.tenantId == p.value.tenantId.value
    ensures forall k :: k in m.tenants ==> k in r.0.tenants && r.0.tenants[k] == m.tenants[k]
  {
    if p.Some? && p.value.IsSystem() then (m, pool, SystemBypass)
    else
      var resolved := ResolveTenantId(m, p, e, userSaves);
      var bound := Bind(resolved.0, pool, resolved.1, env, first, initialises, retry);
      (resolved.0, bound.0, bound.1)
  }

  /** `setTenantContext` as the repository has it, with the resolution of `ResolveTenantIdAsWritten`. */
  function SetTenantContextAsWritten(m: Master, pool: Pool, p: Option<Principal>, env: Env,
                                     first: bool, initialises: bool, retry: bool): (r: (Master, Pool, Outcome))
    requires Valid(m)
    ensures r.0 == m
    ensures !r.2.UserNotFound?
  {
    if p.Some? && p.value.IsSystem() then (m, pool, SystemBypass)
    else
      var (m1, res) := ResolveTenantIdAsWritten(m, p);
      var (pool1, o) := Bind(m1, pool, res, env, first, initialises, retry);
      (m1, pool1, o)
  }

  /**
   * As written, every non-system caller whose token carries no tenant id is
   * refused with the 400 of lines 101-112, whatever the user store holds:
   * nobody is auto-assigned and nobody gets the 404 for a missing user.
   */
  lemma TenantlessTokenRefusedAsWritten(m: Master, pool: Pool, p: Principal, env: Env,
                                        first: bool, initialises: bool, retry: bool)
    requires Valid(m) && !p.IsSystem() && p.tenantId.None?
    ensures var r := SetTenantContextAsWritten(m, pool, Some(p), env, first, initialises, retry);
            r == (m, pool, TenantIdRequired) && r.2.Code() == 400
  {
  }

  /** The intended resolver binds a user whose stored record names an existing active tenant; the code as written refuses it. */
  lemma StoredTenantIgnoredAsWritten(m: Master, pool: Pool, p: Principal, e: DemoEnv, env: Env,
                                     userSaves: bool, initialises: bool, retry: bool)
    requires Valid(m) && !p.IsSystem() && p.tenantId.None? && p.userId.Some? && p.userId.value in m.users
    requires m.users[p.userId.value].tenantId.Some?
    requires m.users[p.userId.value].tenantId.value in m.tenants
    requires m.tenants[m.users[p.userId.value].tenantId.value].status == Active
    requires m.tenants[m.users[p.userId.value].tenantId.value].deletedAt.None?
    requires m.tenants[m.users[p.userId.value].tenantId.value].databaseName != [] && BaseUri(env).Some?
    ensures SetTenantContext(m, pool, Some(p), e, env, userSaves, true, initialises, retry).2.Bound?
    ensures SetTenantContextAsWritten(m, pool, Some(p), env, true, initialises, retry).2 == TenantIdRequired
  {
    var tid := m.users[p.userId.value].tenantId.value;
    assert ResolveTenantId(m, Some(p), e, userSaves) == (m, Resolved(Some(tid)));
    assert Gate(m.tenants[tid]).None?;
  }

  /** Soft deletion is checked after status: an archived tenant is refused as inactive, not as deleted. */
  lemma DeletionCheckedAfterStatus(m: Master, pool: Pool, p: Principal, e: DemoEnv, env: Env,
                                   userSaves: bool, first: bool, initialises: bool, retry: bool)
    requires Valid(m) && !p.IsSystem() && p.tenantId.Some? && p.tenantId.value in m.tenants
    requires m.tenants[p.tenantId.value].status == Archived && m.tenants[p.tenantId.value].deletedAt.Some?
    ensures SetTenantContext(m, pool, Some(p), e, env, userSaves, first, initialises, retry).2 == TenantNotActive(Archived)
  {
  }

  /** A rejected tenant's members are refused with its reason, or the fixed text when it has none. */
  lemma RejectedTenantRefused(m: Master, pool: Pool, p: Principal, e: DemoEnv, env: Env,
                              userSaves: bool, first: bool, initialises: bool, retry: bool)
    requires Valid(m) && !p.IsSystem() && p.tenantId.Some? && p.tenantId.value in m.tenants
    requires m.tenants[p.tenantId.value].status == Rejected
    ensures var r := SetTenantContext(m, pool, Some(p), e, env, userSaves, first, initialises, retry);
            r.2.TenantRejected? && r.2.Code() == 403 && r.0 == m && r.1 == pool
            && (m.tenants[p.tenantId.value].rejectionReason.None? ==> r.2.reason == NoReason)
  {
  }

  /**
   * A user without a tenant is bound to the live demo tenant, and the binding
   * is stored, so the next request finds it on the user and creates nothing.
   */
  lemma AutoAssignmentSticks(m: Master, p: Principal, e: DemoEnv)
    requires Valid(m) && p.tenantId.None? && p.userId.Some? && p.userId.value in m.users
    requires m.users[p.userId.value].tenantId.None?
    requires ResolveTenantId(m, Some(p), e, true).1 != Resolved(None)
    ensures var (m1, res) := ResolveTenantId(m, Some(p), e, true);
            res.Resolved? && res.tenantId.Some?
            && m1.users[p.userId.value].tenantId == res.tenantId
            && IsLiveDemo(m1.tenants[res.tenantId.value], DemoSlug(e))
            && ResolveTenantId(m1, Some(p), e, true) == (m1, res)
  {
  }

  /**
   * When the demo tenant is created but the user's save then fails, the new
   * tenant stays in the registry, the user stays without a tenant, and the
   * request is refused with the 400 for a missing tenant id.
   */
  lemma DemoTenantOutlivesFailedAssignment(m: Master, pool: Pool, p: Principal, e: DemoEnv, env: Env,
                                           first: bool, initialises: bool, retry: bool)
    requires Valid(m) && !p.IsSystem() && p.tenantId.None? && p.userId.Some? && p.userId.value in m.users
    requires m.users[p.userId.value].tenantId.None?
    requires forall k :: k in m.tenants ==> !IsLiveDemo(m.tenants[k], DemoSlug(e))
    requires FindOrCreateDemo(m, e).1.Some?
    ensures var r := SetTenantContext(m, pool, Some(p), e, env, false, first, initialises, retry);
            r.2 == TenantIdRequired && r.1 == pool && r.0.users == m.users
            && exists k :: k in r.0.tenants && k !in m.tenants && r.0.tenants[k] == DemoTenant(e)
  {
    var (m1, demo) := FindOrCreateDemo(m, e);
    assert demo.value !in m.tenants;
  }

  /** With the demo tenant in place, auto-assignment creates no further tenant. */
  lemma DemoTenantNotDuplicated(m: Master, e: DemoEnv, k: nat)
    requires Valid(m) && k in m.tenants && IsLiveDemo(m.tenants[k], DemoSlug(e))
    ensures FindOrCreateDemo(m, e).0 == m
  {
  }

  // ---------- guards ----------

  /** The part of the request the guards read. */
  datatype RequestState = RequestState(tenant: Option<Tenant>, connection: Option<Conn>)

  datatype Verdict = Pass | Refuse(code: nat, message: string)

  /** `requireTenant`: both the tenant and its connection must be set. */
  function RequireTenant(req: RequestState): (v: Verdict)
    ensures v.Pass? <==> req.tenant.Some? && req.connection.Some?
    ensures v.Refuse? ==> v.code == 400
  {
    if req.tenant.None? || req.connection.None? then Refuse(400, "Tenant context is required") else Pass
  }

  /** `requireSystemUser`: only the `system` role. */
  function RequireSystemUser(p: Option<Principal>): (v: Verdict)
    ensures v.Pass? <==> p.Some? && p.value.IsSystem()
    ensures v.Refuse? ==> v.code == 403
  {
    if p.Some? && p.value.IsSystem() then Pass else Refuse(403, "System User access required")
  }

  /** `allowSuperAdmin`: `system` and `super` unconditionally, others with tenant context only. */
  function AllowSuperAdmin(p: Option<Principal>, req: RequestState): (v: Verdict)
    ensures p.Some? && (p.value.IsSystem() || p.value.IsSuper()) ==> v.Pass?
    ensures !(p.Some? && (p.value.IsSystem() || p.value.IsSuper())) ==> v == RequireTenant(req)
  {
    if p.Some? && (p.value.IsSystem() || p.value.IsSuper()) then Pass else RequireTenant(req)
  }

  /** The request state a resolver exit leaves behind. */
  function StateAfter(o: Outcome): RequestState
  {
    match o
    case Bound(c) => RequestState(Some(c.tenant), Some(c.connection))
    case _ => RequestState(None, None)
  }

  /** A request the resolver bound always passes `requireTenant`; a system bypass never does. */
  lemma BoundPassesRequireTenant(o: Outcome)
    ensures RequireTenant(StateAfter(o)).Pass? <==> o.Bound?
  {
  }
}
