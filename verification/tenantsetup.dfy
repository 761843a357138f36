/**
 * Self-service tenant registration and the setup status probe
 * (controllers/tenantSetupController.js). The database probe, the schema
 * initialisation and the admin user's save are parameters; e-mail delivery
 * is left out.
 */
module TenantSetup {
  import opened Wrappers
  import opened Http
  import opened Text
  import opened Accounts
  import opened TenantModel

  /** `!x` is false: present and not the empty string. */
  predicate Present(o: Option<string>) { o.Some? && o.value != [] }

  /** `x || d` on an optional string. */
  function OrElse(o: Option<string>, d: string): (s: string)
    ensures Present(o) ==> s == o.value
    ensures !Present(o) ==> s == d
  {
    if Present(o) then o.value else d
  }

  datatype BrandingInput = BrandingInput(name: Option<string>, logo: Option<string>, primaryColor: Option<string>, secondaryColor: Option<string>)

  /** The request body of `registerTenant`. */
  datatype Form = Form(
    name: Option<string>,
    slug: Option<string>,
    databaseName: Option<string>,
    adminUsername: Option<string>,
    adminPassword: Option<string>,
    adminEmail: Option<string>,
    contactEmail: Option<string>,
    contactPhone: Option<string>,
    branding: Option<BrandingInput>)

  /** What the outside world answers during a registration, the delete that undoes the tenant's save included. */
  datatype World = World(databaseHasData: bool, schemaInitialises: bool, adminSave: SaveOutcome, rollback: Deletion)

  /** How `Tenant.findByIdAndDelete` ends when a later step failed. */
  datatype Deletion = Deleted | DeleteFailed(message: string)

  /** How the admin user's save ends: a duplicate key names the clashing field. */
  datatype SaveOutcome = Saved | DuplicateUsername | DuplicateEmail | SaveFailed(message: string)

  /** Lines 25-29. */
  predicate RequiredPresent(f: Form)
  {
    Present(f.name) && Present(f.slug) && Present(f.databaseName) && Present(f.adminUsername) && Present(f.adminPassword)
  }

  /** A live tenant already has the slug or the database name (lines 49-55). */
  predicate TenantClash(m: Master, slug: string, databaseName: string)
  {
    exists k :: k in m.tenants && m.tenants[k].deletedAt.None? && (m.tenants[k].slug == slug || m.tenants[k].databaseName == databaseName)
  }

  /** A user already has the username (lines 64-76). */
  predicate UsernameClash(m: Master, username: string)
  {
    exists u :: u in m.users && m.users[u].username == username
  }

  /** When an e-mail is given, a user already has it lower-cased (lines 67 and 77-81). */
  predicate EmailClash(m: Master, email: Option<string>)
  {
    Present(email) && exists u :: u in m.users && m.users[u].email == Some(Lower(email.value))
  }

  function BrandingOf(f: Form): (b: Branding)
    requires Present(f.name)
    ensures b.name == (if f.branding.Some? then OrElse(f.branding.value.name, f.name.value) else f.name.value)
    ensures f.branding.None? ==> b == Branding(f.name.value, "", DefaultPrimaryColor, DefaultSecondaryColor)
  {
    match f.branding
    case None => Branding(f.name.value, "", DefaultPrimaryColor, DefaultSecondaryColor)
    case Some(b) => Branding(OrElse(b.name, f.name.value), OrElse(b.logo, ""), OrElse(b.primaryColor, DefaultPrimaryColor),
                             OrElse(b.secondaryColor, DefaultSecondaryColor))
  }

  /** The tenant document registration saves: pending, every setting and feature on. */
  function PendingTenant(f: Form, createdBy: Option<nat>): (t: Tenant)
    requires RequiredPresent(f)
    ensures t.status == Pending && t.deletedAt.None? && t.slug == f.slug.value && t.databaseName == f.databaseName.value
    ensures t.config.settings == Settings(true, true, true) && t.config.features == Features(true, true, true)
    ensures t.createdBy == createdBy
  {
    NewTenant(f.name.value, f.slug.value, f.databaseName.value, Pending,
              TenantConfig(BrandingOf(f), Settings(true, true, true), Features(true, true, true)),
              Contact(Some(OrElse(f.contactEmail, "")), Some(OrElse(f.contactPhone, "")), Some("")),
              createdBy)
  }

  /** The admin account: role `admin`, bound to the new tenant, e-mail lower-cased. */
  function AdminUser(f: Form, tenantId: nat): (u: User)
    requires RequiredPresent(f)
    ensures u.role == AdminRole && u.tenantId == Some(tenantId) && u.username == f.adminUsername.value
    ensures Present(f.adminEmail) ==> u.email == Some(Lower(f.adminEmail.value))
    ensures !Present(f.adminEmail) ==> u.email.None?
  {
    User(f.adminUsername.value, if Present(f.adminEmail) then Some(Lower(f.adminEmail.value)) else None, AdminRole, Some(tenantId))
  }

  /** The ids of a successful registration. */
  datatype Registered = Registered(tenantId: nat, adminId: nat)

  /** Every refusal is a 400 with its message; unexpected failures are 500. */
  function Bad(msg: string): Response<Registered> { Refused(400, msg) }

  /** The checks of lines 25-96, in order: the first refusal, or none. */
  function Admission(m: Master, f: Form, w: World): (r: Option<string>)
    ensures r.None? <==> RequiredPresent(f) && DatabaseNameValid(f.databaseName.value) && SlugValid(f.slug.value)
                         && !TenantClash(m, f.slug.value, f.databaseName.value)
                         && !UsernameClash(m, f.adminUsername.value) && !EmailClash(m, f.adminEmail) && !w.databaseHasData
  {
    if !RequiredPresent(f) then Some("Name, slug, database name, admin username, and password are required")
    else if !DatabaseNameValid(f.databaseName.value) then Some("Database name can only contain lowercase letters, numbers, underscores, and hyphens")
    else if !SlugValid(f.slug.value) then Some("Slug can only contain lowercase letters, numbers, and hyphens")
    else if TenantClash(m, f.slug.value, f.databaseName.value) then Some("A tenant with this slug or database name already exists")
    else if UsernameClash(m, f.adminUsername.value) then Some("Admin username already exists. Please choose a different username.")
    else if EmailClash(m, f.adminEmail) then Some("Admin email already exists. Please use a different email address.")
    else if w.databaseHasData then Some("Database name already exists and contains data")
    else None
  }

  /**
   * Lines 98-183: save the pending tenant, initialise its schema, save the
   * admin; a failure after the tenant's save deletes it again. When that
   * delete fails too, the pending tenant stays: after a failed schema
   * initialisation the delete's error escapes to the 500 of the outer catch,
   * after a failed admin save it is only logged.
   */
  function Provision(m: Master, f: Form, createdBy: Option<nat>, w: World): (r: (Master, Response<Registered>))
    requires Valid(m) && RequiredPresent(f)
    ensures Valid(r.0)
    ensures r.1.Refused? ==> r.0.users == m.users
    ensures r.1.Refused? && w.rollback == Deleted ==> r.0.tenants == m.tenants
    ensures r.1.Refused? && r.0.tenants != m.tenants ==>
              w.rollback.DeleteFailed? && InsertTenant(m, PendingTenant(f, createdBy)).Ok?
              && r.0.tenants == InsertTenant(m, PendingTenant(f, createdBy)).value.0.tenants
    ensures r.1.Reply? <==> InsertTenant(m, PendingTenant(f, createdBy)).Ok? && w.schemaInitialises && w.adminSave == Saved
    ensures r.1.Reply? ==>
              r.1.code == 201
              && var Registered(tid, uid) := r.1.body;
                 tid !in m.tenants && uid !in m.users && tid != uid
                 && r.0.tenants == m.tenants[tid := PendingTenant(f, createdBy)]
                 && r.0.users == m.users[uid := AdminUser(f, tid)]
  {
    match InsertTenant(m, PendingTenant(f, createdBy))
    case Err(DuplicateKey) => (m, Bad("Tenant slug or database name already exists"))
    case Err(ValidationFailed(_)) => (m, Refused(500, "Tenant validation failed"))
    case Ok(v) => Provisioned(m, f, createdBy, w, v.0, v.1)
  }

  /**
   * The steps after the tenant document `tid` is saved: the schema, then the
   * admin user; a failure at either deletes the tenant again, unless that
   * delete fails too.
   */
  function Provisioned(m: Master, f: Form, createdBy: Option<nat>, w: World, m1: Master, tid: nat): (r: (Master, Response<Registered>))
    requires Valid(m) && RequiredPresent(f) && InsertTenant(m, PendingTenant(f, createdBy)).Ok?
    requires InsertTenant(m, PendingTenant(f, createdBy)).value.0 == m1 && InsertTenant(m, PendingTenant(f, createdBy)).value.1 == tid
    ensures Valid(r.0)
    ensures r.1.Refused? ==> r.0.users == m.users
    ensures r.1.Refused? && w.rollback == Deleted ==> r.0.tenants == m.tenants
    ensures r.1.Refused? && r.0.tenants != m.tenants ==> w.rollback.DeleteFailed? && r.0.tenants == m1.tenants
    ensures r.1.Reply? <==> w.schemaInitialises && w.adminSave == Saved
    ensures r.1.Reply? ==>
              r.1.code == 201
              && var Registered(tid', uid) := r.1.body;
                 tid' == tid && tid !in m.tenants && uid !in m.users && tid != uid
                 && r.0.tenants == m.tenants[tid := PendingTenant(f, createdBy)]
                 && r.0.users == m.users[uid := AdminUser(f, tid)]
  {
    var rolledBack := m1.(tenants := m1.tenants - {tid});
    assert rolledBack.tenants == m.tenants;
    var after := if w.rollback == Deleted then rolledBack else m1;
    if !w.schemaInitialises then
      (after, Refused(500, if w.rollback.DeleteFailed? then w.rollback.message else "Failed to initialize tenant database"))
    else match w.adminSave
    case DuplicateUsername => (after, Bad("Admin username already exists. Please choose a different username."))
    case DuplicateEmail => (after, Bad("Admin email already exists. Please choose a different email."))
    case SaveFailed(msg) => (after, Refused(500, msg))
    case Saved =>
      var uid := m1.nextId;
      (Master(m1.tenants, m1.users[uid := AdminUser(f, tid)], m1.nextId + 1), Reply(201, Registered(tid, uid)))
  }

  /** `registerTenant` over the registry, with `createdBy` the caller's user id when signed in. */
  function RegisterTenant(m: Master, f: Form, createdBy: Option<nat>, w: World): (r: (Master, Response<Registered>))
    requires Valid(m)
    ensures Valid(r.0)
    ensures Admission(m, f, w).Some? ==> r == (m, Bad(Admission(m, f, w).value))
    ensures r.1.Refused? ==> r.0.users == m.users
    ensures r.1.Refused? && w.rollback == Deleted ==> r.0.tenants == m.tenants
    ensures r.1.Reply? ==>
              r.1.code == 201 && Admission(m, f, w).None? && w.schemaInitialises && w.adminSave == Saved
              && var Registered(tid, uid) := r.1.body;
                 tid !in m.tenants && uid !in m.users && tid != uid
                 && r.0.tenants == m.tenants[tid := PendingTenant(f, createdBy)]
                 && r.0.users == m.users[uid := AdminUser(f, tid)]
  {
    match Admission(m, f, w)
    case Some(msg) => (m, Bad(msg))
    case None => Provision(m, f, createdBy, w)
  }

  /** Each refusal of lines 25-82 is a 400 that changes nothing. */
  lemma RegistrationRefusals(m: Master, f: Form, createdBy: Option<nat>, w: World)
    requires Valid(m)
    ensures var r := RegisterTenant(m, f, createdBy, w);
            (!RequiredPresent(f) || !DatabaseNameValid(f.databaseName.value) || !SlugValid(f.slug.value)
             || TenantClash(m, f.slug.value, f.databaseName.value) || UsernameClash(m, f.adminUsername.value) || EmailClash(m, f.adminEmail))
            ==> r.0 == m && r.1.Refused? && r.1.code == 400
  {
  }

  /** No tenant survives a failed registration whose clean-up delete succeeds: the registry is as before, whatever failed. */
  lemma FailedRegistrationLeavesNoTenant(m: Master, f: Form, createdBy: Option<nat>, w: World)
    requires Valid(m) && RegisterTenant(m, f, createdBy, w).1.Refused? && w.rollback == Deleted
    ensures RegisterTenant(m, f, createdBy, w).0.tenants == m.tenants
    ensures forall k :: k in RegisterTenant(m, f, createdBy, w).0.tenants ==> k in m.tenants
  {
  }

  /**
   * When a step after the tenant's save fails and so does the delete, the
   * registration is refused yet its pending tenant stays, and it blocks the
   * slug: the same form sent again is refused with a 400.
   */
  lemma FailedRollbackBlocksSlug(m: Master, f: Form, createdBy: Option<nat>, w: World, w2: World)
    requires Valid(m) && Admission(m, f, w).None? && InsertTenant(m, PendingTenant(f, createdBy)).Ok?
    requires w.rollback.DeleteFailed? && (!w.schemaInitialises || w.adminSave != Saved)
    ensures var (m', resp) := RegisterTenant(m, f, createdBy, w);
            resp.Refused? && m'.users == m.users
            && exists k: nat :: k !in m.tenants && m'.tenants == m.tenants[k := PendingTenant(f, createdBy)]
    ensures var m' := RegisterTenant(m, f, createdBy, w).0;
            RegisterTenant(m', f, createdBy, w2) == (m', Bad("A tenant with this slug or database name already exists"))
  {
    var (m1, tid) := InsertTenant(m, PendingTenant(f, createdBy)).value;
    var m' := RegisterTenant(m, f, createdBy, w).0;
    assert m' == m1;
    assert m'.tenants[tid].slug == f.slug.value && m'.tenants[tid].deletedAt.None?;
    assert TenantClash(m', f.slug.value, f.databaseName.value);
  }

  /** A successful registration leaves a pending tenant that the admin belongs to and that the tenant context admits. */
  lemma RegisteredTenantIsPending(m: Master, f: Form, createdBy: Option<nat>, w: World)
    requires Valid(m) && RegisterTenant(m, f, createdBy, w).1.Reply?
    ensures var (m', resp) := RegisterTenant(m, f, createdBy, w);
            var t := m'.tenants[resp.body.tenantId];
            t.status == Pending && t.deletedAt.None? && DeletionCoupled(t)
            && m'.users[resp.body.adminId].tenantId == Some(resp.body.tenantId)
            && m'.users[resp.body.adminId].role == AdminRole
  {
  }

  /** A second registration with the same slug is refused while the first tenant lives. */
  lemma SlugCannotBeRegisteredTwice(m: Master, f: Form, g: Form, createdBy: Option<nat>, w: World, w2: World)
    requires Valid(m) && RegisterTenant(m, f, createdBy, w).1.Reply?
    requires RequiredPresent(g) && g.slug == f.slug
    ensures var m' := RegisterTenant(m, f, createdBy, w).0;
            RegisterTenant(m', g, createdBy, w2).1.Refused? && RegisterTenant(m', g, createdBy, w2).1.code == 400
  {
    var (m', resp) := RegisterTenant(m, f, createdBy, w);
    var tid := resp.body.tenantId;
    assert m'.tenants[tid].slug == g.slug.value && m'.tenants[tid].deletedAt.None?;
    assert TenantClash(m', g.slug.value, g.databaseName.value);
  }

  // ---------- setup status ----------

  datatype SetupStatus = SetupStatus(tenantId: nat, status: TenantStatus, databaseInitialized: bool, completed: bool)

  /** `getSetupStatus(slug)`: the live tenant with the slug; complete iff initialised and active. */
  function GetSetupStatus(m: Master, slug: string, initialized: bool): (r: Response<SetupStatus>)
    requires Valid(m)
    ensures r.Refused? <==> forall k :: k in m.tenants ==> !(m.tenants[k].slug == slug && m.tenants[k].deletedAt.None?)
    ensures r.Refused? ==> r.code == 404
    ensures r.Reply? ==> r.body.tenantId in m.tenants && m.tenants[r.body.tenantId].slug == slug
                         && m.tenants[r.body.tenantId].deletedAt.None?
                         && r.body.status == m.tenants[r.body.tenantId].status
                         && (r.body.completed <==> initialized && r.body.status == Active)
  {
    match FindFirst(m, (t: Tenant) => t.slug == slug && t.deletedAt.None?)
    case None => Refused(404, "Tenant not found")
    case Some(id) =>
      var t := m.tenants[id];
      Reply(200, SetupStatus(id, t.status, initialized, initialized && t.status == Active))
  }

  /** A freshly registered tenant is never reported complete until it is approved. */
  lemma PendingSetupIncomplete(m: Master, f: Form, createdBy: Option<nat>, w: World, initialized: bool)
    requires Valid(m) && RegisterTenant(m, f, createdBy, w).1.Reply?
    ensures var m' := RegisterTenant(m, f, createdBy, w).0;
            var st := GetSetupStatus(m', f.slug.value, initialized);
            st.Reply? && !st.body.completed
  {
    var (m', resp) := RegisterTenant(m, f, createdBy, w);
    var tid := resp.body.tenantId;
    var slug := f.slug.value;
    assert m'.tenants[tid] == PendingTenant(f, createdBy);
    assert m'.tenants[tid].slug == slug && m'.tenants[tid].deletedAt.None?;
    var st := GetSetupStatus(m', slug, initialized);
    assert st.Reply?;
    assert !TenantClash(m, f.slug.value, f.databaseName.value);
    assert st.body.tenantId == tid;
  }
}
