/**
 * The tenant registry of the master database (models/Tenant.js): tenant
 * records, the slug and database-name formats, the unique indexes, soft
 * delete and restore, and first-match lookups in natural (id) order.
 *
 * The lifecycle has five states; the schema's own enum lists only three of
 * them (see `SchemaStatusAllowed`).
 */
module TenantModel {
  import opened Wrappers
  import opened Calendar
  import opened Text
  import opened Accounts

  datatype TenantStatus = Pending | Active | Inactive | Rejected | Archived

  datatype Branding = Branding(name: string, logo: string, primaryColor: string, secondaryColor: string)
  datatype Settings = Settings(emailNotifications: bool, autoReceipts: bool, reminderEnabled: bool)
  datatype Features = Features(subgroups: bool, expenditure: bool, reports: bool)
  datatype TenantConfig = TenantConfig(branding: Branding, settings: Settings, features: Features)

  /** Contact details; every field is optional. */
  datatype Contact = Contact(email: Option<string>, phone: Option<string>, address: Option<string>)

  datatype Tenant = Tenant(
    name: string,
    slug: string,
    databaseName: string,
    status: TenantStatus,
    config: TenantConfig,
    contact: Contact,
    createdBy: Option<nat>,
    rejectionReason: Option<string>,
    approvedAt: Option<Moment>,
    approvedBy: Option<nat>,
    deletedAt: Option<Moment>)

  const DefaultPrimaryColor: string := "#3B82F6"
  const DefaultSecondaryColor: string := "#1E40AF"

  /** Schema defaults: the two branding colours, every setting and feature on. */
  function DefaultConfig(brandName: string): (c: TenantConfig)
    ensures c.branding.primaryColor == DefaultPrimaryColor && c.branding.secondaryColor == DefaultSecondaryColor
    ensures c.settings == Settings(true, true, true) && c.features == Features(true, true, true)
  {
    TenantConfig(Branding(brandName, "", DefaultPrimaryColor, DefaultSecondaryColor), Settings(true, true, true), Features(true, true, true))
  }

  /** A fresh tenant document: no approval data and `deletedAt` null. */
  function NewTenant(name: string, slug: string, databaseName: string, status: TenantStatus,
                     config: TenantConfig, contact: Contact, createdBy: Option<nat>): (t: Tenant)
    ensures t.deletedAt.None? && t.rejectionReason.None? && t.approvedAt.None? && t.approvedBy.None?
    ensures t.slug == slug && t.databaseName == databaseName && t.status == status
  {
    Tenant(name, slug, databaseName, status, config, contact, createdBy, None, None, None, None)
  }

  predicate SlugChar(c: char) { IsLower(c) || IsDigit(c) || c == '-' }
  predicate DatabaseNameChar(c: char) { SlugChar(c) || c == '_' }

  /** `^[a-z0-9-]+$` */
  predicate SlugValid(s: string) { |s| > 0 && forall i :: 0 <= i < |s| ==> SlugChar(s[i]) }

  /** `^[a-z0-9_-]+$` */
  predicate DatabaseNameValid(s: string) { |s| > 0 && forall i :: 0 <= i < |s| ==> DatabaseNameChar(s[i]) }

  /** Every valid slug is a valid database name. */
  lemma SlugIsDatabaseName(s: string)
    requires SlugValid(s)
    ensures DatabaseNameValid(s)
  {
  }

  /** A valid slug is already lower case. */
  lemma SlugIsLowerCase(s: string)
    requires SlugValid(s)
    ensures Lower(s) == s
  {
    LowerFixesNoUpper(s);
  }

  /** The statuses the schema's `enum` admits; `active` is its default. */
  predicate SchemaStatusAllowed(st: TenantStatus) { st == Active || st == Inactive || st == Archived }

  const SchemaDefaultStatus: TenantStatus := Active

  /** `pending` and `rejected`, written by registration and rejection, are outside the schema's enum. */
  lemma LifecycleStatusesOutsideSchemaEnum()
    ensures !SchemaStatusAllowed(Pending) && !SchemaStatusAllowed(Rejected)
    ensures SchemaStatusAllowed(SchemaDefaultStatus)
  {
  }

  /** `softDelete`: archived, deleted now. */
  function SoftDelete(t: Tenant, now: Moment): (r: Tenant)
    ensures r.status == Archived && r.deletedAt == Some(now)
    ensures r.slug == t.slug && r.databaseName == t.databaseName && r.name == t.name
  {
    t.(status := Archived, deletedAt := Some(now))
  }

  /** `restore`: active and not deleted, whatever the prior status. */
  function Restore(t: Tenant): (r: Tenant)
    ensures r.status == Active && r.deletedAt.None?
    ensures r.slug == t.slug && r.databaseName == t.databaseName && r.name == t.name
  {
    t.(status := Active, deletedAt := None)
  }

  /** The status-update paths keep this coupling. */
  predicate DeletionCoupled(t: Tenant) { t.deletedAt.Some? <==> t.status == Archived }

  lemma SoftDeleteRestoreCoupled(t: Tenant, now: Moment)
    ensures DeletionCoupled(SoftDelete(t, now)) && DeletionCoupled(Restore(t))
    ensures Restore(SoftDelete(t, now)) == Restore(t)
  {
  }

  /** `{ ...current, ...patch }` on the contact sub-document. */
  function MergeContact(current: Contact, patch: Contact): (r: Contact)
    ensures r.email == (if patch.email.Some? then patch.email else current.email)
    ensures r.phone == (if patch.phone.Some? then patch.phone else current.phone)
    ensures r.address == (if patch.address.Some? then patch.address else current.address)
  {
    Contact(if patch.email.Some? then patch.email else current.email,
            if patch.phone.Some? then patch.phone else current.phone,
            if patch.address.Some? then patch.address else current.address)
  }

  /** The master database: tenants and users, ids drawn from one counter. */
  datatype Master = Master(tenants: map<nat, Tenant>, users: map<nat, User>, nextId: nat)

  predicate Valid(m: Master)
  {
    (forall k :: k in m.tenants ==> k < m.nextId) && (forall k :: k in m.users ==> k < m.nextId)
  }

  datatype SaveError = ValidationFailed(field: string) | DuplicateKey

  /** The schema validators a save runs: required name, slug and database-name formats. */
  function ValidateTenant(t: Tenant): (r: Option<string>)
    ensures r.None? <==> t.name != [] && SlugValid(t.slug) && DatabaseNameValid(t.databaseName)
  {
    if t.name == [] then Some("name")
    else if !SlugValid(t.slug) then Some("slug")
    else if !DatabaseNameValid(t.databaseName) then Some("databaseName")
    else None
  }

  /** The unique indexes on slug and databaseName cover every tenant, soft-deleted ones included. */
  predicate UniqueAgainst(tenants: map<nat, Tenant>, t: Tenant, self: Option<nat>)
  {
    forall k :: k in tenants && Some(k) != self ==> tenants[k].slug != t.slug && tenants[k].databaseName != t.databaseName
  }

  /** Saving a new tenant document: validation, then the unique indexes, then insertion under a fresh id. */
  function InsertTenant(m: Master, t: Tenant): (r: Result<(Master, nat), SaveError>)
    requires Valid(m)
    ensures r.Ok? <==> ValidateTenant(t).None? && UniqueAgainst(m.tenants, t, None)
    ensures r.Ok? ==> var (m', id) := r.value;
                      id !in m.tenants && m'.tenants == m.tenants[id := t] && m'.users == m.users && Valid(m')
  {
    if ValidateTenant(t).Some? then Err(ValidationFailed(ValidateTenant(t).value))
    else if !UniqueAgainst(m.tenants, t, None) then Err(DuplicateKey)
    else Ok((Master(m.tenants[m.nextId := t], m.users, m.nextId + 1), m.nextId))
  }

  /** Saving an existing tenant document: the same validators and indexes, ignoring itself. */
  function SaveTenant(m: Master, id: nat, t: Tenant): (r: Result<Master, SaveError>)
    requires Valid(m) && id in m.tenants
    ensures r.Ok? <==> ValidateTenant(t).None? && UniqueAgainst(m.tenants, t, Some(id))
    ensures r.Ok? ==> r.value.tenants == m.tenants[id := t] && r.value.users == m.users && Valid(r.value)
  {
    if ValidateTenant(t).Some? then Err(ValidationFailed(ValidateTenant(t).value))
    else if !UniqueAgainst(m.tenants, t, Some(id)) then Err(DuplicateKey)
    else Ok(m.(tenants := m.tenants[id := t]))
  }

  function FindFirstFrom(tenants: map<nat, Tenant>, p: Tenant -> bool, i: nat, n: nat): (r: Option<nat>)
    ensures r.Some? ==> r.value in tenants && p(tenants[r.value]) && i <= r.value < n
    ensures r.Some? ==> forall j :: i <= j < r.value && j in tenants ==> !p(tenants[j])
    ensures r.None? ==> forall j :: i <= j < n && j in tenants ==> !p(tenants[j])
    decreases n - i
  {
    if i >= n then None
    else if i in tenants && p(tenants[i]) then Some(i)
    else FindFirstFrom(tenants, p, i + 1, n)
  }

  /** `Tenant.findOne(filter)`: the first match in natural (insertion) order, or null. */
  function FindFirst(m: Master, p: Tenant -> bool): (r: Option<nat>)
    requires Valid(m)
    ensures r.Some? ==> r.value in m.tenants && p(m.tenants[r.value])
    ensures r.Some? ==> forall j :: j < r.value && j in m.tenants ==> !p(m.tenants[j])
    ensures r.None? <==> forall j :: j in m.tenants ==> !p(m.tenants[j])
  {
    FindFirstFrom(m.tenants, p, 0, m.nextId)
  }

  /** The listing filter `{ deletedAt: null }`. */
  function NotDeletedIds(m: Master): (ids: set<nat>)
    ensures forall id :: id in ids <==> id in m.tenants && m.tenants[id].deletedAt.None?
  {
    set id | id in m.tenants && m.tenants[id].deletedAt.None?
  }
}
