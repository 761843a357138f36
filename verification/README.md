# Dues accounting backend: a Dafny model

This project models the core of a multi-tenant dues-accounting backend for
member organisations. The backend keeps a registry of tenants (organisations)
in a master database. The tenant-aware handlers (contribution types,
subgroups, expenditures, receipts, reminders' logs and summary, activity
logs) reach one tenant's data through a tenant-scoped facade. The member,
payment and report handlers and the reminder job do not: they import the
legacy single-collection models, so in the repository they read and write
collections shared by every tenant, and the dashboard counts the
administrators of every tenant. The model runs all of them on one
`TenantStore.Store`, which for those four stands for the shared collections.
The model covers five pieces of that logic:

- **The tenant registry and its lifecycle.** Self-service registration with
  rollback (`TenantSetup`), and approval, rejection, status changes, soft
  deletion and restore by the platform operator (`TenantAdmin`, `TenantModel`).
  The migration that binds tenant-less users to the demo tenant is also here
  (`DemoAssignment`), as is the creation of platform accounts (`SystemUsers`).
- **The tenant context resolver** (`TenantContext`). It is the ordered
  decision procedure that runs on every request and ends in one `Outcome` per
  exit: system bypass, demo auto-assignment, the 400/403/404 gates, and a
  single provision-and-retry. The lookup of the stored user and the
  auto-assignment follow the evident intent; as written they never run
  (Findings row 5).
- **The tenant-scoped data facade.** It covers the generic row model with its
  `tenant_id` filter and stamp (`TenantDb`) and the member model
  (`MemberFacade`). It also covers the camelCase/snake_case row mapping
  (`Helpers`), the master tables (`MasterDb`), backend dispatch and memoised
  model registration (`Dispatch`), and `$group` aggregation (`Grouping`). The
  isolation theorem is proved here for the corrected create and update
  (Findings row 1): an operation under one tenant never observes or changes
  another tenant's rows. As written, a raw `tenant_id` key in the caller's
  object lets a create or an update reach another tenant.
- **Connection strings and the tenant connection cache** (`Connections`).
- **The accounting rules and helpers.** These are:
  - arrears (`Helpers`, `Schemas`);
  - contributions, payments and members (`Contributions`, `Payments`,
    `Members`);
  - contribution types with the protected system Dues type
    (`ContributionTypes`);
  - subgroup statistics and the leaderboard (`Subgroups`);
  - expenditures (`Expenditures`);
  - the dashboard and the payments export (`Reports`);
  - the activity log (`Logs`);
  - reminders and the next reminder date (`Reminders`);
  - member, receipt and expense identifiers (`MemberIds`, `DatedIds`);
  - the request validators (`Validation`);
  - the bulk-upload sheet parser (`BulkUpload`).

Handlers are pure functions from a state to a new state and a reply
(`Http.Response`: `Reply(code, body)` or `Refused(code, message)`). The tenant
registry and the user store are maps keyed by ids. Ids grow with creation, so
id order stands for natural and `createdAt` order. One tenant's collections
form a `TenantStore.Store`.

The clock, random numbers, the outcome of a database connection, of a schema
initialisation or of a save, and the mailer are all explicit parameters.
Money is an integer number of minor units, 100 to the cedi, and is printed
in cedis as JavaScript prints the number (`Text.MoneyText`). A number in a
request body keeps whether it was sent as a number or as a text
(`Http.BodyNumber`), because the handlers' `!amount` guards treat the text
"0" as given. JavaScript's `Math.floor` on division is written out
(`FloorDiv`). Dates are `Calendar.Moment` values with
zero-based months. Shared helpers live in these modules: `Wrappers` (`Option`,
`Result`, and the `Http` replies), `Text` (ASCII case, `trim`, `split`,
`padStart` and decimal text), `Numbers` (the number syntax of the validator
library's `isInt` and `isFloat` and of JavaScript's `Number`, read as exact
decimals), `Ordering` (stable sorts and id listings) and `Calendar`.

The request validators see the JSON body: a number there is an integer, and
an amount with a fraction arrives as text such as `"2.50"`, which `isFloat`
and `Number` read as the decimal it spells. Member and expenditure saves
report every failing path of the schema, in the order the schema declares
them, in the message Mongoose builds. The member number's unique index is
sparse: an omitted `memberId` never collides, while an explicit `null` is
indexed like any other value.

## Model

| member | source | states |
|---|---|---|
| Text.MoneyText | controllers/contributionController.js:182 | `${paymentAmount}` of an amount held in minor units: non-empty, starting with `-` exactly for a negative amount, and a whole number of cedis prints as that integer with no fraction |
| Text.MoneyTextRoundTrip | controllers/contributionController.js:182 | every printed amount reads back as that amount in minor units, so distinct amounts print differently |
| Ordering.SortDesc | controllers/expenditureController.js:82 | `sort({ key: -1 })`: a permutation of the input, so of the same length, in descending key order |
| Ordering.SortDescStable | controllers/subgroupController.js:235 | the comparator sort is stable: elements with equal keys leave in the order they came in |
| Ordering.InsertDescStable | controllers/subgroupController.js:235 | inserting an element later than all the others keeps equal keys in input order |
| Ordering.SortDescKeepsTies | controllers/paymentController.js:167 | the comparator sort keeps, for each key, the elements of that key in their input order (`Array.prototype.sort` is stable) |
| Ordering.InsertDescTies | controllers/paymentController.js:167 | an inserted element goes after every element of its key already present |
| Ordering.SortedWhere | controllers/expenditureController.js:80-82 | a filtered listing sorted by a descending key lists exactly the matching documents, each once, with equal keys in creation order (the tie order the model fixes for a database sort) |
| Ordering.SortByName | controllers/reportController.js:132 | `sort({ name: 1 })`: a permutation of the input in ascending code-unit order of names |
| Ordering.Take | controllers/logController.js:33 | `.limit(n)` on a newest-first listing: a prefix of it that is exactly `n` long or the whole listing, still sorted, and nothing left out is newer than a row kept |
| Ordering.Page | controllers/reminderController.js:43-45 | `.limit(n)` where 0 means no limit: the whole listing for 0, otherwise as `Take`; always a sorted prefix and nothing left out newer than a row kept |
| Ordering.Latest | controllers/reminderController.js:57 | `findOne().sort({ key: -1 })`: none exactly when nothing is stored, otherwise a stored entry whose key no stored entry exceeds |
| Ordering.FirstIsGreatest | controllers/reminderController.js:57 | after a descending sort the first element has the greatest key of all |
| Helpers.Set | db/helpers.js:9 | assigning `out[k] = v` makes `k` read `v` and leaves every other key's value unchanged |
| Helpers.SnakeKey | db/helpers.js:26 | the snake_case renaming leaves no upper-case letter in a key |
| Helpers.SnakeAppend | db/helpers.js:26 | the renaming works character by character, so it distributes over concatenation |
| Helpers.CamelInvertsSnake | db/helpers.js:8-26 | for keys without `_`, renaming to snake_case and back to camelCase gives the key again |
| Helpers.SnakeInvertsCamel | db/helpers.js:8-26 | for canonical snake_case columns, renaming to camelCase and back gives the column again |
| Helpers.CamelInjective | db/helpers.js:8 | on canonical columns, two different columns never get the same camelCase key |
| Helpers.FromRow | db/helpers.js:4-13 | a missing row gives null; otherwise every value is kept in order under its renamed key, and `_id` reads the row's `id` |
| Helpers.FromRowLookup | db/helpers.js:7-10 | reading the mapped object by a column's camelCase name gives that column's value |
| Helpers.FromRows | db/helpers.js:15 | a missing list gives `[]`; otherwise the result has the same length and maps each row in order |
| Helpers.ToRow | db/helpers.js:20-30 | a non-object gives `{}`; no undefined value and no upper-case key is written; every entry comes from a non-skipped key of the input |
| Helpers.ToRowNeverWritesId | db/helpers.js:23-25 | no column named `id` is ever written |
| Helpers.ToRowWritesCapitalId | db/helpers.js:23-26 | a key `Id` passes the skip test and is written as column `_id` |
| Helpers.ToRowLookup | db/helpers.js:24-27 | reading the written row by a key's snake_case name gives the object's value, or nothing when the key is skipped |
| Helpers.FromRowKeys | db/helpers.js:7-11 | the mapped object binds each key once, and only `_id` contains `_` |
| Helpers.RowRoundTrip | db/helpers.js:4-30 | a row read by `fromRow` and written back by `toRow` keeps every column except `id` |
| Helpers.Arrears | db/helpers.js:35-44 | arrears are never negative; they are the inclusive months since joining minus the months covered, floored at 0 |
| Helpers.ArrearsNeverIncreases | db/helpers.js:43 | covering more months never raises arrears |
| Helpers.ArrearsWithoutJoinDate | db/helpers.js:36-43 | a missing join date counts as this month, so one month is owed less the months covered |
| Helpers.NumberOrZero | db/helpers.js:43 | `monthsCovered \|\| 0` is a value reader, not a row count: a numeric field reads as its number (a falsy 0 falls back to the same 0) and any other value, `null` included, reads as 0 |
| Helpers.CalculateArrears | db/helpers.js:35-44 | on an application object the arrears are never negative, and a member with neither field owes exactly one month |
| Schemas.ParseMemberRole | models/schemas.js:54-58 | a missing role defaults to `member`; only `member` and `admin` are accepted, and `admin` is read as the admin role |
| Schemas.MemberArrears | models/schemas.js:93-104 | the schema's arrears are never negative: the inclusive months since the join month less the months covered, floored at 0 |
| Schemas.MemberArrearsAgreesWithHelper | models/schemas.js:93-104 | the schema method and the database helper give the same arrears when the join date and months covered are both present |
| Schemas.NewMemberOwesOneMonth | models/schemas.js:100-101 | a member who joined in the current month and covered nothing owes exactly one month |
| Schemas.MemberFailures | models/schemas.js:27-83 | a member has no failed validator exactly when its name is non-empty, its e-mail absent, empty or address-shaped, and dues, total paid, months covered and arrears all at least 0 |
| Schemas.MemberFailurePaths | models/schemas.js:27-83 | every broken path of a member is listed, once each and nothing else, and an empty name comes first, as the paths are declared |
| Schemas.PathErrorsSnoc | models/schemas.js:27-83 | the failed paths' lines are joined with `, ` in order: adding a failure appends `, ` and its line |
| Schemas.ValidateMember | models/schemas.js:27-83 | a save passes exactly when every member validator holds and then stores the member unchanged; otherwise the error is `Member validation failed: ` followed by every failed path's line in schema order |
| Schemas.MemberNameMessages | models/schemas.js:28-31 | an empty name on an otherwise valid member gives "Member validation failed: name: Path `name` is required."; with negative dues as well, the `duesPerMonth` line with the dues as JavaScript prints them follows after `, ` |
| Schemas.NameAndDuesFailures | models/schemas.js:28-68 | an empty name and negative dues give the name line, then `, ` and the dues `min` line |
| Schemas.NewMember | models/schemas.js:27-87 | a new member gets the defaults (role `member`, no subgroup, zero totals and arrears, no last payment, an empty history) and its name, member id and contact trimmed and its e-mail trimmed and lower-cased, as the setters assign them |
| Schemas.NewMemberTrimmed | models/schemas.js:27-53 | a new member's text paths are as the setters leave them, and its name is empty exactly when the given name is blank |
| Schemas.SetMember | models/schemas.js:27-53 | the setters trim name, member id and contact and trim and lower-case the e-mail, and leave every other path as given |
| Schemas.SetMemberTrims | models/schemas.js:27-53 | the setters leave every text path trimmed, and a member is left unchanged by them exactly when its text paths are already trimmed |
| Schemas.SetMemberIdempotent | models/schemas.js:27-53 | assigning what the setters left a second time changes nothing |
| Schemas.TrimId | models/schemas.js:33-38 | the `trim` setter on the member number trims a text value and leaves an unset path unset and an explicit `null` as `null` |
| Schemas.TrimIdIdempotent | models/schemas.js:33-38 | trimming a member number a second time changes nothing |
| Schemas.ParseReminderStatus | models/schemas.js:247-251 | a reminder status is required and must be `sent` or `failed` |
| Schemas.ParseTriggeredBy | models/schemas.js:255-259 | a missing trigger defaults to `system`; only `system` and `manual` are accepted |
| Schemas.ReceiptMissing | models/schemas.js:169-218 | no required path is missing exactly when the receipt id, member, member name and recorder are set and it is a dues receipt; a contribution receipt always misses `paymentId` |
| Schemas.AllRequired | models/schemas.js:169-218 | one `required` failure for each unset path, in the same order |
| Schemas.ValidateReceipt | models/schemas.js:169-218 | a receipt passes exactly when no required path is missing and is then saved as it is; otherwise the error is `Receipt validation failed: ` followed by a `Path ... is required.` line for each missing path in schema order |
| Schemas.ContributionReceiptRefused | models/schemas.js:169-218 | a receipt for anything but a dues payment never passes validation |
| Schemas.ExpenditureFailures | models/schemas.js:127-166 | an expenditure has no failed validator exactly when its title is non-empty and its amount at least 0 |
| Schemas.TitleRequiredText | models/schemas.js:133-137 | an empty title with a valid amount gives "Expenditure validation failed: title: Path `title` is required." |
| Schemas.AmountBelowMinText | models/schemas.js:142-146 | a negative amount gives the `amount` `min` line with the amount as JavaScript prints it, after the title line when the title is empty too |
| TenantStore.FloorDiv | controllers/paymentController.js:31 | `Math.floor(a / d)` rounds down for either sign of the divisor: the quotient times `d` is within one divisor of `a` on the correct side |
| TenantStore.AdminLog | controllers/memberController.js:69-77 | only an admin caller leaves an activity entry, under a fresh id, with the caller's name, the admin role, the action and the affected member; any other caller leaves the store unchanged |
| TenantModel.DefaultConfig | models/Tenant.js:40-57 | the configuration defaults: the two branding colours `#3B82F6` and `#1E40AF`, and every setting and feature switched on |
| TenantModel.NewTenant | models/Tenant.js:13-85 | a fresh tenant document keeps the given slug, database name and status, and has no deletion, rejection or approval data |
| TenantModel.SlugIsDatabaseName | models/Tenant.js:25-33 | every slug that matches `^[a-z0-9-]+$` also matches the database-name pattern `^[a-z0-9_-]+$` |
| TenantModel.SlugIsLowerCase | models/Tenant.js:24-25 | a slug that passes its pattern is already lower case, so the `lowercase` setter leaves it alone |
| TenantModel.LifecycleStatusesOutsideSchemaEnum | models/Tenant.js:35-39 | the schema enum admits its default `active` but not `pending` or `rejected`, the statuses registration and rejection write |
| TenantModel.SoftDelete | models/Tenant.js:88-92 | soft deletion archives the tenant and sets `deletedAt` to now, leaving name, slug and database name alone |
| TenantModel.Restore | models/Tenant.js:94-98 | restoring makes the tenant active with `deletedAt` null, whatever its prior status |
| TenantModel.SoftDeleteRestoreCoupled | models/Tenant.js:88-98 | both methods keep "`deletedAt` set exactly when archived", and restoring a soft-deleted tenant is the same as restoring the original |
| TenantModel.MergeContact | controllers/tenantController.js:193-195 | `{ ...current, ...patch }`: each contact field the patch supplies wins, and every other field keeps its current value |
| TenantModel.ValidateTenant | models/Tenant.js:14-34 | a save validates exactly when the name is present and the slug and database name match their patterns |
| TenantModel.InsertTenant | models/Tenant.js:13-34 | saving a new tenant succeeds exactly when it validates and its slug and database name are unused; it is then stored under a fresh id and nothing else changes |
| TenantModel.SaveTenant | models/Tenant.js:13-34 | re-saving a tenant succeeds exactly when it validates and no other tenant holds its slug or database name; only that tenant changes |
| TenantModel.FindFirst | controllers/tenantController.js:172-176 | `findOne` returns the first matching tenant in insertion order, and null exactly when no tenant matches |
| TenantModel.NotDeletedIds | controllers/tenantController.js:15 | the listing filter `{ deletedAt: null }` keeps exactly the tenants that are not soft-deleted |
| TenantAdmin.SettableStatus | controllers/tenantController.js:57-60 | exactly the strings `active`, `inactive` and `archived` name a settable status, each one the schema enum allows |
| TenantAdmin.SettableStatusNamesRoundTrip | controllers/tenantController.js:58 | a status is settable exactly when its own name parses back to it |
| TenantAdmin.TenantsDesc | controllers/tenantController.js:15-17 | the listing holds exactly the matching tenants, newest first with no repeats |
| TenantAdmin.Persist | controllers/tenantController.js:75-87 | a save the validators or unique indexes refuse is a 500 that changes nothing; an accepted save replaces only that tenant |
| TenantAdmin.PendingTenants | controllers/tenantApprovalController.js:7-25 | a non-system caller gets 403; otherwise exactly the pending tenants that are not soft-deleted are listed, newest first |
| TenantAdmin.ApproveTenant | controllers/tenantApprovalController.js:89-114 | a non-system caller gets 403 "Only system users can approve tenants" and an unknown id 404; only a pending tenant becomes active, stamped with the time and the approver; every refusal leaves the registry unchanged |
| TenantAdmin.RejectTenant | controllers/tenantApprovalController.js:168-201 | a non-system caller gets 403 "Only system users can reject tenants"; a missing or blank reason gets 400 before any lookup; only a pending tenant becomes rejected, with the trimmed reason and the acting user; every refusal changes nothing |
| TenantAdmin.DecisionsAreFinal | controllers/tenantApprovalController.js:104-108 | once a tenant is no longer pending, neither approval nor rejection changes it again |
| TenantAdmin.StoredReasonNotBlank | controllers/tenantApprovalController.js:176-199 | a stored rejection reason is never blank and is already trimmed |
| TenantAdmin.AllTenants | controllers/tenantController.js:8-23 | a non-system caller gets 403; otherwise every tenant that is not soft-deleted is listed, and only those, newest first |
| TenantAdmin.WithStatus | controllers/tenantController.js:69-74 | setting a status also sets `deletedAt`: now when archived, null otherwise; nothing else changes |
| TenantAdmin.UpdateTenantStatus | controllers/tenantController.js:51-88 | a non-system caller gets 403 "Only system users can update tenant status", an unlisted status 400 and an unknown id 404; otherwise the tenant takes the status and the coupled `deletedAt`, and only that tenant changes |
| TenantAdmin.DeleteTenant | controllers/tenantController.js:93-119 | a non-system caller gets 403 "Only system users can delete tenants" and an unknown id 404; otherwise the tenant is soft-deleted: archived with `deletedAt` set |
| TenantAdmin.RestoreTenant | controllers/tenantController.js:124-150 | a non-system caller gets 403 "Only system users can restore tenants" and an unknown id 404; otherwise the tenant is active with `deletedAt` null, whatever it was before |
| TenantAdmin.DeleteThenRestore | controllers/tenantController.js:106-137 | deleting and then restoring a tenant gives what restoring the original tenant gives |
| TenantAdmin.Edited | controllers/tenantController.js:171-195 | a changed slug is stored lower-cased; a non-empty name replaces the old one; only a settable status is applied, and then with the coupled `deletedAt`; a given contact is merged; nothing else changes |
| TenantAdmin.UpdateTenant | controllers/tenantController.js:156-213 | a non-system caller gets 403 "Only system users can update tenants" and an unknown id 404; a changed slug that a live tenant already uses gets 400; a saved tenant's new slug is free among live tenants |
| TenantAdmin.StatusPathsKeepCoupling | controllers/tenantController.js:69-192 | starting from a tenant whose `deletedAt` is set exactly when it is archived, every successful status update, edit, deletion and restore keeps that coupling |
| TenantSetup.OrElse | controllers/tenantSetupController.js:106-109 | `x \|\| d` on an optional text: the value when it is present and non-empty, otherwise the default |
| TenantSetup.BrandingOf | controllers/tenantSetupController.js:105-110 | the branding name falls back to the tenant name, and with no branding given the defaults are the name, an empty logo and the two stock colours |
| TenantSetup.PendingTenant | controllers/tenantSetupController.js:99-128 | the saved tenant is pending and live, keeps the requested slug and database name, has every setting and feature on, and records who created it |
| TenantSetup.AdminUser | controllers/tenantSetupController.js:154-162 | the admin account has role `admin`, belongs to the new tenant, keeps the username, and stores the e-mail lower-cased or none |
| TenantSetup.Admission | controllers/tenantSetupController.js:25-96 | a registration is admitted exactly when the five required fields are present, both names fit their patterns, no live tenant has the slug or database name, no user has the username or the lower-cased e-mail, and the database holds no data |
| TenantSetup.Provision | controllers/tenantSetupController.js:98-183 | success needs the tenant insert, the schema initialisation and the admin save all to succeed, and adds exactly the pending tenant and its admin under fresh ids; a failure never changes the users; with a successful clean-up delete it leaves the tenants as they were, and the registry changes only when that delete fails, by exactly the pending tenant |
| TenantSetup.RegisterTenant | controllers/tenantSetupController.js:10-290 | a failed admission is a 400 with its message that changes nothing; any refusal leaves the users unchanged, and the tenants too when the clean-up delete succeeds; a success adds exactly one pending tenant and one admin bound to it |
| TenantSetup.RegistrationRefusals | controllers/tenantSetupController.js:25-82 | a missing field, a malformed slug or database name, a live tenant with the slug or database name, or a taken username or e-mail each give a 400 and leave the registry unchanged |
| TenantSetup.FailedRegistrationLeavesNoTenant | controllers/tenantSetupController.js:133-183 | whatever step fails, if the clean-up delete succeeds the tenants afterwards are the tenants before, so no half-registered tenant remains |
| TenantSetup.FailedRollbackBlocksSlug | controllers/tenantSetupController.js:133-183 | when a step after the tenant's save fails and the clean-up delete fails too, the registration is refused, the users are unchanged, exactly the pending tenant is left under a fresh id, and the same form sent again is refused with the 400 for a taken slug |
| TenantSetup.RegisteredTenantIsPending | controllers/tenantSetupController.js:99-164 | after a success the new tenant is pending and live, its deletion fields agree, and the new admin has role `admin` and that tenant |
| TenantSetup.SlugCannotBeRegisteredTwice | controllers/tenantSetupController.js:49-61 | once a registration succeeds, a second one with the same slug is refused with a 400 |
| TenantSetup.GetSetupStatus | controllers/tenantSetupController.js:295-330 | a 404 exactly when no live tenant has the slug; otherwise it reports that tenant's status, and setup is complete iff the database is initialised and the tenant is active |
| TenantSetup.PendingSetupIncomplete | controllers/tenantSetupController.js:103-324 | a freshly registered tenant is found by its slug but never reported complete, because it is still pending |
| TenantContext.DemoSlug | middleware/tenantMiddleware.js:44 | the demo tenant's slug is `DEFAULT_TENANT_NAME` when it is set and non-empty, otherwise `demo` |
| TenantContext.DemoDatabase | middleware/tenantMiddleware.js:53 | the demo tenant's database is `DEFAULT_TENANT_DB` when it is set and non-empty, otherwise `demo-tenant` |
| TenantContext.DemoTenant | middleware/tenantMiddleware.js:54-66 | the demo tenant created on demand is active and live, has the demo slug and database, and the stock branding colours |
| TenantContext.FindOrCreateDemo | middleware/tenantMiddleware.js:44-79 | an existing live demo tenant is reused and nothing changes; otherwise the demo tenant is added under a fresh id; existing tenants and users are never altered, and a failed save changes nothing |
| TenantContext.ResolveTenantId | middleware/tenantMiddleware.js:11-94 | corrected (Findings row 5): the token's tenant wins; otherwise a user id that is not stored is a 404 case; otherwise the stored user's tenant, or the live demo tenant; the only user ever changed is the caller, and only from no tenant to the demo tenant; when the user's save fails the request has no tenant id, no user changes, and the only registry change is the demo tenant's creation |
| TenantContext.ResolveTenantIdAsWritten | middleware/tenantMiddleware.js:24-94 | as written, with `getUserModel` missing from models/User.js: nothing changes and a tenant id is resolved exactly when the token carries one |
| TenantContext.RejectionMessage | middleware/tenantMiddleware.js:126 | the rejection reason when it is non-empty, otherwise `No reason provided` |
| TenantContext.Gate | middleware/tenantMiddleware.js:122-146 | a tenant passes exactly when it is active or pending and not soft-deleted; a rejected one is refused with its reason, another inactive status as not active, and only then a deleted one as deleted |
| TenantContext.Connect | middleware/tenantMiddleware.js:148-206 | a connection is obtained by the first attempt, or else only after a successful schema initialisation and a retry; the connection pool changes only under the tenant's database name, and a returned connection is the pooled ready one |
| TenantContext.Bind | middleware/tenantMiddleware.js:96-223 | no tenant id is the 400, a missing user the 404 and only it, an unknown tenant id the 404, and it never bypasses; a bound request carries the resolved tenant, which is in the registry, active or pending and not deleted, flagged pending iff it is pending, with its database's ready pooled connection |
| TenantContext.SetTenantContext | middleware/tenantMiddleware.js:8-223 | corrected (Findings row 5): a system user bypasses everything, and only a system user does; a bypass or a missing user changes nothing; a bound request carries a tenant that is in the registry, active or pending and not deleted, flagged pending iff it is pending, with its database's ready pooled connection; the token's tenant id is the one bound; no existing tenant is altered |
| TenantContext.SetTenantContextAsWritten | middleware/tenantMiddleware.js:8-223 | as written: the registry never changes and the 404 for a missing user is never sent |
| TenantContext.TenantlessTokenRefusedAsWritten | middleware/tenantMiddleware.js:25-112 | as written, every non-system caller whose token has no tenant id gets the 400 with nothing changed, whatever the user store holds |
| TenantContext.StoredTenantIgnoredAsWritten | middleware/tenantMiddleware.js:25-112 | a user whose stored record names an active, live tenant is bound by the intended resolver and refused with the 400 by the code as written |
| TenantContext.DemoTenantOutlivesFailedAssignment | middleware/tenantMiddleware.js:51-112 | when the demo tenant is created and the user's save then fails, the request gets the 400, the users and the pool are unchanged, and the new demo tenant stays in the registry |
| TenantContext.DeletionCheckedAfterStatus | middleware/tenantMiddleware.js:136-146 | an archived tenant that is also soft-deleted is refused as not active, because status is checked before deletion |
| TenantContext.RejectedTenantRefused | middleware/tenantMiddleware.js:122-128 | a rejected tenant's members get a 403 with no change to the registry or pool, carrying the fixed text when there is no reason |
| TenantContext.AutoAssignmentSticks | middleware/tenantMiddleware.js:36-88 | corrected (Findings row 5): a user without a tenant is bound to the live demo tenant and the binding is stored, so the next request resolves to the same tenant without changing anything |
| TenantContext.DemoTenantNotDuplicated | middleware/tenantMiddleware.js:45-51 | while a live demo tenant exists, auto-assignment creates no further tenant |
| TenantContext.RequireTenant | middleware/tenantMiddleware.js:228-233 | passes exactly when both the tenant and its connection are set; otherwise a 400 |
| TenantContext.RequireSystemUser | middleware/tenantMiddleware.js:238-243 | passes exactly for the `system` role; otherwise a 403 |
| TenantContext.AllowSuperAdmin | middleware/tenantMiddleware.js:248-257 | `system` and `super` always pass; any other caller is judged as by `requireTenant` |
| TenantContext.BoundPassesRequireTenant | middleware/tenantMiddleware.js:172-177 | a request passes `requireTenant` after the resolver exactly when the resolver bound a tenant |
| MasterDb.SnakeUpdatedAt | db/helpers.js:26 | the stamp key `updatedAt` is written to the column `updated_at` |
| MasterDb.SnakePasswordHash | db/helpers.js:26 | the key `passwordHash` is written to the column `password_hash` |
| MasterDb.SnakeDatabaseName | db/helpers.js:26 | the key `databaseName` would be written to the column `database_name` |
| MasterDb.SnakeDistinct | db/helpers.js:26 | a camelCase key different from a plain lower-case-initial key never renames to the same column |
| MasterDb.FindTenant | db/masterDb.js:22-33 | the result is exactly the tenant rows that pass every query entry, in increasing id order, each mapped by `fromRow` |
| MasterDb.QueryEntryMeaning | db/masterDb.js:24-29 | an undefined query value adds no test; a null value tests the snake_case column for null; any other value tests it for equality |
| MasterDb.FindTenants | db/masterDb.js:50-57 | newest first; a non-empty status filters on `status`, and `deletedAt: null` keeps only rows whose `deleted_at` is null; every qualifying row is listed |
| MasterDb.TenantRow | db/masterDb.js:35-37 | every written entry has a defined value and comes from a field other than `databaseName` |
| MasterDb.TenantRowOmitsDatabaseName | db/masterDb.js:36-37 | for camelCase fields the tenant row has no `database_name` column |
| MasterDb.CreateTenant | db/masterDb.js:35-41 | the row is stored under a fresh id, the id counter advances by one, and the returned object's `_id` is that id |
| MasterDb.CreateTenantOmitsDatabaseName | db/masterDb.js:35-41 | the stored tenant never has a `database_name` column |
| MasterDb.UpdateTenant | db/masterDb.js:43-48 | fails exactly when no row has the id; otherwise only that row changes, `updated_at` becomes now, `id` is kept, columns no field names keep their values, and the returned object maps the stored row |
| MasterDb.TenantPatchFacts | db/masterDb.js:44 | the patch always carries `updated_at`, never `id`, and no column that no field names |
| MasterDb.UserRow | db/masterDb.js:80-81 | an empty-string `tenant_id` is stored as null, so the stored value is never `''`; every other column is as `toRow` writes it |
| MasterDb.CreateUser | db/masterDb.js:79-85 | the user row is stored under a fresh id and its `tenant_id` is never the empty string |
| MasterDb.UpdateUser | db/masterDb.js:87-92 | fails exactly when no row has the id; otherwise the row is patched with the fields except `id` and `passwordHash`, and keeps its `id` |
| MasterDb.UpdateUserKeepsPassword | db/masterDb.js:88 | for camelCase fields, `updateUser` never changes the stored password hash |
| MasterDb.ExcludedColumnAbsent | db/helpers.js:23-27 | an excluded field leaves no column of its snake_case name in the written row |
| MasterDb.UpdateUserPassword | db/masterDb.js:94-98 | fails exactly when no row has the id; otherwise only that row's `password_hash` changes, to the given hash |
| MasterDb.GetUserByEmail | db/masterDb.js:72-77 | a missing or empty e-mail finds nothing; otherwise a user is found exactly when some row's e-mail equals the lower-cased e-mail, and the result maps that row |
| MasterDb.EmailLookupIgnoresCase | db/masterDb.js:74 | looking up an e-mail and its lower-cased form give the same user |
| MasterDb.FindUsers | db/masterDb.js:100-106 | no filter lists all users, a null tenant lists those whose `tenant_id` is null, and a tenant lists that tenant's users; every qualifying user is listed |
| MasterDb.TenantFindById | db/masterDb.js:119-122 | a tenant is found exactly when some row's `id` is the given id, and it is the first such row |
| MasterDb.TenantFindOne | db/masterDb.js:123-127 | null exactly when `findTenant` finds nothing; otherwise its first result, which maps a row that matches the query |
| TenantDb.View | db/tenantDb.js:207 | a tenant's view holds exactly the stored rows whose `tenant_id` is that tenant, unchanged |
| TenantDb.SelectDesc | db/tenantDb.js:207-209 | the selected ids are exactly the stored ids whose rows pass the filter, strictly decreasing, so newest first |
| TenantDb.SelectAsc | db/tenantDb.js:220-224 | the selected ids are exactly the stored ids whose rows pass the filter, strictly increasing, so in natural order |
| TenantDb.SelectSeesOnlyView | db/tenantDb.js:207-224 | a filter that admits only one tenant's rows selects the same ids from any two tables where that tenant's view is the same |
| TenantDb.Find | db/tenantDb.js:206-213 | the tenant's rows that match every defined query entry, newest first, each mapped by `fromRow`; every such row is listed |
| TenantDb.FindById | db/tenantDb.js:214-218 | a row is found exactly when it has the id and belongs to the tenant |
| TenantDb.FindOne | db/tenantDb.js:219-225 | null exactly when none of the tenant's rows match; otherwise a matching row of the tenant |
| TenantDb.ReadsSeeOnlyOwnTenant | db/tenantDb.js:206-225 | `find`, `findById` and `findOne` under one tenant give the same answer on any two tables where that tenant's view is the same |
| TenantDb.Drop | db/tenantDb.js:114 | removing a key unbinds it and keeps every other key's value |
| TenantDb.CreateRowAsWritten | db/tenantDb.js:227 | when the caller's object has no raw `tenant_id` key, the row the source builds belongs to the tenant and holds no undefined value |
| TenantDb.CreateStampCanBeOverridden | db/tenantDb.js:227 | an object listing `tenantId` before a raw `tenant_id` is inserted under the raw tenant, not the caller's tenant |
| TenantDb.CreateRow | db/tenantDb.js:227 | the intended stamp: the row always belongs to the tenant, and every other column is as `toRow` writes it |
| TenantDb.UpdatePatchCanMoveRow | db/tenantDb.js:233 | a raw `tenant_id` key passes the exclusion of `tenantId` and lands in the update patch |
| TenantDb.UpdatePatch | db/tenantDb.js:233 | the intended patch never writes the tenant column or `id`, and holds no undefined value |
| TenantDb.ApplyPatch | db/tenantDb.js:234 | after an update every patched column reads its new value and every other column keeps its old one |
| TenantDb.Create | db/tenantDb.js:226-231 | corrected (Findings row 1): the stamped row is inserted under a fresh id, belongs to the tenant, and the returned `_id` is that id |
| TenantDb.Update | db/tenantDb.js:232-237 | corrected (Findings row 1): fails exactly when the id is not one of the tenant's rows; otherwise only that row is patched, and it keeps its tenant and its `id` |
| TenantDb.Delete | db/tenantDb.js:241-244 | removes the row exactly when it belongs to the tenant, and otherwise changes nothing |
| TenantDb.OneRowWriteKeepsView | db/tenantDb.js:226-244 | a write that touches only one row, which belongs to one tenant before and after, leaves every other tenant's view unchanged |
| TenantDb.CreateLeavesOtherTenants | db/tenantDb.js:226-231 | corrected (Findings row 1): creating a row under one tenant leaves every other tenant's rows exactly as they were |
| TenantDb.UpdateLeavesOtherTenants | db/tenantDb.js:232-237 | corrected (Findings row 1): a successful update under one tenant leaves every other tenant's rows exactly as they were |
| TenantDb.DeleteLeavesOtherTenants | db/tenantDb.js:241-244 | deleting under one tenant leaves every other tenant's rows exactly as they were |
| TenantDb.ToRowColumn | db/helpers.js:24-27 | reading a written column gives the value of the one key that renames to it |
| MemberFacade.PaymentHistory | db/tenantDb.js:156-165 | the history is sorted by date, newest first, and is a permutation of the tenant's payment rows of that member |
| MemberFacade.HistoryEntriesBelong | db/tenantDb.js:157-162 | every history entry maps a payment row of that tenant whose `member_id` is the member |
| MemberFacade.PaymentRow | db/tenantDb.js:280-292 | the inserted payment row belongs to the tenant and the member, and holds the given date, amount, months covered and the assigned id |
| MemberFacade.AddPayment | db/tenantDb.js:280-292 | exactly one payment row is inserted under a fresh id, dated now when no date is given, and the result maps that row |
| MemberFacade.AddedPaymentInHistory | db/tenantDb.js:156-165 | a payment just added shows up in that member's history |
| MemberFacade.MemberFields | db/tenantDb.js:75-78 | the returned member is the mapped row with `arrears` recomputed; every other field is as stored |
| MemberFacade.ArrearsFromStoredColumns | db/tenantDb.js:78 | the returned arrears come from the stored `join_date` and `months_covered`, never from a stored `arrears` column |
| MemberFacade.StripAnchors | db/tenantDb.js:50 | removing a leading `^` and a trailing `$` never lengthens the pattern |
| MemberFacade.MemberFind | db/tenantDb.js:40-70 | the tenant's members matching role, subgroup and search, newest first, each with its history and recomputed arrears; every matching member is listed |
| MemberFacade.MemberFindById | db/tenantDb.js:71-88 | found exactly when the id is one of the tenant's members; the history is read by the requested id |
| MemberFacade.MemberColumnIsSnake | db/tenantDb.js:91 | the column naming of member `findOne` agrees with `toSnake` |
| MemberFacade.MemberFindOne | db/tenantDb.js:89-101 | null exactly when none of the tenant's members match every defined entry; otherwise a matching member with history and arrears |
| MemberFacade.MemberCreate | db/tenantDb.js:102-112 | corrected (Findings row 1): the generic insert, returned with an empty history and arrears recomputed from the stored row |
| MemberFacade.MemberUpdate | db/tenantDb.js:113-123 | corrected (Findings row 1): fails exactly when the id is not one of the tenant's members; otherwise the generic update that also excludes `paymentHistory`, re-read with history and arrears |
| MemberFacade.AggregateItems | db/tenantDb.js:137-142 | one (subgroup, amount paid) pair per member of the tenant that has a subgroup, in natural order |
| MemberFacade.Aggregate | db/tenantDb.js:131-148 | a pipeline without a `$group` keyed by `'$subgroupId'` gives `[]`; otherwise one entry per subgroup whose count and total are its members' count and summed `total_paid` |
| MemberFacade.AggregateKeys | db/tenantDb.js:137-147 | a subgroup gets an entry exactly when one of the tenant's members belongs to it |
| MemberFacade.AggregateSeesOnlyOwnTenant | db/tenantDb.js:137 | the aggregate of one tenant is the same on any two tables where that tenant's members are the same |
| MemberFacade.GetTenantModels | db/tenantDb.js:297-310 | an error exactly when the request has no tenant id; otherwise all eight models, each bound to the request's tenant |
| Dispatch.GetTenantModel | utils/modelFactory.js:13-25 | no connection is an error; a registered name returns its model and changes nothing; an unregistered name with a schema registers exactly that model and leaves every other registration alone |
| Dispatch.RegistrationIdempotent | utils/modelFactory.js:19-21 | asking again for a registered name returns the same model and changes nothing, whatever schema is passed |
| Dispatch.GetModelFromRequest | utils/modelFactory.js:31-36 | a request without a connection is an error; otherwise the factory on the request's connection |
| Dispatch.RegisterAll | utils/tenantModels.js:38-47 | obtaining models in order succeeds exactly when each can be obtained, keeps every earlier registration, and registers each new name with its own schema |
| Dispatch.RowModels | utils/tenantModels.js:27-31 | the row backend fails exactly without a tenant id; otherwise all eight table models are bound to that tenant |
| Dispatch.DocumentModels | utils/tenantModels.js:38-47 | the document backend succeeds exactly when all eight models can be obtained, keeps earlier registrations, and hands out the registered model for each name |
| Dispatch.GetTenantModels | utils/tenantModels.js:26-48 | the row backend fails exactly without a tenant id and binds all eight models to it; the document backend fails without a connection and otherwise gives all eight document models |
| Dispatch.DocumentModelsMemoised | utils/modelFactory.js:19-21 | once the models are registered, asking again changes nothing and gives the same models |
| Dispatch.RegisterAllOnRegistered | utils/modelFactory.js:19-21 | obtaining models that are all registered leaves the connection as it is |
| Dispatch.ModelNamed | utils/tenantModels.js:39-46 | a name is an own property of the models object exactly when it is one of the eight published names |
| Dispatch.GetTenantModelByName | utils/tenantModels.js:56-62 | the error of `getTenantModels` is passed on; otherwise the lookup succeeds exactly for the eight published names and the properties inherited from `Object.prototype`: a model for a published name, the inherited property for an inherited name, and the unknown-model error for any other name |
| Dispatch.ConstructorPassesGuard | utils/tenantModels.js:58-61 | asking for `constructor` passes the `!models[name]` guard and yields the inherited property, while a misspelt model name is the error |
| Connections.QuerySplit | config/db.js:24-25 | a connection string is its part before the first `?` followed by its query, and the query starts with `?` when present |
| Connections.RetargetKeepsQuery | config/db.js:24-30 | a retargeted string is the server part, `/` and the new name, followed by the original query |
| Connections.RetargetNamesDatabase | config/db.js:26-30 | a retargeted string names the new database as its last path segment and keeps the original query |
| Connections.RetargetLastWins | config/db.js:26-30 | retargeting twice is retargeting once at the second database, for strings with a scheme and a host |
| Connections.GetMasterUri | config/db.js:13-31 | `MASTER_DB_URI` wins; without `MONGODB_URI` there is none; without `MASTER_DB_NAME` it is `MONGODB_URI`; otherwise the base string retargeted at the master name, keeping its query |
| Connections.BaseUri | utils/connectionManager.js:36-39 | tenant connections derive from `MONGODB_URI`, else `MASTER_DB_URI`, and there is a base string exactly when one of them is set |
| Connections.HostDroppedAsWritten | utils/connectionManager.js:42-44 | as written, a base string `scheme://host` with no database path becomes `scheme://db`, losing its host |
| Connections.HostKeptByRetarget | config/db.js:28-30 | the intended retargeting of `scheme://host` keeps the host: `scheme://host/db` |
| Connections.QueryDroppedAsWritten | utils/connectionManager.js:42-44 | as written, the query of the base string is lost from the tenant string |
| Connections.GetTenantConnection | utils/connectionManager.js:19-65 | corrected (Findings row 2): an empty name is an error; a ready cached connection is reused; otherwise the stale entry is dropped and a new connection to the base string retargeted with the server part and query kept is cached exactly when it opens; no other entry changes |
| Connections.ConnectionReused | utils/connectionManager.js:25-29 | a connection obtained once is reused on the next request, whatever that attempt would do |
| Connections.CloseTenantConnection | utils/connectionManager.js:71-78 | only that entry leaves the cache |
| Connections.CloseAllTenantConnections | utils/connectionManager.js:83-97 | the cache ends up empty, whatever it held |
| Connections.GetActiveConnections | utils/connectionManager.js:103-105 | exactly the cached database names |
| Connections.CleanupIdleConnections | utils/connectionManager.js:111-126 | exactly the entries that are not ready are closed; the ready ones stay as they are |
| Connections.CleanupLeavesReusable | utils/connectionManager.js:111-126 | after cleanup every cached connection is reused as it stands |
| Connections.ConnectMasterDb | config/db.js:33-56 | a ready held connection is reused; otherwise with no master string it fails, and with one a new connection is held and succeeds exactly when it opens |
| Connections.MasterConnectionReused | config/db.js:35-37 | a ready master connection is reused on every later call |
| MemberIds.ExtractTenantInitials | utils/memberIdGenerator.js:7-26 | never empty; a missing name, or one with no word, gives `ORG`; otherwise one upper-cased first letter per whitespace-separated word, in order |
| MemberIds.CounterText | utils/memberIdGenerator.js:41 | at least five characters, and for a non-negative counter only digits that read back as the counter |
| MemberIds.GenerateMemberId | utils/memberIdGenerator.js:33-44 | the initials, a dash and the padded `counter + 1`, a missing counter counting as 0; after the dash only digits, which read back as `counter + 1` |
| MemberIds.MemberNumber | utils/memberIdGenerator.js:41-43 | the initials and a dash come first, and the counter reads back from everything after the dash |
| MemberIds.DistinctCountersDistinctIds | utils/memberIdGenerator.js:33-44 | for one tenant name, different counters never give the same member number |
| MemberIds.DocumentedExamples | utils/memberIdGenerator.js:4-31 | `Acme Ventures` gives `AV`, and its first member number is `AV-00001` whether the counter is 0 or missing |
| MemberIds.FirstId | utils/memberIdGenerator.js:35-43 | a missing or zero counter gives the initials followed by `-00001` |
| MemberIds.BlankNameGivesDefault | utils/memberIdGenerator.js:13-17 | a name of only whitespace gives `ORG` |
| DatedIds.DateStamp | controllers/contributionController.js:9 | for a four-digit year the date stamp is exactly eight digits |
| DatedIds.Suffix | controllers/contributionController.js:10 | the random suffix is exactly three digits and reads back as the draw |
| DatedIds.DatedId | controllers/contributionController.js:7-12 | the prefix, the eight-digit date, a dash and the three-digit suffix, with the draw readable from the suffix |
| DatedIds.DatedIdInjective | controllers/contributionController.js:7-12 | ids of one prefix and day are equal exactly when the draws are equal |
| DatedIds.ReceiptIdExample | controllers/contributionController.js:7-12 | a draw of 7 on 15 January 2024 gives `RCT20240115-007` |
| DatedIds.FreshId | controllers/contributionController.js:86-91 | at most ten redraws; every candidate before the chosen one was taken, and a taken id is used only after the tenth redraw |
| DatedIds.FirstFree | controllers/expenditureController.js:22-27 | the chosen candidate is the first free one, or the eleventh when all before it were taken |
| DatedIds.Candidates | controllers/paymentController.js:9-15 | one id per draw, in draw order |
| Contributions.MonthsPaid | controllers/contributionController.js:50 | the months are the floor of the amount over the dues; dues of 0 fall back to one cedi, so each full 100 minor units covers a month |
| Contributions.MonthsPaidNonNegative | controllers/contributionController.js:50 | a non-negative payment against non-negative dues covers between 0 and `amount` months |
| Contributions.ApplyDues | controllers/contributionController.js:50-61 | one payment is appended carrying the months `MonthsPaid` gives (one per cedi for dues of 0); the amount and the months are added to the totals; the payment date and the recomputed arrears are stored; nothing else about the member changes |
| Contributions.PayingNeverRaisesArrears | controllers/contributionController.js:50-61 | paying dues never raises what the member owes |
| Contributions.Recipient | controllers/contributionController.js:127-139 | the member's e-mail when present, else the recorder's, else none; there is no recipient exactly when neither has an e-mail |
| Contributions.Delivery | controllers/contributionController.js:141-176 | the status is `missing` exactly when there is no recipient, and `sent` exactly when there is one and delivery succeeds |
| Contributions.ReceiptFor | controllers/contributionController.js:93-123 | a dues receipt exactly when a dues payment was saved, carrying the payment and the member's dues; otherwise a contribution receipt naming the type, which lacks the paths the receipt schema requires; a member's id only when there is a member |
| Contributions.Issue | controllers/contributionController.js:67-197 | the contribution is saved first; the reply is a 500 exactly when the receipt fails the receipt schema (always so without a dues payment) or its id is taken, and then the contribution stays without a receipt and no receipt or log is written; otherwise the contribution is linked to exactly one new receipt, with the e-mail outcome and, exactly for an admin caller, a log entry naming the type, the amount in cedis and the member; members, types, subgroups, expenditures and reminders are untouched |
| Contributions.Issued | controllers/contributionController.js:125-188 | the saved contribution is linked to the receipt id, the receipt is stored under a fresh key, and exactly an admin caller leaves one new log entry with the given action |
| Contributions.CreateContribution | controllers/contributionController.js:15-201 | 400 without a type or a truthy amount (the text "0" is truthy), 404 for an unknown type or member, in that order; a contribution without a member or of a type other than Dues is saved and answered with the receipt 500, members and receipts unchanged; a success is always a member paying the Dues type, and it goes exactly as `PayDues` |
| Contributions.PayDues | controllers/contributionController.js:44-65 | a success stores the member with the dues applied and a dues receipt for the new payment carrying the member's dues and the months `MonthsPaid` gives; an admin's log entry names the type, the amount in cedis and the member; a refusal is a 500 |
| Contributions.TypeLabel | controllers/contributionController.js:276 | the type's name when it is known and non-empty, else `Unknown` |
| Contributions.FundingLabel | controllers/contributionController.js:294 | `Unspecified` when no funding type is recorded, else the type label |
| Contributions.LabelTypes | controllers/contributionController.js:274-279 | one labelled line per group, in order, with the group's total and count |
| Contributions.LabelSources | controllers/contributionController.js:292-297 | one labelled line per funding group, in order, with the group's total and count |
| Contributions.FinancialBreakdown | controllers/contributionController.js:254-319 | each line carries its type's label and a positive count, and no type or funding source appears on two lines |
| Contributions.BreakdownAddsUp | controllers/contributionController.js:268-279 | the per-type totals add up to the total contributed within the date window |
| Payments.MonthsAsWritten | controllers/paymentController.js:31 | as written, non-zero dues give the floor of amount over dues, and dues of 0 give no finite number of months |
| Payments.ZeroDuesPaymentAsWritten | controllers/paymentController.js:31 | GHS 5.00 (500 minor units) paid by a member whose dues are 0 covers infinitely many months as written, but 5 months, one per cedi, under the guarded rule |
| Payments.GuardedMonthsAgree | controllers/contributionController.js:50 | the guarded rule agrees with the written division whenever dues are non-zero; dues of 0 give what the written division gives for dues of one cedi (100 minor units); for non-negative inputs the months lie between 0 and the amount |
| Payments.MemberEmail | controllers/paymentController.js:76-78 | the receipt goes to the member's e-mail exactly when it is present and non-empty, and never to anyone else |
| Payments.PaymentReceipt | controllers/paymentController.js:55-73 | the dues receipt of the newest payment: its id, amount and months, the member's id and dues, the remarks; it passes the receipt schema exactly when the receipt id, the member's name and the recorder are non-empty |
| Payments.Acknowledge | controllers/paymentController.js:51-129 | a 500 exactly when the receipt fails the receipt schema or its id is taken, writing nothing; otherwise exactly one new receipt, equal to `PaymentReceipt` of the new payment, the e-mail status `missing` exactly without a recipient, and a log entry exactly for an admin whose action is `PaymentAction` of the payment's amount, the member's name and the months |
| Payments.Acknowledged | controllers/paymentController.js:75-112 | the receipt stored under a fresh key and nothing else changed but the logs, where exactly an admin caller adds one entry with the payment action |
| Payments.RecordPayment | controllers/paymentController.js:16-133 | corrected (Findings row 3): 400 without a member or a truthy amount (the text "0" is truthy), 404 for an unknown member; a success stores the member with the payment applied, the payment's months are the guarded quotient (one per cedi for dues of 0), and one dues receipt records it |
| Payments.MemberScope | controllers/paymentController.js:139-144 | the members listed are all members, or only the requested one, each exactly once |
| Payments.GetAllPayments | controllers/paymentController.js:135-173 | the listing is sorted by date, newest first, and is a permutation of the qualifying payments of the members in scope; payments of the same date keep the order they were collected in (members in natural order, each history in order), as the stable `Array.prototype.sort` leaves them |
| Payments.SortKeepsRows | controllers/paymentController.js:167 | sorting neither adds nor drops rows |
| Payments.ListedIffQualifies | controllers/paymentController.js:147-164 | a row is listed exactly when it is a payment of a member in scope that lies within the date bounds and has the requested recorder |
| Payments.FindPayment | controllers/paymentController.js:184 | a payment is found exactly when the member's history has one with that id, and it is that one |
| Payments.GetPaymentById | controllers/paymentController.js:175-201 | 404 for an unknown member, 404 exactly when the member has no payment with that id, otherwise that payment's row |
| Members.Fresh | controllers/memberController.js:41 | a read returns the stored member with only its arrears replaced, by the never-negative recomputed arrears |
| Members.SearchIgnoresCase | controllers/memberController.js:12-14 | the `i` option: a search and its lower-cased form match the same members |
| Members.Pick | controllers/memberController.js:19 | the kept ids are exactly the accepted ones, still newest first |
| Members.GetAllMembers | controllers/memberController.js:4-32 | every listed member is stored, matches the search and carries recomputed arrears; every matching member is listed; newest first |
| Members.Rows | controllers/memberController.js:22-26 | one row per id, in order, with arrears recomputed |
| Members.GetMemberById | controllers/memberController.js:34-46 | 404 exactly for an unknown id; otherwise the member with recomputed arrears |
| Members.CreateMember | controllers/memberController.js:48-87 | 400 without a name or truthy dues (the number 0 is falsy, the text "0" is not); for a blank name or negative dues the 500 carries the schema's message listing every failed path, which is the `name` required line alone when only the name is blank; 400 for a trimmed member id already held, `null` included; a refusal changes nothing; a success exactly for a non-blank name, non-negative dues and a free member id (an omitted one is always free), storing the member the setters build under a fresh key |
| Members.NullMemberIdCollides | controllers/memberController.js:56-84 | the sparse index skips only an omitted member id: a second member created with `memberId: null` is the duplicate-id 400, one created without the field is accepted |
| Members.NullMemberIdUpdateCollides | controllers/memberController.js:99-120 | setting `memberId` to `null` on a member while another holds `null` fails the save with the duplicate-key 500 |
| Members.CreatedMemberTrimmed | controllers/memberController.js:48-87 | a created member is stored as the schema's setters leave it, under the trimmed name, which is never empty |
| Members.ZeroDuesTextAccepted | controllers/memberController.js:52-61 | dues sent as the text "0" pass the guard and create a member with no dues, while the number 0 is refused |
| Members.Patched | controllers/memberController.js:98-102 | name, join date and dues change only when given truthy, and member id and contact whenever given; assigned text is trimmed by the setters; nothing else changes, and a trimmed member stays trimmed |
| Members.EmptyPatchIsIdentity | controllers/memberController.js:98-102 | an empty update body changes nothing |
| Members.UpdateMember | controllers/memberController.js:89-121 | 404 for an unknown member; when the patched member fails the schema validators the 500 carries the message listing every failed path, the `name` required line alone for a new name of white space only; a success exactly when the patched member passes the validators and its member id is free, storing it in place; every failure changes nothing |
| Members.DeleteMember | controllers/memberController.js:123-148 | 404 exactly for an unknown member; otherwise exactly that member is removed |
| Members.Owing | controllers/memberController.js:153-158 | exactly the members whose recomputed arrears are positive, with those arrears |
| Members.GetMembersInArrears | controllers/memberController.js:150-165 | sorted by arrears, largest first, and a permutation of the owing members; members with equal arrears stay in natural order, as the stable `Array.prototype.sort` leaves them |
| Members.InArrearsIffOwing | controllers/memberController.js:158 | a member is listed exactly when their recomputed arrears are positive |
| ContributionTypes.DuesIds | controllers/contributionTypeController.js:5 | exactly the stored types named `Dues`, empty exactly when none is stored |
| ContributionTypes.EnsureDues | controllers/contributionTypeController.js:4-13 | a store that has Dues is left alone; one without gains exactly one system Dues type under a fresh key |
| ContributionTypes.EnsureDuesIdempotent | controllers/contributionTypeController.js:4-13 | ensuring Dues twice is ensuring it once, and afterwards a store that had no Dues has exactly one |
| ContributionTypes.CleanDescription | controllers/contributionTypeController.js:46 | a missing description becomes empty, a given one is trimmed |
| ContributionTypes.CreateType | controllers/contributionTypeController.js:28-54 | 400 for a blank name, 400 when a type has the same name up to case; a success exactly otherwise, adding one non-system type with the trimmed name under a fresh key |
| ContributionTypes.CreateKeepsNamesDistinct | controllers/contributionTypeController.js:37-42 | creation keeps type names distinct up to case |
| ContributionTypes.GetTypeById | controllers/contributionTypeController.js:57-68 | 404 exactly for an unknown id, otherwise the stored type |
| ContributionTypes.UpdateType | controllers/contributionTypeController.js:71-104 | 404 for an unknown id, 400 for the system Dues type; a success exactly when a given name is non-blank and free among the other types, storing the revised type in place; a refusal changes nothing |
| ContributionTypes.Revise | controllers/contributionTypeController.js:84-97 | a given name or description replaces the stored one trimmed; an absent one is kept; the system flag never changes |
| ContributionTypes.RenameToOwnNameAllowed | controllers/contributionTypeController.js:88-91 | the name check excludes the type itself, so renaming a type to its own name succeeds |
| ContributionTypes.UpdateKeepsNamesDistinct | controllers/contributionTypeController.js:84-96 | updating keeps type names distinct up to case |
| ContributionTypes.Usage | controllers/contributionTypeController.js:119 | exactly the contributions recorded against the type |
| ContributionTypes.DeleteType | controllers/contributionTypeController.js:107-131 | 404 for an unknown id, 400 for the system Dues type; removal exactly of an unused non-Dues type; a refusal changes nothing |
| ContributionTypes.DeleteLeavesNoDangling | controllers/contributionTypeController.js:119-126 | no contribution is left pointing at a deleted type |
| ContributionTypes.Block | controllers/contributionTypeController.js:20 | the types with one value of `isSystem`, sorted by name |
| ContributionTypes.BlocksInOrder | controllers/contributionTypeController.js:20 | system types sorted by name, then the others sorted by name, is the listing order |
| ContributionTypes.GetAllTypes | controllers/contributionTypeController.js:16-25 | Dues is ensured first; then every stored type is listed, as many rows as there are types so none twice, system types first and each block by name |
| Subgroups.Average | controllers/subgroupController.js:18 | the average times the count is the total when there are members, and 0 without members |
| Subgroups.Items | controllers/subgroupController.js:62-70 | the aggregate reads one item per member |
| Subgroups.AggregateMatchesMembers | controllers/subgroupController.js:62-70 | the aggregate's count and sum for a subgroup are the number and the total paid of the members carrying it |
| Subgroups.StatsFor | controllers/subgroupController.js:4-20 | the figures of the subgroup's aggregate group, or 0 and 0 when it has none |
| Subgroups.StatsOfMembers | controllers/subgroupController.js:99-101 | the count and the total paid of the given members |
| Subgroups.StatsForIsMembersStats | controllers/subgroupController.js:4-20 | the aggregate's statistics for a subgroup equal the statistics of its members |
| Subgroups.SubgroupStats | controllers/subgroupController.js:6-12 | the statistics of a subgroup are those of its members |
| Subgroups.GetSubgroups | controllers/subgroupController.js:55-87 | every stored subgroup is listed, each with its members' statistics, newest first |
| Subgroups.Views | controllers/subgroupController.js:82 | one view per subgroup, in order, with its statistics |
| Subgroups.GetSubgroupById | controllers/subgroupController.js:89-118 | 404 exactly for an unknown id; otherwise the subgroup and exactly its members, each once in creation order, with their count, total and average |
| Subgroups.Join | controllers/subgroupController.js:46-47 | only the leader changes: it now belongs to the subgroup |
| Subgroups.CreateSubgroup | controllers/subgroupController.js:23-53 | 400 without a name or leader; a name of white space only with an existing leader is the 500 `Subgroup validation failed: name: Path `name` is required.`; a success exactly for a non-blank name and an existing leader, adding the subgroup under a fresh key with the trimmed name and moving the leader into it; a refusal changes nothing |
| Subgroups.AddSubgroupKeepsConsistent | controllers/subgroupController.js:43 | adding a subgroup under the next key keeps the store's keys below its counter |
| Subgroups.UpdateSubgroup | controllers/subgroupController.js:120-156 | 404 for an unknown subgroup, 400 for an unknown leader; a name that trims to nothing is the 500 `Subgroup validation failed: name: Path `name` is required.`, after the new leader has been moved; on success the name and leader are replaced as given, the creator kept, and a new leader moved into the subgroup |
| Subgroups.ReplaceSubgroupKeepsConsistent | controllers/subgroupController.js:146 | saving a stored subgroup keeps the store consistent |
| Subgroups.NewName | controllers/subgroupController.js:130-132 | a truthy name replaces the stored one trimmed; otherwise the stored name stays |
| Subgroups.Unassign | controllers/subgroupController.js:167-170 | the same members, those in the subgroup now unassigned, nobody left in it |
| Subgroups.DeleteSubgroup | controllers/subgroupController.js:158-181 | 404 exactly for an unknown subgroup; otherwise its members become unassigned and exactly it is removed |
| Subgroups.UnassignKeepsConsistent | controllers/subgroupController.js:166-172 | unassigning and removing keeps the store consistent |
| Subgroups.Row | controllers/subgroupController.js:211-219 | a subgroup's leaderboard row carries its name, leader, and its members' total, count and average |
| Subgroups.Entries | controllers/subgroupController.js:198-232 | one row per subgroup in stored order, then an Unassigned row exactly when some member has no subgroup |
| Subgroups.SubgroupEntries | controllers/subgroupController.js:211-219 | exactly the rows of the stored subgroups, in ascending id |
| Subgroups.UnassignedLast | controllers/subgroupController.js:221-232 | the Unassigned row pushed after the subgroup rows keeps the rows in building order |
| Subgroups.RowsFor | controllers/subgroupController.js:211-219 | the row of each given subgroup, in the given order, and no others |
| Subgroups.UnassignedEntry | controllers/subgroupController.js:221-232 | present exactly when some member has no subgroup, with their total, count and average |
| Subgroups.Leaderboard | controllers/subgroupController.js:183-245 | ranks from 1 in order, highest total first, a permutation of the rows, and rows with equal totals in building order: subgroups by ascending id, Unassigned after them |
| Subgroups.Board | controllers/subgroupController.js:234-235 | the stable sort of the rows: highest total first, a permutation, ties in building order |
| Subgroups.TiesListedBefore | controllers/subgroupController.js:234-235 | rows sorted stably by building position list tied subgroups by ascending id and Unassigned last |
| Subgroups.RankAll | controllers/subgroupController.js:236-239 | the row at position i is ranked i + 1 |
| Subgroups.Unranked | controllers/subgroupController.js:236-239 | the rows without their ranks, in order |
| Subgroups.UnrankedRankAll | controllers/subgroupController.js:236-239 | ranking drops nothing and reorders nothing |
| Grouping.FindGroup | controllers/subgroupController.js:62-70 | the position of the group carrying a key, or -1 exactly when there is none |
| Grouping.GroupSums | controllers/subgroupController.js:62-70 | one group per distinct key, present exactly for the keys some item carries, each with that key's sum and count |
| Grouping.SumOfAbsentKey | controllers/subgroupController.js:66 | a key no item carries sums to 0 |
| Grouping.CountKeyPositive | controllers/subgroupController.js:67 | a key is counted exactly when some item carries it |
| Grouping.GroupTotalsAddUp | controllers/subgroupController.js:62-70 | the group totals add up to the total of all items: every amount lands in exactly one group |
| Grouping.TotalAppend | controllers/subgroupController.js:66 | appending a group adds its total |
| Grouping.TotalUpdate | controllers/subgroupController.js:66 | replacing a group changes the sum by the difference of their totals |
| Expenditures.NewExpenditure | controllers/expenditureController.js:29-39 | the stored expenditure carries the request's title trimmed and its amount, the description and category trimmed or empty when absent, today when no date is given, the caller as spender and the funding source |
| Expenditures.NewExpenditureTrimmed | models/schemas.js:133-150 | the title, description and category stored are already trimmed, so the setters would leave them as they are |
| Expenditures.SentText | controllers/expenditureController.js:48 | the amount as the body sent it: a number printed in cedis, which reads back as that number, or a text verbatim |
| Expenditures.CreateExpenditure | controllers/expenditureController.js:12-61 | 400 without a title or a truthy amount (the text "0" is truthy); for a blank title or a negative amount the 500 carries the schema's message listing every failed path, the `title` required line alone when only the title is blank; a success exactly for a non-blank title, a non-negative amount and a free expense id, adding one expenditure under a fresh key and changing no member or receipt, and for an admin one log entry `Recorded an expenditure of GHS <amount as sent> for <title>`; a refusal changes nothing |
| Expenditures.TakenIds | controllers/expenditureController.js:24 | exactly the expense ids already stored |
| Expenditures.RecordExpenditure | controllers/expenditureController.js:4-41 | a saved expenditure's id is one of the at most eleven draws and was free; a valid request fails only when every draw collided |
| Expenditures.GetAllExpenditures | controllers/expenditureController.js:64-87 | exactly the stored expenditures within the date bounds and of the category, each once, latest date first; equal dates come in creation order, an order the model fixes where the database leaves ties open |
| Expenditures.GetExpenditureById | controllers/expenditureController.js:90-104 | 404 exactly for an unknown id, otherwise the stored expenditure |
| Expenditures.Patched | controllers/expenditureController.js:118-123 | a truthy title, amount or date and any given description, category or funding replaces the stored value, text trimmed by the setters; the expense id and spender never change |
| Expenditures.UpdateExpenditure | controllers/expenditureController.js:107-145 | 404 for an unknown id; when the patched expenditure fails validation the 500 carries the message listing every failed path, the `title` required line alone for a new title of white space only with a valid amount; a success exactly when the patched expenditure has a non-empty title and a non-negative amount, storing it in place; a refusal changes nothing |
| Expenditures.DeleteExpenditure | controllers/expenditureController.js:148-173 | 404 exactly for an unknown id; otherwise exactly that expenditure is removed, and a log entry is written exactly for an admin |
| Expenditures.Amounts | controllers/expenditureController.js:179-187 | one aggregate item per expenditure |
| Expenditures.AmountsGroup | controllers/expenditureController.js:179-187 | the single group counts every expenditure and sums their amounts |
| Expenditures.ExpenditureStats | controllers/expenditureController.js:176-194 | the total spent over every stored expenditure and their number, and 0 and 0 for an empty store |
| Reports.Card | controllers/reportController.js:46-66 | the row's figures unchanged; the leader shown exactly when the subgroup has one who is a member, with that member's id, name and member number |
| Reports.Window | controllers/reportController.js:87-92 | twelve consecutive months ending with the current one, oldest first |
| Reports.Bump | controllers/reportController.js:98-100 | adding one amount keeps one slot per month shown |
| Reports.Tally | controllers/reportController.js:94-110 | every shown month holds the sum of the amounts dated in it |
| Reports.OutsideWindowIgnored | controllers/reportController.js:98 | an amount dated outside the twelve months leaves the trend unchanged |
| Reports.InsideWindowCounted | controllers/reportController.js:98-100 | an amount dated inside the window adds to its own month and to no other |
| Reports.HistoryItems | controllers/reportController.js:95-97 | every payment of the history keyed by its month, in order |
| Reports.SpendingItems | controllers/reportController.js:104-106 | every expenditure keyed by its month, in order |
| Reports.Trend | controllers/reportController.js:84-120 | twelve entries for the twelve months ending now, oldest first, each the sum of the amounts dated in that month |
| Reports.ItemsTotal | controllers/reportController.js:36-44 | the per-subgroup totals add up to the total paid by all members |
| Reports.ArrearsCount | controllers/reportController.js:13-19 | the number of members whose recomputed arrears are positive |
| Reports.Collected | controllers/reportController.js:10-14 | the running total equals the sum of the per-subgroup totals |
| Reports.MemberCount | controllers/reportController.js:8 | the number of stored members |
| Reports.SubgroupCards | controllers/reportController.js:46-81 | the leaderboard's rows in its order, leaders looked up, highest total first and equal totals in building order (subgroups by ascending id, Unassigned last); the top subgroup is the first row, absent exactly without rows, and collected at least as much as any row |
| Reports.Cards | controllers/reportController.js:46-66 | one card per ranked row, in the same order, so still highest total first |
| Reports.LeaderIsHighest | controllers/reportController.js:80-81 | the first row after sorting collected at least as much as every row |
| Reports.GetDashboardStats | controllers/reportController.js:5-127 | member count, total collected, total spent and the balance between them, members in arrears, administrators, the two twelve-month trends and the subgroup rows with the top one |
| Reports.ExportPayments | controllers/reportController.js:152-196 | one export row per payment of the listing, in the listing's order, each the payment without its id |
| Logs.BuildFilter | controllers/logController.js:11-31 | an admin is always restricted to their own entries; a super admin filters by actor only when one is given; the date bounds and the action pattern are passed on when given |
| Logs.ExportActivityLogs | controllers/logController.js:40-76 | exactly the entries the caller's filter admits, each once, newest first (equal dates in creation order, which the model fixes); an admin gets only their own |
| Logs.GetActivityLogs | controllers/logController.js:4-38 | at most 1000 rows, each once, a prefix of the export; below the cap the whole export, and nothing left out is newer than a listed entry |
| Logs.DeleteActivityLog | controllers/logController.js:78-95 | 403 for anyone but a super admin, 404 for an unknown entry; otherwise exactly that entry is removed; a refusal changes nothing |
| Logs.AdminSeesOnlyOwn | controllers/logController.js:13-16 | whatever actor an admin asks for, every listed entry is their own |
| Reminders.AmountOwed | jobs/reminderScheduler.js:9-23 | a member is behind exactly when their recomputed arrears are positive; then the months are those arrears and the amount those months at the member's dues, otherwise 0 and 0 |
| Reminders.Record | jobs/reminderScheduler.js:44-90 | the reminder names the member, the verse index, the trigger and the time; it is `sent` exactly when the mailer did not fail, and otherwise carries the mailer's error |
| Reminders.RecordAddress | models/schemas.js:227-232 | the stored address is the member's e-mail as the schema's `trim` and `lowercase` setters leave it: trimmed and free of upper-case letters |
| Reminders.Reached | jobs/reminderScheduler.js:33-91 | how far a run gets: every member before that position has an address that survives trimming, and a run stopping short stops at one whose address trims to nothing |
| Reminders.SendReminders | jobs/reminderScheduler.js:25-100 | the run returns a summary exactly when no member with an e-mail who is behind has an address that trims to nothing, and otherwise fails with the `email` required error; each member processed before that point, in stored order, leaves exactly one reminder under consecutive fresh ids and earlier reminders stay; a summary's processed count is every such member and is sent plus failed, with sent the successful deliveries; nothing else in the store changes |
| Reminders.Run | jobs/reminderScheduler.js:33-100 | the same run over a given list of members: it stops at the first unstorable address with the required error, keeping the reminders stored before it, and otherwise counts and stores every member |
| Reminders.Mail | jobs/reminderScheduler.js:33-91 | one reminder per processed member under consecutive ids from the next free id, the `j`-th carrying verse `j`, earlier reminders untouched |
| Reminders.Fill | jobs/reminderScheduler.js:77-88 | the values stored under consecutive fresh ids, the stored entries left alone |
| Reminders.Tally | jobs/reminderScheduler.js:81-89 | the sent and failed counts add up to the processed members, and sent counts the successful deliveries |
| Reminders.OutstandingSnoc | controllers/reminderController.js:66 | one more member behind adds their charge to the outstanding amount |
| Reminders.OwedSumSnoc | jobs/reminderScheduler.js:18 | one more member adds what they owe to the sum |
| Reminders.OutstandingIsOwed | controllers/reminderController.js:61-68 | the summary's outstanding amount is what all members with an e-mail owe: members not behind contribute nothing |
| Reminders.OwedStep | jobs/reminderScheduler.js:11-22 | adding one member keeps the outstanding amount of the members a run would write to equal to what all members with an e-mail owe |
| Reminders.OwedOnlyWhenReminded | jobs/reminderScheduler.js:11-22 | a member with an e-mail who is not behind owes nothing, and one who is behind owes their charge |
| Reminders.LastSentAt | controllers/reminderController.js:57 | absent exactly without reminders; otherwise the time of a stored reminder no other was sent after |
| Reminders.OutstandingMembers | controllers/reminderController.js:61-65 | the number of members with an e-mail who are behind, the members a run would write to |
| Reminders.OutstandingAmount | controllers/reminderController.js:61-68 | the sum of what the members with an e-mail owe |
| Reminders.GetReminderSummary | controllers/reminderController.js:54-79 | corrected (Findings row 4): the members a run would write to, what they owe between them, the latest reminder time and the next scheduled run as the intended `NextReminderDate` gives it |
| Reminders.GetReminderLogs | controllers/reminderController.js:29-52 | the first rows of the matching stored reminders listed latest first: a prefix of that listing that is the whole of it or exactly the limit long (50 by default, everything for 0), so nothing left out is later than a listed one |
| Reminders.PageOfMatching | controllers/reminderController.js:43-45 | no matching reminder left off the page is later than a listed one, and with limit 0 every matching reminder is listed |
| Reminders.MatchingReminders | controllers/reminderController.js:33-44 | exactly the stored reminders of the requested status and member, each once, latest first (equal times in creation order, which the model fixes) |
| Reminders.Slot | controllers/reminderController.js:12-13 | 08:00 on the 25th of the given month |
| Reminders.NextReminderDate | controllers/reminderController.js:4-15 | corrected: a 25th at 08:00 strictly after now, which is this month's while that is still ahead and next month's once it has passed |
| Reminders.NextReminderAsWritten | controllers/reminderController.js:4-15 | as written: a 25th at 08:00 up to two months ahead, since `setMonth` before `setDate` can roll past the next month |
| Reminders.SkipsFebruaryAsWritten | controllers/reminderController.js:8-13 | after 10:00 on 30 January 2025 the code schedules 25 March, while the intended date is 25 February |
| Reminders.AsWrittenAgreesWithoutOverflow | controllers/reminderController.js:8-13 | without a day overflow the code and the intended date agree |
| Numbers.ParseInt | middleware/validationMiddleware.js:109 | `isInt` accepts exactly an optional sign followed by at least one digit, and reads that text as an integer |
| Numbers.ParseIntToString | middleware/validationMiddleware.js:109 | every integer's rendering reads back as that integer |
| Numbers.ReadIntParseInt | middleware/validationMiddleware.js:109 | the character-by-character integer reader agrees with the integer syntax everywhere |
| Numbers.ReadDigitsParseNat | middleware/validationMiddleware.js:109 | the digit reader accepts exactly a run of digits and gives the value a decimal rendering denotes |
| Numbers.ExponentAtFirst | middleware/validationMiddleware.js:101 | the exponent marker found is the first `e` or `E` of the text, or its end when there is none |
| Numbers.PointAtFirst | middleware/validationMiddleware.js:101 | the point found is the first `.` of the text, or its end when there is none |
| Numbers.ParseFloat | middleware/validationMiddleware.js:98-102 | a text `isFloat` reads is nonempty, and a negative value comes only from a leading `-` |
| Numbers.MagnitudeSign | middleware/validationMiddleware.js:101 | an unsigned number text reads at least one character and never a negative value |
| Numbers.DigitsValue | middleware/validationMiddleware.js:101 | digits around a point read as the whole part shifted by the fraction's length plus the fraction, over ten to that length |
| Numbers.ParseFloatDigits | middleware/validationMiddleware.js:101 | a text of digits alone reads as the integer it spells |
| Numbers.ParseFloatSigned | middleware/validationMiddleware.js:101 | a leading `-` negates the value of the text after it, a leading `+` changes nothing |
| Numbers.ParseFloatOfInt | middleware/validationMiddleware.js:98-102 | every integer's rendering reads as that integer |
| Numbers.ParseFloatPoint | middleware/validationMiddleware.js:98-102 | digits, a point and digits read as the exact decimal they spell, so `2.50` is 250 hundredths |
| Numbers.RadixValue | middleware/validationMiddleware.js:74 | a text has a value in a base exactly when each of its characters is a digit of that base |
| Numbers.TextToNumber | middleware/validationMiddleware.js:74 | `Number` reads blank text as 0, and a negative result only from a text whose trimmed form starts with `-` |
| Numbers.TextToNumberDecimal | middleware/validationMiddleware.js:74 | a trimmed text that is neither `Infinity` nor a `0x`, `0o` or `0b` literal has the value its decimal syntax gives |
| Numbers.TextToNumberOfInt | middleware/validationMiddleware.js:74 | `Number` of an integer's rendering is that integer |
| Numbers.LeadingZero | middleware/validationMiddleware.js:74 | an integer's rendering starts with `0` only for zero, so no rendering is mistaken for a radix literal |
| Numbers.MoneyTextValue | middleware/validationMiddleware.js:98-102 | the cedi text of a pesewa amount reads as that amount over one hundred |
| Numbers.MoneyTextNumber | middleware/validationMiddleware.js:74 | `Number` reads the cedi text of a pesewa amount as the same value the decimal reader gives |
| Numbers.MoneyTextAtLeastHundredth | middleware/validationMiddleware.js:98-102 | the cedi text of a pesewa amount is worth at least 0.01 exactly when the amount is at least one pesewa, and is negative exactly when the amount is |
| Numbers.AtLeastHundredth | middleware/validationMiddleware.js:98-102 | a decimal with at most two fraction digits is at least 0.01 exactly when its value in hundredths is at least 1 |
| Numbers.ShiftSign | middleware/validationMiddleware.js:101 | scaling by a power of ten keeps the sign of a number |
| Validation.CleanEmptyStrings | middleware/validationMiddleware.js:7-16 | exactly the body's fields whose value is not the empty string |
| Validation.CleanGet | middleware/validationMiddleware.js:7-16 | after cleaning a field reads as absent exactly where it held the empty string, and as before elsewhere |
| Validation.CleanIdempotent | middleware/validationMiddleware.js:7-16 | cleaning twice is cleaning once |
| Validation.HandleValidationErrors | middleware/validationMiddleware.js:21-30 | the request goes on exactly when there are no messages; otherwise a 400 `Validation failed` carrying them |
| Validation.TrimField | middleware/validationMiddleware.js:37-39 | a trimmed field is truthy exactly when it is not blank |
| Validation.AmountInCedis | middleware/validationMiddleware.js:98-102 | the cedi text of a pesewa amount passes `isFloat({ min: 0.01 })` exactly when the amount is at least one pesewa |
| Validation.AmountRule | middleware/validationMiddleware.js:98-128 | the amount rule fails on a number exactly below 1 and on the cedi text of a pesewa amount exactly below one pesewa |
| Validation.JsNumber | middleware/validationMiddleware.js:74 | `Number` of a number is itself, and of blank text is 0 |
| Validation.MongoIdShapes | middleware/validationMiddleware.js:225-228 | `isMongoId` accepts exactly 24 characters that are all hexadecimal digits, or a `0x`/`0h` prefix (either case) followed by 22 of them |
| Validation.PrefixedMongoId | middleware/validationMiddleware.js:225-228 | 22 hexadecimal digits fail alone but pass behind `0x` or `0H`, and behind `00` |
| Validation.NumberText | middleware/validationMiddleware.js:92-112 | for a number sent as such the integer rules compare the number itself, and the amount rule passes exactly when it is at least 1 |
| Validation.Check | middleware/validationMiddleware.js:37-42 | a rule gives no message exactly when it holds |
| Validation.MemberMessages | middleware/validationMiddleware.js:35-87 | no message exactly when every member rule holds; the name, clash and dues messages appear exactly when their rule fails |
| Validation.MemberErrors | middleware/validationMiddleware.js:35-87 | an accepted member has a trimmed name of 2 to 100 characters; the clash message appears exactly for `autoGenerateId: true` with a member id; the dues message exactly for unacceptable dues; the name message exactly for a blank name |
| Validation.EmptyStringReadsAsAbsent | middleware/validationMiddleware.js:36 | an empty string and an absent field read alike to every member rule, so dropping empty strings changes no verdict |
| Validation.ValidateMember | middleware/validationMiddleware.js:35-87 | an accepted member has a valid name, no member id next to `autoGenerateId`, and acceptable dues; a rejection is a 400 |
| Validation.DuesCases | middleware/validationMiddleware.js:70-77 | a number passes exactly when not negative, and so does its text; a blank text passes because `Number` reads it as 0 |
| Validation.DuesNumber | middleware/validationMiddleware.js:72-76 | a number passes the dues rule exactly when it is not negative |
| Validation.DuesText | middleware/validationMiddleware.js:72-76 | an integer's text passes the dues rule exactly when it is not negative |
| Validation.NumberOfRendering | middleware/validationMiddleware.js:74 | `Number` of an integer's text is that integer |
| Validation.DuesOfNumber | middleware/validationMiddleware.js:73-75 | a truthy value whose number is n passes exactly when n is not negative |
| Validation.DuesBlank | middleware/validationMiddleware.js:73-75 | a text of white space passes the dues rule |
| Validation.DuesInCedis | middleware/validationMiddleware.js:70-77 | dues sent as the cedi text of a pesewa amount, fraction and all, pass exactly when the amount is not negative |
| Validation.DuesOfDecimal | middleware/validationMiddleware.js:73-75 | a nonempty text that `Number` reads as a finite decimal passes the dues rule exactly when that decimal is not negative |
| Validation.PaymentMessages | middleware/validationMiddleware.js:92-112 | no message exactly when every payment rule holds; the amount and months messages exactly when their rule fails |
| Validation.PaymentRuleMessages | middleware/validationMiddleware.js:98-110 | the amount message appears exactly when the amount text is not worth 0.01, and the months message exactly when given months are not an integer of at least 1 |
| Validation.ValidatePayment | middleware/validationMiddleware.js:92-112 | an accepted payment has a well-formed member id and an amount worth at least 0.01; a numeric amount fails exactly below 1, the cedi text of a pesewa amount (`2.50`) exactly below one pesewa, and numeric months exactly below 1; absent months pass; a rejection lists the rules' messages |
| Validation.ExpenditureMessages | middleware/validationMiddleware.js:117-144 | no message exactly when every expenditure rule holds; the amount message exactly when the amount is not positive |
| Validation.ExpenditureAmountRule | middleware/validationMiddleware.js:124-128 | the amount message appears exactly when the amount text is not worth 0.01 |
| Validation.ValidateExpenditure | middleware/validationMiddleware.js:117-144 | an accepted expenditure has a trimmed title of 2 to 200 characters, an amount worth at least 0.01, and category and description within 50 and 500 characters; a numeric amount fails exactly below 1 and the cedi text of a pesewa amount exactly below one pesewa |
| Validation.LoginMessages | middleware/validationMiddleware.js:149-173 | no message exactly when every login rule holds; the either-or message exactly when its rule fails |
| Validation.ValidateLogin | middleware/validationMiddleware.js:149-173 | refused with the either-or message exactly when both username and e-mail are blank; an accepted login has a password of at least six characters |
| Validation.ValidateRegister | middleware/validationMiddleware.js:178-203 | an accepted registration has a 3 to 50 character word username, a password of at least six characters and a role of `admin` or `super` when given |
| Validation.ValidateSubgroup | middleware/validationMiddleware.js:208-220 | accepted exactly when the trimmed name has 2 to 100 characters and a given leader id passes `isMongoId` (24 hexadecimal characters, a `0x` or `0h` prefix counted among them) |
| Validation.ValidateMongoId | middleware/validationMiddleware.js:225-230 | accepted exactly when the id passes `isMongoId`, prefixed forms included, otherwise the message `Invalid ID format` |
| Validation.ValidatePagination | middleware/validationMiddleware.js:235-250 | an accepted query's page is an integer of at least 1 and its limit an integer from 1 to 100, when given |
| Validation.PaginationBounds | middleware/validationMiddleware.js:236-243 | for integer page and limit without a search term, accepted exactly when the page is at least 1 and the limit from 1 to 100 |
| SystemUsers.ParseRole | controllers/systemController.js:92-94 | only `system` and `super` are accepted roles, and neither is the admin role |
| SystemUsers.GeneratedPassword | controllers/systemController.js:131 | only the alphanumeric characters of the random text, each as many times as it occurs there, none added |
| SystemUsers.GeneratedPasswordAppend | controllers/systemController.js:131 | the filter of a concatenation is the filters concatenated, so the kept characters keep their order |
| SystemUsers.GeneratedPasswordKeepsAlnum | controllers/systemController.js:131 | the filter leaves an alphanumeric text whole |
| SystemUsers.Refusal | controllers/systemController.js:69-122 | no refusal exactly when the caller is a system user, username and a well-shaped e-mail are given, the role is accepted, username and e-mail are free, and the tenant rule of the role holds; 403 exactly for a non-system caller |
| SystemUsers.CreateSystemUser | controllers/systemController.js:67-210 | a refusal changes nothing; a success adds one user under a fresh id with the lower-cased e-mail, the role, no tenant for a system user and an active tenant for a super user, and the given or a generated alphanumeric password |
| SystemUsers.CreationKeepsAccountsUnique | controllers/systemController.js:99-109 | creating an account keeps usernames and e-mails unique |
| SystemUsers.SecondCreationRefused | controllers/systemController.js:100-103 | repeating a successful request is refused because the username is now taken |
| BulkUpload.Cell | utils/excelExporter.js:74 | a cell's trimmed text, empty beyond the end of its row |
| BulkUpload.LastWhere | utils/excelExporter.js:55-61 | the last position satisfying the test, absent exactly when none does |
| BulkUpload.LastWhereAgrees | utils/excelExporter.js:55-61 | sequences that agree pointwise on the tests have the same last match |
| BulkUpload.Column | utils/excelExporter.js:55-61 | the last header cell naming the heading, absent exactly when none does |
| BulkUpload.ColumnsOf | utils/excelExporter.js:54-61 | each of the four columns is found by its own heading |
| BulkUpload.FilterMap | utils/excelExporter.js:72-80 | the images of the admitted elements, one per admitted element and in their order |
| BulkUpload.ReadRows | utils/excelExporter.js:72-80 | one member per row with a non-blank name, in row order, each read from its row, every name trimmed and non-empty |
| BulkUpload.FilterMapAll | utils/excelExporter.js:72-80 | every kept image has a property all admitted images have |
| BulkUpload.ParseBulkMembers | utils/excelExporter.js:44-82 | one error and no members for too few rows, a missing Name column or more than 500 data rows, checked in that order; otherwise no error and one member per data row with a name, in row order, each read from its row |
| BulkUpload.FilterMapTail | utils/excelExporter.js:72 | reading from the second row keeps positions in the whole sheet |
| BulkUpload.DataRows | utils/excelExporter.js:72-80 | the members of the rows after the header, with positions in the whole sheet |
| BulkUpload.ColumnIgnoresCase | utils/excelExporter.js:56 | header rows differing only in case and surrounding white space find the same columns |
| DemoAssignment.UnassignedIds | scripts/assignUsersToDemoTenant.js:59-62 | exactly the users without a tenant who are not system users |
| DemoAssignment.Stop | scripts/assignUsersToDemoTenant.js:66-73 | where the loop stops: every unassigned user before it saves, and a stop short of the bound is an unassigned user whose save fails |
| DemoAssignment.AssignBelow | scripts/assignUsersToDemoTenant.js:66-73 | every unassigned non-system user before the stop gets the tenant, every other user is unchanged, and the count is the number of users assigned |
| DemoAssignment.AssignedEverybody | scripts/assignUsersToDemoTenant.js:66-73 | a walk past every user id leaves nobody unassigned and counts every unassigned user |
| DemoAssignment.StopBeyondUsers | scripts/assignUsersToDemoTenant.js:66-73 | ids beyond every user do not move where the loop stops, so the stop does not depend on how far ids have grown |
| DemoAssignment.AssignUsersToDemoTenant | scripts/assignUsersToDemoTenant.js:14-94 | the live demo tenant is found or created and stored tenants are kept; a failed demo save changes nothing; a failed schema initialisation keeps the new tenant and assigns nobody; a failed user save keeps the users assigned before it; the run succeeds exactly when every save succeeds, and then every unassigned non-system user has the demo tenant and their number is reported |
| DemoAssignment.AssignTwice | scripts/assignUsersToDemoTenant.js:58-73 | a second run succeeds when the first did and assigns nobody |

## Left out

- Storage clients are not modelled. This covers the Mongoose and Supabase clients, the PostgREST filter strings and regex translation in db/tenantDb.js, the chainable query shim, and index creation. Storage is a map from id to row or document.
- Concurrency is not modelled: races on the connection cache or on demo-tenant creation, and the process signal handlers. One request runs at a time.
- The ambient clock and `Math.random` become explicit `now` and draw parameters. Time zones and `toLocale*` formatting are left out; the dashboard's `YYYY-MM` month labels are represented by month indices.
- Floating-point money is not modelled. Amounts are integer minor units, and subgroup averages are exact rationals.
- Rendering and delivery are left out because they are I/O: PDF and Excel output, the e-mail templates, and sending mail. A mail outcome that matters to the stored state is a parameter: the receipt `emailStatus` or the reminder `failed` status. utils/emailTemplates.js is not part of this model, so a reminder stores the verse index it would pass to `pickScriptureVerse`.
- Hashing, JWT handling, password reset tokens and `comparePassword` are left out as authentication primitives. Users carry no password.
- The one-shot scripts other than the demo assignment, routes/*.js, server.js and the legacy single-tenant model files are left out: they are wiring and I/O.
- controllers/receiptController.js is left out. It is thin CRUD, and its id generator is the one `DatedIds` models.
- The cron scheduler (`initReminderScheduler`) is left out; a run is `Reminders.SendReminders` called with its trigger.
- controllers/reminderController.js imports `sendRemindersForTenant`, which jobs/reminderScheduler.js does not export. The model runs `sendReminders` on the tenant's store instead.
- utils/tenantModels.js:14-15 imports two schemas that models/schemas.js does not define. As written the module fails to link, and so does every controller that imports it (contribution types, subgroups, expenditures, receipts, reminders and logs). The model follows what these handlers evidently intend and treats the two schemas as absent.
- models/User.js has a role enum without `system`. The model's `Accounts.Role` includes the system role the handlers rely on.
- models/User.js exports only a default model: it has no `getUserModel` export and no `email` or `tenantId` path. As written, the static imports of `getUserModel` fail to link, so controllers/tenantSetupController.js, controllers/contributionController.js, controllers/tenantApprovalController.js, controllers/tenantController.js, controllers/systemController.js, scripts/assignUsersToDemoTenant.js and utils/tenantModels.js never load. The model follows what these modules evidently intend, with a user store that has e-mails and tenants (Findings row 5).
- The tenant schema's status enum lists three values, while the handlers write five. The model stores all five, as the handlers intend, and states the gap in `TenantModel.SchemaStatusAllowed`.
- TenantAdmin.ApproveTenant: stores `approvedAt` and `approvedBy` as the handler intends, but models/Tenant.js:13-85 defines neither path, so the schema's strict mode drops both on save.
- TenantAdmin.RejectTenant: stores `rejectionReason` and `approvedBy` as the handler intends, but models/Tenant.js:13-85 defines no such paths, so strict mode drops them and the resolver's 403 always reads `No reason provided`.
- TenantAdmin.StoredReasonNotBlank: holds of the reason the handler writes; with the schema as written no reason is stored at all.
- The tenant schema's `trim` and `lowercase` setters are not modelled; slugs are lower-cased where the handlers do it.
- models/Member.js, models/Reminder.js and the other legacy single-collection models, imported by the member, payment and report controllers and the reminder job, are not part of this model. These handlers run on the tenant store with the member shape of models/schemas.js; in the repository they share one collection across all tenants, as the introduction says.
- The Mongo expenditure schema has no funding-source field. The model keeps `fundedBy`, which the handlers write.
- Regular-expression matching is modelled per use. The member search and the log action filter become a case-insensitive substring test. The contribution-type name check becomes case-insensitive equality of trimmed names. Regex metacharacters in user input are not interpreted.
- Only ASCII letters are case-mapped and only ASCII white space is trimmed.
- ContributionTypes.EnsureDues: the lookup is by the exact name `Dues`, while contributions treat any type whose lower-cased name is `dues` as dues. A user type spelt `DUES` created before the system type therefore lets a second dues-like type appear. The model keeps this behaviour, and `NamesDistinct` is not claimed across `EnsureDues`.
- Reminders.GetReminderLogs: `Number(limit)` of a non-numeric limit (NaN) is not modelled; the limit is a natural number or absent. Populating the member fields is left out.
- Populating subgroup names and leaders in the facade and in the subgroup listings is left out; rows carry the ids.
- Validation: the e-mail and ISO 8601 recognisers of the validator library are a `Grammar` parameter, and the `normalizeEmail` sanitiser is not modelled.
- SystemUsers.CreateSystemUser: the listings `getSystemUsers` and `getSuperUsers` are left out; they are read-only.
- The bulk-upload workbook loading and `generateBulkMembersTemplate` are left out as file I/O. `BulkUpload.ParseBulkMembers` works on the sheet's cell texts.
- `getRejectedTenants`, `getTenantDetails` and `getTenantById` are left out; they are read-only listings.
- `getTenantBySlug`, `getUserById` and `getUserByUsername` of db/masterDb.js are not modelled. `maybeSingle`'s error on several matching rows is modelled as taking the first.
- `getAllContributions` and `getContributionById` are left out; they are read-only listings.
- TenantSetup.Admission: when one stored user has the username and another has the e-mail, the source's `findOne` over an `$or` may return either. The model reports the username clash first.
- TenantSetup.Provision: the confirmation and approval e-mails of `registerTenant` are left out.
- TenantContext.SetTenantContext: models the resolver as evidently intended (Findings row 5); as written the dynamic import of `getUserModel` throws, so nobody is auto-assigned and every tenant-less token gets the 400 (`TenantContext.SetTenantContextAsWritten`). The schema-check branch, which only logs, and the catch-all 500 are left out. A failed save of the user's demo assignment is modelled: the demo tenant saved before it stays and the request gets the 400 (`TenantContext.DemoTenantOutlivesFailedAssignment`).
- TenantContext.ResolveTenantId: the intended lookup of the stored user (Findings row 5); `TenantContext.ResolveTenantIdAsWritten` is the code as written.
- DatedIds.FreshId: the draws are a parameter. After ten collisions the last candidate is used even if taken, and the save then fails on the unique index; the model shows this as a refusal.

- TenantDb.Create: models the corrected stamp (Findings row 1); the code as written, where a raw `tenant_id` key overrides the stamp, is `TenantDb.CreateStampCanBeOverridden`.
- TenantDb.Update: models the corrected patch (Findings row 1); as written a raw `tenant_id` key moves the row (`TenantDb.UpdatePatchCanMoveRow`).
- TenantDb.CreateLeavesOtherTenants: holds for the corrected create only (Findings row 1).
- TenantDb.UpdateLeavesOtherTenants: holds for the corrected update only (Findings row 1).
- MemberFacade.MemberCreate: inherits the corrected stamp of `TenantDb.Create` (Findings row 1).
- MemberFacade.MemberUpdate: inherits the corrected patch of `TenantDb.Update` (Findings row 1).
- Connections.GetTenantConnection: connects to the corrected retargeted string (Findings row 2), not to the `split('/')` string of utils/connectionManager.js:42-44.
- Payments.RecordPayment: uses the guarded months rule (Findings row 3), not the unguarded division.
- Reminders.GetReminderSummary: reports the corrected `Reminders.NextReminderDate` (Findings row 4), not the date the code as written computes.
- Helpers.NumberOrZero: a text value of `monthsCovered` reads as 0; in the source `x || 0` keeps a non-empty text, which the subtraction then coerces. The stores keep the field numeric.
- Request numbers are `Http.BodyNumber`: a JSON number, or a text with the value `parseFloat` reads from it. A text that reads as NaN, and JSON values other than numbers and texts, are not modelled.
- Database sorts (`sort({ date: -1 })` and the like) list equal keys in creation order in the model. MongoDB leaves the order of ties open, so that part of the listings' tie order is the model's choice. The `Array.prototype.sort` calls are stable in the source too, and the model states their tie order: the leaderboard and dashboard cards, `getMembersInArrears` and `getAllPayments`.
- Numbers.ParseFloat: a decimal text is read as the exact decimal it spells and is not rounded to the nearest double, so a text with more digits than a double holds (`0.00999999999999999999`) is compared exactly, where `isFloat` would see 0.01. Texts with a trailing character outside the syntax are refused, as `isFloat` refuses them.
- Validation.JsNumber: a JSON number in a body is an integer (`Value.Num`); a fraction sent as a JSON number is not modelled, and `Number` of a date value is not modelled. Fractions arrive as text and are read exactly.
- Schemas.ValidateMember: the message lists every failing path in the order the member schema declares them, which is the order Mongoose reports them in; `CastError`s of ill-typed values are not modelled.
- Schemas.ExpenditureFailures: the same order rule as members, over `title` and `amount`; the other required paths (`expenseId`, `date`, `spentBy`) are always set by the handlers, so they never fail.
- Schemas.ValidateReceipt: the message lists the missing paths in the order the receipt schema declares them, which is the order Mongoose reports them in; the `CastError`s of ill-typed values are not modelled.
- Helpers.JoinDateOf: a join date held as text is not parsed; it counts as absent, so the arrears start from the current month, whereas db/helpers.js:36 parses it with `new Date`.

## Findings

| source | as written | input that shows it | evidently intended | confidence | as-written member | corrected member |
|---|---|---|---|---|---|---|
| db/tenantDb.js:227-233 | `create` spreads the caller's object before stamping `tenantId`, and `update` excludes only the camelCase `tenantId`; a raw `tenant_id` key in the caller's object survives the renaming | `create({ tenantId: 1, tenant_id: 2 })` under tenant 1 inserts a row of tenant 2; `update(id, { tenant_id: 2 })` moves a row to tenant 2 | every created row belongs to the facade's tenant and no update changes a row's tenant | high; not executed | TenantDb.CreateStampCanBeOverridden | TenantDb.CreateRow |
| utils/connectionManager.js:42-44 | the tenant string replaces everything after the last `/` of the base string | base `mongodb://h:1` gives `mongodb://demo`, losing the host; base `mongodb://h/db?x=1` loses `?x=1` | the base string's server part and query are kept and only the database path is replaced, as config/db.js does | high; not executed | Connections.HostDroppedAsWritten | Connections.HostKeptByRetarget |
| controllers/paymentController.js:31 | months covered is `Math.floor(amount / duesPerMonth)` with no guard | a payment of GHS 5.00 (500 minor units) by a member whose `duesPerMonth` is 0 covers `Infinity` months | the guard of the contribution path, `duesPerMonth \|\| 1`: dues of 0 count as one cedi a month, so that payment covers 5 months | medium; not executed | Payments.ZeroDuesPaymentAsWritten | Payments.GuardedMonthsAgree |
| controllers/reminderController.js:8-13 | `setMonth(month + 1)` runs before `setDate(25)`, so a day the next month lacks rolls over into the month after | at 10:00 on 30 January 2025 the next reminder is given as 25 March | the next 25th at 08:00, here 25 February | high; not executed | Reminders.SkipsFebruaryAsWritten | Reminders.NextReminderDate |
| middleware/tenantMiddleware.js:27-28 | the resolver imports `getUserModel` from models/User.js, which exports only a default model; the call throws a `TypeError` that lines 89-93 swallow | any non-system token without a tenant id, for a user whose stored record names an active tenant, is refused with the 400 of lines 101-112 | the stored user's tenant is used, and a user without one is assigned the demo tenant | high; not executed | TenantContext.StoredTenantIgnoredAsWritten | TenantContext.AutoAssignmentSticks |
