/**
 * Platform users and the authenticated principal a request carries. Roles are
 * the three the handlers distinguish: `system` (platform operator), `super`
 * and `admin` (tenant staff).
 */
module Accounts {
  import opened Wrappers

  datatype Role = SystemRole | SuperRole | AdminRole

  /** A row of the users collection; passwords and their hashes are not modelled. */
  datatype User = User(username: string, email: Option<string>, role: Role, tenantId: Option<nat>)

  /** `req.user` as set by authentication: every field may be missing from the token. */
  datatype Principal = Principal(userId: Option<nat>, username: string, role: Option<Role>, tenantId: Option<nat>)
  {
    predicate IsSystem() { role == Some(SystemRole) }
    predicate IsSuper() { role == Some(SuperRole) }
    predicate IsAdmin() { role == Some(AdminRole) }
  }
}
