/**
 * Creation of platform accounts by a system user
 * (controllers/systemController.js, `createSystemUser`): the ordered
 * request checks, the uniqueness of username and e-mail, the tenant rule of
 * each role, and the initial password. The random bytes a password is
 * generated from are a parameter; hashing, the reset token and the welcome
 * e-mail are left out.
 */
module SystemUsers {
  import opened Wrappers
  import opened Http
  import opened Text
  import opened Accounts
  import opened TenantModel
  import TenantSetup

  /** The request body. `role` is free text; `tenantId` is absent when falsy. */
  datatype UserForm = UserForm(username: Option<string>, email: Option<string>, password: Option<string>,
                               role: Option<string>, tenantId: Option<nat>)

  /** The reply of a successful creation; `initialPassword` is what the welcome e-mail would carry. */
  datatype Created = Created(userId: nat, user: User, passwordGenerated: bool, initialPassword: string)

  /** The two roles this endpoint creates. */
  function ParseRole(role: Option<string>): (r: Option<Role>)
    ensures r == Some(SystemRole) <==> role == Some("system")
    ensures r == Some(SuperRole) <==> role == Some("super")
    ensures r.Some? ==> r.value != AdminRole
  {
    if role == Some("system") then Some(SystemRole)
    else if role == Some("super") then Some(SuperRole)
    else None
  }

  predicate UsernameTaken(m: Master, username: string)
  {
    exists u :: u in m.users && m.users[u].username == username
  }

  /** The stored e-mails are lower-cased, and the lookup lower-cases the request's. */
  predicate EmailTaken(m: Master, email: string)
  {
    exists u :: u in m.users && m.users[u].email == Some(Lower(email))
  }

  /** The alphanumeric characters of a text, in order. */
  function AlnumOnly(s: string): string
  {
    if s == [] then [] else (if IsAlnum(s[0]) then [s[0]] else []) + AlnumOnly(s[1..])
  }

  /** `randomBytes(12).toString('base64').replace(/[^a-zA-Z0-9]/g, '')`, given the base64 text. */
  function GeneratedPassword(random: string): (p: string)
    ensures |p| <= |random|
    ensures forall i :: 0 <= i < |p| ==> IsAlnum(p[i])
    ensures forall c :: c in p <==> c in random && IsAlnum(c)
    ensures forall c :: multiset(p)[c] == if IsAlnum(c) then multiset(random)[c] else 0
  {
    var p := AlnumOnly(random);
    AlnumOnlyShape(random);
    AlnumOnlyCounts(random);
    forall c ensures c in p <==> c in random && IsAlnum(c) {
      assert c in p <==> multiset(p)[c] > 0;
      assert c in random <==> multiset(random)[c] > 0;
    }
    p
  }

  lemma {:induction false} AlnumOnlyShape(s: string)
    ensures |AlnumOnly(s)| <= |s|
    ensures forall i :: 0 <= i < |AlnumOnly(s)| ==> IsAlnum(AlnumOnly(s)[i])
  {
    if s != [] {
      AlnumOnlyShape(s[1..]);
    }
  }

  lemma {:induction false} AlnumOnlyCounts(s: string)
    ensures forall c :: multiset(AlnumOnly(s))[c] == if IsAlnum(c) then multiset(s)[c] else 0
  {
    if s != [] {
      AlnumOnlyCounts(s[1..]);
      assert s == [s[0]] + s[1..];
      assert multiset(s) == multiset{s[0]} + multiset(s[1..]);
    }
  }

  /**
   * The filter works character by character: the password of a text is the
   * password of its first part followed by that of the rest, so the kept
   * characters keep their order.
   */
  lemma GeneratedPasswordAppend(a: string, b: string)
    ensures GeneratedPassword(a + b) == GeneratedPassword(a) + GeneratedPassword(b)
  {
    AlnumOnlyAppend(a, b);
  }

  lemma {:induction false} AlnumOnlyAppend(a: string, b: string)
    ensures AlnumOnly(a + b) == AlnumOnly(a) + AlnumOnly(b)
  {
    if a == [] {
      assert a + b == b;
    } else {
      assert (a + b)[0] == a[0] && (a + b)[1..] == a[1..] + b;
      AlnumOnlyAppend(a[1..], b);
    }
  }

  /** The filter keeps an alphanumeric text whole, so it removes nothing but the other characters. */
  lemma {:induction false} GeneratedPasswordKeepsAlnum(s: string)
    requires forall i :: 0 <= i < |s| ==> IsAlnum(s[i])
    ensures GeneratedPassword(s) == s
  {
    if s != [] {
      GeneratedPasswordKeepsAlnum(s[1..]);
    }
  }

  /**
   * The checks before anything is written, in the handler's order: the
   * caller, the username, the e-mail and its shape, the role, a taken
   * username, a taken e-mail, and the tenant rule of the role. The first
   * failing one gives the reply; none failing gives `None`.
   */
  function Refusal(m: Master, caller: Principal, f: UserForm): (r: Option<(nat, string)>)
    ensures r.None? <==> caller.IsSystem() && TenantSetup.Present(f.username) && TenantSetup.Present(f.email)
                         && EmailShaped(f.email.value) && ParseRole(f.role).Some?
                         && !UsernameTaken(m, f.username.value) && !EmailTaken(m, f.email.value)
                         && (ParseRole(f.role) == Some(SuperRole) ==>
                               f.tenantId.Some? && f.tenantId.value in m.tenants && m.tenants[f.tenantId.value].status == Active)
                         && (ParseRole(f.role) == Some(SystemRole) ==> f.tenantId.None?)
    ensures r.Some? && r.value.0 == 403 <==> !caller.IsSystem()
    ensures r.Some? ==> r.value.0 == 403 || r.value.0 == 400
    ensures caller.IsSystem() && !TenantSetup.Present(f.username) ==> r == Some((400, "Username is required"))
    ensures caller.IsSystem() && TenantSetup.Present(f.username) && !TenantSetup.Present(f.email)
            ==> r == Some((400, "Email is required for system and super users"))
  {
    if !caller.IsSystem() then Some((403, "Only system users can create system/super users"))
    else if !TenantSetup.Present(f.username) then Some((400, "Username is required"))
    else if !TenantSetup.Present(f.email) then Some((400, "Email is required for system and super users"))
    else if !EmailShaped(f.email.value) then Some((400, "Invalid email format"))
    else if ParseRole(f.role).None? then Some((400, "Role must be either \"system\" or \"super\""))
    else if UsernameTaken(m, f.username.value) then Some((400, "Username already exists"))
    else if EmailTaken(m, f.email.value) then Some((400, "Email already exists"))
    else if ParseRole(f.role) == Some(SuperRole) then
      if f.tenantId.None? then Some((400, "Tenant ID is required for Super Users"))
      else if f.tenantId.value !in m.tenants || m.tenants[f.tenantId.value].status != Active then
        Some((400, "Invalid or inactive tenant"))
      else None
    else if f.tenantId.Some? then Some((400, "System Users cannot be assigned to a tenant"))
    else None
  }

  /**
   * `createSystemUser`: a refused request changes nothing; an admitted one
   * adds exactly one user under a fresh id, with the lower-cased e-mail, the
   * requested role, no tenant for a system user and the requested active
   * tenant for a super user. The initial password is the supplied one, or a
   * generated alphanumeric one, and `passwordGenerated` says which.
   */
  function CreateSystemUser(m: Master, caller: Principal, f: UserForm, random: string): (r: (Master, Response<Created>))
    requires Valid(m)
    ensures Valid(r.0)
    ensures r.1.Refused? <==> Refusal(m, caller, f).Some?
    ensures r.1.Refused? ==> r.0 == m && r.1 == Refused(Refusal(m, caller, f).value.0, Refusal(m, caller, f).value.1)
    ensures r.1.Reply? ==>
              var c := r.1.body;
              r.1.code == 201 && c.userId !in m.users && c.userId !in m.tenants
              && r.0 == m.(users := m.users[c.userId := c.user], nextId := r.0.nextId)
              && c.user.username == f.username.value && c.user.email == Some(Lower(f.email.value))
              && Some(c.user.role) == ParseRole(f.role)
              && (c.user.role == SystemRole ==> c.user.tenantId.None?)
              && (c.user.role == SuperRole ==> c.user.tenantId == f.tenantId && c.user.tenantId.value in m.tenants
                                                && m.tenants[c.user.tenantId.value].status == Active)
              && (c.passwordGenerated <==> !TenantSetup.Present(f.password))
              && (c.passwordGenerated ==> forall i :: 0 <= i < |c.initialPassword| ==> IsAlnum(c.initialPassword[i]))
              && (!c.passwordGenerated ==> c.initialPassword == f.password.value)
  {
    match Refusal(m, caller, f)
    case Some((code, msg)) => (m, Refused(code, msg))
    case None =>
      var role := ParseRole(f.role).value;
      var user := User(f.username.value, Some(Lower(f.email.value)), role, if role == SystemRole then None else f.tenantId);
      var generated := !TenantSetup.Present(f.password);
      var password := if generated then GeneratedPassword(random) else f.password.value;
      var id := m.nextId;
      (Master(m.tenants, m.users[id := user], id + 1), Reply(201, Created(id, user, generated, password)))
  }

  /** No two accounts share a username or an e-mail. */
  predicate UniqueAccounts(m: Master)
  {
    forall a, b :: a in m.users && b in m.users && a != b ==>
      m.users[a].username != m.users[b].username
      && (m.users[a].email.None? || m.users[a].email != m.users[b].email)
  }

  /** Creating an account keeps usernames and e-mails unique. */
  lemma CreationKeepsAccountsUnique(m: Master, caller: Principal, f: UserForm, random: string)
    requires Valid(m) && UniqueAccounts(m)
    ensures UniqueAccounts(CreateSystemUser(m, caller, f, random).0)
  {
    var (m', resp) := CreateSystemUser(m, caller, f, random);
    if resp.Reply? {
      var c := resp.body;
      forall a, b | a in m'.users && b in m'.users && a != b
        ensures m'.users[a].username != m'.users[b].username
        ensures m'.users[a].email.None? || m'.users[a].email != m'.users[b].email
      {
        if a == c.userId {
          assert !UsernameTaken(m, f.username.value) && !EmailTaken(m, f.email.value);
          assert m'.users[b] == m.users[b];
        } else if b == c.userId {
          assert !UsernameTaken(m, f.username.value) && !EmailTaken(m, f.email.value);
          assert m'.users[a] == m.users[a];
        }
      }
    }
  }

  /** Repeating a successful request is refused: the username is now taken. */
  lemma SecondCreationRefused(m: Master, caller: Principal, f: UserForm, random: string, random2: string)
    requires Valid(m) && CreateSystemUser(m, caller, f, random).1.Reply?
    ensures var m' := CreateSystemUser(m, caller, f, random).0;
            CreateSystemUser(m', caller, f, random2) == (m', Refused(400, "Username already exists"))
  {
    var (m', resp) := CreateSystemUser(m, caller, f, random);
    assert m'.users[resp.body.userId].username == f.username.value;
    assert UsernameTaken(m', f.username.value);
  }
}
