/**
 * The migration that binds every tenant-less user to the demo tenant
 * (scripts/assignUsersToDemoTenant.js). The demo tenant is found or created
 * exactly as the context resolver does it. Whether the schema
 * initialisation and each user's save succeed are parameters; the logging
 * is left out.
 */
module DemoAssignment {
  import opened Wrappers
  import opened Accounts
  import opened TenantModel
  import opened TenantContext

  /** `User.find({ tenantId: null, role: { $ne: 'system' } })` */
  predicate Unassigned(u: User) { u.tenantId.None? && u.role != SystemRole }

  function UnassignedIds(users: map<nat, User>): (s: set<nat>)
    ensures forall u :: u in s <==> u in users && Unassigned(users[u])
  {
    set u | u in users && Unassigned(users[u])
  }

  function UnassignedBelow(users: map<nat, User>, n: nat): set<nat>
  {
    set u | u in users && u < n && Unassigned(users[u])
  }

  /** What the script returns: the demo tenant it used and how many users it moved. */
  datatype Summary = Summary(demoId: nat, name: string, slug: string, databaseName: string, usersAssigned: nat)

  /**
   * Where the loop of lines 68-73 stops: the first unassigned user (in
   * natural order) whose save fails, or `n` when every save succeeds.
   * `saves(u)` says whether user `u`'s save succeeds.
   */
  function Stop(users: map<nat, User>, n: nat, saves: nat -> bool): (k: nat)
    ensures k <= n
    ensures forall u :: u in users && u < k && Unassigned(users[u]) ==> saves(u)
    ensures k < n ==> k in users && Unassigned(users[k]) && !saves(k)
  {
    StopFrom(users, 0, n, saves)
  }

  function StopFrom(users: map<nat, User>, i: nat, n: nat, saves: nat -> bool): (k: nat)
    requires i <= n
    ensures i <= k <= n
    ensures forall u :: u in users && i <= u < k && Unassigned(users[u]) ==> saves(u)
    ensures k < n ==> k in users && Unassigned(users[k]) && !saves(k)
    decreases n - i
  {
    if i == n then n
    else if i in users && Unassigned(users[i]) && !saves(i) then i
    else StopFrom(users, i + 1, n, saves)
  }

  /**
   * Lines 58-73 up to id `k`: walk the users in natural order and give each
   * unassigned, non-system user below `k` the tenant `tid`, counting the saves.
   */
  method AssignBelow(users: map<nat, User>, k: nat, tid: nat) returns (users': map<nat, User>, count: nat)
    ensures users'.Keys == users.Keys
    ensures forall u :: u in users && Unassigned(users[u]) && u < k ==> users'[u] == users[u].(tenantId := Some(tid))
    ensures forall u :: u in users && !(Unassigned(users[u]) && u < k) ==> users'[u] == users[u]
    ensures count == |UnassignedBelow(users, k)|
  {
    users' := users;
    count := 0;
    var i := 0;
    while i < k
      invariant 0 <= i <= k
      invariant users'.Keys == users.Keys
      invariant forall u :: u in users && u < i && Unassigned(users[u]) ==> users'[u] == users[u].(tenantId := Some(tid))
      invariant forall u :: u in users && !(u < i && Unassigned(users[u])) ==> users'[u] == users[u]
      invariant count == |UnassignedBelow(users, i)|
    {
      BelowStep(users, i);
      if i in users && Unassigned(users[i]) {
        users' := users'[i := users[i].(tenantId := Some(tid))];
        count := count + 1;
      }
      i := i + 1;
    }
  }

  /** One more id counts one more user exactly when that id is an unassigned user. */
  lemma BelowStep(users: map<nat, User>, i: nat)
    ensures |UnassignedBelow(users, i + 1)| == |UnassignedBelow(users, i)| + (if i in users && Unassigned(users[i]) then 1 else 0)
  {
    var below := UnassignedBelow(users, i);
    if i in users && Unassigned(users[i]) {
      assert UnassignedBelow(users, i + 1) == below + {i};
    } else {
      assert UnassignedBelow(users, i + 1) == below;
    }
  }

  /** Past every user id, the walk has assigned everybody who was unassigned. */
  lemma AssignedEverybody(users: map<nat, User>, users': map<nat, User>, n: nat, tid: nat)
    requires forall u :: u in users ==> u < n
    requires users'.Keys == users.Keys
    requires forall u :: u in users && Unassigned(users[u]) && u < n ==> users'[u] == users[u].(tenantId := Some(tid))
    requires forall u :: u in users && !(Unassigned(users[u]) && u < n) ==> users'[u] == users[u]
    ensures UnassignedBelow(users, n) == UnassignedIds(users)
    ensures UnassignedIds(users') == {}
  {
    assert forall u :: u in users' ==> !Unassigned(users'[u]);
  }

  /** Ids beyond every user do not move where the loop stops, except that "nowhere" is the bound itself. */
  lemma {:induction false} StopBeyondUsers(users: map<nat, User>, i: nat, n: nat, n': nat, saves: nat -> bool)
    requires i <= n <= n' && forall u :: u in users ==> u < n
    ensures StopFrom(users, i, n, saves) < n ==> StopFrom(users, i, n', saves) == StopFrom(users, i, n, saves)
    ensures StopFrom(users, i, n, saves) == n ==> StopFrom(users, i, n', saves) == n'
    decreases n - i
  {
    if i == n {
      NoStopPastUsers(users, i, n', saves);
    } else {
      StopBeyondUsers(users, i + 1, n, n', saves);
    }
  }

  lemma {:induction false} NoStopPastUsers(users: map<nat, User>, i: nat, n': nat, saves: nat -> bool)
    requires i <= n' && forall u :: u in users ==> u < i
    ensures StopFrom(users, i, n', saves) == n'
    decreases n' - i
  {
    if i < n' {
      NoStopPastUsers(users, i + 1, n', saves);
    }
  }

  /**
   * The whole script: find or create the live demo tenant, initialising the
   * schema of one it creates, then assign every unassigned non-system user.
   * Any failure throws out with no summary, and what was saved before it
   * stays: a failed demo save changes nothing; a failed schema
   * initialisation keeps the new tenant and assigns nobody; a failed user
   * save keeps the tenant and the users assigned before it.
   */
  method AssignUsersToDemoTenant(m: Master, e: DemoEnv, schemaInitialises: bool, saves: nat -> bool)
    returns (m': Master, r: Option<Summary>)
    requires Valid(m)
    ensures Valid(m') && m'.users.Keys == m.users.Keys
    ensures forall k :: k in m.tenants ==> k in m'.tenants && m'.tenants[k] == m.tenants[k]
    ensures m'.tenants == FindOrCreateDemo(m, e).0.tenants
    ensures FindOrCreateDemo(m, e).1.None? ==> m' == m && r.None?
    ensures r.Some? ==> var s := r.value;
              s.demoId in m'.tenants && IsLiveDemo(m'.tenants[s.demoId], DemoSlug(e))
              && s.slug == DemoSlug(e) && s.usersAssigned == |UnassignedIds(m.users)|
    ensures r.Some? && r.value.demoId !in m.tenants ==> m'.tenants[r.value.demoId] == DemoTenant(e) && schemaInitialises
    ensures (exists k :: k in m.tenants && IsLiveDemo(m.tenants[k], DemoSlug(e))) ==> m'.tenants == m.tenants
    ensures (exists k :: k in m.tenants && IsLiveDemo(m.tenants[k], DemoSlug(e))) ==>
              (r.Some? <==> Stop(m.users, m.nextId, saves) == m.nextId)
    ensures var demo := FindOrCreateDemo(m, e).1;
              demo.Some? && (demo.value in m.tenants || schemaInitialises) ==>
              (r.Some? <==> Stop(m.users, m.nextId, saves) == m.nextId)
    ensures var demo := FindOrCreateDemo(m, e).1;
              demo.Some? && demo.value !in m.tenants && !schemaInitialises ==> r.None? && m'.users == m.users
    ensures r.Some? ==> forall u :: u in m.users && Unassigned(m.users[u]) ==>
              m'.users[u] == m.users[u].(tenantId := Some(r.value.demoId))
    ensures forall u :: u in m.users && !Unassigned(m.users[u]) ==> m'.users[u] == m.users[u]
    ensures forall u :: u in m.users && m'.users[u] != m.users[u] ==>
              Unassigned(m.users[u]) && u < Stop(m.users, m.nextId, saves)
              && m'.users[u].tenantId.Some? && m'.users[u] == m.users[u].(tenantId := m'.users[u].tenantId)
              && m'.users[u].tenantId.value in m'.tenants && IsLiveDemo(m'.tenants[m'.users[u].tenantId.value], DemoSlug(e))
    ensures r.Some? ==> UnassignedIds(m'.users) == {}
  {
    var (m1, demo) := FindOrCreateDemo(m, e);
    if demo.None? {
      return m, None;
    }
    var tid := demo.value;
    var t := m1.tenants[tid];
    if tid !in m.tenants && !schemaInitialises {
      return m1, None;
    }
    var k := Stop(m1.users, m1.nextId, saves);
    StopBeyondUsers(m.users, 0, m.nextId, m1.nextId, saves);
    var users, count := AssignBelow(m1.users, k, tid);
    m' := m1.(users := users);
    if k == m1.nextId {
      AssignedEverybody(m1.users, users, m1.nextId, tid);
      r := Some(Summary(tid, t.name, t.slug, t.databaseName, count));
    } else {
      r := None;
    }
  }

  /** Running the script a second time finds nobody left to assign. */
  method AssignTwice(m: Master, e: DemoEnv, schemaInitialises: bool, saves: nat -> bool)
    returns (first: Option<Summary>, second: Option<Summary>)
    requires Valid(m)
    ensures first.Some? && second.Some? ==> second.value.usersAssigned == 0
    ensures first.Some? ==> second.Some?
  {
    var m1, r1 := AssignUsersToDemoTenant(m, e, schemaInitialises, saves);
    var m2, r2 := AssignUsersToDemoTenant(m1, e, schemaInitialises, saves);
    first, second := r1, r2;
    if r1.Some? {
      assert IsLiveDemo(m1.tenants[r1.value.demoId], DemoSlug(e));
    }
  }
}
