/**
 * Database connection strings and the tenant connection cache
 * (utils/connectionManager.js, config/db.js).
 *
 * A connection string is `server/database?query`. Retargeting a string at
 * another database keeps its server part and its query and replaces (or adds)
 * the database path segment. The cache maps a database name to the connection
 * opened for it, with its readiness flag; whether opening a connection succeeds
 * is a parameter.
 */
module Connections {
  import opened Wrappers
  import opened Text

  // ---------- connection strings ----------

  /** The part of a connection string before its first `?`. */
  function BeforeQuery(u: string): string
  {
    Split(u, '?')[0]
  }

  /** The `?query` suffix of a connection string, or nothing when it has none. */
  function QueryPart(u: string): string
  {
    var parts := Split(u, '?');
    if |parts| > 1 then ['?'] + Join(parts[1..], '?') else []
  }

  /** The `/`-separated segments of the part before the query. */
  function Segments(u: string): (parts: seq<string>)
    ensures |parts| >= 1
  {
    Split(BeforeQuery(u), '/')
  }

  /** The database a connection string names: its last path segment. */
  function DatabaseOf(u: string): string
  {
    var parts := Segments(u);
    parts[|parts| - 1]
  }

  /**
   * The server part: everything before the database segment when there is one
   * (at least four segments and a last segment with neither `@` nor `:`, so
   * that `scheme://host` is not mistaken for a path), else the whole part
   * before the query.
   */
  function ServerPart(u: string): string
  {
    var parts := Segments(u);
    var last := parts[|parts| - 1];
    if |parts| >= 4 && !Has(last, '@') && !Has(last, ':') then Join(parts[..|parts| - 1], '/')
    else BeforeQuery(u)
  }

  /** `u` pointed at database `db`: server part, `/db`, then the original query. */
  function Retarget(u: string, db: string): (r: string)
  {
    ServerPart(u) + ['/'] + db + QueryPart(u)
  }

  /** A name that can stand as a database segment: no separator of any kind. */
  predicate PlainSegment(db: string)
  {
    !Has(db, '/') && !Has(db, '?') && !Has(db, '@') && !Has(db, ':')
  }

  /** Every connection string is its part before the query followed by its query. */
  lemma QuerySplit(u: string)
    ensures u == BeforeQuery(u) + QueryPart(u)
    ensures !Has(BeforeQuery(u), '?')
    ensures QueryPart(u) == [] || QueryPart(u)[0] == '?'
  {
    if Has(u, '?') {
      var i := FirstIndex(u, '?');
      var a, b := u[..i], u[i + 1..];
      assert u == a + ['?'] + b;
      SplitCons(a, b, '?');
      var parts := Split(u, '?');
      assert parts == [a] + Split(b, '?');
      assert parts[1..] == Split(b, '?');
      JoinSplit(b, '?');
      assert QueryPart(u) == ['?'] + b;
      assert BeforeQuery(u) == a;
    } else {
      SplitNoSep(u, '?');
      assert QueryPart(u) == [];
    }
  }

  /** A query-free head followed by a query: the head is the part before it, the query is kept. */
  lemma HeadAndQuery(a: string, q: string)
    requires !Has(a, '?')
    requires q == [] || q[0] == '?'
    ensures BeforeQuery(a + q) == a
    ensures QueryPart(a + q) == q
  {
    if q == [] {
      assert a + q == a;
      SplitNoSep(a, '?');
    } else {
      assert a + q == a + ['?'] + q[1..];
      SplitCons(a, q[1..], '?');
      JoinSplit(q[1..], '?');
      assert q == ['?'] + q[1..];
    }
  }

  /** The server part never holds a query. */
  lemma ServerPartNoQuery(u: string)
    ensures !Has(ServerPart(u), '?')
  {
    QuerySplit(u);
    var parts := Segments(u);
    var last := parts[|parts| - 1];
    if |parts| >= 4 && !Has(last, '@') && !Has(last, ':') {
      var init := parts[..|parts| - 1];
      forall j | 0 <= j < |init| ensures !Has(init[j], '?') {
        assert init[j] == parts[j];
        PartOfSplitLacks(BeforeQuery(u), '/', '?', j);
      }
      JoinLacks(init, '/', '?');
    }
  }

  /** A part of a split string lacks every character the string lacks. */
  lemma {:induction false} PartOfSplitLacks(s: string, sep: char, c: char, j: nat)
    requires !Has(s, c)
    requires j < |Split(s, sep)|
    ensures !Has(Split(s, sep)[j], c)
  {
    JoinSplit(s, sep);
    var parts := Split(s, sep);
    if Has(parts[j], c) {
      var k :| 0 <= k < |parts[j]| && parts[j][k] == c;
      JoinContainsParts(parts, sep, j, k);
      assert false;
    }
  }

  /** Every character of every part appears in the join. */
  lemma {:induction false} JoinContainsParts(parts: seq<string>, sep: char, j: nat, k: nat)
    requires j < |parts| && k < |parts[j]|
    ensures Has(Join(parts, sep), parts[j][k])
    decreases |parts|
  {
    var n := |parts|;
    if n == 1 {
      assert Join(parts, sep)[k] == parts[0][k];
    } else {
      var a := Join(parts[..n - 1], sep);
      var s := a + [sep] + parts[n - 1];
      if j < n - 1 {
        JoinContainsParts(parts[..n - 1], sep, j, k);
        var i :| 0 <= i < |a| && a[i] == parts[j][k];
        assert s[i] == a[i];
      } else {
        assert s[|a| + 1 + k] == parts[n - 1][k];
      }
    }
  }

  /** Retargeting keeps the server part, appends the new name, and keeps the query of the original string. */
  lemma RetargetKeepsQuery(u: string, db: string)
    requires !Has(db, '?')
    ensures BeforeQuery(Retarget(u, db)) == ServerPart(u) + ['/'] + db
    ensures QueryPart(Retarget(u, db)) == QueryPart(u)
  {
    var head := ServerPart(u) + ['/'] + db;
    ServerPartNoQuery(u);
    QuerySplit(u);
    assert !Has(head, '?') by {
      forall i | 0 <= i < |head| ensures head[i] != '?' {
        if i < |ServerPart(u)| { assert head[i] == ServerPart(u)[i]; }
        else if i > |ServerPart(u)| { assert head[i] == db[i - |ServerPart(u)| - 1]; }
      }
    }
    HeadAndQuery(head, QueryPart(u));
  }

  /** Retargeting names the new database and keeps the query of the original string. */
  lemma RetargetNamesDatabase(u: string, db: string)
    requires PlainSegment(db)
    ensures BeforeQuery(Retarget(u, db)) == ServerPart(u) + ['/'] + db
    ensures DatabaseOf(Retarget(u, db)) == db
    ensures QueryPart(Retarget(u, db)) == QueryPart(u)
  {
    RetargetKeepsQuery(u, db);
    SplitLastSegment(ServerPart(u), db, '/');
  }

  lemma RetargetFacts(u: string, db: string)
    ensures !Has(db, '?') ==> QueryPart(Retarget(u, db)) == QueryPart(u)
    ensures PlainSegment(db) ==> DatabaseOf(Retarget(u, db)) == db
  {
    if !Has(db, '?') { RetargetKeepsQuery(u, db); }
    if PlainSegment(db) { RetargetNamesDatabase(u, db); }
  }

  /**
   * Retargeting twice is retargeting once at the second database, for every
   * string whose part before the query has a scheme and a host (`a://b`).
   */
  lemma RetargetLastWins(u: string, db1: string, db2: string)
    requires PlainSegment(db1) && PlainSegment(db2)
    requires |Segments(u)| >= 3
    ensures Retarget(Retarget(u, db1), db2) == Retarget(u, db2)
  {
    var r := Retarget(u, db1);
    var s := ServerPart(u);
    RetargetNamesDatabase(u, db1);
    SplitLastSegment(s, db1, '/');
    assert Segments(r) == Split(s, '/') + [db1];
    ServerSegments(u);
    JoinSplit(s, '/');
    assert Segments(r)[..|Segments(r)| - 1] == Split(s, '/');
    assert ServerPart(r) == s;
  }

  /** The server part of a string with a scheme and a host still has at least three segments. */
  lemma ServerSegments(u: string)
    requires |Segments(u)| >= 3
    ensures |Split(ServerPart(u), '/')| >= 3
  {
    var parts := Segments(u);
    var last := parts[|parts| - 1];
    if |parts| >= 4 && !Has(last, '@') && !Has(last, ':') {
      var init := parts[..|parts| - 1];
      SplitLacksSep(BeforeQuery(u), '/');
      forall j | 0 <= j < |init| ensures !Has(init[j], '/') { assert init[j] == parts[j]; }
      SplitJoin(init, '/');
    }
  }

  // ---------- environment ----------

  /** The variables the connection code reads; an empty value counts as unset. */
  datatype Env = Env(mongodbUri: Option<string>, masterDbUri: Option<string>, masterDbName: Option<string>)

  predicate IsSet(v: Option<string>) { v.Some? && v.value != [] }

  /** `getMasterUri()`: the master database's connection string, if the environment names one. */
  function GetMasterUri(env: Env): (r: Option<string>)
    ensures IsSet(env.masterDbUri) ==> r == env.masterDbUri
    ensures !IsSet(env.masterDbUri) ==> (r.None? <==> !IsSet(env.mongodbUri))
    ensures !IsSet(env.masterDbUri) && IsSet(env.mongodbUri) && !IsSet(env.masterDbName) ==> r == env.mongodbUri
    ensures !IsSet(env.masterDbUri) && IsSet(env.mongodbUri) && IsSet(env.masterDbName) ==>
              r.Some? && (!Has(env.masterDbName.value, '?') ==> QueryPart(r.value) == QueryPart(env.mongodbUri.value))
              && (PlainSegment(env.masterDbName.value) ==> DatabaseOf(r.value) == env.masterDbName.value)
  {
    if IsSet(env.masterDbUri) then env.masterDbUri
    else if !IsSet(env.mongodbUri) then None
    else if !IsSet(env.masterDbName) then env.mongodbUri
    else
      var u, db := env.mongodbUri.value, env.masterDbName.value;
      RetargetFacts(u, db);
      Some(Retarget(u, db))
  }

  // ---------- the tenant connection cache ----------

  /** A connection: the string it was opened with and whether it is ready (`readyState === 1`). */
  datatype Conn = Conn(uri: string, ready: bool)

  type Pool = map<string, Conn>

  datatype ConnError = DatabaseNameRequired | BaseUriMissing | ConnectFailed

  /** The base string tenant connections are derived from. */
  function BaseUri(env: Env): (r: Option<string>)
    ensures r.Some? <==> IsSet(env.mongodbUri) || IsSet(env.masterDbUri)
    ensures r.Some? ==> r.value != [] && (r == env.mongodbUri || r == env.masterDbUri)
    ensures IsSet(env.mongodbUri) ==> r == env.mongodbUri
  {
    if IsSet(env.mongodbUri) then env.mongodbUri
    else if IsSet(env.masterDbUri) then env.masterDbUri
    else None
  }

  /** The connection string for a tenant database, as utils/connectionManager.js:42-44 builds it. */
  function TenantUriAsWritten(base: string, db: string): string
  {
    var parts := Split(base, '/');
    Join(parts[..|parts| - 1], '/') + ['/'] + db
  }

  /** As written, a base string without a database path loses its host. */
  lemma HostDroppedAsWritten(scheme: string, host: string, db: string)
    requires !Has(scheme, '/') && !Has(host, '/')
    ensures TenantUriAsWritten(scheme + ['/', '/'] + host, db) == scheme + ['/', '/'] + db
  {
    var base := scheme + ['/', '/'] + host;
    assert base == scheme + ['/'] + ([] + ['/'] + host);
    SplitCons(scheme, [] + ['/'] + host, '/');
    SplitCons([], host, '/');
    SplitNoSep(host, '/');
    var parts := Split(base, '/');
    assert parts == [scheme, [], host];
    assert parts[..2] == [scheme, []];
    assert Join([scheme, []], '/') == Join([scheme], '/') + ['/'] + [];
    assert Join([scheme], '/') == scheme;
    assert scheme + ['/'] + [] + ['/'] + db == scheme + ['/', '/'] + db;
  }

  /** Retargeting a base string without a database path keeps its host and appends the database. */
  lemma HostKeptByRetarget(scheme: string, host: string, db: string)
    requires !Has(scheme, '/') && !Has(host, '/')
    requires !Has(scheme, '?') && !Has(host, '?')
    ensures Retarget(scheme + ['/', '/'] + host, db) == scheme + ['/', '/'] + host + ['/'] + db
  {
    var base := scheme + ['/', '/'] + host;
    assert !Has(base, '?') by {
      forall i | 0 <= i < |base| ensures base[i] != '?' {
        if i < |scheme| { assert base[i] == scheme[i]; }
        else if i >= |scheme| + 2 { assert base[i] == host[i - |scheme| - 2]; }
      }
    }
    SplitNoSep(base, '?');
    assert BeforeQuery(base) == base && QueryPart(base) == [];
    assert base == scheme + ['/'] + ([] + ['/'] + host);
    SplitCons(scheme, [] + ['/'] + host, '/');
    SplitCons([], host, '/');
    SplitNoSep(host, '/');
    assert Segments(base) == [scheme, [], host];
    assert ServerPart(base) == base;
  }

  /** As written, the query of the base string is lost. */
  lemma QueryDroppedAsWritten(server: string, path: string, query: string, db: string)
    requires !Has(path, '/') && !Has(query, '/')
    ensures TenantUriAsWritten(server + ['/'] + path + ['?'] + query, db) == Join(Split(server, '/'), '/') + ['/'] + db
  {
    var tail := path + ['?'] + query;
    assert !Has(tail, '/') by {
      forall i | 0 <= i < |tail| ensures tail[i] != '/' {
        if i < |path| { assert tail[i] == path[i]; }
        else if i > |path| { assert tail[i] == query[i - |path| - 1]; }
      }
    }
    assert server + ['/'] + path + ['?'] + query == server + ['/'] + tail;
    SplitLastSegment(server, tail, '/');
  }

  /**
   * `getTenantConnection(name)`: the cached connection when it is ready;
   * otherwise the stale entry is dropped and a new connection is opened and
   * cached, unless opening fails (`connects` false) or no base string is set.
   */
  function GetTenantConnection(pool: Pool, name: string, env: Env, connects: bool): (r: (Pool, Result<Conn, ConnError>))
    ensures name == [] ==> r == (pool, Err(DatabaseNameRequired))
    ensures name != [] && name in pool && pool[name].ready ==> r == (pool, Ok(pool[name]))
    ensures forall k :: k != name ==> (k in r.0 <==> k in pool) && (k in pool ==> r.0[k] == pool[k])
    ensures r.1.Ok? ==> name in r.0 && r.0[name] == r.1.value && r.1.value.ready
    ensures r.1.Err? && name != [] ==> name !in r.0
    ensures name != [] && !(name in pool && pool[name].ready) ==>
              (r.1.Ok? <==> BaseUri(env).Some? && connects)
              && (r.1.Ok? ==> r.1.value.uri == Retarget(BaseUri(env).value, name))
  {
    if name == [] then (pool, Err(DatabaseNameRequired))
    else if name in pool && pool[name].ready then (pool, Ok(pool[name]))
    else
      var kept := pool - {name};
      match BaseUri(env)
      case None => (kept, Err(BaseUriMissing))
      case Some(base) =>
        if !connects then (kept, Err(ConnectFailed))
        else
          var c := Conn(Retarget(base, name), true);
          (kept[name := c], Ok(c))
  }

  /** A connection obtained once is reused on the next request, whatever that attempt would do. */
  lemma ConnectionReused(pool: Pool, name: string, env: Env, connects: bool, env2: Env, connects2: bool)
    requires GetTenantConnection(pool, name, env, connects).1.Ok?
    ensures var (p1, c1) := GetTenantConnection(pool, name, env, connects);
            GetTenantConnection(p1, name, env2, connects2) == (p1, c1)
  {
  }

  /** `closeTenantConnection(name)`: only that entry leaves the cache. */
  function CloseTenantConnection(pool: Pool, name: string): (r: Pool)
    ensures r.Keys == pool.Keys - {name}
    ensures forall k :: k in r ==> r[k] == pool[k]
  {
    if name in pool then pool - {name} else pool
  }

  /** `closeAllTenantConnections()`: the cache is emptied, whatever it held. */
  function CloseAllTenantConnections(pool: Pool): (r: Pool)
    ensures |r| == 0
  {
    map[]
  }

  /** `getActiveConnections()`: the names of all cached connections. */
  function GetActiveConnections(pool: Pool): (r: set<string>)
    ensures forall k :: k in r <==> k in pool
  {
    pool.Keys
  }

  /** `cleanupIdleConnections()`: exactly the entries that are not ready are closed. */
  function CleanupIdleConnections(pool: Pool): (r: Pool)
    ensures forall k :: k in r <==> k in pool && pool[k].ready
    ensures forall k :: k in r ==> r[k] == pool[k]
  {
    map k | k in pool && pool[k].ready :: pool[k]
  }

  /** After cleanup every cached connection is reused as it stands. */
  lemma CleanupLeavesReusable(pool: Pool, name: string, env: Env, connects: bool)
    requires name != [] && name in CleanupIdleConnections(pool)
    ensures var p := CleanupIdleConnections(pool);
            GetTenantConnection(p, name, env, connects) == (p, Ok(pool[name]))
  {
  }

  // ---------- the master connection ----------

  datatype MasterError = MasterUriMissing | MasterConnectFailed

  /**
   * `connectMasterDB()`: the held master connection when it is ready; otherwise
   * a new one is opened from the master string and held even if opening fails.
   */
  function ConnectMasterDb(held: Option<Conn>, env: Env, connects: bool): (r: (Option<Conn>, Result<Conn, MasterError>))
    ensures held.Some? && held.value.ready ==> r == (held, Ok(held.value))
    ensures !(held.Some? && held.value.ready) ==>
              (r.1.Ok? <==> GetMasterUri(env).Some? && connects)
              && (GetMasterUri(env).None? ==> r == (held, Err(MasterUriMissing)))
              && (GetMasterUri(env).Some? ==> r.0 == Some(Conn(GetMasterUri(env).value, connects)))
    ensures r.1.Ok? ==> r.0 == Some(r.1.value) && r.1.value.ready
  {
    if held.Some? && held.value.ready then (held, Ok(held.value))
    else
      match GetMasterUri(env)
      case None => (held, Err(MasterUriMissing))
      case Some(uri) =>
        var c := Conn(uri, connects);
        (Some(c), if connects then Ok(c) else Err(MasterConnectFailed))
  }

  /** A ready master connection is reused on every later call. */
  lemma MasterConnectionReused(held: Option<Conn>, env: Env, connects: bool, env2: Env, connects2: bool)
    requires ConnectMasterDb(held, env, connects).1.Ok?
    ensures var (h, c) := ConnectMasterDb(held, env, connects);
            ConnectMasterDb(h, env2, connects2) == (h, c)
  {
  }
}
