/**
 * The master tables of the row backend (db/masterDb.js): tenants and users
 * stored as generic rows, written through `toRow` and read through `fromRow`.
 * Rows are kept in a `Table` whose ids grow with insertion, so natural order
 * is id order and `created_at` order is id order.
 */
module MasterDb {
  import opened Wrappers
  import opened Text
  import opened Calendar
  import opened Helpers
  import opened TenantDb

  // ---------- keys ----------

  /** The shape of an object read by `fromRow`: one binding per key, no `_` except in `_id`. */
  predicate CamelFields(o: Obj)
  {
    UniqueKeys(o) && forall i :: 0 <= i < |o| ==> CamelShaped(o[i].0)
  }

  /** A camelCase word followed by a capitalised word renames to `word_word`. */
  lemma SnakeTwoWords(a: string, c: char, b: string)
    requires NoUpper(a) && NoUpper(b) && IsUpper(c)
    ensures SnakeKey(a + [c] + b) == a + ['_', LowerChar(c)] + b
  {
    SnakeAppend(a, [c] + b);
    assert a + [c] + b == a + ([c] + b);
    assert ([c] + b)[1..] == b;
    SnakeOfLower(a);
    SnakeOfLower(b);
  }

  lemma SnakeUpdatedAt()
    ensures SnakeKey("updatedAt") == "updated_at"
  {
    assert NoUpper("updated") && NoUpper("t");
    SnakeTwoWords("updated", 'A', "t");
    assert "updatedAt" == "updated" + ['A'] + "t";
    assert "updated" + ['_', LowerChar('A')] + "t" == "updated_at";
  }

  lemma SnakePasswordHash()
    ensures SnakeKey("passwordHash") == "password_hash"
  {
    assert NoUpper("password") && NoUpper("ash");
    SnakeTwoWords("password", 'H', "ash");
    assert "passwordHash" == "password" + ['H'] + "ash";
    assert "password" + ['_', LowerChar('H')] + "ash" == "password_hash";
  }

  lemma SnakeDatabaseName()
    ensures SnakeKey("databaseName") == "database_name"
  {
    assert NoUpper("database") && NoUpper("ame");
    SnakeTwoWords("database", 'N', "ame");
    assert "databaseName" == "database" + ['N'] + "ame";
    assert "database" + ['_', LowerChar('N')] + "ame" == "database_name";
  }

  /** A key shaped like the ones `fromRow` produces. */
  predicate CamelShaped(x: string) { x == "_id" || !Has(x, '_') }

  /** Distinct camelCase keys rename to distinct columns. */
  lemma SnakeDistinct(x: string, k: string)
    requires CamelShaped(x) && x != k
    requires !Has(k, '_') && k != [] && !IsUpper(k[0])
    ensures SnakeKey(x) != SnakeKey(k)
  {
    assert SnakeKey(k)[0] == k[0];
    assert k[0] != '_';
    if x == "_id" {
      assert SnakeKey(x)[0] == '_';
    } else {
      CamelInvertsSnake(x);
      CamelInvertsSnake(k);
    }
  }

  lemma CamelColumn(o: Obj, k: string)
    requires CamelFields(o)
    requires !Has(k, '_') && k != [] && !IsUpper(k[0])
    ensures forall i :: 0 <= i < |o| && SnakeKey(o[i].0) == SnakeKey(k) ==> o[i].0 == k
  {
    forall i | 0 <= i < |o| && o[i].0 != k ensures SnakeKey(o[i].0) != SnakeKey(k) {
      SnakeDistinct(o[i].0, k);
    }
  }

  /** A defined value read from an object is bound in it. */
  lemma DefinedIsBound(o: Obj, k: string)
    requires Get(o, k) != Undefined
    ensures HasKey(o, k)
  {
    if !HasKey(o, k) { GetAbsent(o, k); }
  }

  lemma LowerStart(k: string)
    requires k != [] && IsLower(k[0])
    ensures !IsUpper(k[0])
  {
  }

  // ---------- findTenant ----------

  /** SQL reads a column a row does not bind as null. */
  predicate IsNull(v: Value) { v == Null || v == Undefined }

  /**
   * One entry of a `findTenant` query as a test on a row: an undefined value
   * tests nothing, null tests the snake_case column for null, anything else
   * for equality.
   */
  predicate EntryHolds(row: Obj, e: (string, Value))
  {
    if e.1 == Undefined then true
    else if e.1 == Null then IsNull(Get(row, SnakeKey(e.0)))
    else Get(row, SnakeKey(e.0)) == e.1
  }

  predicate MasterMatches(row: Obj, query: Obj)
  {
    forall i :: 0 <= i < |query| ==> EntryHolds(row, query[i])
  }

  /** `findTenant(query)`: every tenant row passing every entry's test, in natural order, renamed. */
  function FindTenant(tb: Table, query: Obj): (r: seq<Obj>)
    ensures var ids := SelectAsc(tb.rows, row => MasterMatches(row, query), tb.nextId);
            r == Rows(tb.rows, ids)
            && (forall i :: 0 <= i < |ids| ==> ids[i] in tb.rows && MasterMatches(tb.rows[ids[i]], query))
            && (forall id :: id in tb.rows && id < tb.nextId && MasterMatches(tb.rows[id], query) ==> id in ids)
            && (forall i, j :: 0 <= i < j < |ids| ==> ids[i] < ids[j])
  {
    Rows(tb.rows, SelectAsc(tb.rows, row => MasterMatches(row, query), tb.nextId))
  }

  /** Query entries with undefined values are skipped; a null entry is a null test on its column. */
  lemma QueryEntryMeaning(row: Obj, query: Obj, k: string, v: Value)
    ensures MasterMatches(row, query + [(k, Undefined)]) <==> MasterMatches(row, query)
    ensures MasterMatches(row, query + [(k, Null)]) <==> MasterMatches(row, query) && IsNull(Get(row, SnakeKey(k)))
    ensures v != Undefined && v != Null ==>
              (MasterMatches(row, query + [(k, v)]) <==> MasterMatches(row, query) && Get(row, SnakeKey(k)) == v)
  {
    var q1 := query + [(k, Undefined)];
    var q2 := query + [(k, Null)];
    var q3 := query + [(k, v)];
    assert forall i :: 0 <= i < |query| ==> q1[i] == query[i] && q2[i] == query[i] && q3[i] == query[i];
    assert q1[|query|] == (k, Undefined) && q2[|query|] == (k, Null) && q3[|query|] == (k, v);
  }

  /** `findTenants(filter)`: newest first, by status when one is given, live only when asked. */
  function FindTenants(tb: Table, status: Option<string>, liveOnly: bool): (r: seq<Obj>)
    ensures var p := (row: Obj) => (status.Some? && status.value != [] ==> Get(row, "status") == Str(status.value))
                                   && (liveOnly ==> IsNull(Get(row, "deleted_at")));
            var ids := SelectDesc(tb.rows, p, tb.nextId);
            r == Rows(tb.rows, ids)
            && (forall id :: id in tb.rows && id < tb.nextId && p(tb.rows[id]) ==> id in ids)
            && (forall i, j :: 0 <= i < j < |ids| ==> ids[i] > ids[j])
  {
    var p := (row: Obj) => (status.Some? && status.value != [] ==> Get(row, "status") == Str(status.value))
                           && (liveOnly ==> IsNull(Get(row, "deleted_at")));
    Rows(tb.rows, SelectDesc(tb.rows, p, tb.nextId))
  }

  // ---------- tenant writes ----------

  /** The columns `createTenant` writes: the row of the fields other than `databaseName`. */
  function TenantRow(fields: Obj): (r: Obj)
    ensures forall i :: 0 <= i < |r| ==> r[i].1 != Undefined && DerivedFrom(r[i], fields, {"databaseName"})
  {
    var rest := Drop(fields, "databaseName");
    var cols := ToRow(Some(rest), {});
    forall i | 0 <= i < |cols| ensures DerivedFrom(cols[i], fields, {"databaseName"}) {
      DroppedDerived(fields, cols[i]);
    }
    cols
  }

  lemma DroppedDerived(fields: Obj, e: (string, Value))
    requires DerivedFrom(e, Drop(fields, "databaseName"), {})
    ensures DerivedFrom(e, fields, {"databaseName"})
  {
    var rest := Drop(fields, "databaseName");
    var j :| 0 <= j < |rest| && Kept(rest[j], {}) && e == (SnakeKey(rest[j].0), rest[j].1);
    DropRemoves(fields, "databaseName", j);
    assert rest[j] in fields;
    var j' :| 0 <= j' < |fields| && fields[j'] == rest[j];
    assert Kept(fields[j'], {"databaseName"});
  }

  lemma NotDatabaseName(fields: Obj, e: (string, Value))
    requires CamelFields(fields) && DerivedFrom(e, fields, {"databaseName"})
    ensures e.0 != SnakeKey("databaseName")
  {
    var j :| 0 <= j < |fields| && Kept(fields[j], {"databaseName"}) && e == (SnakeKey(fields[j].0), fields[j].1);
    assert fields[j].0 != "databaseName";
    SnakeDistinct(fields[j].0, "databaseName");
  }

  /** For camelCase fields, the tenant row has no `database_name` column. */
  lemma TenantRowOmitsDatabaseName(fields: Obj)
    requires CamelFields(fields)
    ensures !HasKey(TenantRow(fields), "database_name")
  {
    var cols := TenantRow(fields);
    SnakeDatabaseName();
    forall i | 0 <= i < |cols| ensures cols[i].0 != "database_name" {
      NotDatabaseName(fields, cols[i]);
    }
  }

  /** `createTenant(fields)`: the tenant row stored under a fresh id. */
  function CreateTenant(tb: Table, fields: Obj): (r: (Table, Obj))
    requires TableValid(tb)
    ensures TableValid(r.0) && r.0.nextId == tb.nextId + 1
    ensures r.0.rows == tb.rows[tb.nextId := TenantRow(fields) + [("id", Num(tb.nextId))]]
    ensures Get(r.0.rows[tb.nextId], "id") == Num(tb.nextId)
    ensures Get(r.1, "_id") == Num(tb.nextId)
  {
    var row := TenantRow(fields) + [("id", Num(tb.nextId))];
    (Table(tb.rows[tb.nextId := row], tb.nextId + 1), FromRow(Some(row)).value)
  }

  /** For a camelCase object, the stored tenant row has no `database_name` column. */
  lemma CreateTenantOmitsDatabaseName(tb: Table, fields: Obj)
    requires TableValid(tb) && CamelFields(fields)
    ensures Get(CreateTenant(tb, fields).0.rows[tb.nextId], "database_name") == Undefined
  {
    var cols := TenantRow(fields);
    var row := cols + [("id", Num(tb.nextId))];
    TenantRowOmitsDatabaseName(fields);
    GetAbsent(cols, "database_name");
    assert row[..|row| - 1] == cols;
  }

  /** The patch `updateTenant` writes: the fields plus `updatedAt`, never `id`. */
  function TenantPatch(fields: Obj, now: Moment): Obj
  {
    ToRow(Some(Set(fields, "updatedAt", Time(now))), {"id"})
  }

  /**
   * `updateTenant(id, fields)`: the row with that id gets the fields and a
   * fresh `updated_at`; a missing row fails the single-row read.
   */
  function UpdateTenant(tb: Table, id: nat, fields: Obj, now: Moment): (r: Result<(Table, Obj), DbError>)
    requires TableValid(tb) && CamelFields(fields)
    ensures r.Ok? <==> id in tb.rows
    ensures r.Ok? ==> id in r.value.0.rows
    ensures r.Ok? ==>
              var row := r.value.0.rows[id];
              TableValid(r.value.0) && r.value.0.nextId == tb.nextId
              && r.value.0.rows.Keys == tb.rows.Keys
              && (forall k :: k in tb.rows && k != id ==> r.value.0.rows[k] == tb.rows[k])
              && Get(row, "updated_at") == Time(now)
              && Get(row, "id") == Get(tb.rows[id], "id")
              && (forall c :: c != "updated_at" && (forall i :: 0 <= i < |fields| ==> SnakeKey(fields[i].0) != c)
                    ==> Get(row, c) == Get(tb.rows[id], c))
              && Some(r.value.1) == FromRow(Some(row))
  {
    if id !in tb.rows then Err(NoRow)
    else
      var patch := TenantPatch(fields, now);
      TenantPatchFacts(fields, now);
      var row := ApplyPatch(tb.rows[id], patch);
      Ok((Table(tb.rows[id := row], tb.nextId), FromRow(Some(row)).value))
  }

  lemma TenantPatchFacts(fields: Obj, now: Moment)
    requires CamelFields(fields)
    ensures HasKey(TenantPatch(fields, now), "updated_at") && Get(TenantPatch(fields, now), "updated_at") == Time(now)
    ensures !HasKey(TenantPatch(fields, now), "id")
    ensures forall c :: c != "updated_at" && (forall i :: 0 <= i < |fields| ==> SnakeKey(fields[i].0) != c)
              ==> !HasKey(TenantPatch(fields, now), c)
  {
    var o := Set(fields, "updatedAt", Time(now));
    var patch := TenantPatch(fields, now);
    PlainUpdatedAt();
    SnakeUpdatedAt();
    StampedCamel(fields, "updatedAt", Time(now));
    StampedColumn(o, now);
    DefinedIsBound(patch, "updated_at");
    ToRowNeverWritesId(Some(o), {"id"});
    forall i | 0 <= i < |patch|
      ensures patch[i].0 == "updated_at" || exists j :: 0 <= j < |fields| && SnakeKey(fields[j].0) == patch[i].0
    {
      assert DerivedFrom(patch[i], o, {"id"});
      var j :| 0 <= j < |o| && Kept(o[j], {"id"}) && patch[i] == (SnakeKey(o[j].0), o[j].1);
      SetKeys(fields, "updatedAt", Time(now), j);
    }
  }

  lemma PlainUpdatedAt()
    ensures !Has("updatedAt", '_') && "updatedAt" != [] && !IsUpper("updatedAt"[0])
  {
    var k := "updatedAt";
    forall i | 0 <= i < |k| ensures k[i] != '_' { }
  }

  /** Setting a camelCase key keeps an object's keys camelCase and unique. */
  lemma StampedCamel(fields: Obj, k: string, v: Value)
    requires CamelFields(fields) && CamelShaped(k)
    ensures CamelFields(Set(fields, k, v))
  {
    var o := Set(fields, k, v);
    SetKeepsUniqueKeys(fields, k, v);
    forall i | 0 <= i < |o| ensures CamelShaped(o[i].0) {
      SetKeys(fields, k, v, i);
    }
  }

  /** The stamp lands in the `updated_at` column. */
  lemma StampedColumn(o: Obj, now: Moment)
    requires CamelFields(o) && Get(o, "updatedAt") == Time(now)
    requires !Has("updatedAt", '_') && "updatedAt" != [] && !IsUpper("updatedAt"[0])
    requires SnakeKey("updatedAt") == "updated_at"
    ensures Get(ToRow(Some(o), {"id"}), "updated_at") == Time(now)
  {
    CamelColumn(o, "updatedAt");
    assert "updatedAt" !in Skip({"id"});
    ToRowColumn(o, {"id"}, "updatedAt", "updated_at");
  }

  // ---------- users ----------

  /** `createUser(fields)`: the row, with an empty-string tenant stored as null. */
  function UserRow(fields: Obj): (row: Obj)
    ensures Get(row, TenantColumn) != Str([])
    ensures Get(ToRow(Some(fields), {}), TenantColumn) == Str([]) ==> Get(row, TenantColumn) == Null
    ensures forall c :: c != TenantColumn ==> Get(row, c) == Get(ToRow(Some(fields), {}), c)
  {
    var row := ToRow(Some(fields), {});
    if Get(row, TenantColumn) == Str([]) then Set(row, TenantColumn, Null) else row
  }

  function CreateUser(tb: Table, fields: Obj): (r: (Table, Obj))
    requires TableValid(tb)
    ensures TableValid(r.0) && r.0.nextId == tb.nextId + 1
    ensures r.0.rows == tb.rows[tb.nextId := UserRow(fields) + [("id", Num(tb.nextId))]]
    ensures Get(r.0.rows[tb.nextId], TenantColumn) != Str([])
    ensures Get(r.1, "_id") == Num(tb.nextId)
  {
    var row := UserRow(fields) + [("id", Num(tb.nextId))];
    assert row[..|row| - 1] == UserRow(fields);
    (Table(tb.rows[tb.nextId := row], tb.nextId + 1), FromRow(Some(row)).value)
  }

  /** `updateUser(id, fields)`: the fields except `id` and `passwordHash`. */
  function UpdateUser(tb: Table, id: nat, fields: Obj): (r: Result<(Table, Obj), DbError>)
    requires TableValid(tb)
    ensures r.Ok? <==> id in tb.rows
    ensures r.Ok? ==> TableValid(r.value.0) && r.value.0.nextId == tb.nextId
                      && r.value.0.rows == tb.rows[id := ApplyPatch(tb.rows[id], ToRow(Some(fields), {"id", "passwordHash"}))]
                      && Get(r.value.0.rows[id], "id") == Get(tb.rows[id], "id")
  {
    if id !in tb.rows then Err(NoRow)
    else
      var patch := ToRow(Some(fields), {"id", "passwordHash"});
      ToRowNeverWritesId(Some(fields), {"id", "passwordHash"});
      var row := ApplyPatch(tb.rows[id], patch);
      Ok((Table(tb.rows[id := row], tb.nextId), FromRow(Some(row)).value))
  }

  /** For camelCase fields, a user update never changes the stored password hash. */
  lemma UpdateUserKeepsPassword(tb: Table, id: nat, fields: Obj)
    requires TableValid(tb) && CamelFields(fields) && id in tb.rows
    ensures Get(UpdateUser(tb, id, fields).value.0.rows[id], "password_hash") == Get(tb.rows[id], "password_hash")
  {
    var patch := ToRow(Some(fields), {"id", "passwordHash"});
    var r := UpdateUser(tb, id, fields);
    PatchOmitsPasswordHash(fields);
    assert r.value.0.rows[id] == ApplyPatch(tb.rows[id], patch);
    PatchKeeps(tb.rows[id], patch, "password_hash");
  }

  lemma PatchKeeps(stored: Obj, patch: Obj, c: string)
    requires !HasKey(patch, c)
    ensures Get(ApplyPatch(stored, patch), c) == Get(stored, c)
  {
  }

  /** The patch of camelCase fields has no `password_hash` column: `passwordHash` is the one field that would map to it. */
  lemma PatchOmitsPasswordHash(fields: Obj)
    requires CamelFields(fields)
    ensures !HasKey(ToRow(Some(fields), {"id", "passwordHash"}), "password_hash")
  {
    SnakePasswordHash();
    PlainPasswordHash();
    ExcludedColumnAbsent(fields, {"id", "passwordHash"}, "passwordHash");
  }

  lemma PlainPasswordHash()
    ensures !Has("passwordHash", '_') && "passwordHash" != [] && !IsUpper("passwordHash"[0])
  {
    var k := "passwordHash";
    forall i | 0 <= i < |k| ensures k[i] != '_' { }
  }

  /** A field the write excludes leaves no column of its snake_case name, since no other camelCase field renames to it. */
  lemma ExcludedColumnAbsent(fields: Obj, exclude: set<string>, k: string)
    requires CamelFields(fields) && k in exclude
    requires !Has(k, '_') && k != [] && !IsUpper(k[0])
    ensures !HasKey(ToRow(Some(fields), exclude), SnakeKey(k))
  {
    var patch := ToRow(Some(fields), exclude);
    forall i | 0 <= i < |patch| ensures patch[i].0 != SnakeKey(k) {
      assert DerivedFrom(patch[i], fields, exclude);
      var j :| 0 <= j < |fields| && Kept(fields[j], exclude) && patch[i] == (SnakeKey(fields[j].0), fields[j].1);
      SnakeDistinct(fields[j].0, k);
    }
  }

  /** `updateUserPassword(id, hash)`: the one write that sets the password hash, and nothing else. */
  function UpdateUserPassword(tb: Table, id: nat, hash: string): (r: Result<Table, DbError>)
    ensures r.Ok? <==> id in tb.rows
    ensures r.Ok? ==> r.value.nextId == tb.nextId && r.value.rows.Keys == tb.rows.Keys
                      && (forall k :: k in tb.rows && k != id ==> r.value.rows[k] == tb.rows[k])
                      && Get(r.value.rows[id], "password_hash") == Str(hash)
                      && forall c :: c != "password_hash" ==> Get(r.value.rows[id], c) == Get(tb.rows[id], c)
  {
    if id !in tb.rows then Err(NoRow)
    else Ok(Table(tb.rows[id := Set(tb.rows[id], "password_hash", Str(hash))], tb.nextId))
  }

  /** `getUserByEmail(email)`: nothing for a missing or empty email, else the user with the lower-cased email. */
  function GetUserByEmail(tb: Table, email: Option<string>): (r: Option<Obj>)
    ensures email.None? || email.value == [] ==> r.None?
    ensures email.Some? && email.value != [] ==>
              (r.None? <==> forall id :: id in tb.rows && id < tb.nextId ==> Get(tb.rows[id], "email") != Str(Lower(email.value)))
    ensures r.Some? ==> exists id :: id in tb.rows && Get(tb.rows[id], "email") == Str(Lower(email.value))
                                     && r == FromRow(Some(tb.rows[id]))
  {
    if email.None? || email.value == [] then None
    else
      var e := Lower(email.value);
      var ids := SelectAsc(tb.rows, row => Get(row, "email") == Str(e), tb.nextId);
      if ids == [] then None else FromRow(Some(tb.rows[ids[0]]))
  }

  /** The email lookup ignores letter case. */
  lemma EmailLookupIgnoresCase(tb: Table, email: string)
    ensures GetUserByEmail(tb, Some(email)) == GetUserByEmail(tb, Some(Lower(email)))
  {
    LowerIdempotent(email);
  }

  /** `findUsers(filter)`: all users, those without a tenant (null), or those of one tenant. */
  function FindUsers(tb: Table, tenant: Value): (r: seq<Obj>)
    ensures var p := (row: Obj) => tenant == Undefined || (if tenant == Null then IsNull(Get(row, TenantColumn)) else Get(row, TenantColumn) == tenant);
            r == Rows(tb.rows, SelectAsc(tb.rows, p, tb.nextId))
            && (forall id :: id in tb.rows && id < tb.nextId && p(tb.rows[id]) ==> FromRow(Some(tb.rows[id])).value in r)
  {
    var p := (row: Obj) => tenant == Undefined || (if tenant == Null then IsNull(Get(row, TenantColumn)) else Get(row, TenantColumn) == tenant);
    var ids := SelectAsc(tb.rows, p, tb.nextId);
    var r := Rows(tb.rows, ids);
    assert forall id :: id in tb.rows && id < tb.nextId && p(tb.rows[id]) ==> FromRow(Some(tb.rows[id])).value in r by {
      forall id | id in tb.rows && id < tb.nextId && p(tb.rows[id]) ensures FromRow(Some(tb.rows[id])).value in r {
        var i :| 0 <= i < |ids| && ids[i] == id;
        assert r[i] == FromRow(Some(tb.rows[id])).value;
      }
    }
    r
  }

  // ---------- the tenant facade ----------

  /** `getTenantModelSupabase().findById(id)`. */
  function TenantFindById(tb: Table, id: nat): (r: Option<Obj>)
    requires TableValid(tb)
    ensures r.Some? <==> exists k :: k in tb.rows && Get(tb.rows[k], "id") == Num(id)
    ensures r.Some? ==> exists k :: k in tb.rows && Get(tb.rows[k], "id") == Num(id) && r == FromRow(Some(tb.rows[k]))
                                    && forall k' :: k' in tb.rows && k' < k ==> Get(tb.rows[k'], "id") != Num(id)
  {
    var ids := SelectAsc(tb.rows, row => Get(row, "id") == Num(id), tb.nextId);
    if ids == [] then None
    else
      var k := ids[0];
      assert forall k' :: k' in tb.rows && k' < k ==> Get(tb.rows[k'], "id") != Num(id);
      FromRow(Some(tb.rows[k]))
  }

  /** `getTenantModelSupabase().findOne(query)`: the first row `findTenant` returns, or nothing. */
  function TenantFindOne(tb: Table, query: Obj): (r: Option<Obj>)
    ensures r.None? <==> FindTenant(tb, query) == []
    ensures r.Some? ==> r.value == FindTenant(tb, query)[0]
    ensures r.Some? ==> exists id :: id in tb.rows && MasterMatches(tb.rows[id], query) && r == FromRow(Some(tb.rows[id]))
  {
    var list := FindTenant(tb, query);
    if list == [] then None
    else
      var ids := SelectAsc(tb.rows, row => MasterMatches(row, query), tb.nextId);
      assert list[0] == FromRow(Some(tb.rows[ids[0]])).value;
      Some(list[0])
  }
}
