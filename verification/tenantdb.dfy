/**
 * The tenant-scoped data facade (db/tenantDb.js): one shared table per entity,
 * every row carrying a `tenant_id` column, and a model object bound to one
 * tenant whose reads filter on that tenant and whose writes stamp it.
 *
 * A table is a map from row id to a snake_case row. Ids grow with insertion,
 * so descending id order stands for `created_at` descending.
 */
module TenantDb {
  import opened Wrappers
  import opened Text
  import opened Calendar
  import opened Helpers
  import Ordering
  import Grouping

  const TenantColumn: string := "tenant_id"
  const TenantKey: string := "tenantId"

  datatype Table = Table(rows: map<nat, Obj>, nextId: nat)

  predicate TableValid(tb: Table) { forall id :: id in tb.rows ==> id < tb.nextId }

  predicate OwnedBy(row: Obj, t: nat) { Get(row, TenantColumn) == Num(t) }

  /** The rows a tenant owns: everything the isolation results speak about. */
  function View(tb: Table, t: nat): (v: map<nat, Obj>)
    ensures forall id :: id in v <==> id in tb.rows && OwnedBy(tb.rows[id], t)
    ensures forall id :: id in v ==> v[id] == tb.rows[id]
  {
    map id | id in tb.rows && OwnedBy(tb.rows[id], t) :: tb.rows[id]
  }

  datatype DbError = NoRow | MissingTenant

  // ---------- selecting rows ----------

  /** The ids below `n` whose rows satisfy `p`, highest first. */
  function SelectDesc(rows: map<nat, Obj>, p: Obj -> bool, n: nat): (r: seq<nat>)
    ensures forall i :: 0 <= i < |r| ==> r[i] in rows && r[i] < n && p(rows[r[i]])
    ensures forall k :: k in rows && k < n && p(rows[k]) ==> k in r
    ensures forall i, j :: 0 <= i < j < |r| ==> r[i] > r[j]
  {
    if n == 0 then []
    else if n - 1 in rows && p(rows[n - 1]) then [n - 1] + SelectDesc(rows, p, n - 1)
    else SelectDesc(rows, p, n - 1)
  }

  /** The ids below `n` whose rows satisfy `p`, lowest first. */
  function SelectAsc(rows: map<nat, Obj>, p: Obj -> bool, n: nat): (r: seq<nat>)
    ensures forall i :: 0 <= i < |r| ==> r[i] in rows && r[i] < n && p(rows[r[i]])
    ensures forall k :: k in rows && k < n && p(rows[k]) ==> k in r
    ensures forall i, j :: 0 <= i < j < |r| ==> r[i] < r[j]
  {
    if n == 0 then []
    else if n - 1 in rows && p(rows[n - 1]) then SelectAsc(rows, p, n - 1) + [n - 1]
    else SelectAsc(rows, p, n - 1)
  }

  /** Two tables that agree on the selected rows below `n` select the same ids. */
  lemma {:induction false} SelectSame(r1: map<nat, Obj>, r2: map<nat, Obj>, p: Obj -> bool, n: nat)
    requires forall k :: k < n ==> ((k in r1 && p(r1[k])) <==> (k in r2 && p(r2[k])))
    ensures SelectDesc(r1, p, n) == SelectDesc(r2, p, n)
    ensures SelectAsc(r1, p, n) == SelectAsc(r2, p, n)
  {
    if n > 0 {
      SelectSame(r1, r2, p, n - 1);
    }
  }

  /** Ids above every stored key add nothing to a selection. */
  lemma {:induction false} SelectBeyond(rows: map<nat, Obj>, p: Obj -> bool, n: nat, m: nat)
    requires n <= m && forall k :: k in rows ==> k < n
    ensures SelectDesc(rows, p, m) == SelectDesc(rows, p, n)
    ensures SelectAsc(rows, p, m) == SelectAsc(rows, p, n)
    decreases m - n
  {
    if n < m {
      SelectBeyond(rows, p, n, m - 1);
    }
  }

  /**
   * The selection a tenant-filtered predicate makes depends on the tenant's
   * view only, whatever the other tenants hold and however far the shared id
   * counter has advanced.
   */
  lemma SelectSeesOnlyView(a: Table, b: Table, t: nat, p: Obj -> bool)
    requires TableValid(a) && TableValid(b) && View(a, t) == View(b, t)
    requires forall row :: p(row) ==> OwnedBy(row, t)
    ensures SelectDesc(a.rows, p, a.nextId) == SelectDesc(b.rows, p, b.nextId)
    ensures SelectAsc(a.rows, p, a.nextId) == SelectAsc(b.rows, p, b.nextId)
  {
    var n := if a.nextId < b.nextId then b.nextId else a.nextId;
    SelectBeyond(a.rows, p, a.nextId, n);
    SelectBeyond(b.rows, p, b.nextId, n);
    forall k | k < n ensures (k in a.rows && p(a.rows[k])) <==> (k in b.rows && p(b.rows[k])) {
      if k in a.rows && p(a.rows[k]) {
        assert k in View(a, t);
        assert b.rows[k] == View(b, t)[k] == a.rows[k];
      }
      if k in b.rows && p(b.rows[k]) {
        assert k in View(b, t);
        assert a.rows[k] == View(a, t)[k] == b.rows[k];
      }
    }
    SelectSame(a.rows, b.rows, p, n);
  }

  // ---------- generic reads ----------

  /** Each defined query entry except `$or` is an equality test on its snake_case column. */
  predicate MatchesQuery(row: Obj, query: Obj)
  {
    forall i :: 0 <= i < |query| && query[i].1 != Undefined && query[i].0 != "$or" ==>
      Get(row, SnakeKey(query[i].0)) == query[i].1
  }

  predicate Selected(row: Obj, t: nat, query: Obj) { OwnedBy(row, t) && MatchesQuery(row, query) }

  function Rows(rows: map<nat, Obj>, ids: seq<nat>): (r: seq<Obj>)
    requires forall i :: 0 <= i < |ids| ==> ids[i] in rows
    ensures |r| == |ids| && forall i :: 0 <= i < |ids| ==> Some(r[i]) == FromRow(Some(rows[ids[i]]))
  {
    seq(|ids|, i requires 0 <= i < |ids| => FromRow(Some(rows[ids[i]])).value)
  }

  /** `find(query)`: the tenant's rows matching the query, newest first, renamed by `fromRow`. */
  function Find(tb: Table, t: nat, query: Obj): (r: seq<Obj>)
    ensures var ids := SelectDesc(tb.rows, row => Selected(row, t, query), tb.nextId);
            r == Rows(tb.rows, ids)
            && (forall i :: 0 <= i < |ids| ==> ids[i] in View(tb, t) && MatchesQuery(tb.rows[ids[i]], query))
            && (forall id :: id in View(tb, t) && MatchesQuery(tb.rows[id], query) && id < tb.nextId ==> id in ids)
  {
    Rows(tb.rows, SelectDesc(tb.rows, row => Selected(row, t, query), tb.nextId))
  }

  /** `findById(id)`: the row only when it belongs to the tenant. */
  function FindById(tb: Table, t: nat, id: nat): (r: Option<Obj>)
    ensures r.Some? <==> id in View(tb, t)
    ensures r.Some? ==> r == FromRow(Some(tb.rows[id]))
  {
    if id in tb.rows && OwnedBy(tb.rows[id], t) then FromRow(Some(tb.rows[id])) else None
  }

  /** `findOne(query)`: the first matching row of the tenant in natural order, or null. */
  function FindOne(tb: Table, t: nat, query: Obj): (r: Option<Obj>)
    requires TableValid(tb)
    ensures r.None? <==> forall id :: id in View(tb, t) ==> !MatchesQuery(tb.rows[id], query)
    ensures r.Some? ==> exists id :: id in View(tb, t) && MatchesQuery(tb.rows[id], query) && r == FromRow(Some(tb.rows[id]))
  {
    var ids := SelectAsc(tb.rows, row => Selected(row, t, query), tb.nextId);
    if ids == [] then None
    else
      assert ids[0] in View(tb, t);
      FromRow(Some(tb.rows[ids[0]]))
  }

  /** Reads under tenant `t` observe nothing of other tenants' rows. */
  lemma ReadsSeeOnlyOwnTenant(a: Table, b: Table, t: nat, query: Obj, id: nat)
    requires TableValid(a) && TableValid(b) && View(a, t) == View(b, t)
    ensures Find(a, t, query) == Find(b, t, query)
    ensures FindById(a, t, id) == FindById(b, t, id)
    ensures FindOne(a, t, query) == FindOne(b, t, query)
  {
    var p := row => Selected(row, t, query);
    SelectSeesOnlyView(a, b, t, p);
    var ids := SelectDesc(a.rows, p, a.nextId);
    forall i | 0 <= i < |ids| ensures a.rows[ids[i]] == b.rows[ids[i]] {
      assert ids[i] in View(a, t);
    }
    var asc := SelectAsc(a.rows, p, a.nextId);
    if asc != [] {
      assert asc[0] in View(a, t);
    }
    if id in View(a, t) {
      assert a.rows[id] == b.rows[id];
    }
  }

  // ---------- writing rows ----------

  /** `o` without any binding of `k`. */
  function Drop(o: Obj, k: string): (r: Obj)
    ensures Get(r, k) == Undefined
    ensures forall k' :: k' != k ==> Get(r, k') == Get(o, k')
    ensures forall i :: 0 <= i < |r| ==> r[i] in o
  {
    if o == [] then []
    else
      var init := Drop(o[..|o| - 1], k);
      var e := o[|o| - 1];
      var r := if e.0 == k then init else init + [e];
      assert r != [] ==> r[..|r| - 1] == init || r == init;
      r
  }

  /** Every key of `fields` other than `tenantId` stays clear of the `tenant_id` column. */
  predicate NoRawTenantColumn(fields: Obj)
  {
    forall i :: 0 <= i < |fields| ==> fields[i].0 == TenantKey || SnakeKey(fields[i].0) != TenantColumn
  }

  /** The row `create` inserts as the source builds it: `toRow({ ...fields, tenantId: t })`. */
  function CreateRowAsWritten(t: nat, fields: Obj): (row: Obj)
    requires UniqueKeys(fields) && NoRawTenantColumn(fields)
    ensures OwnedBy(row, t)
    ensures forall i :: 0 <= i < |row| ==> row[i].1 != Undefined
  {
    var stamped := Set(fields, TenantKey, Num(t));
    SetKeepsUniqueKeys(fields, TenantKey, Num(t));
    assert SnakeKey(TenantKey) == TenantColumn by { SnakeTenantKey(); }
    forall i | 0 <= i < |stamped| && SnakeKey(stamped[i].0) == TenantColumn ensures stamped[i].0 == TenantKey {
      SetKeys(fields, TenantKey, Num(t), i);
    }
    assert TenantKey !in Skip({});
    ToRowColumn(stamped, {}, TenantKey, TenantColumn);
    ToRow(Some(stamped), {})
  }

  /** The same construction without the precondition, to exhibit what it lets through. */
  function StampAsWritten(t: nat, fields: Obj): Obj
  {
    ToRow(Some(Set(fields, TenantKey, Num(t))), {})
  }

  lemma StampAsWrittenAgrees(t: nat, fields: Obj)
    requires UniqueKeys(fields) && NoRawTenantColumn(fields)
    ensures StampAsWritten(t, fields) == CreateRowAsWritten(t, fields)
  {
  }

  /**
   * A caller object listing `tenantId` before a raw `tenant_id` keeps its own
   * tenant: the spread overwrites `tenantId` in place and `toRow` lets the
   * later `tenant_id` entry win.
   */
  lemma CreateStampCanBeOverridden()
    ensures var row := StampAsWritten(1, [("tenantId", Num(5)), ("tenant_id", Num(9))]);
            Get(row, TenantColumn) == Num(9) && !OwnedBy(row, 1)
  {
    StampOverwritesInPlace();
    BothEntriesRenamed();
    var row: Obj := [(TenantColumn, Num(1)), (TenantColumn, Num(9))];
    assert row[1].0 == TenantColumn;
  }

  /** The spread overwrites the caller's `tenantId` where it stands, ahead of the raw column. */
  lemma StampOverwritesInPlace()
    ensures Set([("tenantId", Num(5)), ("tenant_id", Num(9))], TenantKey, Num(1)) == [("tenantId", Num(1)), ("tenant_id", Num(9))]
  {
    var f: Obj := [("tenantId", Num(5)), ("tenant_id", Num(9))];
    assert HasKey(f, TenantKey) by { assert f[0].0 == TenantKey; }
    assert f[..1] == [("tenantId", Num(5))];
    assert Replace(f[..1], TenantKey, Num(1)) == [("tenantId", Num(1))] by {
      assert f[..1][..0] == [];
    }
  }

  /** Both entries survive `toRow` and both land in the tenant column, in order. */
  lemma BothEntriesRenamed()
    ensures ToRow(Some([("tenantId", Num(1)), ("tenant_id", Num(9))]), {}) == [(TenantColumn, Num(1)), (TenantColumn, Num(9))]
  {
    var e1, e2 := (TenantKey, Num(1)), (TenantColumn, Num(9));
    assert Kept(e1, {}) && Kept(e2, {});
    TwoKeptEntries(e1, e2, {});
    SnakeTenantKey();
    SnakeTenantColumn();
  }

  lemma TwoKeptEntries(a: (string, Value), b: (string, Value), exclude: set<string>)
    requires Kept(a, exclude) && Kept(b, exclude)
    ensures ToRowEntries([a, b], exclude) == [(SnakeKey(a.0), a.1), (SnakeKey(b.0), b.1)]
  {
    assert [a, b] == [] + [a] + [b];
    ToRowEntriesSnoc([], a, exclude);
    ToRowEntriesSnoc([a], b, exclude);
  }

  /** The stamp as intended: the tenant column is set on the finished row, last. */
  function CreateRow(t: nat, fields: Obj): (row: Obj)
    ensures OwnedBy(row, t)
    ensures forall c :: c != TenantColumn ==> Get(row, c) == Get(ToRow(Some(fields), {}), c)
  {
    Set(ToRow(Some(fields), {}), TenantColumn, Num(t))
  }

  /** The update patch as the source builds it: `toRow(fields, ['tenantId'])`. */
  function UpdatePatchAsWritten(fields: Obj): Obj
  {
    ToRow(Some(fields), {TenantKey})
  }

  /** A raw `tenant_id` key passes the exclusion list and lands in the patch. */
  lemma UpdatePatchCanMoveRow()
    ensures Get(UpdatePatchAsWritten([("tenant_id", Num(9))]), TenantColumn) == Num(9)
  {
    var f: Obj := [("tenant_id", Num(9))];
    SnakeTenantColumn();
    assert f[..0] == [];
    assert Kept(f[0], {TenantKey});
    assert ToRowEntries(f, {TenantKey}) == [(TenantColumn, Num(9))];
  }

  /** The update patch as intended: the tenant column is never written, whatever else is excluded. */
  function UpdatePatch(fields: Obj, extra: set<string>): (patch: Obj)
    ensures Get(patch, TenantColumn) == Undefined && !HasKey(patch, TenantColumn)
    ensures !HasKey(patch, "id")
    ensures forall i :: 0 <= i < |patch| ==> patch[i].1 != Undefined
  {
    var w := ToRow(Some(fields), {TenantKey} + extra);
    ToRowNeverWritesId(Some(fields), {TenantKey} + extra);
    var patch := Drop(w, TenantColumn);
    assert !HasKey(patch, TenantColumn) by {
      forall i | 0 <= i < |patch| ensures patch[i].0 != TenantColumn {
        DropRemoves(w, TenantColumn, i);
      }
    }
    assert !HasKey(patch, "id") by {
      forall i | 0 <= i < |patch| ensures patch[i].0 != "id" {
        assert patch[i] in w;
      }
    }
    patch
  }

  /** Writing the columns of `patch` over `stored`, one at a time. */
  function ApplyPatch(stored: Obj, patch: Obj): (r: Obj)
    ensures forall c :: HasKey(patch, c) ==> Get(r, c) == Get(patch, c)
    ensures forall c :: !HasKey(patch, c) ==> Get(r, c) == Get(stored, c)
  {
    if patch == [] then stored
    else
      var init := patch[..|patch| - 1];
      var e := patch[|patch| - 1];
      var r := Set(ApplyPatch(stored, init), e.0, e.1);
      assert forall c :: c != e.0 ==> (HasKey(patch, c) <==> HasKey(init, c)) by {
        forall c | c != e.0 ensures HasKey(patch, c) <==> HasKey(init, c) {
          if HasKey(patch, c) {
            var i :| 0 <= i < |patch| && patch[i].0 == c;
            assert init[i] == patch[i];
          }
          if HasKey(init, c) {
            var i :| 0 <= i < |init| && init[i].0 == c;
            assert patch[i] == init[i];
          }
        }
      }
      r
  }

  /** `create(fields)`: insert the stamped row under a fresh id and return it renamed. */
  function Create(tb: Table, t: nat, fields: Obj): (r: (Table, Obj))
    requires TableValid(tb)
    ensures TableValid(r.0) && tb.nextId !in tb.rows
    ensures r.0.rows == tb.rows[tb.nextId := CreateRow(t, fields) + [("id", Num(tb.nextId))]]
    ensures tb.nextId in View(r.0, t)
    ensures Get(r.1, "_id") == Num(tb.nextId)
  {
    var id := tb.nextId;
    var row := CreateRow(t, fields) + [("id", Num(id))];
    assert row[..|row| - 1] == CreateRow(t, fields);
    (Table(tb.rows[id := row], id + 1), FromRow(Some(row)).value)
  }

  /**
   * `update(id, fields)`: only the tenant's row with that id; otherwise the
   * single-row read fails. `extra` lists keys excluded besides `tenantId`.
   */
  function Update(tb: Table, t: nat, id: nat, fields: Obj, extra: set<string>): (r: Result<(Table, Obj), DbError>)
    requires TableValid(tb)
    ensures r.Ok? <==> id in View(tb, t)
    ensures r.Ok? ==> TableValid(r.value.0) && r.value.0.nextId == tb.nextId
                      && r.value.0.rows == tb.rows[id := ApplyPatch(tb.rows[id], UpdatePatch(fields, extra))]
                      && id in View(r.value.0, t)
                      && Get(r.value.0.rows[id], "id") == Get(tb.rows[id], "id")
  {
    if id in tb.rows && OwnedBy(tb.rows[id], t) then
      var row := ApplyPatch(tb.rows[id], UpdatePatch(fields, extra));
      Ok((Table(tb.rows[id := row], tb.nextId), FromRow(Some(row)).value))
    else Err(NoRow)
  }

  /** `findByIdAndDelete(id)`: removes the row only when it belongs to the tenant. */
  function Delete(tb: Table, t: nat, id: nat): (r: Table)
    ensures r.nextId == tb.nextId
    ensures id in View(tb, t) ==> r.rows == tb.rows - {id}
    ensures id !in View(tb, t) ==> r == tb
  {
    if id in tb.rows && OwnedBy(tb.rows[id], t) then Table(tb.rows - {id}, tb.nextId) else tb
  }

  /** A write that changes only row `id`, whose row belongs to `t` before and after, leaves tenant `u` alone. */
  lemma {:induction false} OneRowWriteKeepsView(tb: Table, tb': Table, t: nat, u: nat, id: nat)
    requires t != u
    requires id in tb'.rows ==> OwnedBy(tb'.rows[id], t)
    requires id in tb.rows ==> OwnedBy(tb.rows[id], t)
    requires forall k :: k != id ==> (k in tb.rows <==> k in tb'.rows)
    requires forall k :: k != id && k in tb.rows ==> tb'.rows[k] == tb.rows[k]
    ensures View(tb', u) == View(tb, u)
  {
    var a := View(tb', u);
    var b := View(tb, u);
    assert id !in a && id !in b;
    forall k | k in a ensures k in b && a[k] == b[k] {
    }
    forall k | k in b ensures k in a {
    }
  }

  /** Creating under tenant `t` leaves every other tenant's rows exactly as they were. */
  lemma CreateLeavesOtherTenants(tb: Table, t: nat, u: nat, fields: Obj)
    requires TableValid(tb) && t != u
    ensures View(Create(tb, t, fields).0, u) == View(tb, u)
  {
    var c := Create(tb, t, fields).0;
    var row := CreateRow(t, fields) + [("id", Num(tb.nextId))];
    assert row[..|row| - 1] == CreateRow(t, fields);
    OneRowWriteKeepsView(tb, c, t, u, tb.nextId);
  }

  /** Updating under tenant `t` leaves every other tenant's rows exactly as they were. */
  lemma UpdateLeavesOtherTenants(tb: Table, t: nat, u: nat, id: nat, fields: Obj, extra: set<string>)
    requires TableValid(tb) && t != u
    ensures Update(tb, t, id, fields, extra).Ok? ==> View(Update(tb, t, id, fields, extra).value.0, u) == View(tb, u)
  {
    if Update(tb, t, id, fields, extra).Ok? {
      var w := Update(tb, t, id, fields, extra).value.0;
      OneRowWriteKeepsView(tb, w, t, u, id);
    }
  }

  /** Deleting under tenant `t` leaves every other tenant's rows exactly as they were. */
  lemma DeleteLeavesOtherTenants(tb: Table, t: nat, u: nat, id: nat)
    requires t != u
    ensures View(Delete(tb, t, id), u) == View(tb, u)
  {
    if id in View(tb, t) {
      OneRowWriteKeepsView(tb, Delete(tb, t, id), t, u, id);
    }
  }

  // ---------- facts about the key mapping used above ----------

  lemma SnakeTenantKey()
    ensures SnakeKey(TenantKey) == TenantColumn
  {
    var t, d := "tenant", "d";
    assert NoUpper(t) by { assert forall i :: 0 <= i < |t| ==> !IsUpper(t[i]); }
    SnakeOfLower(t);
    SnakeOfLower(d);
    assert SnakeKey("I") == "_i";
    SnakeAppend("I", d);
    assert "I" + d == "Id";
    SnakeAppend(t, "Id");
    assert t + "Id" == TenantKey;
    assert t + ("_i" + d) == TenantColumn;
  }

  lemma SnakeTenantColumn()
    ensures SnakeKey(TenantColumn) == TenantColumn
  {
    var c := TenantColumn;
    assert NoUpper(c) by { assert forall i :: 0 <= i < |c| ==> !IsUpper(c[i]); }
    SnakeOfLower(c);
  }

  lemma SetKeepsUniqueKeys(o: Obj, k: string, v: Value)
    requires UniqueKeys(o)
    ensures UniqueKeys(Set(o, k, v))
  {
    var r := Set(o, k, v);
    if !HasKey(o, k) {
      assert r == o + [(k, v)];
    }
  }

  /** A key of `Set(o, k, v)` is a key of `o` or `k`. */
  lemma SetKeys(o: Obj, k: string, v: Value, i: nat)
    requires i < |Set(o, k, v)|
    ensures Set(o, k, v)[i].0 == k || exists j :: 0 <= j < |o| && o[j].0 == Set(o, k, v)[i].0
  {
    var r := Set(o, k, v);
    if HasKey(o, k) {
      assert r[i].0 == o[i].0;
    } else if i < |o| {
      assert r[i] == o[i];
    }
  }

  lemma DropRemoves(o: Obj, k: string, i: nat)
    requires i < |Drop(o, k)|
    ensures Drop(o, k)[i].0 != k
    decreases |o|
  {
    var init := Drop(o[..|o| - 1], k);
    var e := o[|o| - 1];
    if i < |init| {
      DropRemoves(o[..|o| - 1], k, i);
    }
  }

  /**
   * Reading column `c` of a written row gives the value of the one key `k`
   * that renames to it.
   */
  lemma {:induction false} ToRowColumn(o: Obj, exclude: set<string>, k: string, c: string)
    requires UniqueKeys(o) && k !in Skip(exclude) && SnakeKey(k) == c
    requires forall i :: 0 <= i < |o| && SnakeKey(o[i].0) == c ==> o[i].0 == k
    ensures Get(ToRow(Some(o), exclude), c) == Get(o, k)
  {
    if o != [] {
      var init := o[..|o| - 1];
      var e := o[|o| - 1];
      assert forall i :: 0 <= i < |init| ==> init[i] == o[i];
      ToRowColumn(init, exclude, k, c);
      var ri := ToRowEntries(init, exclude);
      var r := ToRowEntries(o, exclude);
      if Kept(e, exclude) {
        assert r == ri + [(SnakeKey(e.0), e.1)];
        assert r[..|r| - 1] == ri;
      } else {
        assert r == ri;
        if e.0 == k {
          assert !HasKey(init, k);
          GetAbsent(init, k);
        }
      }
    }
  }
}
