/**
 * The row mapping and the arrears rule of the database helpers (db/helpers.js).
 *
 * A JavaScript object is an association list `Obj`; reading a key returns its
 * last binding, which is what successive assignments to an object leave
 * behind. Database rows use snake_case column names, application objects use
 * camelCase keys.
 */
module Helpers {
  import opened Wrappers
  import opened Text
  import opened Calendar

  /** A JSON-like scalar as it crosses the database boundary. */
  datatype Value = Undefined | Null | Bool(b: bool) | Num(n: int) | Str(s: string) | Time(t: Moment)

  /** JavaScript truthiness of a value. */
  predicate Truthy(v: Value)
  {
    match v
    case Undefined => false
    case Null => false
    case Bool(b) => b
    case Num(n) => n != 0
    case Str(s) => s != []
    case Time(_) => true
  }

  type Obj = seq<(string, Value)>

  /** `o[k]`: the last binding of `k`, or `undefined`. */
  function Get(o: Obj, k: string): Value
  {
    if o == [] then Undefined
    else if o[|o| - 1].0 == k then o[|o| - 1].1
    else Get(o[..|o| - 1], k)
  }

  predicate HasKey(o: Obj, k: string) { exists i :: 0 <= i < |o| && o[i].0 == k }

  /** A JavaScript object never binds one key twice. */
  predicate UniqueKeys(o: Obj) { forall i, j :: 0 <= i < j < |o| ==> o[i].0 != o[j].0 }

  lemma {:induction false} GetAbsent(o: Obj, k: string)
    requires !HasKey(o, k)
    ensures Get(o, k) == Undefined
  {
    if o != [] {
      var init := o[..|o| - 1];
      assert !HasKey(init, k) by {
        forall i | 0 <= i < |init| ensures init[i].0 != k { assert init[i] == o[i]; }
      }
      GetAbsent(init, k);
    }
  }

  /** In an object without repeated keys, every entry is the binding of its key. */
  lemma {:induction false} GetAt(o: Obj, i: nat)
    requires UniqueKeys(o) && i < |o|
    ensures Get(o, o[i].0) == o[i].1
  {
    if i < |o| - 1 {
      var init := o[..|o| - 1];
      assert init[i] == o[i];
      GetAt(init, i);
    }
  }

  /** An entry that no later entry rebinds is the binding of its key. */
  lemma {:induction false} GetLastBinding(o: Obj, i: nat)
    requires i < |o| && forall j :: i < j < |o| ==> o[j].0 != o[i].0
    ensures Get(o, o[i].0) == o[i].1
  {
    if i < |o| - 1 {
      var init := o[..|o| - 1];
      assert init[i] == o[i];
      GetLastBinding(init, i);
    }
  }

  function Replace(o: Obj, k: string, v: Value): (r: Obj)
    ensures |r| == |o|
    ensures forall i :: 0 <= i < |o| ==> r[i].0 == o[i].0
    ensures forall k' :: k' != k ==> Get(r, k') == Get(o, k')
    ensures HasKey(o, k) ==> Get(r, k) == v
  {
    if o == [] then []
    else
      var init := Replace(o[..|o| - 1], k, v);
      var e := o[|o| - 1];
      var r := init + [if e.0 == k then (k, v) else e];
      assert r[..|r| - 1] == init;
      assert HasKey(o, k) && e.0 != k ==> HasKey(o[..|o| - 1], k) by {
        if HasKey(o, k) && e.0 != k {
          var i :| 0 <= i < |o| && o[i].0 == k;
          assert o[..|o| - 1][i] == o[i];
        }
      }
      r
  }

  /** `o[k] = v`: overwrite in place when `k` is bound, otherwise append. */
  function Set(o: Obj, k: string, v: Value): (r: Obj)
    ensures Get(r, k) == v
    ensures forall k' :: k' != k ==> Get(r, k') == Get(o, k')
  {
    if HasKey(o, k) then Replace(o, k, v)
    else
      assert (o + [(k, v)])[..|o|] == o;
      o + [(k, v)]
  }

  /** `key.replace(/_([a-z])/g, (_, c) => c.toUpperCase())`, scanning left to right. */
  function CamelKey(k: string): string
  {
    if |k| >= 2 && k[0] == '_' && IsLower(k[1]) then [UpperChar(k[1])] + CamelKey(k[2..])
    else if k == [] then []
    else [k[0]] + CamelKey(k[1..])
  }

  /** `key.replace(/[A-Z]/g, c => '_' + c.toLowerCase())`. */
  function SnakeKey(k: string): (r: string)
    ensures NoUpper(r)
  {
    if k == [] then []
    else (if IsUpper(k[0]) then ['_', LowerChar(k[0])] else [k[0]]) + SnakeKey(k[1..])
  }

  /** Renaming works character by character, so it distributes over concatenation. */
  lemma {:induction false} SnakeAppend(a: string, b: string)
    ensures SnakeKey(a + b) == SnakeKey(a) + SnakeKey(b)
  {
    if a != [] {
      assert (a + b)[1..] == a[1..] + b;
      SnakeAppend(a[1..], b);
    } else {
      assert a + b == b;
    }
  }

  /** A key without upper-case letters is its own snake_case form. */
  lemma {:induction false} SnakeOfLower(k: string)
    requires NoUpper(k)
    ensures SnakeKey(k) == k
  {
    if k != [] {
      SnakeOfLower(k[1..]);
    }
  }

  /** A prefix without `_` is left alone by the camelCase renaming. */
  lemma {:induction false} CamelAfterPlain(a: string, b: string)
    requires !Has(a, '_')
    ensures CamelKey(a + b) == a + CamelKey(b)
  {
    if a == [] {
      assert a + b == b;
    } else {
      var rest := a[1..];
      assert !Has(rest, '_') by {
        forall i | 0 <= i < |rest| ensures rest[i] != '_' { assert rest[i] == a[i + 1]; }
      }
      assert a[0] != '_';
      assert (a + b)[1..] == rest + b;
      CamelAfterPlain(rest, b);
    }
  }

  /** A canonical column name: lower case, and every `_` introduces a lower-case letter. */
  predicate IsSnakeColumn(k: string)
  {
    NoUpper(k) && forall i :: 0 <= i < |k| && k[i] == '_' ==> i + 1 < |k| && IsLower(k[i + 1])
  }

  /** For keys without `_`, renaming to snake_case and back gives the key again. */
  lemma {:induction false} CamelInvertsSnake(k: string)
    requires !Has(k, '_')
    ensures CamelKey(SnakeKey(k)) == k
  {
    if k != [] {
      var rest := k[1..];
      assert !Has(rest, '_') by {
        forall i | 0 <= i < |rest| ensures rest[i] != '_' { assert rest[i] == k[i + 1]; }
      }
      CamelInvertsSnake(rest);
      var s := SnakeKey(k);
      if IsUpper(k[0]) {
        assert s == ['_', LowerChar(k[0])] + SnakeKey(rest);
        assert s[2..] == SnakeKey(rest);
      } else {
        assert k[0] != '_';
        assert s == [k[0]] + SnakeKey(rest);
        assert s[1..] == SnakeKey(rest);
      }
    }
  }

  /** For canonical column names, renaming to camelCase and back gives the column again. */
  lemma {:induction false} SnakeInvertsCamel(k: string)
    requires IsSnakeColumn(k)
    ensures SnakeKey(CamelKey(k)) == k
    ensures !Has(CamelKey(k), '_')
    decreases |k|
  {
    if |k| >= 2 && k[0] == '_' && IsLower(k[1]) {
      var rest := k[2..];
      assert IsSnakeColumn(rest) by {
        forall i | 0 <= i < |rest| && rest[i] == '_' ensures i + 1 < |rest| && IsLower(rest[i + 1]) {
          assert rest[i] == k[i + 2];
        }
        assert forall i :: 0 <= i < |rest| ==> rest[i] == k[i + 2];
      }
      SnakeInvertsCamel(rest);
      var c := CamelKey(k);
      assert c == [UpperChar(k[1])] + CamelKey(rest);
      assert c[1..] == CamelKey(rest);
      assert k == ['_', k[1]] + rest;
    } else if k != [] {
      assert k[0] != '_';
      var rest := k[1..];
      assert IsSnakeColumn(rest) by {
        forall i | 0 <= i < |rest| && rest[i] == '_' ensures i + 1 < |rest| && IsLower(rest[i + 1]) {
          assert rest[i] == k[i + 1];
        }
        assert forall i :: 0 <= i < |rest| ==> rest[i] == k[i + 1];
      }
      SnakeInvertsCamel(rest);
      var c := CamelKey(k);
      assert c == [k[0]] + CamelKey(rest);
      assert c[1..] == CamelKey(rest);
      assert k == [k[0]] + rest;
    }
  }

  /** On canonical columns the camelCase renaming is one-to-one. */
  lemma CamelInjective(a: string, b: string)
    requires IsSnakeColumn(a) && IsSnakeColumn(b) && CamelKey(a) == CamelKey(b)
    ensures a == b
  {
    SnakeInvertsCamel(a);
    SnakeInvertsCamel(b);
  }

  function Camelise(o: Obj): (r: Obj)
    ensures |r| == |o|
    ensures forall i :: 0 <= i < |o| ==> r[i] == (CamelKey(o[i].0), o[i].1)
  {
    seq(|o|, i requires 0 <= i < |o| => (CamelKey(o[i].0), o[i].1))
  }

  /**
   * `fromRow`: null for a missing row; otherwise every key renamed to camelCase
   * with its value kept, followed by `_id` bound to the row's `id`.
   */
  function FromRow(row: Option<Obj>): (r: Option<Obj>)
    ensures row.None? <==> r.None?
    ensures row.Some? ==> Get(r.value, "_id") == Get(row.value, "id")
    ensures row.Some? ==> |r.value| == |row.value| + 1
                          && forall i :: 0 <= i < |row.value| ==> r.value[i].1 == row.value[i].1
  {
    match row
    case None => None
    case Some(o) => Some(Camelise(o) + [("_id", Get(o, "id"))])
  }

  predicate SnakeColumns(o: Obj) { forall i :: 0 <= i < |o| ==> IsSnakeColumn(o[i].0) }

  lemma {:induction false} CameliseLookup(o: Obj, c: string)
    requires SnakeColumns(o) && IsSnakeColumn(c)
    ensures Get(Camelise(o), CamelKey(c)) == Get(o, c)
  {
    if o != [] {
      var init := o[..|o| - 1];
      assert Camelise(o)[..|o| - 1] == Camelise(init);
      CameliseLookup(init, c);
      var k := o[|o| - 1].0;
      if CamelKey(k) == CamelKey(c) {
        CamelInjective(k, c);
      }
    }
  }

  /** Reading a renamed row by the camelCase form of a column gives that column's value. */
  lemma FromRowLookup(o: Obj, c: string)
    requires SnakeColumns(o) && IsSnakeColumn(c)
    ensures Get(FromRow(Some(o)).value, CamelKey(c)) == Get(o, c)
  {
    SnakeInvertsCamel(c);
    assert Has("_id", '_') by { assert "_id"[0] == '_'; }
    var f := Camelise(o) + [("_id", Get(o, "id"))];
    assert f[..|f| - 1] == Camelise(o);
    CameliseLookup(o, c);
  }

  /** `fromRows`: a missing list reads as empty; otherwise each row is mapped in order. */
  function FromRows(rows: Option<seq<Obj>>): (r: seq<Obj>)
    ensures rows.None? ==> r == []
    ensures rows.Some? ==> |r| == |rows.value|
    ensures rows.Some? ==> forall i :: 0 <= i < |r| ==> Some(r[i]) == FromRow(Some(rows.value[i]))
  {
    match rows
    case None => []
    case Some(rs) => seq(|rs|, i requires 0 <= i < |rs| => FromRow(Some(rs[i])).value)
  }

  /** The keys `toRow` always drops. */
  function Skip(exclude: set<string>): set<string> { {"id", "_id"} + exclude }

  predicate Kept(e: (string, Value), exclude: set<string>) { e.0 !in Skip(exclude) && e.1 != Undefined }

  /** `e` is the snake_case rendering of a kept entry of `o`. */
  predicate DerivedFrom(e: (string, Value), o: Obj, exclude: set<string>)
  {
    exists j :: 0 <= j < |o| && Kept(o[j], exclude) && e == (SnakeKey(o[j].0), o[j].1)
  }

  function ToRowEntries(o: Obj, exclude: set<string>): (r: Obj)
    ensures |r| <= |o|
    ensures forall i :: 0 <= i < |r| ==> r[i].1 != Undefined && NoUpper(r[i].0)
    ensures forall i :: 0 <= i < |r| ==> DerivedFrom(r[i], o, exclude)
  {
    if o == [] then []
    else
      var init := ToRowEntries(o[..|o| - 1], exclude);
      var e := o[|o| - 1];
      var r := init + (if Kept(e, exclude) then [(SnakeKey(e.0), e.1)] else []);
      assert forall i :: 0 <= i < |r| ==> DerivedFrom(r[i], o, exclude) by {
        forall i | 0 <= i < |r| ensures DerivedFrom(r[i], o, exclude) {
          if i < |init| {
            var oi := o[..|o| - 1];
            assert DerivedFrom(init[i], oi, exclude);
            var j :| 0 <= j < |oi| && Kept(oi[j], exclude) && init[i] == (SnakeKey(oi[j].0), oi[j].1);
            assert oi[j] == o[j];
            assert r[i] == init[i];
          } else {
            assert r[i] == (SnakeKey(o[|o| - 1].0), o[|o| - 1].1);
            assert Kept(o[|o| - 1], exclude);
          }
        }
      }
      r
  }

  /** One more entry adds at most its renamed self at the end. */
  lemma ToRowEntriesSnoc(o: Obj, e: (string, Value), exclude: set<string>)
    ensures ToRowEntries(o + [e], exclude) == ToRowEntries(o, exclude) + (if Kept(e, exclude) then [(SnakeKey(e.0), e.1)] else [])
  {
    assert (o + [e])[..|o|] == o;
  }

  /**
   * `toRow`: a non-object gives the empty row; otherwise every entry whose key
   * is not `id`, `_id` or excluded and whose value is defined, with its key in
   * snake_case.
   */
  function ToRow(obj: Option<Obj>, exclude: set<string>): (r: Obj)
    ensures obj.None? ==> r == []
    ensures forall i :: 0 <= i < |r| ==> r[i].1 != Undefined && NoUpper(r[i].0)
    ensures obj.Some? ==> forall i :: 0 <= i < |r| ==> DerivedFrom(r[i], obj.value, exclude)
  {
    match obj
    case None => []
    case Some(o) => ToRowEntries(o, exclude)
  }

  /** `toRow` never writes a column named `id`. */
  lemma ToRowNeverWritesId(obj: Option<Obj>, exclude: set<string>)
    ensures !HasKey(ToRow(obj, exclude), "id")
  {
    var r := ToRow(obj, exclude);
    if HasKey(r, "id") {
      var i :| 0 <= i < |r| && r[i].0 == "id";
      assert DerivedFrom(r[i], obj.value, exclude);
      var j :| 0 <= j < |obj.value| && Kept(obj.value[j], exclude) && r[i] == (SnakeKey(obj.value[j].0), obj.value[j].1);
      SnakeIdPreimage(obj.value[j].0);
    }
  }

  lemma SnakeIdPreimage(k: string)
    requires SnakeKey(k) == "id"
    ensures k == "id"
  {
    SnakeHeadLower(k);
    var t := k[1..];
    assert SnakeKey(k) == [k[0]] + SnakeKey(t);
    assert SnakeKey(t) == SnakeKey(k)[1..];
    assert SnakeKey(t) == "d";
    SnakeHeadLower(t);
    assert SnakeKey(t) == [t[0]] + SnakeKey(t[1..]);
    assert |SnakeKey(t[1..])| == 0;
    SnakeEmpty(t[1..]);
  }

  lemma SnakeHeadLower(k: string)
    requires |SnakeKey(k)| >= 1 && SnakeKey(k)[0] != '_'
    ensures k != [] && !IsUpper(k[0])
  {
  }

  lemma SnakeEmpty(k: string)
    requires SnakeKey(k) == []
    ensures k == []
  {
  }

  /** A camelCase key `Id` passes the skip test and lands in a column named `_id`. */
  lemma ToRowWritesCapitalId()
    ensures ToRow(Some([("Id", Num(7))]), {}) == [("_id", Num(7))]
  {
    var o: Obj := [("Id", Num(7))];
    assert SnakeKey("d") == "d";
    assert SnakeKey("Id") == ['_', 'i'] + SnakeKey("d");
    assert o[..|o| - 1] == [];
    assert "Id" != "id" && "Id" != "_id";
    assert Kept(o[0], {});
    assert ToRowEntries(o, {}) == ToRowEntries([], {}) + [(SnakeKey("Id"), Num(7))];
    assert ToRowEntries([], {}) == [];
    assert SnakeKey("Id") == "_id";
    assert ToRow(Some(o), {}) == ToRowEntries(o, {});
  }

  /**
   * Reading a written row by the snake_case form of a key without `_` gives
   * the object's value, unless the key is skipped.
   */
  lemma {:induction false} ToRowLookup(o: Obj, exclude: set<string>, k: string)
    requires UniqueKeys(o)
    requires forall i :: 0 <= i < |o| ==> o[i].0 in Skip(exclude) || !Has(o[i].0, '_')
    requires !Has(k, '_')
    ensures Get(ToRow(Some(o), exclude), SnakeKey(k)) == if k in Skip(exclude) then Undefined else Get(o, k)
  {
    if o == [] {
    } else {
      var init := o[..|o| - 1];
      var e := o[|o| - 1];
      assert UniqueKeys(init);
      assert forall i :: 0 <= i < |init| ==> init[i] == o[i];
      ToRowLookup(init, exclude, k);
      var ri := ToRowEntries(init, exclude);
      var r := ToRowEntries(o, exclude);
      if Kept(e, exclude) {
        assert r == ri + [(SnakeKey(e.0), e.1)];
        if SnakeKey(e.0) == SnakeKey(k) {
          CamelInvertsSnake(e.0);
          CamelInvertsSnake(k);
        }
        assert r[..|r| - 1] == ri;
      } else {
        assert r == ri;
        if e.0 == k && k !in Skip(exclude) {
          assert !HasKey(init, k);
          GetAbsent(init, k);
        }
      }
    }
  }

  /** The renamed row binds each key once and has no `_` in any key but `_id`. */
  lemma FromRowKeys(o: Obj)
    requires UniqueKeys(o) && SnakeColumns(o)
    ensures var f := FromRow(Some(o)).value;
            UniqueKeys(f) && forall i :: 0 <= i < |f| ==> f[i].0 in Skip({}) || !Has(f[i].0, '_')
  {
    var f := FromRow(Some(o)).value;
    forall i | 0 <= i < |o| ensures !Has(CamelKey(o[i].0), '_') { SnakeInvertsCamel(o[i].0); }
    assert Has("_id", '_') by { assert "_id"[0] == '_'; }
    forall i, j | 0 <= i < j < |f| ensures f[i].0 != f[j].0 {
      if j < |o| && f[i].0 == f[j].0 {
        CamelInjective(o[i].0, o[j].0);
      }
    }
  }

  /** A database row read by `fromRow` and written back by `toRow` keeps every column but `id`. */
  lemma RowRoundTrip(o: Obj, c: string)
    requires UniqueKeys(o) && SnakeColumns(o)
    requires IsSnakeColumn(c) && c != "id"
    ensures Get(ToRow(FromRow(Some(o)), {}), c) == Get(o, c)
  {
    FromRowKeys(o);
    SnakeInvertsCamel(c);
    ToRowLookup(FromRow(Some(o)).value, {}, CamelKey(c));
    FromRowLookup(o, c);
    assert SnakeKey("id") == "id";
    assert Has("_id", '_') by { assert "_id"[0] == '_'; }
  }

  /**
   * `calculateArrears`: months from the join month to `now`'s month, both
   * counted, less the months covered, floored at 0. A missing join date
   * counts as `now`; missing months covered count as 0.
   */
  function Arrears(joinDate: Option<Moment>, monthsCovered: Option<int>, now: Moment): (r: int)
    ensures r >= 0
    ensures r + monthsCovered.GetOr(0) >= MonthsInclusive(joinDate.GetOr(now), now)
    ensures r == 0 || r + monthsCovered.GetOr(0) == MonthsInclusive(joinDate.GetOr(now), now)
  {
    var owed := MonthsInclusive(joinDate.GetOr(now), now) - monthsCovered.GetOr(0);
    if owed > 0 then owed else 0
  }

  /** Covering more months never increases arrears. */
  lemma ArrearsNeverIncreases(joinDate: Option<Moment>, c1: int, c2: int, now: Moment)
    requires c1 <= c2
    ensures Arrears(joinDate, Some(c2), now) <= Arrears(joinDate, Some(c1), now)
  {
  }

  /** Without a join date the member is treated as joining this month: one month owed, less cover. */
  lemma ArrearsWithoutJoinDate(covered: int, now: Moment)
    ensures Arrears(None, Some(covered), now) == if covered < 1 then 1 - covered else 0
  {
  }

  /** The join date as stored: a date value, otherwise absent. */
  function JoinDateOf(v: Value): Option<Moment>
  {
    if v.Time? then Some(v.t) else None
  }

  /** `x || 0` on a numeric field: a number is itself (0 included), anything else is 0. */
  function NumberOrZero(v: Value): (r: int)
    ensures v.Num? ==> r == v.n
    ensures !v.Num? ==> r == 0
  {
    if v.Num? then v.n else 0
  }

  /** `calculateArrears(member, now)` on an application object. */
  function CalculateArrears(member: Obj, now: Moment): (r: int)
    ensures r >= 0
    ensures !Get(member, "joinDate").Time? && !Get(member, "monthsCovered").Num? ==> r == 1
  {
    Arrears(JoinDateOf(Get(member, "joinDate")), Some(NumberOrZero(Get(member, "monthsCovered"))), now)
  }
}
