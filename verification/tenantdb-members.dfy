/**
 * The member model of the data facade (db/tenantDb.js): member reads carry
 * their payment history and freshly computed arrears, creation starts with no
 * history, and the one supported aggregate groups members by subgroup.
 */
module MemberFacade {
  import opened Wrappers
  import opened Text
  import opened Calendar
  import opened Helpers
  import opened TenantDb
  import Ordering
  import Grouping

  /** A member as the facade returns it: the renamed row plus its payment history. */
  datatype MemberRecord = MemberRecord(fields: Obj, history: seq<Obj>)

  // ---------- payment history ----------

  /** The date a payment-history entry is ordered by. */
  function PaymentDate(p: Obj): int
  {
    if Get(p, "date").Time? then Ordinal(Get(p, "date").t) else 0
  }

  predicate PaymentOf(row: Obj, t: nat, memberId: Value)
  {
    OwnedBy(row, t) && Get(row, "member_id") == memberId
  }

  /** `getPaymentHistoryForMember`: the tenant's payment rows of one member, newest first. */
  function PaymentHistory(payments: Table, t: nat, memberId: Value): (h: seq<Obj>)
    ensures Ordering.SortedDesc(h, PaymentDate)
    ensures var ids := SelectAsc(payments.rows, row => PaymentOf(row, t, memberId), payments.nextId);
            multiset(h) == multiset(Rows(payments.rows, ids))
  {
    var ids := SelectAsc(payments.rows, row => PaymentOf(row, t, memberId), payments.nextId);
    Ordering.SortDesc(Rows(payments.rows, ids), PaymentDate)
  }

  /** Every history entry is one of the member's payment rows in this tenant. */
  lemma HistoryEntriesBelong(payments: Table, t: nat, memberId: Value, i: nat)
    requires i < |PaymentHistory(payments, t, memberId)|
    ensures exists id :: id in View(payments, t) && Get(payments.rows[id], "member_id") == memberId
                         && Some(PaymentHistory(payments, t, memberId)[i]) == FromRow(Some(payments.rows[id]))
  {
    var h := PaymentHistory(payments, t, memberId);
    var ids := SelectAsc(payments.rows, row => PaymentOf(row, t, memberId), payments.nextId);
    var base := Rows(payments.rows, ids);
    assert h[i] in multiset(base);
    var j :| 0 <= j < |base| && base[j] == h[i];
    assert ids[j] in View(payments, t);
  }

  /** The row `addPaymentToMember` inserts, with the id the insert assigns it. */
  function PaymentRow(t: nat, memberId: Value, amount: int, date: Moment, monthsCovered: int,
                      recordedBy: string, id: nat): (row: Obj)
    ensures PaymentOf(row, t, memberId) && Get(row, "date") == Time(date) && Get(row, "id") == Num(id)
    ensures Get(row, "amount") == Num(amount) && Get(row, "months_covered") == Num(monthsCovered)
  {
    var row := [(TenantColumn, Num(t)), ("member_id", memberId), ("amount", Num(amount)), ("date", Time(date)),
                ("months_covered", Num(monthsCovered)), ("recorded_by", Str(recordedBy)), ("id", Num(id))];
    GetLastBinding(row, 0);
    GetLastBinding(row, 1);
    GetLastBinding(row, 2);
    GetLastBinding(row, 3);
    GetLastBinding(row, 4);
    row
  }

  /** `addPaymentToMember`: a payment row stamped with the tenant, dated now when no date is given. */
  function AddPayment(payments: Table, t: nat, memberId: Value, amount: int, date: Option<Moment>,
                      monthsCovered: int, recordedBy: string, now: Moment): (r: (Table, Obj))
    requires TableValid(payments)
    ensures payments.nextId !in payments.rows && r.0.nextId == payments.nextId + 1
    ensures var row := PaymentRow(t, memberId, amount, date.GetOr(now), monthsCovered, recordedBy, payments.nextId);
            r.0.rows == payments.rows[payments.nextId := row] && Some(r.1) == FromRow(Some(row))
    ensures TableValid(r.0)
  {
    var id := payments.nextId;
    var row := PaymentRow(t, memberId, amount, date.GetOr(now), monthsCovered, recordedBy, id);
    var tb := Table(payments.rows[id := row], id + 1);
    assert TableValid(tb) by {
      forall k | k in tb.rows ensures k < tb.nextId {
        if k != id { assert k in payments.rows; }
      }
    }
    (tb, FromRow(Some(row)).value)
  }

  /** A payment just added shows up in that member's history. */
  lemma AddedPaymentInHistory(payments: Table, t: nat, memberId: Value, amount: int, date: Option<Moment>,
                              monthsCovered: int, recordedBy: string, now: Moment)
    requires TableValid(payments)
    ensures var (p', row) := AddPayment(payments, t, memberId, amount, date, monthsCovered, recordedBy, now);
            row in PaymentHistory(p', t, memberId)
  {
    var (p', row) := AddPayment(payments, t, memberId, amount, date, monthsCovered, recordedBy, now);
    var id := payments.nextId;
    var ids := SelectAsc(p'.rows, r => PaymentOf(r, t, memberId), p'.nextId);
    assert id in ids;
    var j :| 0 <= j < |ids| && ids[j] == id;
    var base := Rows(p'.rows, ids);
    assert base[j] == row;
    assert row in multiset(base);
  }

  // ---------- member reads ----------

  /** A member object as returned: the renamed row with `arrears` recomputed from it. */
  function MemberFields(row: Obj, now: Moment): (m: Obj)
    ensures Get(m, "arrears") == Num(CalculateArrears(FromRow(Some(row)).value, now))
    ensures forall k :: k != "arrears" ==> Get(m, k) == Get(FromRow(Some(row)).value, k)
  {
    var f := FromRow(Some(row)).value;
    Set(f, "arrears", Num(CalculateArrears(f, now)))
  }

  /** The arrears returned depend on the stored join date and months covered, never on the stored arrears. */
  lemma ArrearsFromStoredColumns(row: Obj, now: Moment)
    requires SnakeColumns(row)
    ensures Get(MemberFields(row, now), "arrears")
            == Num(Arrears(JoinDateOf(Get(row, "join_date")), Some(NumberOrZero(Get(row, "months_covered"))), now))
  {
    CamelJoinDate();
    CamelMonthsCovered();
    FromRowLookup(row, "join_date");
    FromRowLookup(row, "months_covered");
  }

  lemma CamelJoinDate()
    ensures IsSnakeColumn("join_date") && CamelKey("join_date") == "joinDate"
  {
    var j, d := "join", "ate";
    assert !Has(j, '_') by { assert forall i :: 0 <= i < |j| ==> j[i] != '_'; }
    assert !Has(d, '_') by { assert forall i :: 0 <= i < |d| ==> d[i] != '_'; }
    CamelOfTwoWords(j, 'd', d);
    assert j + ['_', 'd'] + d == "join_date";
    assert j + [UpperChar('d')] + d == "joinDate";
    JoinDateIsSnake();
  }

  lemma JoinDateIsSnake()
    ensures IsSnakeColumn("join_date")
  {
    var s := "join_date";
    assert forall i :: 0 <= i < |s| ==> !IsUpper(s[i]);
    assert forall i :: 0 <= i < |s| && s[i] == '_' ==> i == 4;
  }

  lemma CamelMonthsCovered()
    ensures IsSnakeColumn("months_covered") && CamelKey("months_covered") == "monthsCovered"
  {
    var m, o := "months", "overed";
    assert !Has(m, '_') by { assert forall i :: 0 <= i < |m| ==> m[i] != '_'; }
    assert !Has(o, '_') by { assert forall i :: 0 <= i < |o| ==> o[i] != '_'; }
    CamelOfTwoWords(m, 'c', o);
    assert m + ['_', 'c'] + o == "months_covered";
    assert m + [UpperChar('c')] + o == "monthsCovered";
    MonthsCoveredIsSnake();
  }

  /** Two plain words joined by `_` and a lower-case letter come back with that letter upper-cased. */
  lemma CamelOfTwoWords(a: string, c: char, b: string)
    requires !Has(a, '_') && !Has(b, '_') && IsLower(c)
    ensures CamelKey(a + ['_', c] + b) == a + [UpperChar(c)] + b
  {
    CamelAfterPlain(b, []);
    assert b + [] == b;
    var u := ['_', c] + b;
    assert u[2..] == b;
    assert CamelKey(u) == [UpperChar(c)] + CamelKey(b);
    CamelAfterPlain(a, u);
    assert a + ['_', c] + b == a + u;
  }

  lemma MonthsCoveredIsSnake()
    ensures IsSnakeColumn("months_covered")
  {
    var s := "months_covered";
    assert forall i :: 0 <= i < |s| ==> !IsUpper(s[i]);
    assert forall i :: 0 <= i < |s| && s[i] == '_' ==> i == 6;
  }

  /** `$or` of case-insensitive substring tests on name, member id and contact (anchors stripped). */
  predicate SearchHit(row: Obj, pattern: string)
  {
    exists col | col in ["name", "member_id", "contact"] ::
      Get(row, col).Str? && IsSubstring(Lower(StripAnchors(pattern)), Lower(Get(row, col).s))
  }

  /** `String(v).replace(/^\^|\$$/g, '')` */
  function StripAnchors(p: string): (r: string)
    ensures |r| <= |p|
  {
    var a := if p != [] && p[0] == '^' then p[1..] else p;
    if a != [] && a[|a| - 1] == '$' then a[..|a| - 1] else a
  }

  /** The filters of member `find`: role when truthy, subgroup when not null, search when present. */
  predicate MemberMatches(row: Obj, role: Value, subgroupId: Value, search: Option<string>)
  {
    (Truthy(role) ==> Get(row, "role") == role)
    && (subgroupId != Null && subgroupId != Undefined ==> Get(row, "subgroup_id") == subgroupId)
    && (search.Some? ==> SearchHit(row, search.value))
  }

  function Record(members: Table, payments: Table, t: nat, id: nat, now: Moment): MemberRecord
    requires id in members.rows
  {
    MemberRecord(MemberFields(members.rows[id], now), PaymentHistory(payments, t, Get(members.rows[id], "id")))
  }

  /** Member `find`: the tenant's matching members, newest first, each with history and fresh arrears. */
  function MemberFind(members: Table, payments: Table, t: nat, role: Value, subgroupId: Value,
                      search: Option<string>, now: Moment): (r: seq<MemberRecord>)
    ensures var ids := SelectDesc(members.rows, row => OwnedBy(row, t) && MemberMatches(row, role, subgroupId, search), members.nextId);
            |r| == |ids|
            && (forall i :: 0 <= i < |r| ==> ids[i] in View(members, t) && MemberMatches(members.rows[ids[i]], role, subgroupId, search)
                                             && r[i] == Record(members, payments, t, ids[i], now))
            && (forall id :: id in View(members, t) && id < members.nextId && MemberMatches(members.rows[id], role, subgroupId, search) ==> id in ids)
  {
    var ids := SelectDesc(members.rows, row => OwnedBy(row, t) && MemberMatches(row, role, subgroupId, search), members.nextId);
    seq(|ids|, i requires 0 <= i < |ids| => Record(members, payments, t, ids[i], now))
  }

  /** Member `findById`: the tenant's member with that id, its history read by the requested id. */
  function MemberFindById(members: Table, payments: Table, t: nat, id: nat, now: Moment): (r: Option<MemberRecord>)
    ensures r.Some? <==> id in View(members, t)
    ensures r.Some? ==> r.value.fields == MemberFields(members.rows[id], now)
                        && r.value.history == PaymentHistory(payments, t, Num(id))
  {
    if id in members.rows && OwnedBy(members.rows[id], t) then
      Some(MemberRecord(MemberFields(members.rows[id], now), PaymentHistory(payments, t, Num(id))))
    else None
  }

  /** `k.replace(/([A-Z])/g, '_$1').toLowerCase()`: the column name member `findOne` builds. */
  function MemberColumn(k: string): string
  {
    Lower(UnderscoreBeforeUpper(k))
  }

  function UnderscoreBeforeUpper(k: string): string
  {
    if k == [] then [] else (if IsUpper(k[0]) then ['_', k[0]] else [k[0]]) + UnderscoreBeforeUpper(k[1..])
  }

  /** Member `findOne` names columns exactly as `toSnake` does. */
  lemma {:induction false} MemberColumnIsSnake(k: string)
    ensures MemberColumn(k) == SnakeKey(k)
  {
    if k != [] {
      MemberColumnIsSnake(k[1..]);
      var head := if IsUpper(k[0]) then ['_', k[0]] else [k[0]];
      var u := UnderscoreBeforeUpper(k[1..]);
      assert UnderscoreBeforeUpper(k) == head + u;
      assert Lower(head + u) == Lower(head) + Lower(u);
    }
  }

  /** Member `findOne`: the first of the tenant's members matching every defined entry. */
  function MemberFindOne(members: Table, payments: Table, t: nat, query: Obj, now: Moment): (r: Option<MemberRecord>)
    requires TableValid(members)
    ensures r.None? <==> forall id :: id in View(members, t) ==> !MatchesQueryAll(members.rows[id], query)
    ensures r.Some? ==> exists id :: id in View(members, t) && MatchesQueryAll(members.rows[id], query)
                                     && r.value == Record(members, payments, t, id, now)
  {
    var ids := SelectAsc(members.rows, row => OwnedBy(row, t) && MatchesQueryAll(row, query), members.nextId);
    if ids == [] then None
    else
      assert ids[0] in View(members, t);
      Some(Record(members, payments, t, ids[0], now))
  }

  /** Every defined query entry, `$or` included, as an equality on its column. */
  predicate MatchesQueryAll(row: Obj, query: Obj)
  {
    forall i :: 0 <= i < |query| && query[i].1 != Undefined ==> Get(row, MemberColumn(query[i].0)) == query[i].1
  }

  /** Member `create`: the generic insert, returned with an empty history and recomputed arrears. */
  function MemberCreate(members: Table, t: nat, fields: Obj, now: Moment): (r: (Table, MemberRecord))
    requires TableValid(members)
    ensures r.0 == Create(members, t, fields).0
    ensures r.1.history == []
    ensures Get(r.1.fields, "arrears") == Num(CalculateArrears(Create(members, t, fields).1, now))
  {
    var (tb, f) := Create(members, t, fields);
    var row := tb.rows[members.nextId];
    assert FromRow(Some(row)).value == f;
    (tb, MemberRecord(MemberFields(row, now), []))
  }

  /** Member `update`: the generic update with `paymentHistory` also excluded, re-read with history. */
  function MemberUpdate(members: Table, payments: Table, t: nat, id: nat, fields: Obj, now: Moment): (r: Result<(Table, MemberRecord), DbError>)
    requires TableValid(members)
    ensures r.Ok? <==> id in View(members, t)
    ensures r.Ok? ==> r.value.0 == Update(members, t, id, fields, {"paymentHistory"}).value.0
                      && r.value.1.history == PaymentHistory(payments, t, Num(id))
                      && r.value.1.fields == MemberFields(r.value.0.rows[id], now)
  {
    match Update(members, t, id, fields, {"paymentHistory"})
    case Err(e) => Err(e)
    case Ok((tb, _)) =>
      Ok((tb, MemberRecord(MemberFields(tb.rows[id], now), PaymentHistory(payments, t, Num(id)))))
  }
  // ---------- aggregate ----------

  predicate InSubgroup(row: Obj, t: nat)
  {
    OwnedBy(row, t) && Get(row, "subgroup_id") != Null && Get(row, "subgroup_id") != Undefined
  }

  /** The (subgroup, amount paid) pairs the aggregate folds, members in natural order. */
  function AggregateItems(members: Table, t: nat): (items: seq<(Value, int)>)
    ensures var ids := SelectAsc(members.rows, row => InSubgroup(row, t), members.nextId);
            |items| == |ids|
            && forall i :: 0 <= i < |ids| ==>
                 (ids[i] in View(members, t)
                  && items[i] == (Get(members.rows[ids[i]], "subgroup_id"), NumberOrZero(Get(members.rows[ids[i]], "total_paid"))))
  {
    var ids := SelectAsc(members.rows, row => InSubgroup(row, t), members.nextId);
    seq(|ids|, i requires 0 <= i < |ids| => (Get(members.rows[ids[i]], "subgroup_id"), NumberOrZero(Get(members.rows[ids[i]], "total_paid"))))
  }

  /**
   * Member `aggregate(pipeline)`: only a `$group` stage keyed by
   * `'$subgroupId'` is understood; it yields one entry per subgroup holding
   * the sum of `total_paid` and the member count. Members without a subgroup
   * are left out; any other pipeline gives `[]`.
   */
  function Aggregate(members: Table, t: nat, groupKey: Option<Value>): (r: seq<Grouping.Group<Value>>)
    requires TableValid(members)
    ensures groupKey != Some(Str("$subgroupId")) ==> r == []
    ensures groupKey == Some(Str("$subgroupId")) ==> Grouping.DistinctKeys(r)
    ensures groupKey == Some(Str("$subgroupId")) ==>
              forall i :: 0 <= i < |r| ==>
                (r[i].count == Grouping.CountKey(AggregateItems(members, t), r[i].key)
                 && r[i].total == Grouping.SumKey(AggregateItems(members, t), r[i].key))
  {
    if groupKey != Some(Str("$subgroupId")) then []
    else Grouping.GroupSums(AggregateItems(members, t))
  }

  /** A subgroup gets an entry exactly when one of the tenant's members belongs to it. */
  lemma AggregateKeys(members: Table, t: nat, k: Value)
    requires TableValid(members)
    ensures Grouping.HasGroup(Aggregate(members, t, Some(Str("$subgroupId"))), k)
            <==> exists id :: id in View(members, t) && InSubgroup(members.rows[id], t) && Get(members.rows[id], "subgroup_id") == k
  {
    var items := AggregateItems(members, t);
    var ids := SelectAsc(members.rows, row => InSubgroup(row, t), members.nextId);
    Grouping.CountKeyPositive(items, k);
    if exists id :: id in View(members, t) && InSubgroup(members.rows[id], t) && Get(members.rows[id], "subgroup_id") == k {
      var id :| id in View(members, t) && InSubgroup(members.rows[id], t) && Get(members.rows[id], "subgroup_id") == k;
      assert id in ids;
      var i :| 0 <= i < |ids| && ids[i] == id;
      assert items[i].0 == k;
    }
    if exists i :: 0 <= i < |items| && items[i].0 == k {
      var i :| 0 <= i < |items| && items[i].0 == k;
      assert ids[i] in View(members, t);
    }
  }

  /** The aggregate of tenant `t` is blind to other tenants' members. */
  lemma AggregateSeesOnlyOwnTenant(a: Table, b: Table, t: nat, groupKey: Option<Value>)
    requires TableValid(a) && TableValid(b) && View(a, t) == View(b, t)
    ensures Aggregate(a, t, groupKey) == Aggregate(b, t, groupKey)
  {
    var p := row => InSubgroup(row, t);
    SelectSeesOnlyView(a, b, t, p);
    var ids := SelectAsc(a.rows, p, a.nextId);
    forall i | 0 <= i < |ids| ensures a.rows[ids[i]] == b.rows[ids[i]] {
      assert ids[i] in View(a, t);
    }
    assert AggregateItems(a, t) == AggregateItems(b, t);
  }

  // ---------- the tenant's models ----------

  datatype ModelName = MemberModel | SubgroupModel | ExpenditureModel | ReceiptModel
                     | ReminderModel | ActivityLogModel | ContributionTypeModel | ContributionModel

  /** A model object: the table it reads and the tenant it is bound to. */
  datatype Accessor = Accessor(table: string, tenant: nat)

  function TableOf(name: ModelName): string
  {
    match name
    case MemberModel => "members"
    case SubgroupModel => "subgroups"
    case ExpenditureModel => "expenditures"
    case ReceiptModel => "receipts"
    case ReminderModel => "reminders"
    case ActivityLogModel => "activity_logs"
    case ContributionTypeModel => "contribution_types"
    case ContributionModel => "contributions"
  }

  /** `getTenantModels(req)`: all eight models bound to the request's tenant, or an error without one. */
  function GetTenantModels(tenantId: Option<nat>): (r: Result<map<ModelName, Accessor>, DbError>)
    ensures r.Err? <==> tenantId.None?
    ensures r.Ok? ==> forall n: ModelName :: n in r.value && r.value[n] == Accessor(TableOf(n), tenantId.value)
  {
    match tenantId
    case None => Err(MissingTenant)
    case Some(t) =>
      assert forall n: ModelName :: n in AllModels by {
        forall n: ModelName ensures n in AllModels { EveryModelListed(n); }
      }
      Ok(map n: ModelName | n in AllModels :: Accessor(TableOf(n), t))
  }

  const AllModels: set<ModelName> := {MemberModel, SubgroupModel, ExpenditureModel, ReceiptModel,
                                      ReminderModel, ActivityLogModel, ContributionTypeModel, ContributionModel}

  lemma EveryModelListed(n: ModelName)
    ensures n in AllModels
  {
    match n
    case MemberModel =>
    case SubgroupModel =>
    case ExpenditureModel =>
    case ReceiptModel =>
    case ReminderModel =>
    case ActivityLogModel =>
    case ContributionTypeModel =>
    case ContributionModel =>
  }
}
