/**
 * Expenditures (controllers/expenditureController.js): recording with an
 * `EXP` id and defaults, the date and category listing, the partial update,
 * deletion and the spending totals. Activity is logged for admins only.
 */
module Expenditures {
  import opened Wrappers
  import opened Http
  import opened Text
  import opened Calendar
  import opened Accounts
  import opened Schemas
  import opened TenantStore
  import DatedIds
  import Ordering
  import Grouping

  /** The create body; an absent field and an empty one are both `None`. */
  datatype ExpenditureRequest = ExpenditureRequest(
    title: Option<string>, description: Option<string>, amount: Option<BodyNumber>,
    category: Option<string>, date: Option<Moment>, fundedBy: Option<nat>)

  /** `!title || !amount`: the text "0" is truthy and passes. */
  predicate MissingTitleOrAmount(q: ExpenditureRequest)
  {
    q.title.None? || q.title.value == [] || !Given(q.amount)
  }

  /** `${amount}` of the body value as sent: a number as JavaScript prints it in cedis, a text verbatim. */
  function SentText(b: BodyNumber): (t: string)
    ensures b.JsonNumber? ==> Text.ParseMoney(t) == Some(b.value)
    ensures b.NumericText? ==> t == b.text
  {
    if b.JsonNumber? then (MoneyTextRoundTrip(b.value); MoneyText(b.value)) else b.text
  }

  /** The action an admin's expenditure leaves in the activity log. */
  function ExpenditureAction(q: ExpenditureRequest): string
    requires !MissingTitleOrAmount(q)
  {
    "Recorded an expenditure of GHS " + SentText(q.amount.value) + " for " + q.title.value
  }

  /**
   * The document lines 29-39 build: empty description and category, today,
   * the caller, no funding source; the schema's `trim` setters run on
   * `title`, `description` and `category` as they are assigned.
   */
  function NewExpenditure(q: ExpenditureRequest, expenseId: string, caller: Principal, now: Moment): (e: Expenditure)
    requires !MissingTitleOrAmount(q)
    ensures e.expenseId == expenseId && e.title == Trim(q.title.value) && e.amount == q.amount.value.value
    ensures e.description == (if q.description.Some? then Trim(q.description.value) else [])
    ensures e.category == (if q.category.Some? then Trim(q.category.value) else [])
    ensures e.date == (if q.date.Some? then q.date.value else now)
    ensures e.spentBy == caller.username && e.fundedBy == q.fundedBy
  {
    Expenditure(expenseId, Trim(q.title.value), if q.description.Some? then Trim(q.description.value) else [],
                q.amount.value.value, if q.category.Some? then Trim(q.category.value) else [],
                q.date.GetOr(now), caller.username, q.fundedBy)
  }

  /** What the setters store is trimmed already: saving it again would not change it. */
  lemma NewExpenditureTrimmed(q: ExpenditureRequest, expenseId: string, caller: Principal, now: Moment)
    requires !MissingTitleOrAmount(q)
    ensures var e := NewExpenditure(q, expenseId, caller, now);
            Trim(e.title) == e.title && Trim(e.description) == e.description && Trim(e.category) == e.category
  {
    TrimIdempotent(q.title.value);
    if q.description.Some? { TrimIdempotent(q.description.value); }
    if q.category.Some? { TrimIdempotent(q.category.value); }
  }


  /** The validators a save runs on an expenditure: `title` required after trimming, `amount` at least 0. */
  predicate ExpenditureValid(e: Expenditure)
  {
    e.title != [] && e.amount >= 0
  }

  /**
   * `createExpenditure` with the id the collision loop settled on: 400
   * without a title or a truthy amount, 500 when the schema's validators
   * (a title that trims to nothing, a negative amount) or the unique
   * `expenseId` index refuse the save.
   */
  function CreateExpenditure(s: Store, caller: Principal, q: ExpenditureRequest, expenseId: string, now: Moment)
    : (r: (Store, Response<(nat, Expenditure)>))
    requires Consistent(s)
    ensures Consistent(r.0)
    ensures r.1.Refused? ==> r.0 == s
    ensures MissingTitleOrAmount(q) ==> r.1 == Refused(400, "Title and amount are required")
    ensures !MissingTitleOrAmount(q) && IsBlank(q.title.value) && q.amount.value.value >= 0 ==> r == (s, Refused(500, TitleRequired))
    ensures !MissingTitleOrAmount(q) && !ExpenditureValid(NewExpenditure(q, expenseId, caller, now)) ==>
              r == (s, Refused(500, ExpenditureInvalid(NewExpenditure(q, expenseId, caller, now))))
    ensures r.1.Reply? <==> !MissingTitleOrAmount(q) && !IsBlank(q.title.value) && q.amount.value.value >= 0
                            && ExpenseIdFree(s.expenditures, expenseId)
    ensures r.1.Reply? ==> r.1.code == 201 && r.1.body.0 !in s.expenditures
                           && r.1.body.1 == NewExpenditure(q, expenseId, caller, now)
                           && r.0.expenditures == s.expenditures[r.1.body.0 := r.1.body.1]
                           && r.0.members == s.members && r.0.receipts == s.receipts
    ensures r.1.Reply? && !caller.IsAdmin() ==> r.0.logs == s.logs
    ensures r.1.Reply? && caller.IsAdmin() ==>
              s.nextId + 1 !in s.logs
              && r.0.logs == s.logs[s.nextId + 1 := ActivityLog(caller.username, AdminRole, ExpenditureAction(q), now, None)]
  {
    if MissingTitleOrAmount(q) then (s, Refused(400, "Title and amount are required"))
    else
      var e := NewExpenditure(q, expenseId, caller, now);
      if !ExpenditureValid(e) then
        if e.title == [] && e.amount >= 0 then TitleRequiredText(e); (s, Refused(500, ExpenditureInvalid(e)))
        else (s, Refused(500, ExpenditureInvalid(e)))
      else if !ExpenseIdFree(s.expenditures, expenseId) then (s, Refused(500, "E11000 duplicate key error"))
      else
      var k := s.nextId;
      var s1 := s.(expenditures := s.expenditures[k := e], nextId := s.nextId + 1);
      var (s2, _) := AdminLog(s1, caller, ExpenditureAction(q), None, now);
      (s2, Reply(201, (k, e)))
  }

  /** The expense ids already stored. */
  function TakenIds(s: Store): (ids: set<string>)
    ensures forall id :: id in ids <==> !ExpenseIdFree(s.expenditures, id)
  {
    set k | k in s.expenditures :: s.expenditures[k].expenseId
  }

  /**
   * The whole handler: draw ids until one is free or ten redraws were made,
   * then save. Only when every draw collided does the save fail.
   */
  method RecordExpenditure(s: Store, caller: Principal, q: ExpenditureRequest, now: Moment, draws: seq<nat>)
    returns (s': Store, r: Response<(nat, Expenditure)>)
    requires Consistent(s)
    requires 1000 <= now.year <= 9999 && 0 <= now.month < 12 && 1 <= now.day <= 31
    requires |draws| > DatedIds.MaxRetries && forall i :: 0 <= i < |draws| ==> draws[i] < 1000
    ensures Consistent(s')
    ensures r.Reply? ==> exists j :: 0 <= j <= DatedIds.MaxRetries && r.body.1.expenseId == DatedIds.DatedId(DatedIds.ExpensePrefix, now, draws[j])
    ensures r.Reply? ==> ExpenseIdFree(s.expenditures, r.body.1.expenseId)
    ensures !MissingTitleOrAmount(q) && !IsBlank(q.title.value) && q.amount.value.value >= 0 && r.Refused? ==>
              forall j :: 0 <= j <= DatedIds.MaxRetries ==> DatedIds.DatedId(DatedIds.ExpensePrefix, now, draws[j]) in TakenIds(s)
  {
    var taken := TakenIds(s);
    var id, retries := DatedIds.FreshId(DatedIds.ExpensePrefix, now, draws, taken);
    ghost var candidates := DatedIds.Candidates(DatedIds.ExpensePrefix, now, draws);
    assert id == DatedIds.DatedId(DatedIds.ExpensePrefix, now, draws[retries]);
    var out := CreateExpenditure(s, caller, q, id, now);
    s', r := out.0, out.1;
    if !MissingTitleOrAmount(q) && !IsBlank(q.title.value) && q.amount.value.value >= 0 && r.Refused? {
      assert id in taken;
      assert retries == DatedIds.MaxRetries;
      forall j | 0 <= j <= DatedIds.MaxRetries
        ensures DatedIds.DatedId(DatedIds.ExpensePrefix, now, draws[j]) in taken
      {
        if j == retries {
          assert candidates[j] == id;
        }
      }
    }
  }

  /** The listing filter: inclusive date bounds and an exact category when one is given. */
  predicate Listed(e: Expenditure, from: Option<Moment>, to: Option<Moment>, category: Option<string>)
  {
    InRange(e.date, from, to) && (category.None? || category.value == [] || e.category == category.value)
  }

  function DateKey(e: (nat, Expenditure)): int { Ordinal(e.1.date) }

  /** `getAllExpenditures`: the matching expenditures, latest date first. */
  function GetAllExpenditures(s: Store, from: Option<Moment>, to: Option<Moment>, category: Option<string>)
    : (r: seq<(nat, Expenditure)>)
    requires Consistent(s)
    ensures Ordering.SortedDesc(r, DateKey)
    ensures forall e :: e in r <==> e.0 in s.expenditures && e.1 == s.expenditures[e.0] && Listed(e.1, from, to, category)
    ensures forall i, j :: 0 <= i < j < |r| ==> r[i].0 != r[j].0
    ensures Ordering.TiesAscend(r, DateKey, Ordering.Id)
  {
    Ordering.SortedWhere(s.expenditures, s.nextId, (x: Expenditure) => Listed(x, from, to, category), DateKey)
  }

  /** `getExpenditureById` */
  function GetExpenditureById(s: Store, id: nat): (r: Response<Expenditure>)
    ensures r.Refused? <==> id !in s.expenditures
    ensures r.Refused? ==> r.code == 404
    ensures r.Reply? ==> r.code == 200 && r.body == s.expenditures[id]
  {
    if id in s.expenditures then Reply(200, s.expenditures[id]) else Refused(404, "Expenditure not found")
  }

  /**
   * The update body: title, amount and date apply when truthy; description
   * and category whenever present; the funding source whenever present,
   * with an empty value stored as `null` (inner `None`). The text paths go
   * through their `trim` setters.
   */
  datatype ExpenditurePatch = ExpenditurePatch(
    title: Option<string>, description: Option<string>, amount: Option<BodyNumber>,
    category: Option<string>, date: Option<Moment>, fundedBy: Option<Option<nat>>)

  function Patched(e: Expenditure, p: ExpenditurePatch): (r: Expenditure)
    ensures r.title == (if p.title.Some? && p.title.value != [] then Trim(p.title.value) else e.title)
    ensures r.description == (if p.description.Some? then Trim(p.description.value) else e.description)
    ensures r.amount == (if Given(p.amount) then p.amount.value.value else e.amount)
    ensures r.category == (if p.category.Some? then Trim(p.category.value) else e.category)
    ensures r.date == (if p.date.Some? then p.date.value else e.date)
    ensures r.fundedBy == (if p.fundedBy.Some? then p.fundedBy.value else e.fundedBy)
    ensures r.expenseId == e.expenseId && r.spentBy == e.spentBy
  {
    e.(title := if p.title.Some? && p.title.value != [] then Trim(p.title.value) else e.title,
       description := if p.description.Some? then Trim(p.description.value) else e.description,
       amount := if Given(p.amount) then p.amount.value.value else e.amount,
       category := if p.category.Some? then Trim(p.category.value) else e.category,
       date := p.date.GetOr(e.date),
       fundedBy := p.fundedBy.GetOr(e.fundedBy))
  }

  /**
   * `updateExpenditure`: 404, the validators on save (500), then the admin
   * log, which names the title as sent when one was sent and the stored
   * title otherwise.
   */
  function UpdateExpenditure(s: Store, caller: Principal, id: nat, p: ExpenditurePatch, now: Moment): (r: (Store, Response<Expenditure>))
    requires Consistent(s)
    ensures Consistent(r.0)
    ensures r.1.Refused? ==> r.0 == s
    ensures id !in s.expenditures ==> r.1 == Refused(404, "Expenditure not found")
    ensures r.1.Reply? <==> id in s.expenditures && ExpenditureValid(Patched(s.expenditures[id], p))
    ensures id in s.expenditures && p.title.Some? && p.title.value != [] && IsBlank(p.title.value)
              && Patched(s.expenditures[id], p).amount >= 0
            ==> r == (s, Refused(500, TitleRequired))
    ensures id in s.expenditures && !ExpenditureValid(Patched(s.expenditures[id], p)) ==>
              r == (s, Refused(500, ExpenditureInvalid(Patched(s.expenditures[id], p))))
    ensures r.1.Reply? ==> r.1.body == Patched(s.expenditures[id], p) && r.0.expenditures == s.expenditures[id := r.1.body]
                           && r.0.members == s.members
  {
    if id !in s.expenditures then (s, Refused(404, "Expenditure not found"))
    else
      var e := Patched(s.expenditures[id], p);
      if !ExpenditureValid(e) then
        if e.title == [] && e.amount >= 0 then TitleRequiredText(e); (s, Refused(500, ExpenditureInvalid(e)))
        else (s, Refused(500, ExpenditureInvalid(e)))
      else
        var named := if p.title.Some? && p.title.value != [] then p.title.value else e.title;
        var (s1, _) := AdminLog(s.(expenditures := s.expenditures[id := e]), caller, "Updated expenditure: " + named, None, now);
        (s1, Reply(200, e))
  }

  /** `deleteExpenditure` */
  function DeleteExpenditure(s: Store, caller: Principal, id: nat, now: Moment): (r: (Store, Response<string>))
    requires Consistent(s)
    ensures Consistent(r.0)
    ensures r.1.Refused? <==> id !in s.expenditures
    ensures r.1.Refused? ==> r.0 == s && r.1.code == 404
    ensures r.1.Reply? ==> r.0.expenditures == s.expenditures - {id} && r.0.members == s.members
    ensures r.1.Reply? ==> (r.0.logs != s.logs <==> caller.IsAdmin())
  {
    if id !in s.expenditures then (s, Refused(404, "Expenditure not found"))
    else
      var s1 := s.(expenditures := s.expenditures - {id});
      var (s2, k) := AdminLog(s1, caller, "Deleted expenditure: " + s.expenditures[id].title, None, now);
      assert k.Some? ==> k.value in s2.logs && k.value !in s1.logs;
      (s2, Reply(200, "Expenditure deleted successfully"))
  }

  datatype Stats = Stats(totalSpent: int, count: nat)

  /** The `$group` input with `_id: null`: every expenditure under one key. */
  function Amounts(es: seq<(nat, Expenditure)>): (r: seq<(bool, int)>)
    ensures |r| == |es|
  {
    if es == [] then [] else Amounts(es[..|es| - 1]) + [(true, es[|es| - 1].1.amount)]
  }

  function Spent(es: seq<(nat, Expenditure)>): int
  {
    if es == [] then 0 else Spent(es[..|es| - 1]) + es[|es| - 1].1.amount
  }

  lemma {:induction false} AmountsGroup(es: seq<(nat, Expenditure)>)
    ensures Grouping.CountKey(Amounts(es), true) == |es|
    ensures Grouping.SumKey(Amounts(es), true) == Spent(es)
    ensures Grouping.CountKey(Amounts(es), false) == 0
  {
    if es != [] {
      AmountsGroup(es[..|es| - 1]);
      assert Amounts(es)[..|es| - 1] == Amounts(es[..|es| - 1]);
    }
  }

  /**
   * `getExpenditureStats`: the single group's sum and count, or
   * `{ totalSpent: 0, count: 0 }` when the aggregate returns nothing; the
   * default agrees with the empty sum.
   */
  function ExpenditureStats(s: Store): (r: Stats)
    requires Consistent(s)
    ensures r.totalSpent == Spent(Ordering.Entries(s.expenditures, s.nextId))
    ensures r.count == |s.expenditures|
    ensures s.expenditures == map[] ==> r == Stats(0, 0)
  {
    var es := Ordering.Entries(s.expenditures, s.nextId);
    var gs := Grouping.GroupSums(Amounts(es));
    AmountsGroup(es);
    Ordering.EntriesCount(s.expenditures, s.nextId);
    assert (set k | k in s.expenditures && k < s.nextId) == s.expenditures.Keys;
    if gs == [] then
      assert !Grouping.HasGroup(gs, true);
      Stats(0, 0)
    else
      assert Grouping.HasGroup(gs, gs[0].key);
      Stats(gs[0].total, gs[0].count)
  }
}
