/**
 * The report endpoints: the dashboard figures (`getDashboardStats`) and the
 * payments export (`exportPaymentsReport`), computed over one tenant's
 * store. The dashboard's subgroup rows are those of the leaderboard, its
 * totals agree with the subgroup aggregate and the expenditure statistics,
 * and its twelve-month trend tallies each month exactly as a `$group` by
 * month would.
 */
module Reports {
  import opened Wrappers
  import opened Calendar
  import opened Accounts
  import opened Schemas
  import opened TenantStore
  import Ordering
  import Grouping
  import Subgroups
  import Expenditures
  import Payments

  // ---------------------------------------------------------------- subgroup rows

  datatype LeaderCard = LeaderCard(id: nat, name: string, memberId: MemberIdPath)

  datatype SubgroupCard = SubgroupCard(group: Option<nat>, name: string, leader: Option<LeaderCard>,
                                       totalCollected: int, totalMembers: nat, averagePerMember: real)

  /** A leaderboard row with its leader looked up among the members; a leader who is no member shows as `null`. */
  function Card(s: Store, e: Subgroups.Entry): (c: SubgroupCard)
    ensures c.group == e.group && c.name == e.name && c.totalCollected == e.totalCollected
    ensures c.totalMembers == e.totalMembers && c.averagePerMember == e.averagePerMember
    ensures c.leader.Some? <==> e.leader.Some? && e.leader.value in s.members
    ensures c.leader.Some? ==> c.leader.value.id == e.leader.value
                               && c.leader.value.name == s.members[e.leader.value].name
                               && c.leader.value.memberId == s.members[e.leader.value].memberId
  {
    match e.leader
    case Some(l) =>
      if l in s.members then SubgroupCard(e.group, e.name, Some(LeaderCard(l, s.members[l].name, s.members[l].memberId)),
                                          e.totalCollected, e.totalMembers, e.averagePerMember)
      else SubgroupCard(e.group, e.name, None, e.totalCollected, e.totalMembers, e.averagePerMember)
    case None => SubgroupCard(e.group, e.name, None, e.totalCollected, e.totalMembers, e.averagePerMember)
  }

  // ---------------------------------------------------------------- twelve-month trend

  datatype MonthTotal = MonthTotal(month: int, amount: int)

  /** The twelve month indices ending with the current month, oldest first. */
  function Window(now: Moment): (ks: seq<int>)
    ensures |ks| == 12 && ks[11] == MonthIndex(now)
    ensures forall i :: 0 < i < 12 ==> ks[i] == ks[i - 1] + 1
  {
    seq(12, (i: int) => MonthIndex(now) - 11 + i)
  }

  /** Adds one dated amount to the slot of its month, when that month is shown. */
  function Bump(totals: seq<int>, keys: seq<int>, x: (int, int)): (r: seq<int>)
    requires |totals| == |keys|
    ensures |r| == |keys|
  {
    seq(|totals|, (i: int) requires 0 <= i < |totals| => if keys[i] == x.0 then totals[i] + x.1 else totals[i])
  }

  /**
   * The `monthlyIncome[monthKey] += amount` loop: every slot holds the sum of
   * the amounts dated in its month; amounts of other months are dropped.
   */
  function Tally(keys: seq<int>, items: seq<(int, int)>): (r: seq<int>)
    ensures |r| == |keys|
    ensures forall i :: 0 <= i < |keys| ==> r[i] == Grouping.SumKey(items, keys[i])
  {
    if items == [] then seq(|keys|, (i: int) => 0)
    else Bump(Tally(keys, items[..|items| - 1]), keys, items[|items| - 1])
  }

  /** A payment dated outside the window leaves the trend as it was. */
  lemma OutsideWindowIgnored(keys: seq<int>, items: seq<(int, int)>, x: (int, int))
    requires x.0 !in keys
    ensures Tally(keys, items + [x]) == Tally(keys, items)
  {
    assert (items + [x])[..|items|] == items;
  }

  /** A payment dated inside the window adds its amount to its month and to no other. */
  lemma InsideWindowCounted(keys: seq<int>, items: seq<(int, int)>, x: (int, int), i: nat)
    requires i < |keys|
    ensures Tally(keys, items + [x])[i] == Tally(keys, items)[i] + (if keys[i] == x.0 then x.1 else 0)
  {
    assert (items + [x])[..|items|] == items;
  }

  function HistoryItems(h: seq<Payment>): (r: seq<(int, int)>)
    ensures |r| == |h|
    ensures forall j :: 0 <= j < |h| ==> r[j] == (MonthIndex(h[j].date), h[j].amount)
  {
    seq(|h|, (j: int) requires 0 <= j < |h| => (MonthIndex(h[j].date), h[j].amount))
  }

  /** Every embedded payment of the members, member by member, keyed by its month. */
  function IncomeItems(es: seq<(nat, Member)>): seq<(int, int)>
  {
    if es == [] then [] else IncomeItems(es[..|es| - 1]) + HistoryItems(es[|es| - 1].1.paymentHistory)
  }

  /** Every expenditure keyed by its month. */
  function SpendingItems(es: seq<(nat, Expenditure)>): (r: seq<(int, int)>)
    ensures |r| == |es|
    ensures forall j :: 0 <= j < |es| ==> r[j] == (MonthIndex(es[j].1.date), es[j].1.amount)
  {
    seq(|es|, (j: int) requires 0 <= j < |es| => (MonthIndex(es[j].1.date), es[j].1.amount))
  }

  function Trend(now: Moment, items: seq<(int, int)>): (r: seq<MonthTotal>)
    ensures |r| == 12
    ensures forall i :: 0 <= i < 12 ==> r[i].month == MonthIndex(now) - 11 + i
    ensures forall i :: 0 <= i < 12 ==> r[i].amount == Grouping.SumKey(items, r[i].month)
  {
    var keys := Window(now);
    var amounts := Tally(keys, items);
    seq(12, (i: int) requires 0 <= i < 12 => MonthTotal(keys[i], amounts[i]))
  }

  // ---------------------------------------------------------------- the dashboard

  datatype Dashboard = Dashboard(
    totalMembers: nat, totalCollected: int, totalSpent: int, balanceRemaining: int,
    membersInArrears: nat, totalAdmins: nat,
    monthlyIncome: seq<MonthTotal>, monthlyExpenditure: seq<MonthTotal>,
    subgroupStats: seq<SubgroupCard>, topSubgroup: Option<SubgroupCard>)

  /** Whether a member owes anything at `now`. */
  function Owes(now: Moment): Member -> bool
  {
    (m: Member) => MemberArrears(m, now) > 0
  }

  /** The accounts counted as administrators: admins and super admins. */
  predicate Administers(u: User)
  {
    u.role == AdminRole || u.role == SuperRole
  }

  /** The member totals summed per group add up to the totals summed over all members. */
  lemma {:induction false} ItemsTotal(es: seq<(nat, Member)>)
    ensures Grouping.TotalOf(Subgroups.Items(es)) == Subgroups.PaidSum(es)
  {
    if es != [] {
      ItemsTotal(es[..|es| - 1]);
      assert Subgroups.Items(es)[..|es| - 1] == Subgroups.Items(es[..|es| - 1]);
    }
  }

  /** How many members owe at `now`, counted as `getDashboardStats` counts them. */
  function ArrearsCount(s: Store, now: Moment): (n: nat)
    requires Consistent(s)
    ensures n == |set k | k in s.members && MemberArrears(s.members[k], now) > 0|
  {
    Ordering.WhereEntriesCount(s.members, s.nextId, Owes(now));
    assert Ordering.IdsBelow(s.members, s.nextId, Owes(now)) == set k | k in s.members && MemberArrears(s.members[k], now) > 0;
    |Ordering.Where(Ordering.Entries(s.members, s.nextId), Owes(now))|
  }

  /** The running `totalCollected += member.totalPaid`, which the per-subgroup aggregate adds up to. */
  function Collected(s: Store): (total: int)
    ensures total == Grouping.Total(Subgroups.MemberStats(s))
  {
    var es := Ordering.Entries(s.members, s.nextId);
    ItemsTotal(es);
    Grouping.GroupTotalsAddUp(Subgroups.Items(es));
    Subgroups.PaidSum(es)
  }

  /** `members.length`. */
  function MemberCount(s: Store): (n: nat)
    requires Consistent(s)
    ensures n == |s.members|
  {
    Ordering.EntriesCount(s.members, s.nextId);
    assert (set k | k in s.members && k < s.nextId) == s.members.Keys;
    |Ordering.Entries(s.members, s.nextId)|
  }

  /**
   * The subgroup rows sorted by collection, leaders looked up, and the
   * first of them as the top subgroup: the same rows in the same order as
   * the leaderboard's.
   */
  function SubgroupCards(s: Store): (r: (seq<SubgroupCard>, Option<SubgroupCard>))
    requires Consistent(s)
    ensures |r.0| == |Subgroups.Leaderboard(s)|
    ensures forall i :: 0 <= i < |r.0| ==> r.0[i] == Card(s, Subgroups.Leaderboard(s)[i].entry)
    ensures forall i, j :: 0 <= i < j < |r.0| ==> r.0[i].totalCollected >= r.0[j].totalCollected
    ensures forall i, j :: 0 <= i < j < |r.0| && r.0[i].totalCollected == r.0[j].totalCollected ==>
              Subgroups.ListedBefore(r.0[i].group, r.0[j].group)
    ensures r.1.None? <==> r.0 == []
    ensures r.1.Some? ==> r.1.value == r.0[0]
    ensures r.1.Some? ==> forall e :: e in Subgroups.Entries(s) ==> r.1.value.totalCollected >= e.totalCollected
  {
    var board := Subgroups.Leaderboard(s);
    var cards := Cards(s, board);
    if cards == [] then (cards, None)
    else
      LeaderIsHighest(s);
      (cards, Some(cards[0]))
  }

  /** The rows of a ranking, leaders looked up, kept in ranking order. */
  function Cards(s: Store, board: seq<Subgroups.Ranked>): (r: seq<SubgroupCard>)
    requires forall i, j :: 0 <= i < j < |board| ==> board[i].entry.totalCollected >= board[j].entry.totalCollected
    ensures |r| == |board|
    ensures forall i :: 0 <= i < |r| ==> r[i] == Card(s, board[i].entry)
    ensures forall i, j :: 0 <= i < j < |r| ==> r[i].totalCollected >= r[j].totalCollected
  {
    seq(|board|, (i: int) requires 0 <= i < |board| => Card(s, board[i].entry))
  }

  /** The leaderboard's first row collected at least as much as any row. */
  lemma LeaderIsHighest(s: Store)
    requires Consistent(s)
    ensures Subgroups.Leaderboard(s) != [] ==>
              forall e :: e in Subgroups.Entries(s) ==> Subgroups.Leaderboard(s)[0].entry.totalCollected >= e.totalCollected
  {
    if Subgroups.Leaderboard(s) == [] { return; }
    var rows := Subgroups.Entries(s);
    var sorted := Ordering.SortDesc(rows, Subgroups.Collected);
    assert Subgroups.Leaderboard(s)[0].entry == sorted[0];
    forall e | e in rows ensures sorted[0].totalCollected >= e.totalCollected {
      Ordering.FirstIsGreatest(rows, Subgroups.Collected, e);
    }
  }

  /**
   * `getDashboardStats`. The subgroup rows are the leaderboard's (highest
   * collection first, leaders looked up), the top subgroup is the first of
   * them, the total collected is what the per-subgroup aggregate adds up to,
   * the total spent is the expenditure statistics' figure, and each month of
   * the trend holds the amounts dated in it. `users` is the account store the
   * administrator count reads.
   */
  function GetDashboardStats(s: Store, users: map<nat, User>, now: Moment): (d: Dashboard)
    requires Consistent(s)
    ensures d.totalMembers == |s.members|
    ensures d.totalCollected == Grouping.Total(Subgroups.MemberStats(s))
    ensures d.totalSpent == Expenditures.ExpenditureStats(s).totalSpent
    ensures d.balanceRemaining == d.totalCollected - d.totalSpent
    ensures d.membersInArrears == |set k | k in s.members && MemberArrears(s.members[k], now) > 0|
    ensures d.totalAdmins == |set k | k in users && Administers(users[k])|
    ensures |d.monthlyIncome| == 12 && |d.monthlyExpenditure| == 12
    ensures forall i :: 0 <= i < 12 ==> d.monthlyIncome[i].month == d.monthlyExpenditure[i].month == MonthIndex(now) - 11 + i
    ensures forall i :: 0 <= i < 12 ==>
              d.monthlyIncome[i].amount == Grouping.SumKey(IncomeItems(Ordering.Entries(s.members, s.nextId)), d.monthlyIncome[i].month)
    ensures forall i :: 0 <= i < 12 ==>
              d.monthlyExpenditure[i].amount == Grouping.SumKey(SpendingItems(Ordering.Entries(s.expenditures, s.nextId)), d.monthlyExpenditure[i].month)
    ensures d.subgroupStats == SubgroupCards(s).0 && d.topSubgroup == SubgroupCards(s).1
  {
    var spent := Expenditures.Spent(Ordering.Entries(s.expenditures, s.nextId));
    var cards := SubgroupCards(s);
    Dashboard(MemberCount(s), Collected(s), spent, Collected(s) - spent, ArrearsCount(s, now),
              |set k | k in users && Administers(users[k])|,
              Trend(now, IncomeItems(Ordering.Entries(s.members, s.nextId))),
              Trend(now, SpendingItems(Ordering.Entries(s.expenditures, s.nextId))), cards.0, cards.1)
  }

  // ---------------------------------------------------------------- payments export

  datatype ExportRow = ExportRow(memberName: string, amount: int, date: Moment, monthsCovered: int, recordedBy: string)

  function Export(v: Payments.PaymentView): ExportRow
  {
    ExportRow(v.memberName, v.amount, v.date, v.monthsCovered, v.recordedBy)
  }

  /**
   * `exportPaymentsReport`: the qualifying payments of the members in scope,
   * member by member in stored order (no date sort), without their ids.
   */
  function ExportPayments(s: Store, memberId: Option<nat>, from: Option<Moment>, to: Option<Moment>,
                          recordedBy: Option<string>): (rows: seq<ExportRow>)
    requires Consistent(s)
    ensures forall row :: row in rows <==>
              exists v :: v in Payments.GetAllPayments(s, memberId, from, to, recordedBy) && Export(v) == row
    ensures |rows| == |Payments.GetAllPayments(s, memberId, from, to, recordedBy)|
    ensures var c := Payments.Collect(s, Payments.MemberScope(s, memberId), from, to, recordedBy);
            |rows| == |c| && forall i :: 0 <= i < |rows| ==> rows[i] == Export(c[i])
  {
    var c := Payments.Collect(s, Payments.MemberScope(s, memberId), from, to, recordedBy);
    ExportedRows(c, Payments.GetAllPayments(s, memberId, from, to, recordedBy));
    ExportAll(c)
  }

  /** One export row per payment, in the payments' order. */
  function ExportAll(c: seq<Payments.PaymentView>): (rows: seq<ExportRow>)
    ensures |rows| == |c| && forall i :: 0 <= i < |c| ==> rows[i] == Export(c[i])
  {
    seq(|c|, (i: int) requires 0 <= i < |c| => Export(c[i]))
  }

  /** Exporting a listing gives the rows of any permutation of it, as many as it has. */
  lemma ExportedRows(c: seq<Payments.PaymentView>, sorted: seq<Payments.PaymentView>)
    requires multiset(sorted) == multiset(c)
    ensures |ExportAll(c)| == |sorted|
    ensures forall row :: row in ExportAll(c) <==> exists v :: v in sorted && Export(v) == row
  {
    var rows := ExportAll(c);
    assert |multiset(c)| == |multiset(sorted)|;
    forall row ensures row in rows <==> exists v :: v in sorted && Export(v) == row {
      if row in rows {
        var i :| 0 <= i < |rows| && rows[i] == row;
        assert c[i] in multiset(sorted);
      }
      if exists v :: v in sorted && Export(v) == row {
        var v :| v in sorted && Export(v) == row;
        assert v in multiset(c);
        var i :| 0 <= i < |c| && c[i] == v;
        assert rows[i] == row;
      }
    }
  }
}
