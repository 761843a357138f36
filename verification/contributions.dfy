/**
 * Recording a contribution (controllers/contributionController.js): the
 * request checks, the dues arithmetic applied to the member, the receipt it
 * issues, who is told by email, the activity log, and the labels of the
 * financial breakdown. The receipt id, the recorder's stored email and
 * whether the mail went out are parameters.
 */
module Contributions {
  import opened Wrappers
  import opened Http
  import opened Text
  import opened Calendar
  import opened Accounts
  import opened Schemas
  import opened TenantStore
  import Ordering
  import Grouping

  /** `type.name.toLowerCase() === 'dues'` */
  predicate IsDues(typeName: string) { Lower(typeName) == "dues" }

  /**
   * `Math.floor(amount / (member.duesPerMonth || 1))`: dues of 0 fall back
   * to one cedi a month, which is `MinorPerMajor` minor units.
   */
  function MonthsPaid(amount: int, dues: int): (n: int)
    ensures dues > 0 ==> n * dues <= amount < n * dues + dues
    ensures dues == 0 ==> n * MinorPerMajor <= amount < n * MinorPerMajor + MinorPerMajor
    ensures dues < 0 ==> n * dues >= amount > n * dues + dues
  {
    FloorDiv(amount, if dues == 0 then MinorPerMajor else dues)
  }

  /** A non-negative payment against non-negative dues covers a non-negative number of months. */
  lemma MonthsPaidNonNegative(amount: int, dues: int)
    requires amount >= 0 && dues >= 0
    ensures 0 <= MonthsPaid(amount, dues) <= amount
  {
    if dues > 0 {
      var n := amount / dues;
      assert n >= 0;
      if n > 0 { MulAtLeast(n, dues); }
    }
  }

  lemma MulAtLeast(n: int, d: int)
    requires n > 0 && d > 0
    ensures n * d >= n
  {
    assert n * d == n * (d - 1) + n;
    assert n * (d - 1) >= 0;
  }

  /**
   * Lines 50-61: append one payment, add the amount and the months it covers
   * to the totals, stamp the payment date and recompute arrears.
   */
  function ApplyDues(m: Member, pid: nat, amount: int, date: Moment, recorder: string, now: Moment): (r: (Member, int))
    ensures r.1 == MonthsPaid(amount, m.duesPerMonth)
    ensures r.0.paymentHistory == m.paymentHistory + [Payment(pid, amount, date, r.1, recorder)]
    ensures r.0.totalPaid == m.totalPaid + amount && r.0.monthsCovered == m.monthsCovered + r.1
    ensures r.0.lastPaymentDate == Some(date) && r.0.arrears == MemberArrears(r.0, now)
    ensures r.0.(paymentHistory := m.paymentHistory, totalPaid := m.totalPaid, monthsCovered := m.monthsCovered,
                 lastPaymentDate := m.lastPaymentDate, arrears := m.arrears) == m
  {
    var months := MonthsPaid(amount, m.duesPerMonth);
    var paid := m.(paymentHistory := m.paymentHistory + [Payment(pid, amount, date, months, recorder)],
                   totalPaid := m.totalPaid + amount,
                   monthsCovered := m.monthsCovered + months,
                   lastPaymentDate := Some(date));
    (paid.(arrears := MemberArrears(paid, now)), months)
  }

  /** Paying dues never raises what the member owes. */
  lemma PayingNeverRaisesArrears(m: Member, pid: nat, amount: int, date: Moment, recorder: string, now: Moment)
    requires amount >= 0 && m.duesPerMonth >= 0
    ensures ApplyDues(m, pid, amount, date, recorder, now).0.arrears <= MemberArrears(m, now)
  {
    MonthsPaidNonNegative(amount, m.duesPerMonth);
  }

  /** Where the receipt email goes: the member's address, else the recorder's, else nowhere. */
  function Recipient(member: Option<Member>, recorderEmail: Option<string>): (to: Option<string>)
    ensures to.Some? ==> to.value != []
    ensures member.Some? && member.value.email.Some? && member.value.email.value != [] ==> to == member.value.email
    ensures to.None? <==> (member.None? || member.value.email.None? || member.value.email.value == [])
                          && (recorderEmail.None? || recorderEmail.value == [])
  {
    if member.Some? && member.value.email.Some? && member.value.email.value != [] then member.value.email
    else if recorderEmail.Some? && recorderEmail.value != [] then recorderEmail
    else None
  }

  datatype EmailStatus = EmailMissing | EmailSent | EmailFailed

  function Delivery(to: Option<string>, delivered: bool): (st: EmailStatus)
    ensures st == EmailMissing <==> to.None?
    ensures st == EmailSent <==> to.Some? && delivered
  {
    if to.None? then EmailMissing else if delivered then EmailSent else EmailFailed
  }

  datatype ContributionRequest = ContributionRequest(
    typeId: Option<nat>, amount: Option<BodyNumber>, date: Option<Moment>, memberId: Option<nat>, remarks: Option<string>)

  /** What the environment decides: the receipt id drawn, the recorder's stored email, whether sending succeeded. */
  datatype Mailroom = Mailroom(receiptId: string, recorderEmail: Option<string>, delivered: bool)

  /** The handler's 201 body, with the keys of the documents it created. */
  datatype Recorded = Recorded(contributionId: nat, receiptKey: nat, receiptId: string, logKey: Option<nat>,
                               emailTo: Option<string>, emailStatus: EmailStatus)

  /** `!contributionTypeId || !amount` */
  predicate MissingTypeOrAmount(q: ContributionRequest)
  {
    q.typeId.None? || !Given(q.amount)
  }

  /** The action text of an admin's activity entry: the type, the amount in cedis, and the member when there is one. */
  function RecordedAction(typeName: string, amount: int, member: Option<(nat, Member)>): string
  {
    "Recorded " + typeName + " contribution of GHS " + MoneyText(amount) + (if member.Some? then " for " + member.value.1.name else "")
  }

  function Affected(member: Option<(nat, Member)>): (a: Option<string>)
    ensures a.Some? <==> member.Some?
  {
    if member.Some? then Some(NatToString(member.value.0)) else None
  }

  /** The receipt lines 93-123 create: dues when a payment was saved, otherwise a contribution receipt naming the type. */
  function ReceiptFor(receiptId: string, cid: nat, typeName: string, amount: int, date: Moment, recorder: string,
                      member: Option<(nat, Member)>, payment: Option<(nat, int)>, remarks: string): (rc: Receipt)
    requires payment.Some? ==> member.Some?
    ensures rc.receiptId == receiptId && rc.amount == amount && rc.paymentDate == date && rc.remarks == remarks
    ensures rc.kind.DuesReceipt? <==> payment.Some?
    ensures payment.Some? ==> rc.kind == DuesReceipt(payment.value.0, member.value.1.duesPerMonth, payment.value.1)
    ensures payment.None? ==> rc.kind == ContributionReceipt(cid, typeName)
    ensures rc.memberId.Some? <==> member.Some?
    ensures member.None? ==> rc.memberName == ""
  {
    var kind := if payment.Some? then DuesReceipt(payment.value.0, member.value.1.duesPerMonth, payment.value.1)
                else ContributionReceipt(cid, typeName);
    Receipt(receiptId, kind, if member.Some? then Some(member.value.0) else None,
            if member.Some? then member.value.1.name else "", amount, date, recorder, remarks)
  }

  /**
   * Lines 67-197, once the type and member are known and the member (if
   * any) is saved: create the contribution, issue the receipt, link them,
   * send the email and log for admins. The receipt is validated against
   * `receiptSchema` and then checked by the unique index on its id, both
   * after the contribution is saved: a failure is a 500 that keeps the
   * contribution, without a receipt. A receipt for anything but a dues
   * payment always fails validation.
   */
  function Issue(s: Store, caller: Principal, typeId: nat, typeName: string, amount: int, date: Moment,
                 member: Option<(nat, Member)>, payment: Option<(nat, int)>, remarks: string,
                 env: Mailroom, now: Moment): (r: (Store, Response<Recorded>))
    requires Consistent(s)
    requires payment.Some? ==> member.Some?
    ensures Consistent(r.0) && r.0.members == s.members && r.0.types == s.types
    ensures r.0.subgroups == s.subgroups && r.0.expenditures == s.expenditures && r.0.reminders == s.reminders
    ensures var rc := ReceiptFor(env.receiptId, s.nextId, typeName, amount, date, caller.username, member, payment, remarks);
            r.1.Refused? <==> ReceiptMissing(rc) != [] || !ReceiptIdFree(s.receipts, env.receiptId)
    ensures payment.None? ==> r.1.Refused?
    ensures r.1.Refused? ==> r.1.code == 500 && r.0.receipts == s.receipts && r.0.logs == s.logs
                             && s.nextId !in s.contributions && r.0.contributions.Keys == s.contributions.Keys + {s.nextId}
                             && r.0.contributions[s.nextId].receiptId.None? && r.0.contributions[s.nextId].amount == amount
    ensures r.1.Reply? ==> r.1.code == 201
    ensures r.1.Reply? ==> var c := r.1.body.contributionId;
              c !in s.contributions && r.0.contributions.Keys == s.contributions.Keys + {c}
              && r.0.contributions[c].receiptId == Some(env.receiptId) && r.0.contributions[c].amount == amount
    ensures r.1.Reply? ==> var k := r.1.body.receiptKey;
              k !in s.receipts
              && r.0.receipts == s.receipts[k := ReceiptFor(env.receiptId, r.1.body.contributionId, typeName, amount, date,
                                                            caller.username, member, payment, remarks)]
    ensures r.1.Reply? ==> r.1.body.emailTo == Recipient(if member.Some? then Some(member.value.1) else None, env.recorderEmail)
                           && r.1.body.emailStatus == Delivery(r.1.body.emailTo, env.delivered)
    ensures r.1.Reply? ==> (r.1.body.logKey.Some? <==> caller.IsAdmin())
    ensures r.1.Reply? && r.1.body.logKey.None? ==> r.0.logs == s.logs
    ensures r.1.Reply? && r.1.body.logKey.Some? ==>
              r.1.body.logKey.value !in s.logs
              && r.0.logs == s.logs[r.1.body.logKey.value :=
                                     ActivityLog(caller.username, AdminRole, RecordedAction(typeName, amount, member), now, Affected(member))]
  {
    var cid := s.nextId;
    var mid := if member.Some? then Some(member.value.0) else None;
    var contribution := Contribution(typeId, amount, date, caller.username, mid, remarks, None);
    var s1 := s.(contributions := s.contributions[cid := contribution], nextId := s.nextId + 1);
    var receipt := ReceiptFor(env.receiptId, cid, typeName, amount, date, caller.username, member, payment, remarks);
    var verdict := ValidateReceipt(receipt);
    if verdict.Err? then (s1, Refused(500, verdict.error))
    else if !ReceiptIdFree(s.receipts, env.receiptId) then (s1, Refused(500, "E11000 duplicate key error"))
    else
      var to := Recipient(if member.Some? then Some(member.value.1) else None, env.recorderEmail);
      var (s3, b) := Issued(s1, caller, cid, receipt, to, RecordedAction(typeName, amount, member), Affected(member), env, now);
      (s3, Reply(201, b))
  }

  /**
   * The saved contribution `cid` linked to its receipt, the receipt stored
   * under a fresh key, the email status, and the admin log entry.
   */
  function Issued(s: Store, caller: Principal, cid: nat, receipt: Receipt, to: Option<string>, action: string,
                  affected: Option<string>, env: Mailroom, now: Moment): (r: (Store, Recorded))
    requires Consistent(s) && cid in s.contributions
    ensures Consistent(r.0) && r.0.members == s.members && r.0.types == s.types
    ensures r.0.subgroups == s.subgroups && r.0.expenditures == s.expenditures && r.0.reminders == s.reminders
    ensures r.0.contributions == s.contributions[cid := s.contributions[cid].(receiptId := Some(env.receiptId))]
    ensures r.0.contributions.Keys == s.contributions.Keys && r.0.contributions[cid].amount == s.contributions[cid].amount
            && r.0.contributions[cid].receiptId == Some(env.receiptId)
    ensures var b := r.1;
              b.contributionId == cid && b.receiptKey !in s.receipts && r.0.receipts == s.receipts[b.receiptKey := receipt]
              && b.emailTo == to && b.emailStatus == Delivery(to, env.delivered)
              && (b.logKey.Some? <==> caller.IsAdmin()) && (b.logKey.None? ==> r.0.logs == s.logs)
    ensures r.1.logKey.Some? ==>
              r.1.logKey.value !in s.logs
              && r.0.logs == s.logs[r.1.logKey.value := ActivityLog(caller.username, AdminRole, action, now, affected)]
  {
    var rk := s.nextId;
    var s2 := s.(receipts := s.receipts[rk := receipt],
                 contributions := s.contributions[cid := s.contributions[cid].(receiptId := Some(env.receiptId))],
                 nextId := s.nextId + 1);
    var (s3, lk) := AdminLog(s2, caller, action, affected, now);
    (s3, Recorded(cid, rk, env.receiptId, lk, to, Delivery(to, env.delivered)))
  }

  /**
   * `createContribution`: 400 without a type or a truthy amount, 404 for
   * an unknown type or member, then dues applied to the member when the
   * type is Dues and a member is named, and the contribution issued. Only
   * that case has a receipt the schema accepts: any other contribution is
   * saved and then answered with the receipt's validation 500.
   */
  function CreateContribution(s: Store, caller: Principal, q: ContributionRequest, env: Mailroom, now: Moment): (r: (Store, Response<Recorded>))
    requires Consistent(s)
    ensures Consistent(r.0)
    ensures MissingTypeOrAmount(q) ==> r == (s, Refused(400, "Contribution type and amount are required"))
    ensures !MissingTypeOrAmount(q) && q.typeId.value !in s.types ==> r == (s, Refused(404, "Contribution type not found"))
    ensures !MissingTypeOrAmount(q) && q.typeId.value in s.types && q.memberId.Some? && q.memberId.value !in s.members ==>
              r == (s, Refused(404, "Member not found"))
    ensures r.0.subgroups == s.subgroups && r.0.expenditures == s.expenditures && r.0.types == s.types
    ensures r.1.Reply? ==> r.1.code == 201 && r.1.body.receiptKey in r.0.receipts
                           && r.0.receipts[r.1.body.receiptKey].kind.DuesReceipt?
                           && q.memberId.Some? && IsDues(s.types[q.typeId.value].name)
    ensures !MissingTypeOrAmount(q) && q.typeId.value in s.types && (q.memberId.None? || q.memberId.value in s.members)
            && (q.memberId.None? || !IsDues(s.types[q.typeId.value].name)) ==>
              r.1.Refused? && r.1.code == 500 && r.0.members == s.members && r.0.receipts == s.receipts
              && s.nextId !in s.contributions && r.0.contributions.Keys == s.contributions.Keys + {s.nextId}
    ensures r.1.Reply? ==>
              var mid := q.memberId.value;
              mid in s.members
              && r.0.members == s.members[mid := ApplyDues(s.members[mid], s.nextId, q.amount.value.value, q.date.GetOr(now), caller.username, now).0]
    ensures !MissingTypeOrAmount(q) && q.typeId.value in s.types && q.memberId.Some? && q.memberId.value in s.members
            && IsDues(s.types[q.typeId.value].name) ==>
              r == PayDues(s, caller, q.typeId.value, s.types[q.typeId.value].name, q.amount.value.value, q.date.GetOr(now),
                           q.memberId.value, q.remarks.GetOr(""), env, now)
  {
    if MissingTypeOrAmount(q) then (s, Refused(400, "Contribution type and amount are required"))
    else if q.typeId.value !in s.types then (s, Refused(404, "Contribution type not found"))
    else if q.memberId.Some? && q.memberId.value !in s.members then (s, Refused(404, "Member not found"))
    else
      var tid := q.typeId.value;
      var typeName := s.types[tid].name;
      var amount := q.amount.value.value;
      var date := q.date.GetOr(now);
      var remarks := q.remarks.GetOr("");
      if q.memberId.None? then
        Issue(s, caller, tid, typeName, amount, date, None, None, remarks, env, now)
      else
        var mid := q.memberId.value;
        var member := s.members[mid];
        if !IsDues(typeName) then
          Issue(s, caller, tid, typeName, amount, date, Some((mid, member)), None, remarks, env, now)
        else
          PayDues(s, caller, tid, typeName, amount, date, mid, remarks, env, now)
  }

  /**
   * Lines 44-65 and on: the dues applied to member `mid` and saved (the
   * member schema's validation can refuse it with a 500 that changes
   * nothing), then the contribution issued with a dues receipt for the new
   * payment.
   */
  function PayDues(s: Store, caller: Principal, tid: nat, typeName: string, amount: int, date: Moment, mid: nat,
                   remarks: string, env: Mailroom, now: Moment): (r: (Store, Response<Recorded>))
    requires Consistent(s) && mid in s.members
    ensures Consistent(r.0)
    ensures r.0.subgroups == s.subgroups && r.0.expenditures == s.expenditures && r.0.types == s.types
    ensures r.1.Refused? ==> r.1.code == 500
    ensures r.1.Reply? ==>
              var paid := ApplyDues(s.members[mid], s.nextId, amount, date, caller.username, now).0;
              r.1.code == 201 && r.0.members == s.members[mid := paid] && r.1.body.receiptKey in r.0.receipts
              && r.0.receipts[r.1.body.receiptKey].kind
                 == DuesReceipt(s.nextId, s.members[mid].duesPerMonth, MonthsPaid(amount, s.members[mid].duesPerMonth))
    ensures r.1.Reply? && r.1.body.logKey.Some? ==>
              r.1.body.logKey.value in r.0.logs
              && r.0.logs[r.1.body.logKey.value].action == RecordedAction(typeName, amount, Some((mid, s.members[mid])))
  {
    var member := s.members[mid];
    var (paid, months) := ApplyDues(member, s.nextId, amount, date, caller.username, now);
    match ValidateMember(paid)
    case Err(msg) => (s, Refused(500, msg))
    case Ok(_) =>
      var s1 := s.(members := s.members[mid := paid], nextId := s.nextId + 1);
      assert RecordedAction(typeName, amount, Some((mid, paid))) == RecordedAction(typeName, amount, Some((mid, member)));
      Issue(s1, caller, tid, typeName, amount, date, Some((mid, paid)), Some((s.nextId, months)), remarks, env, now)
  }

  /** `typeMap[id]?.name || 'Unknown'` */
  function TypeLabel(types: map<nat, ContributionType>, id: nat): (caption: string)
    ensures caption == "Unknown" <==> id !in types || types[id].name == [] || types[id].name == "Unknown"
    ensures id in types && types[id].name != [] ==> caption == types[id].name
  {
    if id in types && types[id].name != [] then types[id].name else "Unknown"
  }

  /** `_id ? (typeMap[_id]?.name || 'Unknown') : 'Unspecified'` */
  function FundingLabel(types: map<nat, ContributionType>, id: Option<nat>): (caption: string)
    ensures id.None? ==> caption == "Unspecified"
    ensures id.Some? ==> caption == TypeLabel(types, id.value)
  {
    if id.None? then "Unspecified" else TypeLabel(types, id.value)
  }

  datatype Line<K> = Line(key: K, caption: string, total: int, count: nat)

  /** The `$match` on the optional date bounds, over documents in natural order. */
  function ContributionItems(s: Store, ids: seq<nat>, from: Option<Moment>, to: Option<Moment>): (items: seq<(nat, int)>)
    requires forall i :: 0 <= i < |ids| ==> ids[i] in s.contributions
    ensures |items| <= |ids|
  {
    if ids == [] then []
    else
      var c := s.contributions[ids[|ids| - 1]];
      ContributionItems(s, ids[..|ids| - 1], from, to) + (if InRange(c.date, from, to) then [(c.typeId, c.amount)] else [])
  }

  function ExpenditureItems(s: Store, ids: seq<nat>, from: Option<Moment>, to: Option<Moment>): (items: seq<(Option<nat>, int)>)
    requires forall i :: 0 <= i < |ids| ==> ids[i] in s.expenditures
    ensures |items| <= |ids|
  {
    if ids == [] then []
    else
      var e := s.expenditures[ids[|ids| - 1]];
      ExpenditureItems(s, ids[..|ids| - 1], from, to) + (if InRange(e.date, from, to) then [(e.fundedBy, e.amount)] else [])
  }

  function LabelTypes(types: map<nat, ContributionType>, gs: seq<Grouping.Group<nat>>): (ls: seq<Line<nat>>)
    ensures |ls| == |gs|
    ensures forall i :: 0 <= i < |gs| ==>
              ls[i] == Line(gs[i].key, TypeLabel(types, gs[i].key), gs[i].total, gs[i].count)
  {
    seq(|gs|, i requires 0 <= i < |gs| => Line(gs[i].key, TypeLabel(types, gs[i].key), gs[i].total, gs[i].count))
  }

  function LabelSources(types: map<nat, ContributionType>, gs: seq<Grouping.Group<Option<nat>>>): (ls: seq<Line<Option<nat>>>)
    ensures |ls| == |gs|
    ensures forall i :: 0 <= i < |gs| ==>
              ls[i] == Line(gs[i].key, FundingLabel(types, gs[i].key), gs[i].total, gs[i].count)
  {
    seq(|gs|, i requires 0 <= i < |gs| => Line(gs[i].key, FundingLabel(types, gs[i].key), gs[i].total, gs[i].count))
  }

  /**
   * `getFinancialBreakdown`: contributions grouped by type and expenditures
   * by funding type, within the optional date bounds, each line labelled.
   */
  function FinancialBreakdown(s: Store, from: Option<Moment>, to: Option<Moment>): (r: (seq<Line<nat>>, seq<Line<Option<nat>>>))
    requires Consistent(s)
    ensures forall i :: 0 <= i < |r.0| ==> r.0[i].caption == TypeLabel(s.types, r.0[i].key) && r.0[i].count > 0
    ensures forall i :: 0 <= i < |r.1| ==> r.1[i].caption == FundingLabel(s.types, r.1[i].key) && r.1[i].count > 0
    ensures forall i, j :: 0 <= i < j < |r.0| ==> r.0[i].key != r.0[j].key
    ensures forall i, j :: 0 <= i < j < |r.1| ==> r.1[i].key != r.1[j].key
  {
    var cs := ContributionItems(s, Ordering.KeysAsc(s.contributions, s.nextId), from, to);
    var es := ExpenditureItems(s, Ordering.KeysAsc(s.expenditures, s.nextId), from, to);
    var cg := Grouping.GroupSums(cs);
    var eg := Grouping.GroupSums(es);
    forall i | 0 <= i < |cg| ensures cg[i].count > 0 {
      assert Grouping.HasGroup(cg, cg[i].key);
    }
    forall i | 0 <= i < |eg| ensures eg[i].count > 0 {
      assert Grouping.HasGroup(eg, eg[i].key);
    }
    (LabelTypes(s.types, cg), LabelSources(s.types, eg))
  }

  /** The per-type totals of the breakdown add up to everything contributed in the window. */
  lemma BreakdownAddsUp(s: Store, from: Option<Moment>, to: Option<Moment>)
    requires Consistent(s)
    ensures var lines := FinancialBreakdown(s, from, to).0;
            var cs := ContributionItems(s, Ordering.KeysAsc(s.contributions, s.nextId), from, to);
            LineTotal(lines) == Grouping.TotalOf(cs)
  {
    var cs := ContributionItems(s, Ordering.KeysAsc(s.contributions, s.nextId), from, to);
    var gs := Grouping.GroupSums(cs);
    Grouping.GroupTotalsAddUp(cs);
    LineTotalMatches(s.types, gs);
  }

  function LineTotal<K>(ls: seq<Line<K>>): int
  {
    if ls == [] then 0 else LineTotal(ls[..|ls| - 1]) + ls[|ls| - 1].total
  }

  lemma {:induction false} LineTotalMatches(types: map<nat, ContributionType>, gs: seq<Grouping.Group<nat>>)
    ensures LineTotal(LabelTypes(types, gs)) == Grouping.Total(gs)
  {
    if gs != [] {
      var n := |gs| - 1;
      LineTotalMatches(types, gs[..n]);
      assert LabelTypes(types, gs)[..n] == LabelTypes(types, gs[..n]);
    }
  }
}
