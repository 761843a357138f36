/**
 * Dues payments (controllers/paymentController.js): recording a payment
 * against a member, listing payments across members with date and recorder
 * filters, and fetching one payment. The receipt id, the email outcome and
 * the clock are parameters.
 */
module Payments {
  import opened Wrappers
  import opened Http
  import opened Calendar
  import opened Accounts
  import opened Schemas
  import opened TenantStore
  import opened Contributions
  import Text
  import Ordering

  /** A JavaScript number produced by a division: finite, infinite or not a number. */
  datatype JsQuotient = Finite(n: int) | PosInfinity | NegInfinity | NotANumber

  /**
   * Line 31 as written: `Math.floor(paymentAmount / member.duesPerMonth)`
   * with no guard, so a member whose dues are 0 gets an infinite (or NaN)
   * number of months.
   */
  function MonthsAsWritten(amount: int, dues: int): (q: JsQuotient)
    ensures dues != 0 ==> q == Finite(FloorDiv(amount, dues))
    ensures dues == 0 ==> !q.Finite?
  {
    if dues != 0 then Finite(FloorDiv(amount, dues))
    else if amount > 0 then PosInfinity
    else if amount < 0 then NegInfinity
    else NotANumber
  }

  /**
   * GHS 5.00 paid by a member with no dues set: the written code covers
   * infinitely many months, the guarded rule five (one per cedi).
   */
  lemma ZeroDuesPaymentAsWritten()
    ensures MonthsAsWritten(500, 0) == PosInfinity
    ensures MonthsPaid(500, 0) == 5
  {
  }

  /**
   * With the guard `|| 1` of the contribution handler, months are finite,
   * dues of 0 count as dues of one cedi, and otherwise the guarded rule
   * agrees with the written code.
   */
  lemma GuardedMonthsAgree(amount: int, dues: int)
    ensures dues != 0 ==> MonthsAsWritten(amount, dues) == Finite(MonthsPaid(amount, dues))
    ensures dues == 0 ==> MonthsAsWritten(amount, Text.MinorPerMajor) == Finite(MonthsPaid(amount, dues))
                          && MonthsPaid(amount, dues) == MonthsPaid(amount, Text.MinorPerMajor)
    ensures amount >= 0 && dues >= 0 ==> 0 <= MonthsPaid(amount, dues) <= amount
  {
    if amount >= 0 && dues >= 0 {
      MonthsPaidNonNegative(amount, dues);
    }
  }

  datatype PaymentRequest = PaymentRequest(memberId: Option<nat>, amount: Option<BodyNumber>, date: Option<Moment>, remarks: Option<string>)

  datatype PaymentRecorded = PaymentRecorded(member: Member, payment: Payment, receiptKey: nat, receiptId: string,
                                             logKey: Option<nat>, emailTo: Option<string>, emailStatus: EmailStatus)

  /** `member.email || null`: the only recipient of a payment receipt. */
  function MemberEmail(m: Member): (to: Option<string>)
    ensures to.None? <==> m.email.None? || m.email.value == []
    ensures to.Some? ==> to == m.email
  {
    if m.email.Some? && m.email.value != [] then m.email else None
  }

  /** The action an admin's payment leaves in the activity log: the amount in cedis, the member and the months. */
  function PaymentAction(amount: int, name: string, months: int): string
  {
    "Recorded payment of " + Text.MoneyText(amount) + " for " + name + " (" + Text.IntToString(months) + " months)"
  }

  /** The dues receipt of the member's newest payment. */
  function PaymentReceipt(receiptId: string, mid: nat, paid: Member, remarks: string): (rc: Receipt)
    requires |paid.paymentHistory| > 0
    ensures var p := paid.paymentHistory[|paid.paymentHistory| - 1];
            rc.kind == DuesReceipt(p.id, paid.duesPerMonth, p.monthsCovered) && rc.memberId == Some(mid)
            && rc.amount == p.amount && rc.remarks == remarks && rc.receiptId == receiptId
    ensures ReceiptMissing(rc) == [] <==>
              receiptId != [] && paid.name != [] && paid.paymentHistory[|paid.paymentHistory| - 1].recordedBy != []
  {
    var p := paid.paymentHistory[|paid.paymentHistory| - 1];
    Receipt(receiptId, DuesReceipt(p.id, paid.duesPerMonth, p.monthsCovered), Some(mid), paid.name, p.amount, p.date, p.recordedBy, remarks)
  }

  /**
   * Lines 51-129, once the member is saved: the dues receipt linking the
   * new payment (a 500 when the schema's validation or the unique index on
   * its id refuses it), the email status and an activity entry for admins.
   */
  function Acknowledge(s: Store, caller: Principal, mid: nat, paid: Member, remarks: string, env: Mailroom, now: Moment): (r: (Store, Response<PaymentRecorded>))
    requires Consistent(s) && mid in s.members && |paid.paymentHistory| > 0
    ensures Consistent(r.0) && r.0.members == s.members && r.0.types == s.types
    ensures r.0.subgroups == s.subgroups && r.0.contributions == s.contributions
    ensures r.1.Refused? <==> ReceiptMissing(PaymentReceipt(env.receiptId, mid, paid, remarks)) != []
                              || !ReceiptIdFree(s.receipts, env.receiptId)
    ensures r.1.Refused? ==> r.0 == s && r.1.code == 500
    ensures ReceiptMissing(PaymentReceipt(env.receiptId, mid, paid, remarks)) == [] && r.1.Refused? ==>
              r.1 == Refused(500, "E11000 duplicate key error")
    ensures r.1.Reply? ==> var b := r.1.body;
              r.1.code == 201 && b.member == paid && b.payment == paid.paymentHistory[|paid.paymentHistory| - 1]
              && b.receiptKey !in s.receipts && b.receiptKey in r.0.receipts
              && r.0.receipts == s.receipts[b.receiptKey := r.0.receipts[b.receiptKey]]
              && r.0.receipts[b.receiptKey] == PaymentReceipt(env.receiptId, mid, paid, remarks)
              && b.emailTo == MemberEmail(paid) && (b.emailStatus == EmailMissing <==> b.emailTo.None?)
              && (b.logKey.Some? <==> caller.IsAdmin()) && (b.logKey.None? ==> r.0.logs == s.logs)
    ensures r.1.Reply? && r.1.body.logKey.Some? ==> var b := r.1.body;
              b.logKey.value !in s.logs && b.logKey.value in r.0.logs
              && r.0.logs[b.logKey.value].action == PaymentAction(b.payment.amount, paid.name, b.payment.monthsCovered)
  {
    var payment := paid.paymentHistory[|paid.paymentHistory| - 1];
    var receipt := PaymentReceipt(env.receiptId, mid, paid, remarks);
    if ValidateReceipt(receipt).Err? then (s, Refused(500, ValidateReceipt(receipt).error))
    else if !ReceiptIdFree(s.receipts, env.receiptId) then (s, Refused(500, "E11000 duplicate key error"))
    else
      var (s3, b) := Acknowledged(s, caller, mid, paid, receipt, env, now);
      (s3, Reply(201, b))
  }

  /** The receipt stored under a fresh key, the email status, and the admin log entry. */
  function Acknowledged(s: Store, caller: Principal, mid: nat, paid: Member, receipt: Receipt, env: Mailroom, now: Moment)
    : (r: (Store, PaymentRecorded))
    requires Consistent(s) && |paid.paymentHistory| > 0
    ensures Consistent(r.0) && r.0.members == s.members && r.0.types == s.types
    ensures r.0.subgroups == s.subgroups && r.0.contributions == s.contributions
    ensures var b := r.1;
              b.member == paid && b.payment == paid.paymentHistory[|paid.paymentHistory| - 1]
              && b.receiptKey !in s.receipts && r.0.receipts == s.receipts[b.receiptKey := receipt]
              && b.emailTo == MemberEmail(paid) && (b.emailStatus == EmailMissing <==> b.emailTo.None?)
              && (b.logKey.Some? <==> caller.IsAdmin()) && (b.logKey.None? ==> r.0.logs == s.logs)
    ensures r.1.logKey.Some? ==> var b := r.1;
              b.logKey.value !in s.logs && b.logKey.value in r.0.logs
              && r.0.logs[b.logKey.value].action == PaymentAction(b.payment.amount, paid.name, b.payment.monthsCovered)
  {
    var payment := paid.paymentHistory[|paid.paymentHistory| - 1];
    var rk := s.nextId;
    var s2 := s.(receipts := s.receipts[rk := receipt], nextId := s.nextId + 1);
    var to := MemberEmail(paid);
    var (s3, lk) := AdminLog(s2, caller, PaymentAction(payment.amount, paid.name, payment.monthsCovered),
                             Some(Text.NatToString(mid)), now);
    (s3, PaymentRecorded(paid, payment, rk, env.receiptId, lk, to, Delivery(to, env.delivered)))
  }

  /**
   * `recordPayment` with the months guarded as the contribution handler
   * guards them: 400 without a member or a truthy amount (the text "0" is
   * truthy and reads as zero), 404 for an unknown member, then the payment
   * applied and saved and acknowledged.
   */
  function RecordPayment(s: Store, caller: Principal, q: PaymentRequest, env: Mailroom, now: Moment): (r: (Store, Response<PaymentRecorded>))
    requires Consistent(s)
    ensures Consistent(r.0)
    ensures q.memberId.None? || !Given(q.amount) ==> r == (s, Refused(400, "Member ID and amount are required"))
    ensures q.memberId.Some? && Given(q.amount) && q.memberId.value !in s.members ==>
              r == (s, Refused(404, "Member not found"))
    ensures r.0.types == s.types && r.0.subgroups == s.subgroups && r.0.contributions == s.contributions
    ensures r.1.Reply? ==> var mid := q.memberId.value; var b := r.1.body;
              r.1.code == 201 && mid in s.members
              && r.0.members == s.members[mid := b.member]
              && b.member == ApplyDues(s.members[mid], s.nextId, q.amount.value.value, q.date.GetOr(now), caller.username, now).0
              && b.payment == b.member.paymentHistory[|b.member.paymentHistory| - 1]
              && b.payment.monthsCovered == MonthsPaid(q.amount.value.value, s.members[mid].duesPerMonth)
              && b.payment.amount == q.amount.value.value
    ensures r.1.Reply? ==> var b := r.1.body;
              b.receiptKey !in s.receipts && b.receiptKey in r.0.receipts
              && r.0.receipts == s.receipts[b.receiptKey := r.0.receipts[b.receiptKey]]
              && r.0.receipts[b.receiptKey].kind == DuesReceipt(b.payment.id, b.member.duesPerMonth, b.payment.monthsCovered)
              && r.0.receipts[b.receiptKey].remarks == q.remarks.GetOr("")
    ensures r.1.Reply? ==> r.1.body.emailTo == MemberEmail(s.members[q.memberId.value])
                           && (r.1.body.emailStatus == EmailMissing <==> r.1.body.emailTo.None?)
    ensures r.1.Reply? ==> (r.1.body.logKey.Some? <==> caller.IsAdmin())
                           && (r.1.body.logKey.None? ==> r.0.logs == s.logs)
  {
    if q.memberId.None? || !Given(q.amount) then (s, Refused(400, "Member ID and amount are required"))
    else if q.memberId.value !in s.members then (s, Refused(404, "Member not found"))
    else
      var mid := q.memberId.value;
      var (paid, months) := ApplyDues(s.members[mid], s.nextId, q.amount.value.value, q.date.GetOr(now), caller.username, now);
      match ValidateMember(paid)
      case Err(msg) => (s, Refused(500, msg))
      case Ok(_) =>
        var s1 := s.(members := s.members[mid := paid], nextId := s.nextId + 1);
        var r := Acknowledge(s1, caller, mid, paid, q.remarks.GetOr(""), env, now);
        if r.1.Refused? then (s1, r.1) else r
  }

  /** One row of the payments listing. */
  datatype PaymentView = PaymentView(paymentId: nat, memberId: nat, memberName: string, amount: int, date: Moment,
                                     monthsCovered: int, recordedBy: string)

  function ViewOf(k: nat, m: Member, p: Payment): PaymentView
  {
    PaymentView(p.id, k, m.name, p.amount, p.date, p.monthsCovered, p.recordedBy)
  }

  /** Lines 150-152: inside the optional date bounds and, when a recorder is given, recorded by them. */
  predicate Qualifies(p: Payment, from: Option<Moment>, to: Option<Moment>, recordedBy: Option<string>)
  {
    InRange(p.date, from, to) && (recordedBy.None? || recordedBy.value == [] || p.recordedBy == recordedBy.value)
  }

  function MemberPayments(k: nat, m: Member, hist: seq<Payment>, from: Option<Moment>, to: Option<Moment>,
                          recordedBy: Option<string>): (vs: seq<PaymentView>)
    ensures forall v :: v in vs <==> exists j :: 0 <= j < |hist| && Qualifies(hist[j], from, to, recordedBy) && v == ViewOf(k, m, hist[j])
  {
    if hist == [] then []
    else
      var init := hist[..|hist| - 1];
      var last := hist[|hist| - 1];
      var vs := MemberPayments(k, m, init, from, to, recordedBy) + (if Qualifies(last, from, to, recordedBy) then [ViewOf(k, m, last)] else []);
      assert forall j :: 0 <= j < |init| ==> init[j] == hist[j];
      vs
  }

  predicate OfMember(s: Store, k: nat, v: PaymentView, from: Option<Moment>, to: Option<Moment>, recordedBy: Option<string>)
    requires k in s.members
  {
    v in MemberPayments(k, s.members[k], s.members[k].paymentHistory, from, to, recordedBy)
  }

  function Collect(s: Store, ids: seq<nat>, from: Option<Moment>, to: Option<Moment>, recordedBy: Option<string>): (vs: seq<PaymentView>)
    requires forall i :: 0 <= i < |ids| ==> ids[i] in s.members
    ensures forall v :: v in vs <==> exists i :: 0 <= i < |ids| && OfMember(s, ids[i], v, from, to, recordedBy)
  {
    if ids == [] then []
    else
      var init := ids[..|ids| - 1];
      var k := ids[|ids| - 1];
      assert forall i :: 0 <= i < |init| ==> init[i] == ids[i];
      Collect(s, init, from, to, recordedBy) + MemberPayments(k, s.members[k], s.members[k].paymentHistory, from, to, recordedBy)
  }

  /** `Member.find(memberId ? { _id: memberId } : {})` in natural order. */
  function MemberScope(s: Store, memberId: Option<nat>): (ids: seq<nat>)
    requires Consistent(s)
    ensures forall i :: 0 <= i < |ids| ==> ids[i] in s.members && (memberId.None? || ids[i] == memberId.value)
    ensures forall k :: k in s.members && (memberId.None? || k == memberId.value) ==> k in ids
  {
    if memberId.Some? then (if memberId.value in s.members then [memberId.value] else [])
    else Ordering.KeysAsc(s.members, s.nextId)
  }

  function DateKey(v: PaymentView): int { Ordinal(v.date) }

  /**
   * `getAllPayments`: the qualifying payments of the members in scope, newest
   * first; payments of the same date keep the order they were collected in,
   * since `Array.prototype.sort` is stable.
   */
  function GetAllPayments(s: Store, memberId: Option<nat>, from: Option<Moment>, to: Option<Moment>,
                          recordedBy: Option<string>): (vs: seq<PaymentView>)
    requires Consistent(s)
    ensures Ordering.SortedDesc(vs, DateKey)
    ensures multiset(vs) == multiset(Collect(s, MemberScope(s, memberId), from, to, recordedBy))
    ensures Ordering.KeepsTies(vs, Collect(s, MemberScope(s, memberId), from, to, recordedBy), DateKey)
  {
    var c := Collect(s, MemberScope(s, memberId), from, to, recordedBy);
    Ordering.SortDescKeepsAllTies(c, DateKey);
    Ordering.SortDesc(c, DateKey)
  }

  /** Row `v` comes from payment `j` of member `k`, which is in scope and qualifies. */
  predicate Source(s: Store, memberId: Option<nat>, from: Option<Moment>, to: Option<Moment>, recordedBy: Option<string>,
                   k: nat, j: int, v: PaymentView)
  {
    k in s.members && (memberId.None? || k == memberId.value) && 0 <= j < |s.members[k].paymentHistory|
    && Qualifies(s.members[k].paymentHistory[j], from, to, recordedBy)
    && v == ViewOf(k, s.members[k], s.members[k].paymentHistory[j])
  }

  /** Sorting neither adds nor drops rows. */
  lemma SortKeepsRows(c: seq<PaymentView>, v: PaymentView)
    ensures v in Ordering.SortDesc(c, DateKey) <==> v in c
  {
    var vs := Ordering.SortDesc(c, DateKey);
    assert v in vs <==> v in multiset(vs);
    assert v in c <==> v in multiset(c);
  }

  lemma CollectedHasSource(s: Store, memberId: Option<nat>, from: Option<Moment>, to: Option<Moment>,
                           recordedBy: Option<string>, v: PaymentView)
    requires Consistent(s)
    requires v in Collect(s, MemberScope(s, memberId), from, to, recordedBy)
    ensures exists k, j :: Source(s, memberId, from, to, recordedBy, k, j, v)
  {
    var ids := MemberScope(s, memberId);
    var i :| 0 <= i < |ids| && OfMember(s, ids[i], v, from, to, recordedBy);
    var hist := s.members[ids[i]].paymentHistory;
    var j :| 0 <= j < |hist| && Qualifies(hist[j], from, to, recordedBy) && v == ViewOf(ids[i], s.members[ids[i]], hist[j]);
    assert Source(s, memberId, from, to, recordedBy, ids[i], j, v);
  }

  lemma SourceIsCollected(s: Store, memberId: Option<nat>, from: Option<Moment>, to: Option<Moment>,
                          recordedBy: Option<string>, v: PaymentView, k: nat, j: int)
    requires Consistent(s)
    requires Source(s, memberId, from, to, recordedBy, k, j, v)
    ensures v in Collect(s, MemberScope(s, memberId), from, to, recordedBy)
  {
    var ids := MemberScope(s, memberId);
    var i :| 0 <= i < |ids| && ids[i] == k;
    assert OfMember(s, ids[i], v, from, to, recordedBy);
  }

  /** A row is listed exactly when it is a qualifying payment of a member in scope. */
  lemma ListedIffQualifies(s: Store, memberId: Option<nat>, from: Option<Moment>, to: Option<Moment>,
                           recordedBy: Option<string>, v: PaymentView)
    requires Consistent(s)
    ensures v in GetAllPayments(s, memberId, from, to, recordedBy) <==>
            exists k, j :: Source(s, memberId, from, to, recordedBy, k, j, v)
  {
    var c := Collect(s, MemberScope(s, memberId), from, to, recordedBy);
    SortKeepsRows(c, v);
    if v in c {
      CollectedHasSource(s, memberId, from, to, recordedBy, v);
    }
    if exists k, j :: Source(s, memberId, from, to, recordedBy, k, j, v) {
      var k, j :| Source(s, memberId, from, to, recordedBy, k, j, v);
      SourceIsCollected(s, memberId, from, to, recordedBy, v, k, j);
    }
  }

  /** `paymentHistory.id(paymentId)`: the first embedded payment with that id. */
  function FindPayment(hist: seq<Payment>, pid: nat): (r: Option<Payment>)
    ensures r.Some? ==> r.value in hist && r.value.id == pid
    ensures r.None? <==> forall j :: 0 <= j < |hist| ==> hist[j].id != pid
  {
    if hist == [] then None
    else if hist[0].id == pid then Some(hist[0])
    else
      var r := FindPayment(hist[1..], pid);
      assert forall j :: 1 <= j < |hist| ==> hist[j] == hist[1..][j - 1];
      r
  }

  /** `getPaymentById`: 404 for an unknown member or payment, otherwise the payment's row. */
  function GetPaymentById(s: Store, memberId: nat, paymentId: nat): (r: Response<PaymentView>)
    ensures memberId !in s.members ==> r == Refused(404, "Member not found")
    ensures memberId in s.members ==>
              (r.Refused? <==> forall j :: 0 <= j < |s.members[memberId].paymentHistory| ==>
                                 s.members[memberId].paymentHistory[j].id != paymentId)
    ensures r.Reply? ==> r.code == 200 && r.body.paymentId == paymentId && r.body.memberId == memberId
                         && exists p :: p in s.members[memberId].paymentHistory && r.body == ViewOf(memberId, s.members[memberId], p)
  {
    if memberId !in s.members then Refused(404, "Member not found")
    else
      var m := s.members[memberId];
      match FindPayment(m.paymentHistory, paymentId)
      case None => Refused(404, "Payment not found")
      case Some(p) => Reply(200, ViewOf(memberId, m, p))
  }
}
