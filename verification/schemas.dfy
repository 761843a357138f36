/**
 * The per-tenant document shapes of models/schemas.js: members with their
 * embedded payment history, subgroups, expenditures, receipts, reminders and
 * activity logs, their enums with defaults, their numeric minimums, the
 * unique indexes, and the member's own arrears method.
 * Contribution types and contributions have no schema there; their shapes
 * follow the handlers that write them.
 */
module Schemas {
  import opened Wrappers
  import opened Calendar
  import opened Accounts
  import Helpers
  import Text

  datatype MemberRole = MemberRoleMember | MemberRoleAdmin

  /** The member role as stored: absent means `member`; anything outside the enum is refused. */
  function ParseMemberRole(s: Option<string>): (r: Result<MemberRole, string>)
    ensures s.None? ==> r == Ok(MemberRoleMember)
    ensures r.Ok? <==> s.None? || s.value == "member" || s.value == "admin"
    ensures r.Ok? && s.Some? ==> (r.value == MemberRoleAdmin <==> s.value == "admin")
  {
    match s
    case None => Ok(MemberRoleMember)
    case Some(v) =>
      if v == "member" then Ok(MemberRoleMember)
      else if v == "admin" then Ok(MemberRoleAdmin)
      else Err("role must be member or admin")
  }

  /**
   * A member's `memberId` path: never set, set to `null`, or a text. The
   * sparse unique index leaves out only a document without the path, so
   * `null` is an indexed value like any text.
   */
  datatype MemberIdPath = Unset | NullId | IdText(text: string)
  {
    /** The text a `$regex` search can match: only a text value. */
    function Searchable(): Option<string> { if IdText? then Some(text) else None }
  }

  /** The `trim` setter on `memberId`: it trims a text and leaves `null` and an unset path alone. */
  function TrimId(id: MemberIdPath): (r: MemberIdPath)
    ensures r.Unset? <==> id.Unset?
    ensures r.NullId? <==> id.NullId?
    ensures id.IdText? ==> r == IdText(Text.Trim(id.text))
  {
    if id.IdText? then IdText(Text.Trim(id.text)) else id
  }

  lemma TrimIdIdempotent(id: MemberIdPath)
    ensures TrimId(TrimId(id)) == TrimId(id)
  {
    if id.IdText? {
      Text.TrimIdempotent(id.text);
    }
  }

  /** One entry of a member's embedded payment history. */
  datatype Payment = Payment(id: nat, amount: int, date: Moment, monthsCovered: int, recordedBy: string)

  datatype Member = Member(
    name: string,
    memberId: MemberIdPath,
    subgroupId: Option<nat>,
    contact: Option<string>,
    email: Option<string>,
    role: MemberRole,
    joinDate: Moment,
    duesPerMonth: int,
    totalPaid: int,
    monthsCovered: int,
    arrears: int,
    lastPaymentDate: Option<Moment>,
    paymentHistory: seq<Payment>)

  /** `memberSchema.methods.calculateArrears`, with the clock passed in. */
  function MemberArrears(m: Member, now: Moment): (r: int)
    ensures r >= 0
    ensures r >= MonthsInclusive(m.joinDate, now) - m.monthsCovered
    ensures r == 0 || r == MonthsInclusive(m.joinDate, now) - m.monthsCovered
  {
    var owed := (now.year - m.joinDate.year) * 12 + (now.month - m.joinDate.month) + 1 - m.monthsCovered;
    if owed > 0 then owed else 0
  }

  /** The schema method and the database helper agree whenever both fields are present. */
  lemma MemberArrearsAgreesWithHelper(m: Member, now: Moment)
    ensures MemberArrears(m, now) == Helpers.Arrears(Some(m.joinDate), Some(m.monthsCovered), now)
  {
  }

  /** A member who joined this month and has covered nothing owes exactly one month. */
  lemma NewMemberOwesOneMonth(m: Member, now: Moment)
    requires MonthIndex(m.joinDate) == MonthIndex(now) && m.monthsCovered == 0
    ensures MemberArrears(m, now) == 1
  {
  }

  /** The `trim` setter of an optional path: a present value is trimmed, an absent one stays absent. */
  function TrimOpt(s: Option<string>): (r: Option<string>)
    ensures r.None? <==> s.None?
    ensures r.Some? ==> r.value == Text.Trim(s.value) && Text.Trim(r.value) == r.value
  {
    if s.None? then None
    else
      Text.TrimIdempotent(s.value);
      Some(Text.Trim(s.value))
  }

  /** The `trim` and `lowercase` setters of an optional path, as `email` declares them. */
  function TrimLowerOpt(s: Option<string>): (r: Option<string>)
    ensures r.None? <==> s.None?
    ensures r.Some? ==> r.value == Text.Lower(Text.Trim(s.value)) && Text.Trim(r.value) == r.value && Text.NoUpper(r.value)
  {
    if s.None? then None
    else
      Text.TrimLowerTrimmed(s.value);
      Text.LowerHasNoUpper(Text.Trim(s.value));
      Some(Text.Lower(Text.Trim(s.value)))
  }

  /**
   * The setters the member paths run whenever a value is assigned, on
   * construction and on update alike: `name`, `memberId` and `contact`
   * trimmed, `email` trimmed and lower-cased; the other paths as given.
   */
  function SetMember(m: Member): (r: Member)
    ensures r.name == Text.Trim(m.name) && r.memberId == TrimId(m.memberId) && r.contact == TrimOpt(m.contact)
    ensures r.email == TrimLowerOpt(m.email)
    ensures r.(name := m.name, memberId := m.memberId, contact := m.contact, email := m.email) == m
  {
    m.(name := Text.Trim(m.name), memberId := TrimId(m.memberId), contact := TrimOpt(m.contact), email := TrimLowerOpt(m.email))
  }

  /** Every text path of the member is as its setters leave it. */
  predicate Trimmed(m: Member)
  {
    Text.Trim(m.name) == m.name && TrimId(m.memberId) == m.memberId && TrimOpt(m.contact) == m.contact
    && TrimLowerOpt(m.email) == m.email
  }

  /** The setters leave every text path trimmed, and a trimmed member is its own image. */
  lemma SetMemberTrims(m: Member)
    ensures Trimmed(SetMember(m))
    ensures Trimmed(m) <==> SetMember(m) == m
  {
    SetMemberTrimmed(m);
    if Trimmed(m) {
      TrimmedIsFixed(m);
    }
  }

  lemma SetMemberTrimmed(m: Member)
    ensures Trimmed(SetMember(m))
  {
    Text.TrimIdempotent(m.name);
    TrimIdIdempotent(m.memberId);
    TrimOptIdempotent(m.contact);
    TrimLowerOptIdempotent(m.email);
  }

  lemma TrimmedIsFixed(m: Member)
    requires Trimmed(m)
    ensures SetMember(m) == m
  {
    var r := SetMember(m);
    assert r.name == m.name && r.memberId == m.memberId && r.contact == m.contact && r.email == m.email;
    calc {
      r;
      r.(name := m.name, memberId := m.memberId, contact := m.contact, email := m.email);
      m;
    }
  }

  /** What the setters leave is a fixed point of them: assigning it again changes nothing. */
  lemma SetMemberIdempotent(m: Member)
    ensures SetMember(SetMember(m)) == SetMember(m)
  {
    SetMemberTrims(m);
    SetMemberTrims(SetMember(m));
  }

  lemma TrimOptIdempotent(s: Option<string>)
    ensures TrimOpt(TrimOpt(s)) == TrimOpt(s)
  {
  }

  lemma TrimLowerOptIdempotent(s: Option<string>)
    ensures TrimLowerOpt(TrimLowerOpt(s)) == TrimLowerOpt(s)
  {
    if s.Some? {
      Text.LowerFixesNoUpper(TrimLowerOpt(s).value);
    }
  }

  /** The `min: 0` validators a save runs on a member. */
  predicate MemberNumbersValid(m: Member)
  {
    m.duesPerMonth >= 0 && m.totalPaid >= 0 && m.monthsCovered >= 0 && m.arrears >= 0
  }

  /** The `match` validator of `email`: an absent or empty value passes, any other must look like an address. */
  predicate MemberEmailValid(e: Option<string>)
  {
    e.None? || e.value == [] || Text.EmailShaped(e.value)
  }

  /** Every validator a member save runs: `name` required (an empty string fails), the minimums, the e-mail pattern. */
  predicate MemberValid(m: Member)
  {
    m.name != [] && MemberNumbersValid(m) && MemberEmailValid(m.email)
  }

  /** One failed validator, worded as Mongoose words it under its path. */
  datatype PathFailure =
    | Required(path: string)
    | BelowMin(path: string, value: string)
    | Invalid(path: string, message: string)

  /** The line a `ValidationError` gives one failed path; every `min` in these schemas is 0. */
  function FailureMessage(f: PathFailure): string
  {
    match f
    case Required(p) => p + ": Path `" + p + "` is required."
    case BelowMin(p, v) => p + ": Path `" + p + "` (" + v + ") is less than minimum allowed value (0)."
    case Invalid(p, msg) => p + ": " + msg
  }

  /** The failed paths' messages joined with `, `, as a `ValidationError` lists them. */
  function PathErrors(fs: seq<PathFailure>): string
  {
    if |fs| <= 1 then (if fs == [] then "" else FailureMessage(fs[0]))
    else PathErrors(fs[..|fs| - 1]) + ", " + FailureMessage(fs[|fs| - 1])
  }

  /** Two or more failures: the message of all but the last, then the last one's. */
  lemma PathErrorsSnoc(fs: seq<PathFailure>, f: PathFailure)
    requires fs != []
    ensures PathErrors(fs + [f]) == PathErrors(fs) + ", " + FailureMessage(f)
  {
    assert (fs + [f])[..|fs|] == fs;
  }

  /** `String(v)` of a `min: 0` money path, whose value is kept in minor units. */
  function MoneyBelowMin(path: string, minor: int): PathFailure { BelowMin(path, Text.MoneyText(minor)) }

  /** `String(v)` of a `min: 0` count path. */
  function CountBelowMin(path: string, n: int): PathFailure { BelowMin(path, Text.IntToString(n)) }

  /**
   * The member's failed validators in schema order: `name` required, the
   * `email` pattern with its own message, then the `min: 0` numbers.
   */
  function MemberFailures(m: Member): (fs: seq<PathFailure>)
    ensures fs == [] <==> MemberValid(m)
  {
    (if m.name == [] then [Required("name")] else [])
    + (if !MemberEmailValid(m.email) then [Invalid("email", "Invalid email address")] else [])
    + (if m.duesPerMonth < 0 then [MoneyBelowMin("duesPerMonth", m.duesPerMonth)] else [])
    + (if m.totalPaid < 0 then [MoneyBelowMin("totalPaid", m.totalPaid)] else [])
    + (if m.monthsCovered < 0 then [CountBelowMin("monthsCovered", m.monthsCovered)] else [])
    + (if m.arrears < 0 then [CountBelowMin("arrears", m.arrears)] else [])
  }

  /**
   * Every failing rule is listed once and nothing else is: a failure for
   * each broken path, as many failures as broken paths, and `name` first.
   */
  lemma MemberFailurePaths(m: Member)
    ensures var fs := MemberFailures(m);
            (m.name == [] ==> fs[0] == Required("name"))
            && (!MemberEmailValid(m.email) ==> Invalid("email", "Invalid email address") in fs)
            && (m.duesPerMonth < 0 ==> MoneyBelowMin("duesPerMonth", m.duesPerMonth) in fs)
            && (m.totalPaid < 0 ==> MoneyBelowMin("totalPaid", m.totalPaid) in fs)
            && (m.monthsCovered < 0 ==> CountBelowMin("monthsCovered", m.monthsCovered) in fs)
            && (m.arrears < 0 ==> CountBelowMin("arrears", m.arrears) in fs)
    ensures |MemberFailures(m)| == (if m.name == [] then 1 else 0) + (if MemberEmailValid(m.email) then 0 else 1)
                                  + (if m.duesPerMonth < 0 then 1 else 0) + (if m.totalPaid < 0 then 1 else 0)
                                  + (if m.monthsCovered < 0 then 1 else 0) + (if m.arrears < 0 then 1 else 0)
  {
  }

  /** The message of a member save that fails validation. */
  function MemberInvalid(m: Member): string { "Member validation failed: " + PathErrors(MemberFailures(m)) }

  /** "Member validation failed: name: Path `name` is required." */
  const NameRequired := "Member validation failed: " + PathErrors([Required("name")])

  /** Mongoose validation of a member on save: every failing path is reported, in schema order. */
  function ValidateMember(m: Member): (r: Result<Member, string>)
    ensures r.Ok? <==> MemberValid(m)
    ensures r.Ok? ==> r.value == m
    ensures r.Err? ==> r.error == MemberInvalid(m)
  {
    if MemberValid(m) then Ok(m) else Err(MemberInvalid(m))
  }

  /** An empty name alone gives the one-path message; with negative dues both paths are listed, name first. */
  lemma MemberNameMessages(m: Member)
    ensures m.name == [] && MemberValid(m.(name := "-")) ==> MemberInvalid(m) == NameRequired
    ensures m.name == [] && MemberValid(m.(name := "-", duesPerMonth := 0)) && m.duesPerMonth < 0 ==>
              MemberInvalid(m) == NameRequired + ", " + FailureMessage(MoneyBelowMin("duesPerMonth", m.duesPerMonth))
  {
    if m.name == [] && MemberEmailValid(m.email) && m.totalPaid >= 0 && m.monthsCovered >= 0 && m.arrears >= 0 {
      if m.duesPerMonth < 0 {
        NameAndDuesFailures(m);
      } else {
        assert MemberFailures(m) == [Required("name")];
      }
    }
  }

  lemma NameAndDuesFailures(m: Member)
    requires m.name == [] && MemberEmailValid(m.email) && m.totalPaid >= 0 && m.monthsCovered >= 0 && m.arrears >= 0
    requires m.duesPerMonth < 0
    ensures MemberInvalid(m) == NameRequired + ", " + FailureMessage(MoneyBelowMin("duesPerMonth", m.duesPerMonth))
  {
    var f := MoneyBelowMin("duesPerMonth", m.duesPerMonth);
    assert MemberFailures(m) == [Required("name")] + [f];
    PathErrorsSnoc([Required("name")], f);
    TwoPartMessage("Member validation failed: ", PathErrors([Required("name")]), FailureMessage(f));
  }

  /** The prefix of a message distributes over the `, ` between two path lines. */
  lemma TwoPartMessage(a: string, b: string, c: string)
    ensures a + (b + ", " + c) == a + b + ", " + c
  {
  }

  /**
   * A new member document with the setters applied to the given text: role
   * `member`, no subgroup, zero totals and empty history.
   */
  function NewMember(name: string, memberId: MemberIdPath, contact: Option<string>, email: Option<string>,
                     joinDate: Moment, duesPerMonth: int): (m: Member)
    ensures m.role == MemberRoleMember && m.subgroupId.None? && m.paymentHistory == []
    ensures m.totalPaid == 0 && m.monthsCovered == 0 && m.arrears == 0 && m.lastPaymentDate.None?
    ensures m.name == Text.Trim(name) && m.memberId == TrimId(memberId) && m.contact == TrimOpt(contact)
    ensures m.email == TrimLowerOpt(email)
    ensures m.duesPerMonth == duesPerMonth && m.joinDate == joinDate
  {
    Member(Text.Trim(name), TrimId(memberId), None, TrimOpt(contact), TrimLowerOpt(email), MemberRoleMember,
           joinDate, duesPerMonth, 0, 0, 0, None, [])
  }

  /** A new member comes out of the setters: its text is trimmed, and its name empty exactly when the given one is blank. */
  lemma NewMemberTrimmed(name: string, memberId: MemberIdPath, contact: Option<string>, email: Option<string>,
                         joinDate: Moment, duesPerMonth: int)
    ensures var m := NewMember(name, memberId, contact, email, joinDate, duesPerMonth);
            Trimmed(m) && (m.name == [] <==> Text.IsBlank(name))
  {
    var m := NewMember(name, memberId, contact, email, joinDate, duesPerMonth);
    SetMemberTrims(m.(name := name, memberId := memberId, contact := contact, email := email));
  }

  /**
   * The sparse unique index on `memberId`: a member without the path never
   * collides; one with a value, `null` included, collides with any other
   * member holding the same value.
   */
  predicate MemberIdFree(members: map<nat, Member>, memberId: MemberIdPath, self: Option<nat>)
  {
    memberId.Unset? || forall k :: k in members && Some(k) != self ==> members[k].memberId != memberId
  }

  datatype Subgroup = Subgroup(name: string, leaderId: nat, createdBy: Option<nat>)

  datatype Expenditure = Expenditure(
    expenseId: string,
    title: string,
    description: string,
    amount: int,
    category: string,
    date: Moment,
    spentBy: string,
    fundedBy: Option<nat>)

  /** The expenditure's failed validators in schema order: `title` required, `amount` at least 0. */
  function ExpenditureFailures(e: Expenditure): (fs: seq<PathFailure>)
    ensures fs == [] <==> e.title != [] && e.amount >= 0
  {
    (if e.title == [] then [Required("title")] else [])
    + (if e.amount < 0 then [MoneyBelowMin("amount", e.amount)] else [])
  }

  /** The message of an expenditure save that fails validation. */
  function ExpenditureInvalid(e: Expenditure): string { "Expenditure validation failed: " + PathErrors(ExpenditureFailures(e)) }

  /** "Expenditure validation failed: title: Path `title` is required." */
  const TitleRequired := "Expenditure validation failed: " + PathErrors([Required("title")])

  /** The one-path message of an empty title. */
  lemma TitleRequiredText(e: Expenditure)
    requires e.title == [] && e.amount >= 0
    ensures ExpenditureInvalid(e) == TitleRequired
  {
    assert ExpenditureFailures(e) == [Required("title")];
  }

  /** A negative amount is reported with its value as JavaScript prints it, after the title when both fail. */
  lemma AmountBelowMinText(e: Expenditure)
    requires e.amount < 0
    ensures var f := MoneyBelowMin("amount", e.amount);
            ExpenditureInvalid(e) == "Expenditure validation failed: "
                                     + (if e.title == [] then FailureMessage(Required("title")) + ", " else "")
                                     + FailureMessage(f)
  {
    var f := MoneyBelowMin("amount", e.amount);
    var a := "Expenditure validation failed: ";
    if e.title == [] {
      assert ExpenditureFailures(e) == [Required("title")] + [f];
      PathErrorsSnoc([Required("title")], f);
      var b := PathErrors([Required("title")]);
      TwoPartMessage(a, b, FailureMessage(f));
      assert a + b + ", " + FailureMessage(f) == a + (b + ", ") + FailureMessage(f);
    } else {
      assert ExpenditureFailures(e) == [f];
      assert a + FailureMessage(f) == a + "" + FailureMessage(f);
    }
  }

  datatype ContributionType = ContributionType(name: string, description: string, isSystem: bool)

  datatype Contribution = Contribution(
    typeId: nat, amount: int, date: Moment, recordedBy: string, memberId: Option<nat>, remarks: string, receiptId: Option<string>)

  /** A dues receipt links a payment; a contribution receipt names the contribution and its type. */
  datatype ReceiptKind = DuesReceipt(paymentId: nat, duesPerMonth: int, monthsCovered: int)
                       | ContributionReceipt(contributionId: nat, typeName: string)

  datatype Receipt = Receipt(
    receiptId: string,
    kind: ReceiptKind,
    memberId: Option<nat>,
    memberName: string,
    amount: int,
    paymentDate: Moment,
    recordedBy: string,
    remarks: string)

  /**
   * The required paths of `receiptSchema` a receipt leaves unset, in the
   * schema's order; an empty text counts as unset. The schema has no
   * contribution paths, so a contribution receipt never sets `duesPerMonth`,
   * `monthsCovered` or `paymentId`.
   */
  function ReceiptMissing(rc: Receipt): (ps: seq<string>)
    ensures ps == [] <==> rc.receiptId != [] && rc.memberId.Some? && rc.memberName != [] && rc.recordedBy != []
                          && rc.kind.DuesReceipt?
    ensures rc.kind.ContributionReceipt? ==> "paymentId" in ps
  {
    (if rc.receiptId == [] then ["receiptId"] else [])
    + (if rc.memberId.None? then ["memberId"] else [])
    + (if rc.memberName == [] then ["memberName"] else [])
    + (if rc.kind.ContributionReceipt? then ["duesPerMonth", "monthsCovered"] else [])
    + (if rc.recordedBy == [] then ["recordedBy"] else [])
    + (if rc.kind.ContributionReceipt? then ["paymentId"] else [])
  }

  /** Each unset path as a failed `required` validator. */
  function AllRequired(paths: seq<string>): (fs: seq<PathFailure>)
    ensures |fs| == |paths| && forall i :: 0 <= i < |paths| ==> fs[i] == Required(paths[i])
  {
    seq(|paths|, i requires 0 <= i < |paths| => Required(paths[i]))
  }

  /** Mongoose validation of a receipt on save: every unset required path is reported. */
  function ValidateReceipt(rc: Receipt): (r: Result<Receipt, string>)
    ensures r.Ok? <==> ReceiptMissing(rc) == []
    ensures r.Ok? ==> r.value == rc
    ensures r.Err? ==> r.error == ReceiptInvalid(rc)
  {
    if ReceiptMissing(rc) == [] then Ok(rc) else Err(ReceiptInvalid(rc))
  }

  /** The message of a receipt that fails validation: every unset required path, in schema order. */
  function ReceiptInvalid(rc: Receipt): string
  {
    "Receipt validation failed: " + PathErrors(AllRequired(ReceiptMissing(rc)))
  }

  /** A receipt for anything but a dues payment never passes validation. */
  lemma ContributionReceiptRefused(rc: Receipt)
    requires rc.kind.ContributionReceipt?
    ensures ValidateReceipt(rc).Err?
  {
  }

  datatype ReminderStatus = Sent | Failed
  datatype TriggeredBy = BySystem | ByManual

  /** `status` is required and must be `sent` or `failed`. */
  function ParseReminderStatus(s: Option<string>): (r: Result<ReminderStatus, string>)
    ensures r.Ok? <==> s == Some("sent") || s == Some("failed")
    ensures r == Ok(Sent) <==> s == Some("sent")
  {
    if s == Some("sent") then Ok(Sent)
    else if s == Some("failed") then Ok(Failed)
    else Err("status must be sent or failed")
  }

  /** `triggeredBy` defaults to `system` and must be `system` or `manual`. */
  function ParseTriggeredBy(s: Option<string>): (r: Result<TriggeredBy, string>)
    ensures s.None? ==> r == Ok(BySystem)
    ensures r.Ok? <==> s.None? || s == Some("system") || s == Some("manual")
    ensures r == Ok(ByManual) <==> s == Some("manual")
  {
    if s.None? || s == Some("system") then Ok(BySystem)
    else if s == Some("manual") then Ok(ByManual)
    else Err("triggeredBy must be system or manual")
  }

  /**
   * A reminder record. `verse` is the position handed to the scripture
   * picker, which stores that verse's reference and text.
   */
  datatype Reminder = Reminder(
    memberId: nat,
    email: string,
    amountOwed: int,
    monthsInArrears: int,
    status: ReminderStatus,
    error: Option<string>,
    triggeredBy: TriggeredBy,
    verse: nat,
    sentAt: Moment)

  /** An activity log entry; its role enum is exactly the three user roles. */
  datatype ActivityLog = ActivityLog(actor: string, role: Role, action: string, date: Moment, affectedMember: Option<string>)

  /** The unique index on a string id field: the id is free when no stored document holds it. */
  predicate ReceiptIdFree(receipts: map<nat, Receipt>, id: string)
  {
    forall k :: k in receipts ==> receipts[k].receiptId != id
  }

  predicate ExpenseIdFree(expenditures: map<nat, Expenditure>, id: string)
  {
    forall k :: k in expenditures ==> expenditures[k].expenseId != id
  }
}
