/**
 * Monthly dues reminders: what a member owes, the reminder run that mails
 * every member in arrears and records one reminder each, the reminder
 * summary and log listing, and the date of the next scheduled run.
 * The mailer is a parameter: `failure(m)` is the error sending to `m`
 * raises, or `None` when the mail goes out.
 */
module Reminders {
  import opened Wrappers
  import opened Calendar
  import opened Schemas
  import opened TenantStore
  import Ordering
  import Text

  // ---------------------------------------------------------------- amount owed

  datatype Owed = Owed(monthsInArrears: int, amountOwed: int)

  /** Every missed month at the member's dues. */
  function Charge(m: Member, now: Moment): int
  {
    MemberArrears(m, now) * m.duesPerMonth
  }

  /** `calculateAmountOwed`: nothing when the member is not behind, otherwise every missed month at the member's dues. */
  function AmountOwed(m: Member, now: Moment): (r: Owed)
    ensures r.monthsInArrears > 0 <==> MemberArrears(m, now) > 0
    ensures r.monthsInArrears <= 0 ==> r == Owed(0, 0)
    ensures r.monthsInArrears == MemberArrears(m, now)
    ensures r.amountOwed == Charge(m, now)
  {
    var arrears := MemberArrears(m, now);
    if arrears <= 0 then Owed(0, 0) else Owed(arrears, Charge(m, now))
  }

  // ---------------------------------------------------------------- the reminder run

  /** A member the run writes to: one with an email address who is behind. */
  function Reminded(now: Moment): Member -> bool
  {
    (m: Member) => m.email.Some? && MemberArrears(m, now) > 0
  }

  function HasEmail(m: Member): bool { m.email.Some? }

  /** The members the run processes, in the order it meets them. */
  function Plan(s: Store, now: Moment): seq<(nat, Member)>
  {
    Ordering.Where(Ordering.Entries(s.members, s.nextId), Reminded(now))
  }

  function Delivered(failure: Member -> Option<string>): Member -> bool
  {
    (m: Member) => failure(m).None?
  }

  /** What the reminder schema's `trim` and `lowercase` setters make of the member's address. */
  function ReminderAddress(m: Member): string
  {
    Text.Lower(Text.Trim(if m.email.Some? then m.email.value else []))
  }

  /**
   * The reminder stored for the `j`-th processed member: `sent`, or `failed`
   * with the mailer's error. The reminder schema trims and lower-cases the
   * address it is given.
   */
  function Record(e: (nat, Member), j: nat, failure: Member -> Option<string>, triggeredBy: TriggeredBy, now: Moment): (r: Reminder)
    ensures r.memberId == e.0 && r.verse == j && r.triggeredBy == triggeredBy && r.sentAt == now
    ensures r.status == Sent <==> failure(e.1).None?
    ensures r.error == failure(e.1)
    ensures r.monthsInArrears == AmountOwed(e.1, now).monthsInArrears && r.amountOwed == AmountOwed(e.1, now).amountOwed
  {
    var owed := AmountOwed(e.1, now);
    var email := ReminderAddress(e.1);
    match failure(e.1)
    case None => Reminder(e.0, email, owed.amountOwed, owed.monthsInArrears, Sent, None, triggeredBy, j, now)
    case Some(err) => Reminder(e.0, email, owed.amountOwed, owed.monthsInArrears, Failed, Some(err), triggeredBy, j, now)
  }

  /** The address a reminder keeps is the member's, trimmed and lower-cased, and the setters have nothing left to change in it. */
  lemma RecordAddress(e: (nat, Member), j: nat, failure: Member -> Option<string>, triggeredBy: TriggeredBy, now: Moment)
    requires e.1.email.Some?
    ensures var r := Record(e, j, failure, triggeredBy, now);
            r.email == Text.Lower(Text.Trim(e.1.email.value)) && Text.NoUpper(r.email) && Text.Trim(r.email) == r.email
  {
    Text.LowerHasNoUpper(Text.Trim(e.1.email.value));
    Text.TrimLowerTrimmed(e.1.email.value);
  }

  datatype RunSummary = RunSummary(processed: nat, sent: nat, failed: nat, triggeredBy: TriggeredBy, runAt: Moment)

  /**
   * A member whose address trims to nothing: the reminder for it fails the
   * `required` validator of the reminder schema, on the `sent` path and on
   * the `failed` path alike.
   */
  predicate Unstorable(m: Member) { m.email.Some? && Text.IsBlank(m.email.value) }

  const EmailRequired := "Reminder validation failed: email: Path `email` is required."

  function Storable(m: Member): bool { !Unstorable(m) }

  /** How far a run gets: the position of the first processed member whose reminder cannot be stored, or the whole plan. */
  function Reached(plan: seq<(nat, Member)>): (n: nat)
    ensures n <= |plan|
    ensures forall j :: 0 <= j < n ==> !Unstorable(plan[j].1)
    ensures n < |plan| ==> Unstorable(plan[n].1)
  {
    Ordering.LeadingRun(plan, Storable)
  }

  /**
   * `sendReminders`: every member with an email who is behind is processed
   * once, in stored order, and leaves exactly one reminder under a fresh id;
   * members who owe nothing are skipped (`Plan` leaves them out) and not
   * counted. The `j`-th processed member gets verse `j`. A member whose
   * address trims to nothing makes the second `Reminder.create` throw out of
   * the loop: the run rejects there, keeping the reminders already stored
   * and returning no summary.
   */
  method SendReminders(s: Store, triggeredBy: TriggeredBy, failure: Member -> Option<string>, now: Moment)
    returns (t: Store, summary: Result<RunSummary, string>)
    requires Consistent(s)
    ensures summary.Ok? <==> forall j :: 0 <= j < |Plan(s, now)| ==> !Unstorable(Plan(s, now)[j].1)
    ensures summary.Err? ==> summary.error == EmailRequired
    ensures summary.Ok? ==> summary.value.processed == summary.value.sent + summary.value.failed
    ensures summary.Ok? ==> summary.value.triggeredBy == triggeredBy && summary.value.runAt == now
    ensures summary.Ok? ==> summary.value.processed == |Plan(s, now)| == Reached(Plan(s, now))
    ensures summary.Ok? ==> summary.value.sent == |Ordering.Where(Plan(s, now), Delivered(failure))|
    ensures t == s.(reminders := t.reminders, nextId := s.nextId + Reached(Plan(s, now)))
    ensures forall k :: k in t.reminders <==> k in s.reminders || s.nextId <= k < s.nextId + Reached(Plan(s, now))
    ensures forall k :: k in s.reminders ==> t.reminders[k] == s.reminders[k]
    ensures forall j :: 0 <= j < Reached(Plan(s, now)) ==>
              s.nextId + j in t.reminders && t.reminders[s.nextId + j] == Record(Plan(s, now)[j], j, failure, triggeredBy, now)
  {
    t, summary := Run(s, Plan(s, now), triggeredBy, failure, now);
  }

  /** The run over a given list of members to process, as `SendReminders` describes it. */
  method Run(s: Store, plan: seq<(nat, Member)>, triggeredBy: TriggeredBy, failure: Member -> Option<string>, now: Moment)
    returns (t: Store, summary: Result<RunSummary, string>)
    requires Consistent(s)
    ensures summary.Ok? <==> forall j :: 0 <= j < |plan| ==> !Unstorable(plan[j].1)
    ensures summary.Err? ==> summary.error == EmailRequired
    ensures summary.Ok? ==> summary.value.processed == summary.value.sent + summary.value.failed
    ensures summary.Ok? ==> summary.value.triggeredBy == triggeredBy && summary.value.runAt == now
    ensures summary.Ok? ==> summary.value.processed == |plan| == Reached(plan)
    ensures summary.Ok? ==> summary.value.sent == |Ordering.Where(plan, Delivered(failure))|
    ensures t == s.(reminders := t.reminders, nextId := s.nextId + Reached(plan))
    ensures forall k :: k in t.reminders <==> k in s.reminders || s.nextId <= k < s.nextId + Reached(plan)
    ensures forall k :: k in s.reminders ==> t.reminders[k] == s.reminders[k]
    ensures forall j :: 0 <= j < Reached(plan) ==>
              s.nextId + j in t.reminders && t.reminders[s.nextId + j] == Record(plan[j], j, failure, triggeredBy, now)
  {
    var n := Reached(plan);
    var reminders := Mail(s.reminders, s.nextId, plan[..n], triggeredBy, failure, now);
    t := s.(reminders := reminders, nextId := s.nextId + n);
    forall j | 0 <= j < n
      ensures s.nextId + j in t.reminders && t.reminders[s.nextId + j] == Record(plan[j], j, failure, triggeredBy, now)
    {
      assert plan[..n][j] == plan[j];
    }
    if n < |plan| {
      summary := Err(EmailRequired);
    } else {
      var sent, failed := Tally(plan, Delivered(failure));
      Ordering.CountIsWhereLength(plan, Delivered(failure));
      summary := Ok(RunSummary(n, sent, failed, triggeredBy, now));
    }
  }

  /** The loop body of the run over the members it processes: one reminder each, under ids from `base` up. */
  method Mail(stored: map<nat, Reminder>, base: nat, plan: seq<(nat, Member)>, triggeredBy: TriggeredBy,
              failure: Member -> Option<string>, now: Moment)
    returns (reminders: map<nat, Reminder>)
    requires forall k :: k in stored ==> k < base
    ensures forall k :: k in reminders <==> k in stored || base <= k < base + |plan|
    ensures forall k :: k in stored ==> reminders[k] == stored[k]
    ensures forall j :: 0 <= j < |plan| ==> base + j in reminders && reminders[base + j] == Record(plan[j], j, failure, triggeredBy, now)
  {
    var records := seq(|plan|, (j: int) requires 0 <= j < |plan| => Record(plan[j], j, failure, triggeredBy, now));
    reminders := Fill(stored, base, records);
    forall j | 0 <= j < |plan|
      ensures base + j in reminders && reminders[base + j] == Record(plan[j], j, failure, triggeredBy, now)
    {
      assert reminders[base + j] == records[j];
    }
  }

  /** Stores the values under consecutive ids from `base` up, leaving the stored entries alone. */
  method Fill<V>(stored: map<nat, V>, base: nat, values: seq<V>) returns (m: map<nat, V>)
    requires forall k :: k in stored ==> k < base
    ensures forall k :: k in m <==> k in stored || base <= k < base + |values|
    ensures forall k :: k in stored ==> m[k] == stored[k]
    ensures forall j :: 0 <= j < |values| ==> base + j in m && m[base + j] == values[j]
  {
    m := stored;
    var i := 0;
    while i < |values|
      invariant 0 <= i <= |values|
      invariant forall k :: k in m <==> k in stored || base <= k < base + i
      invariant forall k :: k in stored ==> m[k] == stored[k]
      invariant forall j :: 0 <= j < i ==> base + j in m && m[base + j] == values[j]
    {
      m := m[base + i := values[i]];
      i := i + 1;
    }
  }

  /** Counts, one entry at a time, the entries whose value passes `ok` and those that do not. */
  method Tally<V>(s: seq<(nat, V)>, ok: V -> bool) returns (yes: nat, no: nat)
    ensures |s| == yes + no
    ensures yes == Ordering.Count(s, ok)
  {
    yes, no := 0, 0;
    var i := 0;
    while i < |s|
      invariant 0 <= i <= |s|
      invariant i == yes + no
      invariant yes == Ordering.Count(s[..i], ok)
    {
      Ordering.CountPrefixStep(s, i, ok);
      if ok(s[i].1) {
        yes := yes + 1;
      } else {
        no := no + 1;
      }
      i := i + 1;
    }
    assert s[..|s|] == s;
  }

  // ---------------------------------------------------------------- summary and listing

  /** `arrears * duesPerMonth` summed over the given members. */
  function Outstanding(es: seq<(nat, Member)>, now: Moment): int
  {
    if es == [] then 0
    else Outstanding(es[..|es| - 1], now) + Charge(es[|es| - 1].1, now)
  }

  /** What every member with an email owes, members who owe nothing included. */
  function OwedSum(es: seq<(nat, Member)>, now: Moment): int
  {
    if es == [] then 0 else OwedSum(es[..|es| - 1], now) + AmountOwed(es[|es| - 1].1, now).amountOwed
  }

  lemma OutstandingSnoc(es: seq<(nat, Member)>, e: (nat, Member), now: Moment)
    ensures Outstanding(es + [e], now) == Outstanding(es, now) + Charge(e.1, now)
  {
    assert (es + [e])[..|es|] == es;
  }

  lemma OwedSumSnoc(es: seq<(nat, Member)>, e: (nat, Member), now: Moment)
    ensures OwedSum(es + [e], now) == OwedSum(es, now) + AmountOwed(e.1, now).amountOwed
  {
    assert (es + [e])[..|es|] == es;
  }

  /** Summing over the members behind only leaves out members who owe nothing. */
  lemma {:induction false} OutstandingIsOwed(es: seq<(nat, Member)>, now: Moment)
    ensures Outstanding(Ordering.Where(es, Reminded(now)), now) == OwedSum(Ordering.Where(es, HasEmail), now)
  {
    if es != [] {
      var init, e := es[..|es| - 1], es[|es| - 1];
      assert es == init + [e];
      OutstandingIsOwed(init, now);
      OwedStep(init, e, now);
    }
  }

  /** One more member adds the same amount to both sums. */
  lemma OwedStep(init: seq<(nat, Member)>, e: (nat, Member), now: Moment)
    requires Outstanding(Ordering.Where(init, Reminded(now)), now) == OwedSum(Ordering.Where(init, HasEmail), now)
    ensures Outstanding(Ordering.Where(init + [e], Reminded(now)), now) == OwedSum(Ordering.Where(init + [e], HasEmail), now)
  {
    var a := Ordering.Where(init, Reminded(now));
    var b := Ordering.Where(init, HasEmail);
    Ordering.WhereSnoc(init, e, Reminded(now));
    Ordering.WhereSnoc(init, e, HasEmail);
    OwedOnlyWhenReminded(e.1, now);
    if Reminded(now)(e.1) {
      OutstandingSnoc(a, e, now);
      OwedSumSnoc(b, e, now);
    } else if HasEmail(e.1) {
      OwedSumSnoc(b, e, now);
    } else {
      assert Ordering.Where(init + [e], HasEmail) == b + [];
    }
  }

  /** A member with an email who is not behind owes nothing; a reminded member has an email. */
  lemma OwedOnlyWhenReminded(m: Member, now: Moment)
    ensures Reminded(now)(m) ==> HasEmail(m)
    ensures Reminded(now)(m) ==> AmountOwed(m, now).amountOwed == Charge(m, now)
    ensures HasEmail(m) && !Reminded(now)(m) ==> AmountOwed(m, now).amountOwed == 0
  {
  }

  function SentKey(e: (nat, Reminder)): int { Ordinal(e.1.sentAt) }

  /** `Reminder.findOne().sort({ sentAt: -1 })?.sentAt`: the latest time a reminder went out. */
  function LastSentAt(s: Store): (r: Option<Moment>)
    requires Consistent(s)
    ensures r.None? <==> s.reminders == map[]
    ensures r.Some? ==> exists k :: k in s.reminders && s.reminders[k].sentAt == r.value
    ensures r.Some? ==> forall k :: k in s.reminders ==> Ordinal(s.reminders[k].sentAt) <= Ordinal(r.value)
  {
    var latest := Ordering.Latest(s.reminders, s.nextId, SentKey);
    if latest.None? then None else Some(latest.value.1.sentAt)
  }

  datatype ReminderSummary = ReminderSummary(lastReminderSentAt: Option<Moment>, nextReminderScheduledAt: Moment,
                                             totalOutstandingMembers: nat, totalOutstandingAmount: int)

  /** The number of members a run would write to. */
  function OutstandingMembers(s: Store, now: Moment): (n: nat)
    requires Consistent(s)
    ensures n == |Plan(s, now)|
    ensures n == |set k | k in s.members && Reminded(now)(s.members[k])|
  {
    Ordering.WhereEntriesCount(s.members, s.nextId, Reminded(now));
    assert Ordering.IdsBelow(s.members, s.nextId, Reminded(now)) == set k | k in s.members && Reminded(now)(s.members[k]);
    |Plan(s, now)|
  }

  /** `totalOutstandingAmount += arrears * duesPerMonth` over the members behind. */
  function OutstandingAmount(s: Store, now: Moment): (total: int)
    ensures total == OwedSum(Ordering.Where(Ordering.Entries(s.members, s.nextId), HasEmail), now)
  {
    OutstandingIsOwed(Ordering.Entries(s.members, s.nextId), now);
    Outstanding(Plan(s, now), now)
  }

  /**
   * `getReminderSummary`: the members a run would write to and what all
   * members with an email owe between them.
   */
  function GetReminderSummary(s: Store, now: Moment): (r: ReminderSummary)
    requires Consistent(s)
    ensures r.totalOutstandingMembers == |Plan(s, now)|
    ensures r.totalOutstandingMembers == |set k | k in s.members && Reminded(now)(s.members[k])|
    ensures r.totalOutstandingAmount == OwedSum(Ordering.Where(Ordering.Entries(s.members, s.nextId), HasEmail), now)
    ensures r.lastReminderSentAt == LastSentAt(s)
    ensures r.nextReminderScheduledAt == NextReminderDate(now)
  {
    ReminderSummary(LastSentAt(s), NextReminderDate(now), OutstandingMembers(s, now), OutstandingAmount(s, now))
  }

  /** The default page size of the reminder log. */
  const DefaultLogLimit: nat := 50

  predicate Fits(r: Reminder, status: Option<ReminderStatus>, memberId: Option<nat>)
  {
    (status.None? || r.status == status.value) && (memberId.None? || r.memberId == memberId.value)
  }

  function FitsQuery(status: Option<ReminderStatus>, memberId: Option<nat>): Reminder -> bool
  {
    (r: Reminder) => Fits(r, status, memberId)
  }

  /**
   * `getReminderLogs`: the matching reminders, latest first, at most `limit`
   * of them (50 by default); a limit of 0 means no limit.
   */
  function GetReminderLogs(s: Store, limit: Option<nat>, status: Option<ReminderStatus>, memberId: Option<nat>)
    : (rows: seq<(nat, Reminder)>)
    requires Consistent(s)
    ensures Ordering.SortedDesc(rows, SentKey)
    ensures forall e :: e in rows ==> e.0 in s.reminders && e.1 == s.reminders[e.0] && Fits(e.1, status, memberId)
    ensures limit.None? ==> |rows| <= DefaultLogLimit
    ensures limit.Some? && limit.value > 0 ==> |rows| <= limit.value
    ensures limit == Some(0) ==> forall k :: k in s.reminders && Fits(s.reminders[k], status, memberId) ==> (k, s.reminders[k]) in rows
    ensures var all := MatchingReminders(s, status, memberId);
            |rows| <= |all| && rows == all[..|rows|]
    ensures var all := MatchingReminders(s, status, memberId);
            var n := if limit.Some? then limit.value else DefaultLogLimit;
            n == 0 || |rows| == n || rows == all
    ensures forall k, x :: k in s.reminders && Fits(s.reminders[k], status, memberId) && (k, s.reminders[k]) !in rows && x in rows ==>
              SentKey(x) >= Ordinal(s.reminders[k].sentAt)
  {
    var n := if limit.Some? then limit.value else DefaultLogLimit;
    var all := MatchingReminders(s, status, memberId);
    var rows := Ordering.Page(all, n, SentKey);
    PageOfMatching(s, status, memberId, n);
    rows
  }

  /** What a page of the matching reminders says about the stored reminders it leaves out. */
  lemma PageOfMatching(s: Store, status: Option<ReminderStatus>, memberId: Option<nat>, n: nat)
    requires Consistent(s)
    ensures var rows := Ordering.Page(MatchingReminders(s, status, memberId), n, SentKey);
            forall k, x :: k in s.reminders && Fits(s.reminders[k], status, memberId) && (k, s.reminders[k]) !in rows && x in rows ==>
              SentKey(x) >= Ordinal(s.reminders[k].sentAt)
    ensures n == 0 ==> forall k :: k in s.reminders && Fits(s.reminders[k], status, memberId) ==>
              (k, s.reminders[k]) in Ordering.Page(MatchingReminders(s, status, memberId), n, SentKey)
  {
    var all := MatchingReminders(s, status, memberId);
    var rows := Ordering.Page(all, n, SentKey);
    forall k | k in s.reminders && Fits(s.reminders[k], status, memberId)
      ensures (k, s.reminders[k]) in all
    {
    }
    forall k, x | k in s.reminders && Fits(s.reminders[k], status, memberId) && (k, s.reminders[k]) !in rows && x in rows
      ensures SentKey(x) >= Ordinal(s.reminders[k].sentAt)
    {
      var e := (k, s.reminders[k]);
      assert e in all && e !in rows;
      assert SentKey(x) >= SentKey(e);
    }
  }

  /** Every stored reminder the query admits, latest first. */
  function MatchingReminders(s: Store, status: Option<ReminderStatus>, memberId: Option<nat>): (all: seq<(nat, Reminder)>)
    requires Consistent(s)
    ensures Ordering.SortedDesc(all, SentKey)
    ensures forall e :: e in all <==> e.0 in s.reminders && e.1 == s.reminders[e.0] && Fits(e.1, status, memberId)
    ensures forall i, j :: 0 <= i < j < |all| ==> all[i].0 != all[j].0
    ensures Ordering.TiesAscend(all, SentKey, Ordering.Id)
  {
    Ordering.SortedWhere(s.reminders, s.nextId, FitsQuery(status, memberId), SentKey)
  }

  // ---------------------------------------------------------------- next scheduled run

  /** 08:00:00.000 on the 25th of month index `idx`. */
  function Slot(idx: int): (r: Moment)
    ensures MonthIndex(r) == idx && Valid(r)
    ensures r.day == 25 && r.hour == 8 && r.minute == 0 && r.second == 0 && r.ms == 0
  {
    IndexRoundTrip(idx);
    Moment(YearOfIndex(idx), MonthOfIndex(idx), 25, 8, 0, 0, 0)
  }

  /** This month's run has already happened (or is happening now). */
  predicate PastSlot(now: Moment) { now.day > 25 || (now.day == 25 && now.hour >= 8) }

  /**
   * `calculateNextReminderDate` as intended: the first 25th-at-08:00 strictly
   * after `now`, which is this month's unless that one has passed.
   */
  function NextReminderDate(now: Moment): (r: Moment)
    ensures Valid(r) && r.day == 25 && r.hour == 8 && r.minute == 0 && r.second == 0 && r.ms == 0
    ensures Clock(now) ==> Ordinal(now) < Ordinal(r)
    ensures MonthIndex(now) <= MonthIndex(r) <= MonthIndex(now) + 1
    ensures var here := now.(day := 25, hour := 8, minute := 0, second := 0, ms := 0);
            Clock(now) && Ordinal(now) < Ordinal(here) ==> r == here
    ensures var here := now.(day := 25, hour := 8, minute := 0, second := 0, ms := 0);
            Clock(now) && Ordinal(here) <= Ordinal(now) ==> MonthIndex(r) == MonthIndex(now) + 1
  {
    IndexRoundTrip(MonthIndex(now));
    if PastSlot(now) then Slot(MonthIndex(now) + 1) else Slot(MonthIndex(now))
  }

  /**
   * `calculateNextReminderDate` as written: `setMonth(month + 1)` keeps the
   * day, and a day the next month lacks rolls over into the month after,
   * before `setDate(25)` is applied.
   */
  function NextReminderAsWritten(now: Moment): (r: Moment)
    ensures Valid(r) && r.day == 25 && r.hour == 8
    ensures MonthIndex(now) <= MonthIndex(r) <= MonthIndex(now) + 2
  {
    if PastSlot(now) then
      var idx := MonthIndex(now) + 1;
      if now.day > DaysInMonth(YearOfIndex(idx), MonthOfIndex(idx)) then Slot(idx + 1) else Slot(idx)
    else Slot(MonthIndex(now))
  }

  /** After 10:00 on 30 January 2025 the code schedules 25 March; the intended date is 25 February. */
  lemma SkipsFebruaryAsWritten()
    ensures NextReminderAsWritten(Moment(2025, 0, 30, 10, 0, 0, 0)) == Moment(2025, 2, 25, 8, 0, 0, 0)
    ensures NextReminderDate(Moment(2025, 0, 30, 10, 0, 0, 0)) == Moment(2025, 1, 25, 8, 0, 0, 0)
  {
    assert DaysInMonth(2025, 1) == 28;
  }

  /** The two agree whenever no day overflow happens. */
  lemma AsWrittenAgreesWithoutOverflow(now: Moment)
    requires !PastSlot(now) || now.day <= DaysInMonth(YearOfIndex(MonthIndex(now) + 1), MonthOfIndex(MonthIndex(now) + 1))
    ensures NextReminderAsWritten(now) == NextReminderDate(now)
  {
  }
}
