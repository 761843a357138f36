/**
 * The member handlers (controllers/memberController.js): the search
 * listing, lookup, creation with its required fields and unique member id,
 * the partial update, deletion, and the arrears listing. Arrears are
 * recomputed from the clock on every read.
 */
module Members {
  import opened Wrappers
  import opened Http
  import opened Text
  import opened Calendar
  import opened Accounts
  import opened Schemas
  import opened TenantStore
  import Ordering

  /** A member as a read returns it: the stored document with arrears recomputed. */
  function Fresh(m: Member, now: Moment): (r: Member)
    ensures r.arrears == MemberArrears(m, now) && r.arrears >= 0
    ensures r.(arrears := m.arrears) == m
  {
    m.(arrears := MemberArrears(m, now))
  }

  /**
   * `{ $regex: search, $options: 'i' }` on one optional field, for a search
   * without regular-expression metacharacters: a case-insensitive substring.
   */
  predicate FieldHit(field: Option<string>, search: string)
  {
    field.Some? && IsSubstring(Lower(search), Lower(field.value))
  }

  /** Lines 9-17: no search matches everything; otherwise name, member id or contact must hit. */
  predicate SearchMatches(m: Member, search: Option<string>)
  {
    search.None? || search.value == []
    || FieldHit(Some(m.name), search.value) || FieldHit(m.memberId.Searchable(), search.value) || FieldHit(m.contact, search.value)
  }

  /** Letter case never decides a search. */
  lemma SearchIgnoresCase(m: Member, search: string)
    ensures SearchMatches(m, Some(search)) <==> SearchMatches(m, Some(Lower(search)))
  {
    LowerIdempotent(search);
    if search == [] { assert Lower(search) == []; }
    if Lower(search) == [] { assert |search| == 0; }
  }

  /** One row of the listing: a stored, matching member, as a read returns it. */
  predicate Listed(s: Store, search: Option<string>, now: Moment, e: (nat, Member))
  {
    e.0 in s.members && SearchMatches(s.members[e.0], search) && e.1 == Fresh(s.members[e.0], now)
  }

  /** The ids that `keep` accepts, in their given order. */
  function Pick(ids: seq<nat>, keep: nat -> bool): (r: seq<nat>)
    requires forall i, j :: 0 <= i < j < |ids| ==> ids[i] > ids[j]
    ensures forall x :: x in r <==> x in ids && keep(x)
    ensures forall i, j :: 0 <= i < j < |r| ==> r[i] > r[j]
  {
    if ids == [] then []
    else
      var rest := Pick(ids[1..], keep);
      assert forall x :: x in ids[1..] ==> x < ids[0];
      if keep(ids[0]) then
        var r := [ids[0]] + rest;
        assert forall i :: 1 <= i < |r| ==> r[i] == rest[i - 1] && r[i] in ids[1..];
        r
      else rest
  }

  /**
   * `getAllMembers`: the matching members, newest first, each with its
   * arrears recomputed.
   */
  function GetAllMembers(s: Store, search: Option<string>, now: Moment): (r: seq<(nat, Member)>)
    requires Consistent(s)
    ensures forall i :: 0 <= i < |r| ==> Listed(s, search, now, r[i])
    ensures forall k :: k in s.members && SearchMatches(s.members[k], search) ==> exists i :: 0 <= i < |r| && r[i].0 == k
    ensures forall i, j :: 0 <= i < j < |r| ==> r[i].0 > r[j].0
  {
    var keep := (k: nat) => k in s.members && SearchMatches(s.members[k], search);
    var ids := Ordering.KeysDesc(s.members, s.nextId);
    var ks := Pick(ids, keep);
    assert forall i :: 0 <= i < |ks| ==> keep(ks[i]) by {
      forall i | 0 <= i < |ks| ensures keep(ks[i]) { assert ks[i] in ks; }
    }
    assert forall k :: k in s.members && SearchMatches(s.members[k], search) ==> exists i :: 0 <= i < |ks| && ks[i] == k by {
      forall k | k in s.members && SearchMatches(s.members[k], search) ensures exists i :: 0 <= i < |ks| && ks[i] == k {
        assert k in ids && keep(k);
        assert k in ks;
      }
    }
    Rows(s, ks, now)
  }

  /** The listing rows for the given ids, in their order. */
  function Rows(s: Store, ks: seq<nat>, now: Moment): (r: seq<(nat, Member)>)
    requires forall i :: 0 <= i < |ks| ==> ks[i] in s.members
    ensures |r| == |ks|
    ensures forall i :: 0 <= i < |r| ==> r[i] == (ks[i], Fresh(s.members[ks[i]], now))
  {
    seq(|ks|, i requires 0 <= i < |ks| => (ks[i], Fresh(s.members[ks[i]], now)))
  }

  /** `getMemberById`: 404, or the member with its arrears recomputed. */
  function GetMemberById(s: Store, id: nat, now: Moment): (r: Response<Member>)
    ensures r.Refused? <==> id !in s.members
    ensures r.Refused? ==> r.code == 404
    ensures r.Reply? ==> r.code == 200 && r.body == Fresh(s.members[id], now)
  {
    if id in s.members then Reply(200, Fresh(s.members[id], now)) else Refused(404, "Member not found")
  }

  /** The create body; `memberId` is unset when the body leaves it out, `NullId` when it sends `null`. */
  datatype MemberInput = MemberInput(name: Option<string>, memberId: MemberIdPath, contact: Option<string>,
                                     joinDate: Option<Moment>, duesPerMonth: Option<BodyNumber>)

  /** `!name || !duesPerMonth`: the text "0" is truthy and passes. */
  predicate MissingNameOrDues(q: MemberInput)
  {
    q.name.None? || q.name.value == [] || !Given(q.duesPerMonth)
  }

  /**
   * `createMember`: 400 without a name or non-zero dues; the setters trim
   * the text, then the schema validators (500: a name of white space only
   * is empty once trimmed) and the sparse unique index on the trimmed
   * member id (400) decide the save; an admin's creation is logged under
   * the name as sent.
   */
  function CreateMember(s: Store, caller: Principal, q: MemberInput, now: Moment): (r: (Store, Response<(nat, Member)>))
    requires Consistent(s)
    ensures Consistent(r.0)
    ensures MissingNameOrDues(q) ==> r == (s, Refused(400, "Name and dues per month are required"))
    ensures !MissingNameOrDues(q) && IsBlank(q.name.value) && q.duesPerMonth.value.value >= 0 ==> r == (s, Refused(500, NameRequired))
    ensures !MissingNameOrDues(q) && (IsBlank(q.name.value) || q.duesPerMonth.value.value < 0) ==>
              r == (s, Refused(500, MemberInvalid(NewMember(q.name.value, q.memberId, q.contact, None, q.joinDate.GetOr(now),
                                                            q.duesPerMonth.value.value))))
    ensures !MissingNameOrDues(q) && !IsBlank(q.name.value) && q.duesPerMonth.value.value >= 0
            && !MemberIdFree(s.members, TrimId(q.memberId), None) ==>
              r == (s, Refused(400, "Member ID already exists"))
    ensures r.1.Refused? ==> r.0 == s
    ensures r.1.Reply? <==> !MissingNameOrDues(q) && !IsBlank(q.name.value) && q.duesPerMonth.value.value >= 0
                            && MemberIdFree(s.members, TrimId(q.memberId), None)
    ensures r.1.Reply? ==> var (k, m) := r.1.body;
              r.1.code == 201 && k !in s.members && r.0.members == s.members[k := m]
              && m == NewMember(q.name.value, q.memberId, q.contact, None, q.joinDate.GetOr(now), q.duesPerMonth.value.value)
              && r.0.types == s.types && r.0.receipts == s.receipts && r.0.subgroups == s.subgroups
  {
    if MissingNameOrDues(q) then (s, Refused(400, "Name and dues per month are required"))
    else
      var m := NewMember(q.name.value, q.memberId, q.contact, None, q.joinDate.GetOr(now), q.duesPerMonth.value.value);
      assert MemberValid(m) <==> !IsBlank(q.name.value) && q.duesPerMonth.value.value >= 0;
      MemberNameMessages(m);
      match ValidateMember(m)
      case Err(msg) => (s, Refused(500, msg))
      case Ok(_) => Insert(s, caller, m, "Created member: " + q.name.value, now)
  }

  /** A created member is stored as the setters leave it, under the trimmed name, which is never empty. */
  lemma CreatedMemberTrimmed(s: Store, caller: Principal, q: MemberInput, now: Moment)
    requires Consistent(s)
    ensures var r := CreateMember(s, caller, q, now);
            r.1.Reply? ==> Trimmed(r.1.body.1) && r.1.body.1.name == Trim(q.name.value) != []
  {
    if !MissingNameOrDues(q) {
      NewMemberTrimmed(q.name.value, q.memberId, q.contact, None, q.joinDate.GetOr(now), q.duesPerMonth.value.value);
    }
  }

  /** A body that sends the dues as the text "0" creates a member with no dues, where the number 0 is refused. */
  lemma ZeroDuesTextAccepted(s: Store, caller: Principal, name: string, now: Moment)
    requires Consistent(s) && !IsBlank(name)
    ensures var r := CreateMember(s, caller, MemberInput(Some(name), Unset, None, None, Some(NumericText("0", 0))), now);
            r.1.Reply? && r.1.body.1.duesPerMonth == 0
    ensures CreateMember(s, caller, MemberInput(Some(name), Unset, None, None, Some(JsonNumber(0))), now).1.Refused?
  {
  }

  /**
   * The sparse index skips only a member without the path: a create that
   * sends `memberId: null` while another member holds `null` is the
   * duplicate-id 400, while one that leaves the path out never collides.
   */
  lemma NullMemberIdCollides(s: Store, caller: Principal, q: MemberInput, now: Moment, other: nat)
    requires Consistent(s) && !MissingNameOrDues(q) && !IsBlank(q.name.value) && q.duesPerMonth.value.value >= 0
    requires other in s.members && s.members[other].memberId == NullId
    ensures q.memberId == NullId ==> CreateMember(s, caller, q, now) == (s, Refused(400, "Member ID already exists"))
    ensures q.memberId == Unset ==> CreateMember(s, caller, q, now).1.Reply?
  {
  }

  /** Setting a second member's `memberId` to `null` fails the save with the index's duplicate-key error. */
  lemma NullMemberIdUpdateCollides(s: Store, caller: Principal, id: nat, p: MemberPatch, now: Moment, other: nat)
    requires Consistent(s) && id in s.members && p.memberId == NullId && MemberValid(Patched(s.members[id], p))
    requires other in s.members && other != id && s.members[other].memberId == NullId
    ensures UpdateMember(s, caller, id, p, now) == (s, Refused(500, "E11000 duplicate key error"))
  {
  }

  /** The insert of a validated member: 400 on a taken member id, otherwise stored under a fresh id and logged. */
  function Insert(s: Store, caller: Principal, m: Member, action: string, now: Moment): (r: (Store, Response<(nat, Member)>))
    requires Consistent(s)
    ensures Consistent(r.0)
    ensures r.1.Refused? <==> !MemberIdFree(s.members, m.memberId, None)
    ensures r.1.Refused? ==> r == (s, Refused(400, "Member ID already exists"))
    ensures r.1.Reply? ==> r.1.code == 201 && r.1.body.1 == m && r.1.body.0 !in s.members
                           && r.0.members == s.members[r.1.body.0 := m]
                           && r.0.types == s.types && r.0.receipts == s.receipts && r.0.subgroups == s.subgroups
  {
    if !MemberIdFree(s.members, m.memberId, None) then (s, Refused(400, "Member ID already exists"))
    else
      var k := s.nextId;
      var s1 := s.(members := s.members[k := m], nextId := s.nextId + 1);
      var (s2, _) := AdminLog(s1, caller, action, Some(NatToString(k)), now);
      (s2, Reply(201, (k, m)))
  }

  /**
   * The update body: `name`, `joinDate` and `duesPerMonth` apply only when
   * truthy; `memberId` and `contact` whenever present, `null` included
   * (`Unset` is an absent `memberId`; for `contact` the outer option is
   * presence, the inner one `null`).
   */
  datatype MemberPatch = MemberPatch(name: Option<string>, memberId: MemberIdPath, contact: Option<Option<string>>,
                                     joinDate: Option<Moment>, duesPerMonth: Option<BodyNumber>)

  function Patched(m: Member, p: MemberPatch): (r: Member)
    ensures r.name == (if p.name.Some? && p.name.value != [] then Trim(p.name.value) else m.name)
    ensures r.memberId == (if p.memberId.Unset? then m.memberId else TrimId(p.memberId))
    ensures r.contact == (if p.contact.Some? then TrimOpt(p.contact.value) else m.contact)
    ensures r.joinDate == (if p.joinDate.Some? then p.joinDate.value else m.joinDate)
    ensures r.duesPerMonth == (if Given(p.duesPerMonth) then p.duesPerMonth.value.value else m.duesPerMonth)
    ensures r.(name := m.name, memberId := m.memberId, contact := m.contact, joinDate := m.joinDate,
               duesPerMonth := m.duesPerMonth) == m
    ensures Trimmed(m) ==> Trimmed(r)
  {
    var r := m.(name := if p.name.Some? && p.name.value != [] then Trim(p.name.value) else m.name,
                memberId := if p.memberId.Unset? then m.memberId else TrimId(p.memberId),
                contact := if p.contact.Some? then TrimOpt(p.contact.value) else m.contact,
                joinDate := if p.joinDate.Some? then p.joinDate.value else m.joinDate,
                duesPerMonth := if Given(p.duesPerMonth) then p.duesPerMonth.value.value else m.duesPerMonth);
    assert Trimmed(m) ==> Trimmed(r) by {
      if p.name.Some? && p.name.value != [] { TrimIdempotent(p.name.value); }
      TrimIdIdempotent(p.memberId);
    }
    r
  }

  /** An empty patch changes nothing. */
  lemma EmptyPatchIsIdentity(m: Member)
    ensures Patched(m, MemberPatch(None, Unset, None, None, None)) == m
  {
  }

  /**
   * `updateMember`: 404 for an unknown member; the assigned text goes
   * through the setters, and every save failure, a name of white space
   * only and the duplicate member id included, is a 500 here.
   */
  function UpdateMember(s: Store, caller: Principal, id: nat, p: MemberPatch, now: Moment): (r: (Store, Response<Member>))
    requires Consistent(s)
    ensures Consistent(r.0)
    ensures id !in s.members ==> r == (s, Refused(404, "Member not found"))
    ensures r.1.Refused? ==> r.0 == s && r.1.code in {404, 500}
    ensures id in s.members ==>
              (r.1.Reply? <==> MemberValid(Patched(s.members[id], p)) && MemberIdFree(s.members, Patched(s.members[id], p).memberId, Some(id)))
    ensures id in s.members && !MemberValid(Patched(s.members[id], p)) ==> r == (s, Refused(500, MemberInvalid(Patched(s.members[id], p))))
    ensures id in s.members && p.name.Some? && p.name.value != [] && IsBlank(p.name.value)
              && MemberValid(Patched(s.members[id], p).(name := "-"))
            ==> r == (s, Refused(500, NameRequired))
    ensures r.1.Reply? ==> r.1.code == 200 && r.1.body == Patched(s.members[id], p) && r.0.members == s.members[id := r.1.body]
  {
    if id !in s.members then (s, Refused(404, "Member not found"))
    else
      var m := Patched(s.members[id], p);
      MemberNameMessages(m);
      match ValidateMember(m)
      case Err(msg) => (s, Refused(500, msg))
      case Ok(_) =>
        if !MemberIdFree(s.members, m.memberId, Some(id)) then (s, Refused(500, "E11000 duplicate key error"))
        else
          var s1 := s.(members := s.members[id := m]);
          var (s2, _) := AdminLog(s1, caller, "Updated member: " + m.name, Some(NatToString(id)), now);
          (s2, Reply(200, m))
  }

  /** `deleteMember`: 404 for an unknown member, otherwise exactly that member is removed. */
  function DeleteMember(s: Store, caller: Principal, id: nat, now: Moment): (r: (Store, Response<string>))
    requires Consistent(s)
    ensures Consistent(r.0)
    ensures r.1.Refused? <==> id !in s.members
    ensures r.1.Refused? ==> r.0 == s && r.1.code == 404
    ensures r.1.Reply? ==> r.0.members == s.members - {id} && r.0.subgroups == s.subgroups && r.0.receipts == s.receipts
  {
    if id !in s.members then (s, Refused(404, "Member not found"))
    else
      var s1 := s.(members := s.members - {id});
      var (s2, _) := AdminLog(s1, caller, "Deleted member: " + s.members[id].name, Some(NatToString(id)), now);
      (s2, Reply(200, "Member deleted successfully"))
  }

  function ArrearsOf(e: (nat, Member)): int { e.1.arrears }

  /** The members in natural order with recomputed arrears, keeping those who owe something. */
  function Owing(s: Store, ids: seq<nat>, now: Moment): (r: seq<(nat, Member)>)
    requires forall i :: 0 <= i < |ids| ==> ids[i] in s.members
    ensures forall e :: e in r <==> exists i :: 0 <= i < |ids| && e == (ids[i], Fresh(s.members[ids[i]], now)) && e.1.arrears > 0
  {
    if ids == [] then []
    else
      var init := ids[..|ids| - 1];
      var k := ids[|ids| - 1];
      assert forall i :: 0 <= i < |init| ==> init[i] == ids[i];
      var e := (k, Fresh(s.members[k], now));
      Owing(s, init, now) + (if e.1.arrears > 0 then [e] else [])
  }

  /** Filtering keeps the order of the ids. */
  lemma {:induction false} OwingAscending(s: Store, ids: seq<nat>, now: Moment)
    requires forall i :: 0 <= i < |ids| ==> ids[i] in s.members
    requires forall i, j :: 0 <= i < j < |ids| ==> ids[i] < ids[j]
    ensures forall i, j :: 0 <= i < j < |Owing(s, ids, now)| ==> Owing(s, ids, now)[i].0 < Owing(s, ids, now)[j].0
    decreases |ids|
  {
    if ids != [] {
      var init := ids[..|ids| - 1];
      var k := ids[|ids| - 1];
      assert forall i :: 0 <= i < |init| ==> init[i] == ids[i];
      OwingAscending(s, init, now);
      var a := Owing(s, init, now);
      var e := (k, Fresh(s.members[k], now));
      var tail := if e.1.arrears > 0 then [e] else [];
      assert Owing(s, ids, now) == a + tail;
      forall x | x in a ensures x.0 < k {
        var i :| 0 <= i < |init| && x == (init[i], Fresh(s.members[init[i]], now)) && x.1.arrears > 0;
      }
      var r := a + tail;
      forall i, j | 0 <= i < j < |r| ensures r[i].0 < r[j].0 {
        if j >= |a| {
          assert r[j] == e && r[i] == a[i];
          assert a[i] in a;
          assert a[i].0 < k;
        } else {
          assert r[i] == a[i] && r[j] == a[j];
          assert a[i].0 < a[j].0;
        }
      }
    }
  }

  /**
   * `getMembersInArrears`: members owing something, largest arrears first;
   * the sort is stable, so members with equal arrears stay in natural order.
   */
  function GetMembersInArrears(s: Store, now: Moment): (r: seq<(nat, Member)>)
    requires Consistent(s)
    ensures Ordering.SortedDesc(r, ArrearsOf)
    ensures multiset(r) == multiset(Owing(s, Ordering.KeysAsc(s.members, s.nextId), now))
    ensures Ordering.TiesAscend(r, ArrearsOf, Ordering.Id)
  {
    var ids := Ordering.KeysAsc(s.members, s.nextId);
    var o := Owing(s, ids, now);
    OwingAscending(s, ids, now);
    assert forall i, j :: 0 <= i < j < |o| ==> Ordering.Id(o[i]) < Ordering.Id(o[j]);
    Ordering.SortDescStable(o, ArrearsOf, Ordering.Id);
    Ordering.SortDesc(o, ArrearsOf)
  }

  /** A member is listed exactly when their recomputed arrears are positive. */
  lemma InArrearsIffOwing(s: Store, now: Moment, k: nat)
    requires Consistent(s)
    ensures (exists i :: 0 <= i < |GetMembersInArrears(s, now)| && GetMembersInArrears(s, now)[i].0 == k) <==>
            k in s.members && MemberArrears(s.members[k], now) > 0
  {
    var r := GetMembersInArrears(s, now);
    if exists i :: 0 <= i < |r| && r[i].0 == k {
      var i :| 0 <= i < |r| && r[i].0 == k;
      ListedOwes(s, now, i);
    }
    if k in s.members && MemberArrears(s.members[k], now) > 0 {
      OwingListed(s, now, k);
    }
  }

  lemma ListedOwes(s: Store, now: Moment, i: nat)
    requires Consistent(s) && i < |GetMembersInArrears(s, now)|
    ensures var e := GetMembersInArrears(s, now)[i];
            e.0 in s.members && MemberArrears(s.members[e.0], now) > 0
  {
    var o := Owing(s, Ordering.KeysAsc(s.members, s.nextId), now);
    var e := GetMembersInArrears(s, now)[i];
    assert e in multiset(o);
    assert e in o;
  }

  lemma OwingListed(s: Store, now: Moment, k: nat)
    requires Consistent(s) && k in s.members && MemberArrears(s.members[k], now) > 0
    ensures exists i :: 0 <= i < |GetMembersInArrears(s, now)| && GetMembersInArrears(s, now)[i].0 == k
  {
    var ids := Ordering.KeysAsc(s.members, s.nextId);
    var o := Owing(s, ids, now);
    var r := GetMembersInArrears(s, now);
    var e := (k, Fresh(s.members[k], now));
    var x :| 0 <= x < |ids| && ids[x] == k;
    assert e in o;
    assert e in multiset(r);
    var i :| 0 <= i < |r| && r[i] == e;
  }
}
