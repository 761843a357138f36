/**
 * Subgroups (controllers/subgroupController.js): creation and update with an
 * existing leader who is moved into the subgroup, deletion that leaves the
 * members unassigned, per-subgroup collection statistics from the member
 * aggregate, and the ranked leaderboard. Averages are exact rationals.
 */
module Subgroups {
  import opened Wrappers
  import opened Http
  import opened Text
  import opened Accounts
  import opened Schemas
  import opened TenantStore
  import Ordering
  import Grouping

  /** `memberCount > 0 ? totalCollected / memberCount : 0` */
  function Average(total: int, count: nat): (r: real)
    ensures count > 0 ==> r * count as real == total as real
    ensures count == 0 ==> r == 0.0
  {
    if count > 0 then total as real / count as real else 0.0
  }

  /** The members of one subgroup (`None` for the unassigned ones). */
  function InGroup(g: Option<nat>): Member -> bool
  {
    (m: Member) => m.subgroupId == g
  }

  /** The `$group` input: each member's subgroup and `totalPaid`, in stored order. */
  function Items(es: seq<(nat, Member)>): (r: seq<(Option<nat>, int)>)
    ensures |r| == |es|
  {
    if es == [] then [] else Items(es[..|es| - 1]) + [(es[|es| - 1].1.subgroupId, es[|es| - 1].1.totalPaid)]
  }

  /** `members.reduce((sum, m) => sum + (m.totalPaid || 0), 0)` */
  function PaidSum(es: seq<(nat, Member)>): int
  {
    if es == [] then 0 else PaidSum(es[..|es| - 1]) + es[|es| - 1].1.totalPaid
  }

  /**
   * The aggregate's figures for a key are those of the members carrying it:
   * the listing's statistics agree with the one-subgroup view.
   */
  lemma {:induction false} AggregateMatchesMembers(es: seq<(nat, Member)>, g: Option<nat>)
    ensures Grouping.CountKey(Items(es), g) == |Ordering.Where(es, InGroup(g))|
    ensures Grouping.SumKey(Items(es), g) == PaidSum(Ordering.Where(es, InGroup(g)))
  {
    if es != [] {
      var init := es[..|es| - 1];
      AggregateMatchesMembers(init, g);
      assert Items(es)[..|es| - 1] == Items(init);
      var w := Ordering.Where(init, InGroup(g));
      if InGroup(g)(es[|es| - 1].1) {
        assert (w + [es[|es| - 1]])[..|w|] == w;
      }
    }
  }

  datatype Stats = Stats(totalCollected: int, memberCount: nat, averagePerMember: real)

  /** The statistics of subgroup `id` in the aggregate, or 0/0 when no member is in it. */
  function StatsFor(gs: seq<Grouping.Group<Option<nat>>>, id: nat): (r: Stats)
    ensures Grouping.HasGroup(gs, Some(id)) ==> exists i :: 0 <= i < |gs| && gs[i].key == Some(id)
                                                  && r == Stats(gs[i].total, gs[i].count, Average(gs[i].total, gs[i].count))
    ensures !Grouping.HasGroup(gs, Some(id)) ==> r == Stats(0, 0, 0.0)
  {
    var i := Grouping.FindGroup(gs, Some(id));
    if i >= 0 then Stats(gs[i].total, gs[i].count, Average(gs[i].total, gs[i].count)) else Stats(0, 0, 0.0)
  }

  /** The member aggregate grouped by `$subgroupId`. */
  function MemberStats(s: Store): seq<Grouping.Group<Option<nat>>>
  {
    Grouping.GroupSums(Items(Ordering.Entries(s.members, s.nextId)))
  }

  /** The members of subgroup `g`, oldest first. */
  function MembersOf(s: Store, g: Option<nat>): seq<(nat, Member)>
  {
    Ordering.Where(Ordering.Entries(s.members, s.nextId), InGroup(g))
  }

  function StatsOfMembers(es: seq<(nat, Member)>): (r: Stats)
    ensures r.memberCount == |es| && r.totalCollected == PaidSum(es)
  {
    Stats(PaidSum(es), |es|, Average(PaidSum(es), |es|))
  }

  /** `buildSubgroupStats` for one subgroup equals the statistics of its members. */
  lemma StatsForIsMembersStats(s: Store, id: nat)
    ensures StatsFor(MemberStats(s), id) == StatsOfMembers(MembersOf(s, Some(id)))
  {
    var es := Ordering.Entries(s.members, s.nextId);
    var gs := MemberStats(s);
    AggregateMatchesMembers(es, Some(id));
    if !Grouping.HasGroup(gs, Some(id)) {
      Grouping.SumOfAbsentKey(Items(es), Some(id));
    }
  }

  /** The aggregate's statistics for subgroup `id`, as `buildSubgroupStats` reads them. */
  function SubgroupStats(s: Store, id: nat): (r: Stats)
    ensures r == StatsOfMembers(MembersOf(s, Some(id)))
  {
    StatsForIsMembersStats(s, id);
    StatsFor(MemberStats(s), id)
  }

  datatype SubgroupView = SubgroupView(id: nat, subgroup: Subgroup, stats: Stats)

  /** `getSubgroups`: newest first, each with its statistics. */
  function GetSubgroups(s: Store): (r: seq<SubgroupView>)
    requires Consistent(s)
    ensures forall i :: 0 <= i < |r| ==> r[i].id in s.subgroups && r[i].subgroup == s.subgroups[r[i].id]
                                          && r[i].stats == StatsOfMembers(MembersOf(s, Some(r[i].id)))
    ensures forall k :: k in s.subgroups ==> exists i :: 0 <= i < |r| && r[i].id == k
    ensures forall i, j :: 0 <= i < j < |r| ==> r[i].id > r[j].id
  {
    var ids := Ordering.KeysDesc(s.subgroups, s.nextId);
    var r := Views(s, ids);
    forall k | k in s.subgroups ensures exists i :: 0 <= i < |r| && r[i].id == k {
      var i :| 0 <= i < |ids| && ids[i] == k;
      assert r[i].id == k;
    }
    r
  }

  /** The views of the given subgroups, in their order. */
  function Views(s: Store, ids: seq<nat>): (r: seq<SubgroupView>)
    requires forall i :: 0 <= i < |ids| ==> ids[i] in s.subgroups
    ensures |r| == |ids|
    ensures forall i :: 0 <= i < |r| ==> r[i] == SubgroupView(ids[i], s.subgroups[ids[i]], SubgroupStats(s, ids[i]))
  {
    seq(|ids|, i requires 0 <= i < |ids| => SubgroupView(ids[i], s.subgroups[ids[i]], SubgroupStats(s, ids[i])))
  }

  datatype SubgroupDetail = SubgroupDetail(subgroup: Subgroup, members: seq<(nat, Member)>, stats: Stats)

  /** `getSubgroupById`: the subgroup, its members and their totals. */
  function GetSubgroupById(s: Store, id: nat): (r: Response<SubgroupDetail>)
    ensures r.Refused? <==> id !in s.subgroups
    ensures r.Refused? ==> r.code == 404
    ensures r.Reply? ==> r.body.subgroup == s.subgroups[id]
                         && (forall e :: e in r.body.members <==> e.0 in s.members && e.0 < s.nextId && e.1 == s.members[e.0]
                                                                   && e.1.subgroupId == Some(id))
                         && r.body.stats.memberCount == |r.body.members| && r.body.stats.totalCollected == PaidSum(r.body.members)
    ensures r.Reply? ==> Ordering.Ascending(r.body.members)
                         && r.body.stats.averagePerMember == Average(r.body.stats.totalCollected, r.body.stats.memberCount)
  {
    if id !in s.subgroups then Refused(404, "Subgroup not found")
    else
      var ms := MembersOf(s, Some(id));
      Ordering.WhereAscending(Ordering.Entries(s.members, s.nextId), InGroup(Some(id)));
      Reply(200, SubgroupDetail(s.subgroups[id], ms, StatsOfMembers(ms)))
  }

  /** The leader moved into subgroup `g`. */
  function Join(s: Store, leader: nat, g: nat): (r: Store)
    requires leader in s.members
    ensures r == s.(members := s.members[leader := s.members[leader].(subgroupId := Some(g))])
    ensures Consistent(s) ==> Consistent(r)
  {
    s.(members := s.members[leader := s.members[leader].(subgroupId := Some(g))])
  }

  /** Mongoose's message when the subgroup's trimmed `name` is empty on save. */
  const SubgroupNameRequired := "Subgroup validation failed: name: Path `name` is required."

  /**
   * `createSubgroup`: a name and an existing leader are required; a name
   * that trims to nothing fails the schema's `required` (500). The new
   * subgroup's leader joins it.
   */
  function CreateSubgroup(s: Store, caller: Principal, name: Option<string>, leaderId: Option<nat>): (r: (Store, Response<nat>))
    requires Consistent(s)
    ensures Consistent(r.0)
    ensures r.1.Refused? ==> r.0 == s
    ensures name.None? || name.value == [] || leaderId.None? ==> r.1 == Refused(400, "Name and leader are required")
    ensures r.1.Reply? <==> name.Some? && !IsBlank(name.value) && leaderId.Some? && leaderId.value in s.members
    ensures name.Some? && name.value != [] && IsBlank(name.value) && leaderId.Some? && leaderId.value in s.members ==>
              r.1 == Refused(500, SubgroupNameRequired)
    ensures r.1.Reply? ==> var g := r.1.body;
              r.1.code == 201 && g !in s.subgroups
              && r.0 == Join(s.(subgroups := s.subgroups[g := Subgroup(Trim(name.value), leaderId.value, caller.userId)],
                                nextId := s.nextId + 1), leaderId.value, g)
  {
    if name.None? || name.value == [] || leaderId.None? then (s, Refused(400, "Name and leader are required"))
    else if leaderId.value !in s.members then (s, Refused(400, "Subgroup leader must be an existing member"))
    else if IsBlank(name.value) then (s, Refused(500, SubgroupNameRequired))
    else
      var g := s.nextId;
      var sg := Subgroup(Trim(name.value), leaderId.value, caller.userId);
      var s1 := s.(subgroups := s.subgroups[g := sg], nextId := s.nextId + 1);
      AddSubgroupKeepsConsistent(s, sg);
      (Join(s1, leaderId.value, g), Reply(201, g))
  }

  lemma AddSubgroupKeepsConsistent(s: Store, sg: Subgroup)
    requires Consistent(s)
    ensures s.nextId !in s.subgroups
    ensures Consistent(s.(subgroups := s.subgroups[s.nextId := sg], nextId := s.nextId + 1))
  {
  }

  /**
   * `updateSubgroup`: a truthy name is trimmed in; a truthy leader must
   * exist and joins the subgroup. The leader is saved before the subgroup,
   * so a name that trims to nothing still leaves the leader moved.
   */
  function UpdateSubgroup(s: Store, id: nat, name: Option<string>, leaderId: Option<nat>): (r: (Store, Response<Subgroup>))
    requires Consistent(s)
    ensures Consistent(r.0)
    ensures id !in s.subgroups ==> r == (s, Refused(404, "Subgroup not found"))
    ensures id in s.subgroups && leaderId.Some? && leaderId.value !in s.members ==>
              r == (s, Refused(400, "Subgroup leader must be an existing member"))
    ensures r.1.Reply? <==> id in s.subgroups && (leaderId.Some? ==> leaderId.value in s.members)
                            && NewName(s.subgroups[id], name) != []
    ensures r.1.Reply? ==>
              r.1.body.name == NewName(s.subgroups[id], name)
              && r.1.body.leaderId == (if leaderId.Some? then leaderId.value else s.subgroups[id].leaderId)
              && r.1.body.createdBy == s.subgroups[id].createdBy
              && r.0.subgroups == s.subgroups[id := r.1.body]
    ensures id in s.subgroups && leaderId.Some? && leaderId.value in s.members ==>
              r.0.members == s.members[leaderId.value := s.members[leaderId.value].(subgroupId := Some(id))]
    ensures leaderId.None? ==> r.0.members == s.members
    ensures id in s.subgroups && (leaderId.Some? ==> leaderId.value in s.members) && NewName(s.subgroups[id], name) == [] ==>
              r.1 == Refused(500, SubgroupNameRequired)
  {
    if id !in s.subgroups then (s, Refused(404, "Subgroup not found"))
    else
      var sg := s.subgroups[id];
      var sg1 := sg.(name := NewName(sg, name));
      if leaderId.Some? && leaderId.value !in s.members then (s, Refused(400, "Subgroup leader must be an existing member"))
      else
        var s1 := if leaderId.Some? then Join(s, leaderId.value, id) else s;
        var sg2 := if leaderId.Some? then sg1.(leaderId := leaderId.value) else sg1;
        assert Consistent(s1);
        if sg2.name == [] then (s1, Refused(500, SubgroupNameRequired))
        else
          ReplaceSubgroupKeepsConsistent(s1, id, sg2);
          (s1.(subgroups := s1.subgroups[id := sg2]), Reply(200, sg2))
  }

  lemma ReplaceSubgroupKeepsConsistent(s: Store, id: nat, sg: Subgroup)
    requires Consistent(s) && id in s.subgroups
    ensures Consistent(s.(subgroups := s.subgroups[id := sg]))
  {
    assert s.subgroups[id := sg].Keys == s.subgroups.Keys;
  }

  /** A truthy name, trimmed, replaces the stored one; a blank one trims to nothing. */
  function NewName(sg: Subgroup, name: Option<string>): (r: string)
    ensures name.Some? && name.value != [] ==> r == Trim(name.value) && (r == [] <==> IsBlank(name.value))
    ensures name.None? || name.value == [] ==> r == sg.name
  {
    if name.Some? && name.value != [] then Trim(name.value) else sg.name
  }

  /** `updateMany({ subgroupId }, { $set: { subgroupId: null } })` */
  function Unassign(members: map<nat, Member>, id: nat): (r: map<nat, Member>)
    ensures r.Keys == members.Keys
    ensures forall k :: k in members ==> r[k] == if members[k].subgroupId == Some(id) then members[k].(subgroupId := None) else members[k]
    ensures forall k :: k in r ==> r[k].subgroupId != Some(id)
  {
    map k | k in members :: if members[k].subgroupId == Some(id) then members[k].(subgroupId := None) else members[k]
  }

  /** `deleteSubgroup`: its members become unassigned, then it is removed. */
  function DeleteSubgroup(s: Store, id: nat): (r: (Store, Response<string>))
    requires Consistent(s)
    ensures Consistent(r.0)
    ensures r.1.Refused? <==> id !in s.subgroups
    ensures r.1.Refused? ==> r.0 == s && r.1.code == 404
    ensures r.1.Reply? ==> r.0 == s.(members := Unassign(s.members, id), subgroups := s.subgroups - {id})
  {
    if id !in s.subgroups then (s, Refused(404, "Subgroup not found"))
    else
      UnassignKeepsConsistent(s, id);
      (s.(members := Unassign(s.members, id), subgroups := s.subgroups - {id}),
       Reply(200, "Subgroup deleted successfully. Members have been set to Unassigned."))
  }

  lemma UnassignKeepsConsistent(s: Store, id: nat)
    requires Consistent(s)
    ensures Consistent(s.(members := Unassign(s.members, id), subgroups := s.subgroups - {id}))
  {
    var s' := s.(members := Unassign(s.members, id), subgroups := s.subgroups - {id});
    assert s'.members.Keys == s.members.Keys;
    assert s'.subgroups.Keys <= s.subgroups.Keys;
  }

  /** A leaderboard row: `group` is `None` for the Unassigned row. */
  datatype Entry = Entry(group: Option<nat>, name: string, leader: Option<nat>, totalCollected: int, totalMembers: nat, averagePerMember: real)

  datatype Ranked = Ranked(rank: nat, entry: Entry)

  /** The leaderboard row of stored subgroup `k`. */
  function Row(s: Store, k: nat): (e: Entry)
    requires k in s.subgroups
    ensures e.group == Some(k) && e.name == s.subgroups[k].name && e.leader == Some(s.subgroups[k].leaderId)
    ensures e.totalCollected == PaidSum(MembersOf(s, Some(k))) && e.totalMembers == |MembersOf(s, Some(k))|
    ensures e.averagePerMember == Average(e.totalCollected, e.totalMembers)
  {
    var st := SubgroupStats(s, k);
    Entry(Some(k), s.subgroups[k].name, Some(s.subgroups[k].leaderId), st.totalCollected, st.memberCount, st.averagePerMember)
  }

  function Collected(e: Entry): int { e.totalCollected }

  /**
   * The order the rows are built in: stored subgroups by id (`Subgroup.find()`
   * in natural order), the Unassigned row after all of them.
   */
  predicate ListedBefore(a: Option<nat>, b: Option<nat>)
  {
    b.None? || (a.Some? && a.value < b.value)
  }

  /** A row's position key: its subgroup id, or `nextId` (above every stored id) for Unassigned. */
  function Place(s: Store, e: Entry): int
  {
    if e.group.Some? then e.group.value else s.nextId
  }

  /** The rows before ranking: every subgroup, then Unassigned when some member has no subgroup. */
  function Entries(s: Store): (r: seq<Entry>)
    requires Consistent(s)
    ensures forall i, j :: 0 <= i < j < |r| ==> Place(s, r[i]) < Place(s, r[j])
    ensures forall k :: k in s.subgroups ==> Row(s, k) in r
    ensures forall e :: e in r && e.group.Some? ==> e.group.value in s.subgroups && e == Row(s, e.group.value)
    ensures (exists e :: e in r && e.group.None?) <==> MembersOf(s, None) != []
    ensures forall e :: e in r && e.group.None? ==>
              e == Entry(None, "Unassigned", None, PaidSum(MembersOf(s, None)), |MembersOf(s, None)|,
                         Average(PaidSum(MembersOf(s, None)), |MembersOf(s, None)|))
  {
    var base := SubgroupEntries(s);
    match UnassignedEntry(s)
    case Some(e) =>
      UnassignedLast(s, base, e);
      base + [e]
    case None => base
  }

  /** A row placed at `nextId` after rows placed below it keeps the rows in ascending place. */
  lemma UnassignedLast(s: Store, base: seq<Entry>, e: Entry)
    requires forall i, j :: 0 <= i < j < |base| ==> Place(s, base[i]) < Place(s, base[j])
    requires forall i :: 0 <= i < |base| ==> Place(s, base[i]) < s.nextId
    requires e.group.None?
    ensures forall i, j :: 0 <= i < j < |base + [e]| ==> Place(s, (base + [e])[i]) < Place(s, (base + [e])[j])
  {
  }

  /** One row per stored subgroup, in stored order. */
  function SubgroupEntries(s: Store): (r: seq<Entry>)
    requires Consistent(s)
    ensures forall i, j :: 0 <= i < j < |r| ==> Place(s, r[i]) < Place(s, r[j])
    ensures forall i :: 0 <= i < |r| ==> Place(s, r[i]) < s.nextId
    ensures forall k :: k in s.subgroups ==> Row(s, k) in r
    ensures forall e :: e in r ==> e.group.Some? && e.group.value in s.subgroups && e == Row(s, e.group.value)
  {
    RowsFor(s, Ordering.KeysAsc(s.subgroups, s.nextId))
  }

  function RowsFor(s: Store, ids: seq<nat>): (r: seq<Entry>)
    requires forall i :: 0 <= i < |ids| ==> ids[i] in s.subgroups
    ensures |r| == |ids| && forall i :: 0 <= i < |r| ==> r[i] == Row(s, ids[i])
    ensures forall k :: k in ids ==> Row(s, k) in r
    ensures forall e :: e in r ==> e.group.Some? && e.group.value in s.subgroups && e == Row(s, e.group.value)
  {
    var r := seq(|ids|, i requires 0 <= i < |ids| => Row(s, ids[i]));
    forall k | k in ids ensures Row(s, k) in r {
      var i :| 0 <= i < |ids| && ids[i] == k;
      assert r[i] == Row(s, k);
    }
    r
  }

  /** The `_id: null` group of the aggregate, present exactly when some member has no subgroup. */
  function UnassignedEntry(s: Store): (r: Option<Entry>)
    ensures r.Some? <==> MembersOf(s, None) != []
    ensures r.Some? ==> r.value == Entry(None, "Unassigned", None, PaidSum(MembersOf(s, None)), |MembersOf(s, None)|,
                                         Average(PaidSum(MembersOf(s, None)), |MembersOf(s, None)|))
  {
    var gs := MemberStats(s);
    AggregateMatchesMembers(Ordering.Entries(s.members, s.nextId), None);
    var f := Grouping.FindGroup(gs, None);
    if f >= 0 then Some(Entry(None, "Unassigned", None, gs[f].total, gs[f].count, Average(gs[f].total, gs[f].count)))
    else None
  }

  /**
   * `getSubgroupLeaderboard`: highest collection first, ranked by position
   * from 1. The sort is stable, so rows that collected the same keep the
   * order they were built in.
   */
  function Leaderboard(s: Store): (r: seq<Ranked>)
    requires Consistent(s)
    ensures forall i :: 0 <= i < |r| ==> r[i].rank == i + 1
    ensures forall i, j :: 0 <= i < j < |r| ==> r[i].entry.totalCollected >= r[j].entry.totalCollected
    ensures multiset(Unranked(r)) == multiset(Entries(s))
    ensures forall i, j :: 0 <= i < j < |r| && r[i].entry.totalCollected == r[j].entry.totalCollected ==>
              ListedBefore(r[i].entry.group, r[j].entry.group)
  {
    var sorted := Board(s);
    UnrankedRankAll(sorted);
    RankAll(sorted)
  }

  /** The rows sorted by collection, ties in the order they were built in. */
  function Board(s: Store): (sorted: seq<Entry>)
    requires Consistent(s)
    ensures forall i, j :: 0 <= i < j < |sorted| ==> sorted[i].totalCollected >= sorted[j].totalCollected
    ensures multiset(sorted) == multiset(Entries(s))
    ensures forall i, j :: 0 <= i < j < |sorted| && sorted[i].totalCollected == sorted[j].totalCollected ==>
              ListedBefore(sorted[i].group, sorted[j].group)
  {
    var es := Entries(s);
    Ordering.SortDescStable(es, Collected, (e: Entry) => Place(s, e));
    TiesListedBefore(s, Ordering.SortDesc(es, Collected));
    Ordering.SortDesc(es, Collected)
  }

  /** Rows of the board in ascending position among ties are listed before one another. */
  lemma TiesListedBefore(s: Store, sorted: seq<Entry>)
    requires Consistent(s)
    requires multiset(sorted) == multiset(Entries(s))
    requires Ordering.TiesAscend(sorted, Collected, (e: Entry) => Place(s, e))
    ensures forall i, j :: 0 <= i < j < |sorted| && Collected(sorted[i]) == Collected(sorted[j]) ==>
              ListedBefore(sorted[i].group, sorted[j].group)
  {
    forall i, j | 0 <= i < j < |sorted| && Collected(sorted[i]) == Collected(sorted[j])
      ensures ListedBefore(sorted[i].group, sorted[j].group)
    {
      assert sorted[j] in multiset(Entries(s));
      assert Place(s, sorted[i]) < Place(s, sorted[j]);
    }
  }

  /** Positions from 1, in order. */
  function RankAll(es: seq<Entry>): (r: seq<Ranked>)
    ensures |r| == |es|
    ensures forall i :: 0 <= i < |r| ==> r[i] == Ranked(i + 1, es[i])
  {
    seq(|es|, i requires 0 <= i < |es| => Ranked(i + 1, es[i]))
  }

  /** The rows of a ranking without their ranks. */
  function Unranked(r: seq<Ranked>): (es: seq<Entry>)
    ensures |es| == |r|
    ensures forall i :: 0 <= i < |r| ==> es[i] == r[i].entry
  {
    seq(|r|, i requires 0 <= i < |r| => r[i].entry)
  }

  /** Ranking drops nothing and reorders nothing. */
  lemma UnrankedRankAll(es: seq<Entry>)
    ensures Unranked(RankAll(es)) == es
  {
  }
}
