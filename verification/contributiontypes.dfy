/**
 * Contribution types (controllers/contributionTypeController.js): the
 * system "Dues" type is created on demand and protected from change, names
 * are trimmed and unique without regard to letter case, and a type in use
 * cannot be deleted.
 */
module ContributionTypes {
  import opened Wrappers
  import opened Http
  import opened Text
  import opened Schemas
  import opened TenantStore
  import Ordering

  const DuesName: string := "Dues"
  const DuesType: ContributionType := ContributionType(DuesName, "Member dues payments", true)

  /** `findOne({ name: 'Dues' })` matches the exact name. */
  predicate HasDues(types: map<nat, ContributionType>)
  {
    exists k :: k in types && types[k].name == DuesName
  }

  function DuesIds(types: map<nat, ContributionType>): (r: set<nat>)
    ensures forall k :: k in r <==> k in types && types[k].name == DuesName
    ensures r == {} <==> !HasDues(types)
  {
    set k | k in types && types[k].name == DuesName
  }

  /** `ensureDuesTypeExists`: create the system Dues type only when none is stored. */
  function EnsureDues(s: Store): (r: Store)
    requires Consistent(s)
    ensures Consistent(r) && HasDues(r.types)
    ensures HasDues(s.types) ==> r == s
    ensures !HasDues(s.types) ==> s.nextId !in s.types && r == s.(types := s.types[s.nextId := DuesType], nextId := s.nextId + 1)
  {
    if HasDues(s.types) then s
    else
      var r := s.(types := s.types[s.nextId := DuesType], nextId := s.nextId + 1);
      assert r.types[s.nextId].name == DuesName;
      r
  }

  /** Ensuring Dues a second time changes nothing, and a store without Dues ends with exactly one. */
  lemma EnsureDuesIdempotent(s: Store)
    requires Consistent(s)
    ensures EnsureDues(EnsureDues(s)) == EnsureDues(s)
    ensures !HasDues(s.types) ==> DuesIds(EnsureDues(s).types) == {s.nextId}
    ensures HasDues(s.types) ==> DuesIds(EnsureDues(s).types) == DuesIds(s.types)
  {
    if !HasDues(s.types) {
      var t := EnsureDues(s).types;
      assert t == s.types[s.nextId := DuesType];
      assert forall k :: k in s.types ==> s.types[k].name != DuesName;
    }
  }

  /** The protected type: a system type named exactly "Dues". */
  predicate IsSystemDues(t: ContributionType) { t.isSystem && t.name == DuesName }

  /**
   * The name filter `^<trimmed>$` with the `i` flag, on a name without
   * regular-expression metacharacters: equality up to letter case.
   */
  predicate SameName(stored: string, requested: string)
  {
    Lower(stored) == Lower(Trim(requested))
  }

  /** No stored type other than `self` has the requested name. */
  predicate NameFree(types: map<nat, ContributionType>, requested: string, self: Option<nat>)
  {
    forall k :: k in types && Some(k) != self ==> !SameName(types[k].name, requested)
  }

  /** Names are distinct up to letter case. */
  predicate NamesDistinct(types: map<nat, ContributionType>)
  {
    forall a, b :: a in types && b in types && a != b ==> Lower(types[a].name) != Lower(types[b].name)
  }

  /** `!name || !name.trim()`: absent, empty, or white space only. */
  predicate BlankName(name: Option<string>)
  {
    name.None? || IsBlank(name.value)
  }

  /** `description?.trim() || ''` */
  function CleanDescription(description: Option<string>): (r: string)
    ensures description.None? ==> r == []
    ensures description.Some? ==> r == Trim(description.value)
  {
    if description.None? then [] else Trim(description.value)
  }

  /** `createContributionType` */
  function CreateType(s: Store, name: Option<string>, description: Option<string>): (r: (Store, Response<(nat, ContributionType)>))
    requires Consistent(s)
    ensures Consistent(r.0)
    ensures BlankName(name) ==> r == (s, Refused(400, "Name is required"))
    ensures !BlankName(name) && !NameFree(s.types, name.value, None) ==>
              r == (s, Refused(400, "A contribution type with this name already exists"))
    ensures r.1.Reply? <==> !BlankName(name) && NameFree(s.types, name.value, None)
    ensures r.1.Reply? ==> r.1.code == 201 && r.1.body.0 !in s.types
                           && r.1.body.1 == ContributionType(Trim(name.value), CleanDescription(description), false)
                           && r.0 == s.(types := s.types[r.1.body.0 := r.1.body.1], nextId := s.nextId + 1)
  {
    if BlankName(name) then (s, Refused(400, "Name is required"))
    else if !NameFree(s.types, name.value, None) then (s, Refused(400, "A contribution type with this name already exists"))
    else
      var t := ContributionType(Trim(name.value), CleanDescription(description), false);
      (s.(types := s.types[s.nextId := t], nextId := s.nextId + 1), Reply(201, (s.nextId, t)))
  }

  /** Creation keeps names distinct up to letter case. */
  lemma CreateKeepsNamesDistinct(s: Store, name: Option<string>, description: Option<string>)
    requires Consistent(s) && NamesDistinct(s.types)
    ensures NamesDistinct(CreateType(s, name, description).0.types)
  {
    var r := CreateType(s, name, description);
    if r.1.Reply? {
      var (k, t) := r.1.body;
      forall a | a in s.types && a != k ensures Lower(s.types[a].name) != Lower(t.name) {
        assert !SameName(s.types[a].name, name.value);
      }
      ReplaceKeepsDistinct(s.types, k, t);
    }
  }

  /** `getContributionTypeById` */
  function GetTypeById(s: Store, id: nat): (r: Response<ContributionType>)
    ensures r.Refused? <==> id !in s.types
    ensures r.Refused? ==> r.code == 404
    ensures r.Reply? ==> r.code == 200 && r.body == s.types[id]
  {
    if id in s.types then Reply(200, s.types[id]) else Refused(404, "Contribution type not found")
  }

  /** `updateContributionType`; an absent field is left as it is. */
  function UpdateType(s: Store, id: nat, name: Option<string>, description: Option<string>): (r: (Store, Response<ContributionType>))
    requires Consistent(s)
    ensures Consistent(r.0)
    ensures r.1.Refused? ==> r.0 == s
    ensures id !in s.types ==> r.1 == Refused(404, "Contribution type not found")
    ensures id in s.types && IsSystemDues(s.types[id]) ==> r.1 == Refused(400, "The Dues type cannot be modified")
    ensures r.1.Reply? <==> id in s.types && !IsSystemDues(s.types[id])
                            && (name.Some? ==> !IsBlank(name.value) && NameFree(s.types, name.value, Some(id)))
    ensures r.1.Reply? ==> r.1.code == 200 && r.0 == s.(types := s.types[id := r.1.body])
                           && r.1.body == Revise(s.types[id], name, description)
  {
    if id !in s.types then (s, Refused(404, "Contribution type not found"))
    else
      var t := s.types[id];
      if IsSystemDues(t) then (s, Refused(400, "The Dues type cannot be modified"))
      else if name.Some? && IsBlank(name.value) then (s, Refused(400, "Name cannot be empty"))
      else if name.Some? && !NameFree(s.types, name.value, Some(id)) then
        (s, Refused(400, "A contribution type with this name already exists"))
      else
        var t1 := Revise(t, name, description);
        (s.(types := s.types[id := t1]), Reply(200, t1))
  }

  /** The fields the update body names, trimmed; the rest as stored. */
  function Revise(t: ContributionType, name: Option<string>, description: Option<string>): (r: ContributionType)
    ensures r.isSystem == t.isSystem
    ensures r.name == (if name.Some? then Trim(name.value) else t.name)
    ensures r.description == (if description.Some? then Trim(description.value) else t.description)
  {
    t.(name := if name.Some? then Trim(name.value) else t.name,
       description := if description.Some? then Trim(description.value) else t.description)
  }

  /** A type may be renamed to a different spelling of its own name: the duplicate-name test skips it. */
  lemma RenameToOwnNameAllowed(s: Store, id: nat)
    requires Consistent(s) && NamesDistinct(s.types)
    requires id in s.types && !IsSystemDues(s.types[id])
    requires !IsBlank(s.types[id].name) && Trim(s.types[id].name) == s.types[id].name
    ensures UpdateType(s, id, Some(s.types[id].name), None).1.Reply?
  {
    var n := s.types[id].name;
    forall k | k in s.types && k != id ensures !SameName(s.types[k].name, n) {
      assert Lower(s.types[k].name) != Lower(n);
    }
  }

  /** Renaming keeps names distinct up to letter case. */
  lemma UpdateKeepsNamesDistinct(s: Store, id: nat, name: Option<string>, description: Option<string>)
    requires Consistent(s) && NamesDistinct(s.types)
    ensures NamesDistinct(UpdateType(s, id, name, description).0.types)
  {
    var r := UpdateType(s, id, name, description);
    if r.1.Reply? {
      var t1 := r.1.body;
      assert name.Some? ==> forall a :: a in s.types && a != id ==> Lower(s.types[a].name) != Lower(t1.name);
      ReplaceKeepsDistinct(s.types, id, t1);
    }
  }

  lemma ReplaceKeepsDistinct(types: map<nat, ContributionType>, id: nat, t1: ContributionType)
    requires NamesDistinct(types)
    requires forall a :: a in types && a != id ==> Lower(types[a].name) != Lower(t1.name)
    ensures NamesDistinct(types[id := t1])
  {
    var next := types[id := t1];
    forall a, b | a in next && b in next && a != b ensures Lower(next[a].name) != Lower(next[b].name) {
      if a != id && b != id {
        assert next[a] == types[a] && next[b] == types[b];
      }
    }
  }

  /** The contributions recorded against type `id` (`countDocuments({ contributionTypeId })`). */
  function Usage(s: Store, id: nat): (r: set<nat>)
    ensures forall k :: k in r <==> k in s.contributions && s.contributions[k].typeId == id
  {
    set k | k in s.contributions && s.contributions[k].typeId == id
  }

  /** `deleteContributionType` */
  function DeleteType(s: Store, id: nat): (r: (Store, Response<string>))
    requires Consistent(s)
    ensures Consistent(r.0)
    ensures r.1.Refused? ==> r.0 == s
    ensures id !in s.types ==> r.1 == Refused(404, "Contribution type not found")
    ensures id in s.types && IsSystemDues(s.types[id]) ==> r.1 == Refused(400, "The Dues type cannot be deleted")
    ensures r.1.Reply? <==> id in s.types && !IsSystemDues(s.types[id]) && Usage(s, id) == {}
    ensures r.1.Reply? ==> r.0 == s.(types := s.types - {id})
  {
    if id !in s.types then (s, Refused(404, "Contribution type not found"))
    else if IsSystemDues(s.types[id]) then (s, Refused(400, "The Dues type cannot be deleted"))
    else
      var used := Usage(s, id);
      if used != {} then
        (s, Refused(400, "Cannot delete: this type is used by " + NatToString(|used|) + " contribution(s)"))
      else (s.(types := s.types - {id}), Reply(200, "Contribution type deleted successfully"))
  }

  /** No contribution is left pointing at a deleted type. */
  lemma DeleteLeavesNoDangling(s: Store, id: nat)
    requires Consistent(s)
    requires forall k :: k in s.contributions ==> s.contributions[k].typeId in s.types
    ensures var r := DeleteType(s, id).0;
            forall k :: k in r.contributions ==> r.contributions[k].typeId in r.types
  {
    var r := DeleteType(s, id);
    if r.1.Reply? {
      forall k | k in s.contributions ensures s.contributions[k].typeId != id {
        assert k !in Usage(s, id);
      }
    }
  }

  function TypeName(e: (nat, ContributionType)): string { e.1.name }

  /** `sort({ isSystem: -1, name: 1 })`: system types first, each block by name. */
  predicate ListOrder(r: seq<(nat, ContributionType)>)
  {
    forall i, j :: 0 <= i < j < |r| ==>
      (r[j].1.isSystem ==> r[i].1.isSystem) && (r[i].1.isSystem == r[j].1.isSystem ==> Ordering.StrLe(r[i].1.name, r[j].1.name))
  }

  lemma BlocksInOrder(a: seq<(nat, ContributionType)>, b: seq<(nat, ContributionType)>)
    requires Ordering.SortedByName(a, TypeName) && Ordering.SortedByName(b, TypeName)
    requires forall e :: e in a ==> e.1.isSystem
    requires forall e :: e in b ==> !e.1.isSystem
    ensures ListOrder(a + b)
  {
    var r := a + b;
    forall i, j | 0 <= i < j < |r|
      ensures (r[j].1.isSystem ==> r[i].1.isSystem) && (r[i].1.isSystem == r[j].1.isSystem ==> Ordering.StrLe(r[i].1.name, r[j].1.name))
    {
      if j < |a| {
        assert r[i] == a[i] && r[j] == a[j];
      } else if i >= |a| {
        assert r[i] == b[i - |a|] && r[j] == b[j - |a|];
      } else {
        assert r[i] == a[i] && a[i] in a;
        assert r[j] == b[j - |a|] && b[j - |a|] in b;
      }
    }
  }

  /** The listed types with the given `isSystem`, sorted by name. */
  function Block(all: seq<(nat, ContributionType)>, system: bool): (r: seq<(nat, ContributionType)>)
    ensures Ordering.SortedByName(r, TypeName)
    ensures forall e :: e in r <==> e in all && e.1.isSystem == system
  {
    var r := Ordering.SortByName(Ordering.Where(all, (t: ContributionType) => t.isSystem == system), TypeName);
    assert forall e :: e in r <==> e in multiset(r);
    r
  }

  /** `getAllContributionTypes`: Dues is ensured first, then every type is listed in order. */
  function GetAllTypes(s: Store): (r: (Store, seq<(nat, ContributionType)>))
    requires Consistent(s)
    ensures r.0 == EnsureDues(s)
    ensures forall e :: e in r.1 <==> e.0 in r.0.types && e.1 == r.0.types[e.0]
    ensures ListOrder(r.1)
    ensures |r.1| == |r.0.types|
  {
    var s1 := EnsureDues(s);
    var all := Ordering.Entries(s1.types, s1.nextId);
    var sys := Block(all, true);
    var rest := Block(all, false);
    BlocksInOrder(sys, rest);
    BlocksPartition(s1);
    (s1, sys + rest)
  }

  /** The two blocks together hold every stored type once. */
  lemma BlocksPartition(s: Store)
    requires Consistent(s)
    ensures var all := Ordering.Entries(s.types, s.nextId);
            |Block(all, true)| + |Block(all, false)| == |s.types|
  {
    var all := Ordering.Entries(s.types, s.nextId);
    var isSys := (t: ContributionType) => t.isSystem == true;
    var notSys := (t: ContributionType) => t.isSystem == false;
    var a := Block(all, true);
    var b := Block(all, false);
    assert |a| == |multiset(a)| == |multiset(Ordering.Where(all, isSys))| == |Ordering.Where(all, isSys)|;
    assert |b| == |multiset(b)| == |multiset(Ordering.Where(all, notSys))| == |Ordering.Where(all, notSys)|;
    Ordering.CountIsWhereLength(all, isSys);
    Ordering.CountIsWhereLength(all, notSys);
    Ordering.CountSplits(all, isSys, notSys);
    Ordering.EntriesCount(s.types, s.nextId);
    assert (set k | k in s.types && k < s.nextId) == s.types.Keys;
  }
}
