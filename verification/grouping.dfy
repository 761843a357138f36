/**
 * A `$group`-style aggregation: items keyed by `K` summed and counted per key.
 * Shared by the member aggregate,
 * the contribution and expenditure breakdowns and the dashboard.
 */
module Grouping {

  datatype Group<K> = Group(key: K, total: int, count: nat)

  /** How many items carry key `k`. */
  function CountKey<K(==)>(items: seq<(K, int)>, k: K): nat
  {
    if items == [] then 0
    else CountKey(items[..|items| - 1], k) + (if items[|items| - 1].0 == k then 1 else 0)
  }

  /** The sum of the amounts of the items carrying key `k`. */
  function SumKey<K(==)>(items: seq<(K, int)>, k: K): int
  {
    if items == [] then 0
    else SumKey(items[..|items| - 1], k) + (if items[|items| - 1].0 == k then items[|items| - 1].1 else 0)
  }

  predicate DistinctKeys<K(==)>(gs: seq<Group<K>>)
  {
    forall i, j :: 0 <= i < j < |gs| ==> gs[i].key != gs[j].key
  }

  predicate HasGroup<K(==)>(gs: seq<Group<K>>, k: K)
  {
    exists i :: 0 <= i < |gs| && gs[i].key == k
  }

  function FindGroup<K(==)>(gs: seq<Group<K>>, k: K): (i: int)
    ensures -1 <= i < |gs|
    ensures i >= 0 ==> gs[i].key == k
    ensures i < 0 ==> !HasGroup(gs, k)
  {
    if gs == [] then -1
    else if gs[|gs| - 1].key == k then |gs| - 1
    else
      var i := FindGroup(gs[..|gs| - 1], k);
      assert forall j :: 0 <= j < |gs| - 1 ==> gs[..|gs| - 1][j] == gs[j];
      i
  }

  function AddItem<K(==)>(gs: seq<Group<K>>, k: K, amount: int): seq<Group<K>>
  {
    var i := FindGroup(gs, k);
    if i >= 0 then gs[i := Group(k, gs[i].total + amount, gs[i].count + 1)]
    else gs + [Group(k, amount, 1)]
  }

  /** One group per distinct key, holding that key's sum and count. */
  function GroupSums<K(==, !new)>(items: seq<(K, int)>): (gs: seq<Group<K>>)
    ensures DistinctKeys(gs)
    ensures forall i :: 0 <= i < |gs| ==> gs[i].count == CountKey(items, gs[i].key) && gs[i].total == SumKey(items, gs[i].key)
    ensures forall k :: HasGroup(gs, k) <==> CountKey(items, k) > 0
  {
    if items == [] then []
    else
      var init := items[..|items| - 1];
      var prev := GroupSums(init);
      var k := items[|items| - 1].0;
      var gs := AddItem(prev, k, items[|items| - 1].1);
      var f := FindGroup(prev, k);
      assert forall k' :: HasGroup(gs, k') <==> HasGroup(prev, k') || k' == k by {
        forall k' ensures HasGroup(gs, k') <==> HasGroup(prev, k') || k' == k {
          if HasGroup(prev, k') {
            var j :| 0 <= j < |prev| && prev[j].key == k';
            assert gs[j].key == k';
          }
          if k' == k && f < 0 {
            assert gs[|prev|].key == k;
          }
        }
      }
      var a := items[|items| - 1].1;
      assert forall x :: CountKey(items, x) == CountKey(init, x) + (if x == k then 1 else 0);
      assert forall x :: SumKey(items, x) == SumKey(init, x) + (if x == k then a else 0);
      forall i | 0 <= i < |gs|
        ensures gs[i].count == CountKey(items, gs[i].key) && gs[i].total == SumKey(items, gs[i].key)
      {
        if f < 0 && i == |prev| {
          SumOfAbsentKey(init, k);
        }
        if i < |prev| && i != f {
          assert gs[i] == prev[i];
          if f >= 0 { assert prev[f].key == k; }
          assert prev[i].key != k;
        }
      }
      assert DistinctKeys(gs) by {
        forall i, j | 0 <= i < j < |gs| ensures gs[i].key != gs[j].key {
          if f < 0 && j == |prev| {
            assert gs[i] == prev[i];
          }
        }
      }
      gs
  }

  lemma {:induction false} SumOfAbsentKey<K>(items: seq<(K, int)>, k: K)
    requires CountKey(items, k) == 0
    ensures SumKey(items, k) == 0
  {
    if items != [] {
      SumOfAbsentKey(items[..|items| - 1], k);
    }
  }

  /** A key is counted exactly when some item carries it. */
  lemma {:induction false} CountKeyPositive<K>(items: seq<(K, int)>, k: K)
    ensures CountKey(items, k) > 0 <==> exists i :: 0 <= i < |items| && items[i].0 == k
  {
    if items != [] {
      var init := items[..|items| - 1];
      CountKeyPositive(init, k);
      if exists i :: 0 <= i < |init| && init[i].0 == k {
        var i :| 0 <= i < |init| && init[i].0 == k;
        assert items[i] == init[i];
      }
      if exists i :: 0 <= i < |items| && items[i].0 == k {
        var i :| 0 <= i < |items| && items[i].0 == k;
        if i < |init| {
          assert init[i] == items[i];
        }
      }
    }
  }

  /** Every item's amount is accounted for in exactly one group. */
  lemma {:induction false} GroupTotalsAddUp<K(!new)>(items: seq<(K, int)>)
    ensures Total(GroupSums(items)) == TotalOf(items)
  {
    if items != [] {
      var init := items[..|items| - 1];
      GroupTotalsAddUp(init);
      var prev := GroupSums(init);
      var k := items[|items| - 1].0;
      var f := FindGroup(prev, k);
      if f >= 0 {
        TotalUpdate(prev, f, Group(k, prev[f].total + items[|items| - 1].1, prev[f].count + 1));
      } else {
        TotalAppend(prev, Group(k, items[|items| - 1].1, 1));
      }
    }
  }

  function Total<K>(gs: seq<Group<K>>): int
  {
    if gs == [] then 0 else Total(gs[..|gs| - 1]) + gs[|gs| - 1].total
  }

  function TotalOf<K>(items: seq<(K, int)>): int
  {
    if items == [] then 0 else TotalOf(items[..|items| - 1]) + items[|items| - 1].1
  }

  lemma TotalAppend<K>(gs: seq<Group<K>>, g: Group<K>)
    ensures Total(gs + [g]) == Total(gs) + g.total
  {
    assert (gs + [g])[..|gs|] == gs;
  }

  lemma {:induction false} TotalUpdate<K>(gs: seq<Group<K>>, i: nat, g: Group<K>)
    requires i < |gs|
    ensures Total(gs[i := g]) == Total(gs) - gs[i].total + g.total
  {
    var n := |gs| - 1;
    if i < n {
      assert gs[i := g][..n] == gs[..n][i := g];
      TotalUpdate(gs[..n], i, g);
    } else {
      assert gs[i := g][..n] == gs[..n];
    }
  }
}
