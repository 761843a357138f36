/**
 * Orderings the handlers ask of the database or of `Array.prototype.sort`:
 * listing stored ids (ids grow with creation time, so id order is creation
 * order), a stable sort by a descending integer key, and code-unit
 * lexicographic order on strings.
 */
module Ordering {
  import opened Wrappers

  /** The keys of `m` below `n`, highest first (`sort({ createdAt: -1 })`). */
  function KeysDesc<V>(m: map<nat, V>, n: nat): (r: seq<nat>)
    ensures forall i :: 0 <= i < |r| ==> r[i] in m && r[i] < n
    ensures forall k :: k in m && k < n ==> k in r
    ensures forall i, j :: 0 <= i < j < |r| ==> r[i] > r[j]
  {
    if n == 0 then []
    else if n - 1 in m then [n - 1] + KeysDesc(m, n - 1)
    else KeysDesc(m, n - 1)
  }

  /** The keys of `m` below `n`, lowest first (natural insertion order). */
  function KeysAsc<V>(m: map<nat, V>, n: nat): (r: seq<nat>)
    ensures forall i :: 0 <= i < |r| ==> r[i] in m && r[i] < n
    ensures forall k :: k in m && k < n ==> k in r
    ensures forall i, j :: 0 <= i < j < |r| ==> r[i] < r[j]
  {
    if n == 0 then []
    else if n - 1 in m then KeysAsc(m, n - 1) + [n - 1]
    else KeysAsc(m, n - 1)
  }

  /** The stored documents below id `n`, oldest first, each with its id. */
  function Entries<V(!new)>(m: map<nat, V>, n: nat): (r: seq<(nat, V)>)
    ensures forall e :: e in r <==> e.0 in m && e.0 < n && e.1 == m[e.0]
    ensures forall i, j :: 0 <= i < j < |r| ==> r[i].0 < r[j].0
  {
    if n == 0 then []
    else
      var init := Entries(m, n - 1);
      if n - 1 in m then
        var r := init + [(n - 1, m[n - 1])];
        assert forall i :: 0 <= i < |init| ==> init[i] in init;
        r
      else init
  }

  /** One entry per stored id below `n`. */
  lemma {:induction false} EntriesCount<V(!new)>(m: map<nat, V>, n: nat)
    ensures |Entries(m, n)| == |set k | k in m && k < n|
  {
    if n > 0 {
      EntriesCount(m, n - 1);
      var below := set k | k in m && k < n - 1;
      var upto := set k | k in m && k < n;
      if n - 1 in m {
        assert upto == below + {n - 1};
      } else {
        assert upto == below;
      }
    } else {
      assert (set k | k in m && k < n) == {};
    }
  }

  /** The documents of `s` that satisfy `p`, in their given order. */
  function Where<V(!new)>(s: seq<(nat, V)>, p: V -> bool): (r: seq<(nat, V)>)
    ensures forall e :: e in r <==> e in s && p(e.1)
    ensures |r| <= |s|
  {
    if s == [] then []
    else
      var init := s[..|s| - 1];
      assert s == init + [s[|s| - 1]];
      if p(s[|s| - 1].1) then Where(init, p) + [s[|s| - 1]] else Where(init, p)
  }

  /** How many documents from the front of `s` pass `p` before the first that does not. */
  function LeadingRun<V>(s: seq<(nat, V)>, p: V -> bool): (n: nat)
    ensures n <= |s|
    ensures forall j :: 0 <= j < n ==> p(s[j].1)
    ensures n < |s| ==> !p(s[n].1)
  {
    if s == [] || !p(s[0].1) then 0
    else
      var n := LeadingRun(s[1..], p);
      assert forall j :: 1 <= j < 1 + n ==> s[j] == s[1..][j - 1];
      1 + n
  }

  predicate Ascending<V>(s: seq<(nat, V)>)
  {
    forall i, j :: 0 <= i < j < |s| ==> s[i].0 < s[j].0
  }

  /** Filtering keeps ids ascending. */
  lemma {:induction false} WhereAscending<V(!new)>(s: seq<(nat, V)>, p: V -> bool)
    requires Ascending(s)
    ensures Ascending(Where(s, p))
  {
    if s != [] {
      var init := s[..|s| - 1];
      var last := s[|s| - 1];
      assert s == init + [last];
      WhereAscending(init, p);
      var w := Where(init, p);
      forall e | e in w ensures e.0 < last.0 {
        var i :| 0 <= i < |init| && init[i] == e;
      }
      if p(last.1) {
        var r := w + [last];
        forall i, j | 0 <= i < j < |r| ensures r[i].0 < r[j].0 {
          if j == |w| {
            assert r[i] in w;
          }
        }
      }
    }
  }

  lemma WhereSnoc<V(!new)>(s: seq<(nat, V)>, x: (nat, V), p: V -> bool)
    ensures Where(s + [x], p) == Where(s, p) + (if p(x.1) then [x] else [])
  {
    assert (s + [x])[..|s|] == s;
  }

  /** Extending a prefix by one element extends its filtered view by at most that element. */
  lemma WherePrefixStep<V(!new)>(s: seq<(nat, V)>, i: nat, p: V -> bool)
    requires i < |s|
    ensures Where(s[..i + 1], p) == Where(s[..i], p) + (if p(s[i].1) then [s[i]] else [])
  {
    assert s[..i + 1] == s[..i] + [s[i]];
    WhereSnoc(s[..i], s[i], p);
  }

  /** How many elements of `s` satisfy `p`. */
  function Count<V>(s: seq<(nat, V)>, p: V -> bool): nat
  {
    if s == [] then 0 else Count(s[..|s| - 1], p) + (if p(s[|s| - 1].1) then 1 else 0)
  }

  lemma CountPrefixStep<V>(s: seq<(nat, V)>, i: nat, p: V -> bool)
    requires i < |s|
    ensures Count(s[..i + 1], p) == Count(s[..i], p) + (if p(s[i].1) then 1 else 0)
  {
    assert s[..i + 1][..i] == s[..i];
  }

  lemma CountSnoc<V>(s: seq<(nat, V)>, x: (nat, V), p: V -> bool)
    ensures Count(s + [x], p) == Count(s, p) + (if p(x.1) then 1 else 0)
  {
    assert (s + [x])[..|s|] == s;
  }

  lemma {:induction false} CountIsWhereLength<V(!new)>(s: seq<(nat, V)>, p: V -> bool)
    ensures |Where(s, p)| == Count(s, p)
  {
    if s != [] {
      CountIsWhereLength(s[..|s| - 1], p);
    }
  }

  /** A filter and its complement split a sequence: every element lands in exactly one of the two. */
  lemma {:induction false} CountSplits<V>(s: seq<(nat, V)>, p: V -> bool, q: V -> bool)
    requires forall v :: q(v) == !p(v)
    ensures Count(s, p) + Count(s, q) == |s|
  {
    if s != [] {
      CountSplits(s[..|s| - 1], p, q);
    }
  }

  function IdsBelow<V(!new)>(m: map<nat, V>, n: nat, p: V -> bool): set<nat>
  {
    set k | k in m && k < n && p(m[k])
  }

  lemma IdsBelowStep<V(!new)>(m: map<nat, V>, n: nat, p: V -> bool)
    requires n > 0
    ensures |IdsBelow(m, n, p)| == |IdsBelow(m, n - 1, p)| + (if n - 1 in m && p(m[n - 1]) then 1 else 0)
  {
    var a := IdsBelow(m, n - 1, p);
    var b := IdsBelow(m, n, p);
    if n - 1 in m && p(m[n - 1]) {
      assert b == a + {n - 1};
      assert n - 1 !in a;
    } else {
      assert b == a;
    }
  }

  lemma EntriesStep<V(!new)>(m: map<nat, V>, n: nat)
    requires n > 0
    ensures Entries(m, n) == Entries(m, n - 1) + (if n - 1 in m then [(n - 1, m[n - 1])] else [])
  {
  }

  /** How many stored ids below `n` hold a document satisfying `p`. */
  function CountBelow<V>(m: map<nat, V>, n: nat, p: V -> bool): nat
  {
    if n == 0 then 0 else CountBelow(m, n - 1, p) + (if n - 1 in m && p(m[n - 1]) then 1 else 0)
  }

  lemma {:induction false} IdsBelowCount<V(!new)>(m: map<nat, V>, n: nat, p: V -> bool)
    ensures |IdsBelow(m, n, p)| == CountBelow(m, n, p)
  {
    if n > 0 {
      IdsBelowCount(m, n - 1, p);
      IdsBelowStep(m, n, p);
    } else {
      assert IdsBelow(m, n, p) == {};
    }
  }

  lemma {:induction false} CountEntries<V(!new)>(m: map<nat, V>, n: nat, p: V -> bool)
    ensures Count(Entries(m, n), p) == CountBelow(m, n, p)
  {
    if n > 0 {
      CountEntries(m, n - 1, p);
      EntriesStep(m, n);
      if n - 1 in m {
        CountSnoc(Entries(m, n - 1), (n - 1, m[n - 1]), p);
      }
    }
  }

  /** Filtering the stored documents counts the ids whose document satisfies `p`. */
  lemma WhereEntriesCount<V(!new)>(m: map<nat, V>, n: nat, p: V -> bool)
    ensures |Where(Entries(m, n), p)| == |IdsBelow(m, n, p)|
  {
    IdsBelowCount(m, n, p);
    CountIsWhereLength(Entries(m, n), p);
    CountEntries(m, n, p);
  }

  predicate SortedDesc<T>(s: seq<T>, key: T -> int)
  {
    forall i, j :: 0 <= i < j < |s| ==> key(s[i]) >= key(s[j])
  }

  /** A permutation of a sequence bounded above by `bound` is bounded too. */
  lemma BoundedByPermutation<T>(t: seq<T>, u: seq<T>, key: T -> int, bound: int)
    requires multiset(t) == multiset(u)
    requires forall j :: 0 <= j < |u| ==> key(u[j]) <= bound
    ensures forall j :: 0 <= j < |t| ==> key(t[j]) <= bound
  {
    forall j | 0 <= j < |t| ensures key(t[j]) <= bound {
      assert t[j] in multiset(u);
      var k :| 0 <= k < |u| && u[k] == t[j];
    }
  }

  /** Insert `x` after every element whose key is at least `x`'s, keeping earlier equals first. */
  function InsertDesc<T>(x: T, s: seq<T>, key: T -> int): (r: seq<T>)
    requires SortedDesc(s, key)
    ensures SortedDesc(r, key)
    ensures multiset(r) == multiset(s) + multiset{x}
  {
    if s == [] then [x]
    else if key(s[0]) >= key(x) then
      var t := InsertDesc(x, s[1..], key);
      assert s == [s[0]] + s[1..];
      var u := s[1..] + [x];
      assert multiset(u) == multiset(t);
      BoundedByPermutation(t, u, key, key(s[0]));
      [s[0]] + t
    else
      assert s == [s[0]] + s[1..];
      [x] + s
  }

  /** A stable sort by descending key (`arr.sort((a, b) => key(b) - key(a))`). */
  function SortDesc<T>(s: seq<T>, key: T -> int): (r: seq<T>)
    ensures SortedDesc(r, key)
    ensures multiset(r) == multiset(s)
    ensures |r| == |s|
  {
    if s == [] then []
    else
      assert s == s[..|s| - 1] + [s[|s| - 1]];
      var r := InsertDesc(s[|s| - 1], SortDesc(s[..|s| - 1], key), key);
      assert |r| == |multiset(r)|;
      r
  }

  /** Among elements with equal keys, `id` increases along `s`. */
  predicate TiesAscend<T>(s: seq<T>, key: T -> int, id: T -> int)
  {
    forall i, j :: 0 <= i < j < |s| && key(s[i]) == key(s[j]) ==> id(s[i]) < id(s[j])
  }

  lemma {:induction false} InsertDescStable<T>(x: T, t: seq<T>, key: T -> int, id: T -> int)
    requires SortedDesc(t, key) && TiesAscend(t, key, id)
    requires forall y :: y in t ==> id(y) < id(x)
    ensures TiesAscend(InsertDesc(x, t, key), key, id)
    decreases |t|
  {
    if t != [] && key(t[0]) >= key(x) {
      var tail := t[1..];
      assert forall i :: 0 <= i < |tail| ==> tail[i] == t[i + 1];
      InsertDescStable(x, tail, key, id);
      HeadBeforeInserted(x, t, key, id);
    } else if t != [] {
      ConsAboveStable(x, t, key, id);
    }
  }

  /** Keeping the head in front of a stable insertion into the tail stays stable. */
  lemma HeadBeforeInserted<T>(x: T, t: seq<T>, key: T -> int, id: T -> int)
    requires t != [] && key(t[0]) >= key(x) && SortedDesc(t, key) && TiesAscend(t, key, id)
    requires forall y :: y in t ==> id(y) < id(x)
    requires TiesAscend(InsertDesc(x, t[1..], key), key, id)
    ensures TiesAscend(InsertDesc(x, t, key), key, id)
  {
    var rest := InsertDesc(x, t[1..], key);
    assert InsertDesc(x, t, key) == [t[0]] + rest;
    forall y | y in rest && key(y) == key(t[0]) ensures id(t[0]) < id(y) {
      HeadTie(x, t, key, id, y);
    }
    ConsStable(t[0], rest, key, id);
  }

  /** A head that precedes, in `id`, every later element of equal key keeps ties in order. */
  lemma ConsStable<T>(h: T, rest: seq<T>, key: T -> int, id: T -> int)
    requires TiesAscend(rest, key, id)
    requires forall y :: y in rest && key(y) == key(h) ==> id(h) < id(y)
    ensures TiesAscend([h] + rest, key, id)
  {
    var r := [h] + rest;
    forall i, j | 0 <= i < j < |r| && key(r[i]) == key(r[j]) ensures id(r[i]) < id(r[j]) {
      assert r[j] == rest[j - 1];
      if i > 0 {
        assert r[i] == rest[i - 1];
      }
    }
  }

  /** An element of the insertion into the tail that ties with the head has a greater id. */
  lemma HeadTie<T>(x: T, t: seq<T>, key: T -> int, id: T -> int, y: T)
    requires t != [] && key(t[0]) >= key(x) && SortedDesc(t, key) && TiesAscend(t, key, id)
    requires forall z :: z in t ==> id(z) < id(x)
    requires y in InsertDesc(x, t[1..], key) && key(y) == key(t[0])
    ensures id(t[0]) < id(y)
  {
    assert y in multiset(InsertDesc(x, t[1..], key));
    if y != x {
      assert y in multiset(t[1..]);
      var k :| 0 <= k < |t[1..]| && t[1..][k] == y;
      assert t[k + 1] == y;
    } else {
      assert t[0] in t;
    }
  }

  /** Putting an element of greater key than all of `t` in front keeps `t`'s ties in order. */
  lemma ConsAboveStable<T>(x: T, t: seq<T>, key: T -> int, id: T -> int)
    requires t != [] && key(t[0]) < key(x) && SortedDesc(t, key) && TiesAscend(t, key, id)
    ensures TiesAscend([x] + t, key, id)
  {
    var r := [x] + t;
    forall j | 0 < j < |r| ensures key(r[j]) < key(x) {
      assert r[j] == t[j - 1];
    }
    forall i, j | 0 < i < j < |r| ensures r[i] == t[i - 1] && r[j] == t[j - 1] {
    }
  }

  /**
   * The sort is stable: when the input increases in `id` (its order is the
   * `id` order), elements with equal keys come out in that order.
   */
  lemma {:induction false} SortDescStable<T>(s: seq<T>, key: T -> int, id: T -> int)
    requires forall i, j :: 0 <= i < j < |s| ==> id(s[i]) < id(s[j])
    ensures TiesAscend(SortDesc(s, key), key, id)
  {
    if s != [] {
      var init := s[..|s| - 1];
      var x := s[|s| - 1];
      assert s == init + [x];
      SortDescStable(init, key, id);
      var t := SortDesc(init, key);
      forall y | y in t ensures id(y) < id(x) {
        assert y in multiset(init);
        var k :| 0 <= k < |init| && init[k] == y;
        assert s[k] == y;
      }
      InsertDescStable(x, t, key, id);
    }
  }

  /** The elements of `s` whose key is `d`, in their order in `s`. */
  function Ties<T>(s: seq<T>, key: T -> int, d: int): (r: seq<T>)
    ensures |r| <= |s|
    ensures forall i :: 0 <= i < |r| ==> key(r[i]) == d
  {
    if s == [] then []
    else (if key(s[0]) == d then [s[0]] else []) + Ties(s[1..], key, d)
  }

  lemma {:induction false} TiesAppend<T>(a: seq<T>, b: seq<T>, key: T -> int, d: int)
    ensures Ties(a + b, key, d) == Ties(a, key, d) + Ties(b, key, d)
    decreases |a|
  {
    if a == [] {
      assert a + b == b;
    } else {
      var h := if key(a[0]) == d then [a[0]] else [];
      assert (a + b)[0] == a[0] && (a + b)[1..] == a[1..] + b;
      TiesAppend(a[1..], b, key, d);
      assert Ties(a + b, key, d) == h + Ties(a[1..] + b, key, d);
    }
  }

  lemma {:induction false} NoTies<T>(s: seq<T>, key: T -> int, d: int)
    requires forall i :: 0 <= i < |s| ==> key(s[i]) < d
    ensures Ties(s, key, d) == []
    decreases |s|
  {
    if s != [] {
      NoTies(s[1..], key, d);
    }
  }

  /** Inserting `x` puts it after every element with its key already present. */
  lemma {:induction false} InsertDescTies<T>(x: T, t: seq<T>, key: T -> int, d: int)
    requires SortedDesc(t, key)
    ensures Ties(InsertDesc(x, t, key), key, d) == Ties(t, key, d) + (if key(x) == d then [x] else [])
    decreases |t|
  {
    if t == [] {
      assert InsertDesc(x, t, key) == [x];
      assert Ties([x], key, d) == (if key(x) == d then [x] else []) + Ties([x][1..], key, d);
    } else if key(t[0]) >= key(x) {
      InsertDescTies(x, t[1..], key, d);
      InsertBelowHeadTies(x, t, key, d);
    } else {
      InsertAboveTies(x, t, key, d);
    }
  }

  lemma InsertBelowHeadTies<T>(x: T, t: seq<T>, key: T -> int, d: int)
    requires SortedDesc(t, key) && t != [] && key(t[0]) >= key(x)
    requires Ties(InsertDesc(x, t[1..], key), key, d) == Ties(t[1..], key, d) + (if key(x) == d then [x] else [])
    ensures Ties(InsertDesc(x, t, key), key, d) == Ties(t, key, d) + (if key(x) == d then [x] else [])
  {
    var h := if key(t[0]) == d then [t[0]] else [];
    var rest := InsertDesc(x, t[1..], key);
    var r := InsertDesc(x, t, key);
    assert r == [t[0]] + rest;
    assert r[0] == t[0] && r[1..] == rest;
    var hx := if key(x) == d then [x] else [];
    var a := Ties(t[1..], key, d);
    assert Ties(r, key, d) == h + (a + hx);
    assert Ties(t, key, d) == h + a;
    ConcatAssoc(h, a, hx);
  }

  lemma ConcatAssoc<T>(a: seq<T>, b: seq<T>, c: seq<T>)
    ensures a + (b + c) == (a + b) + c
  {
  }

  lemma InsertAboveTies<T>(x: T, t: seq<T>, key: T -> int, d: int)
    requires SortedDesc(t, key) && t != [] && key(t[0]) < key(x)
    ensures Ties(InsertDesc(x, t, key), key, d) == Ties(t, key, d) + (if key(x) == d then [x] else [])
  {
    var r := InsertDesc(x, t, key);
    assert r == [x] + t;
    assert r[0] == x && r[1..] == t;
    if key(x) == d {
      assert forall i :: 0 <= i < |t| ==> key(t[i]) <= key(t[0]);
      NoTies(t, key, d);
    }
  }

  /**
   * The sort is stable in the sense of `Array.prototype.sort`: the elements
   * of each key come out in the order they went in.
   */
  lemma {:induction false} SortDescKeepsTies<T>(s: seq<T>, key: T -> int, d: int)
    ensures Ties(SortDesc(s, key), key, d) == Ties(s, key, d)
  {
    if s != [] {
      var init := s[..|s| - 1];
      var x := s[|s| - 1];
      assert s == init + [x];
      var hx := if key(x) == d then [x] else [];
      var t := SortDesc(init, key);
      assert SortDesc(s, key) == InsertDesc(x, t, key);
      SortDescKeepsTies(init, key, d);
      InsertDescTies(x, t, key, d);
      assert Ties(SortDesc(s, key), key, d) == Ties(init, key, d) + hx;
      TiesAppend(init, [x], key, d);
      assert [x][1..] == [];
      assert Ties([x], key, d) == hx + Ties([x][1..], key, d);
    }
  }

  /** `r` lists the elements of each key in the order `s` lists them. */
  ghost predicate KeepsTies<T>(r: seq<T>, s: seq<T>, key: T -> int)
  {
    forall d :: Ties(r, key, d) == Ties(s, key, d)
  }

  lemma SortDescKeepsAllTies<T>(s: seq<T>, key: T -> int)
    ensures KeepsTies(SortDesc(s, key), s, key)
  {
    forall d ensures Ties(SortDesc(s, key), key, d) == Ties(s, key, d) {
      SortDescKeepsTies(s, key, d);
    }
  }

  /** The first element after sorting has the greatest key of all. */
  lemma FirstIsGreatest<T>(s: seq<T>, key: T -> int, x: T)
    requires x in s
    ensures key(SortDesc(s, key)[0]) >= key(x)
  {
    var r := SortDesc(s, key);
    assert x in multiset(s);
    assert x in multiset(r);
    var i :| 0 <= i < |r| && r[i] == x;
    if i > 0 {
      assert key(r[0]) >= key(r[i]);
    }
  }

  /** `.limit(n)` on a newest-first listing: the first rows, and none older than one left out. */
  function Take<T>(s: seq<T>, limit: nat, key: T -> int): (r: seq<T>)
    requires SortedDesc(s, key)
    ensures |r| <= limit && |r| <= |s| && r == s[..|r|]
    ensures |r| == limit || r == s
    ensures SortedDesc(r, key)
    ensures forall e, x :: e in s && e !in r && x in r ==> key(x) >= key(e)
  {
    var n := if |s| <= limit then |s| else limit;
    var r := s[..n];
    forall e, x | e in s && e !in r && x in r ensures key(x) >= key(e) {
      var i :| 0 <= i < |s| && s[i] == e;
      var j :| 0 <= j < n && r[j] == x;
      assert i >= n;
      assert s[j] == x;
    }
    r
  }

  /** Code-unit lexicographic order, as JavaScript and MongoDB compare strings. */
  predicate StrLe(a: string, b: string)
  {
    a == [] || (b != [] && (a[0] < b[0] || (a[0] == b[0] && StrLe(a[1..], b[1..]))))
  }

  lemma {:induction false} StrLeTotal(a: string, b: string)
    ensures StrLe(a, b) || StrLe(b, a)
  {
    if a != [] && b != [] && a[0] == b[0] {
      StrLeTotal(a[1..], b[1..]);
    }
  }

  lemma {:induction false} StrLeTrans(a: string, b: string, c: string)
    requires StrLe(a, b) && StrLe(b, c)
    ensures StrLe(a, c)
  {
    if a != [] && b != [] && c != [] && a[0] == b[0] && b[0] == c[0] {
      StrLeTrans(a[1..], b[1..], c[1..]);
    }
  }

  predicate SortedByName<T>(s: seq<T>, name: T -> string)
  {
    forall i, j :: 0 <= i < j < |s| ==> StrLe(name(s[i]), name(s[j]))
  }

  lemma NameBoundedByPermutation<T>(t: seq<T>, u: seq<T>, name: T -> string, low: string)
    requires multiset(t) == multiset(u)
    requires forall j :: 0 <= j < |u| ==> StrLe(low, name(u[j]))
    ensures forall j :: 0 <= j < |t| ==> StrLe(low, name(t[j]))
  {
    forall j | 0 <= j < |t| ensures StrLe(low, name(t[j])) {
      assert t[j] in multiset(u);
      var k :| 0 <= k < |u| && u[k] == t[j];
    }
  }

  function InsertByName<T>(x: T, s: seq<T>, name: T -> string): (r: seq<T>)
    requires SortedByName(s, name)
    ensures SortedByName(r, name)
    ensures multiset(r) == multiset(s) + multiset{x}
  {
    if s == [] then [x]
    else if StrLe(name(s[0]), name(x)) then
      var t := InsertByName(x, s[1..], name);
      assert s == [s[0]] + s[1..];
      var u := s[1..] + [x];
      assert multiset(u) == multiset(t);
      NameBoundedByPermutation(t, u, name, name(s[0]));
      [s[0]] + t
    else
      StrLeTotal(name(s[0]), name(x));
      assert s == [s[0]] + s[1..];
      assert forall j :: 0 <= j < |s| ==> StrLe(name(x), name(s[j])) by {
        forall j | 0 <= j < |s| ensures StrLe(name(x), name(s[j])) {
          if j > 0 { StrLeTrans(name(x), name(s[0]), name(s[j])); }
        }
      }
      [x] + s
  }

  /** A stable sort by ascending name (`sort({ name: 1 })`). */
  function SortByName<T>(s: seq<T>, name: T -> string): (r: seq<T>)
    ensures SortedByName(r, name)
    ensures multiset(r) == multiset(s)
  {
    if s == [] then []
    else
      assert s == s[..|s| - 1] + [s[|s| - 1]];
      InsertByName(s[|s| - 1], SortByName(s[..|s| - 1], name), name)
  }

  /**
   * The stored entry with the greatest key, as `find().sort({ key: -1 })` followed by
   * taking the first document gives it; none when nothing is stored.
   */
  function Latest<V(!new)>(m: map<nat, V>, n: nat, key: ((nat, V)) -> int): (r: Option<(nat, V)>)
    requires forall k :: k in m ==> k < n
    ensures r.None? <==> m == map[]
    ensures r.Some? ==> r.value.0 in m && r.value.1 == m[r.value.0]
    ensures r.Some? ==> forall k :: k in m ==> key((k, m[k])) <= key(r.value)
  {
    var es := Entries(m, n);
    if es == [] then
      EntriesCount(m, n);
      assert (set k | k in m && k < n) == m.Keys;
      None
    else
      var sorted := SortDesc(es, key);
      assert sorted[0] in multiset(es);
      forall k | k in m ensures key((k, m[k])) <= key(sorted[0]) {
        FirstIsGreatest(es, key, (k, m[k]));
      }
      Some(sorted[0])
  }

  /** The id of a stored entry. */
  function Id<V>(e: (nat, V)): int { e.0 }

  /**
   * The stored entries whose value passes `p`, greatest key first; each
   * entry once, and entries with equal keys in natural (id) order, as a
   * stable sort leaves them.
   */
  function SortedWhere<V(!new)>(m: map<nat, V>, n: nat, p: V -> bool, key: ((nat, V)) -> int): (all: seq<(nat, V)>)
    requires forall k :: k in m ==> k < n
    ensures SortedDesc(all, key)
    ensures forall e :: e in all <==> e.0 in m && e.1 == m[e.0] && p(e.1)
    ensures forall i, j :: 0 <= i < j < |all| ==> all[i].0 != all[j].0
    ensures TiesAscend(all, key, Id)
  {
    var w := Where(Entries(m, n), p);
    var all := SortDesc(w, key);
    forall e ensures e in all <==> e in w {
      assert e in all <==> e in multiset(all);
      assert e in w <==> e in multiset(w);
    }
    WhereAscending(Entries(m, n), p);
    SortDescStable(w, key, Id);
    forall i, j | 0 <= i < j < |all| ensures all[i].0 != all[j].0 {
      assert all[i] in w && all[j] in w;
    }
    all
  }

  /** One page of a descending listing: the first `limit` entries, or all of them when `limit` is 0. */
  function Page<T>(s: seq<T>, limit: nat, key: T -> int): (r: seq<T>)
    requires SortedDesc(s, key)
    ensures SortedDesc(r, key)
    ensures |r| <= |s| && r == s[..|r|]
    ensures forall e :: e in r ==> e in s
    ensures limit > 0 ==> |r| <= limit && (|r| == limit || r == s)
    ensures limit == 0 ==> r == s
    ensures forall e, x :: e in s && e !in r && x in r ==> key(x) >= key(e)
  {
    if limit == 0 then s else Take(s, limit, key)
  }
}
