/** The retention decision: which listed uploads to delete. */
module Retention {
  import opened Types
  import opened Peer
  import opened Listings

  datatype Policy = Policy(maxAgeSeconds: nat, keepNewest: nat)

  datatype Plan = Plan(remove: seq<nat>, keptUnknownMtime: nat, incomplete: bool)

  // ----- newest first ---------------------------------------------------------------

  function Mtime(e: Entry): nat { if e.mtime.Some? then e.mtime.value else 0 }

  /** The sign of the first difference within the first `n` characters. */
  function Compare(a: string, b: string, n: nat): int
    requires n <= |a| && n <= |b|
  {
    if n == 0 then 0
    else if a[0] != b[0] then a[0] as int - b[0] as int
    else Compare(a[1..], b[1..], n - 1)
  }

  predicate NameGreater(a: string, b: string) {
    var cmp := Compare(a, b, Min(|a|, |b|));
    if cmp != 0 then cmp > 0 else |a| > |b|
  }

  predicate NewerFirst(a: Entry, b: Entry) {
    if Mtime(a) != Mtime(b) then Mtime(a) > Mtime(b) else NameGreater(a.name, b.name)
  }

  lemma {:induction false} NamesAreOrdered(a: string, b: string)
    ensures !(NameGreater(a, b) && NameGreater(b, a))
    ensures a != b ==> NameGreater(a, b) || NameGreater(b, a)
  {
    if a != [] && b != [] && a[0] == b[0] {
      NamesAreOrdered(a[1..], b[1..]);
      assert a == [a[0]] + a[1..] && b == [b[0]] + b[1..];
    }
  }

  lemma {:induction false} NamesAreTransitive(a: string, b: string, c: string)
    requires NameGreater(a, b) && NameGreater(b, c)
    ensures NameGreater(a, c)
  {
    if a != [] && b != [] && c != [] && a[0] == b[0] == c[0] {
      NamesAreTransitive(a[1..], b[1..], c[1..]);
    }
  }

  /** At the first character where they differ `a` has the larger one, or `b` ends there. */
  ghost predicate NameAfter(a: string, b: string) {
    exists k: nat :: k < |a| && k <= |b| && a[..k] == b[..k] && (k < |b| ==> b[k] < a[k])
  }

  lemma {:induction false} NameGreaterMeans(a: string, b: string)
    ensures NameGreater(a, b) <==> NameAfter(a, b)
  {
    if a != [] && b != [] && a[0] == b[0] {
      NameGreaterMeans(a[1..], b[1..]);
      if NameAfter(a[1..], b[1..]) {
        var k: nat :| k < |a| - 1 && k <= |b| - 1 && a[1..][..k] == b[1..][..k] && (k < |b| - 1 ==> b[1..][k] < a[1..][k]);
        assert a[..k + 1] == [a[0]] + a[1..][..k] && b[..k + 1] == [b[0]] + b[1..][..k];
        assert k + 1 < |b| ==> b[k + 1] < a[k + 1];
      }
      if NameAfter(a, b) {
        var k: nat :| k < |a| && k <= |b| && a[..k] == b[..k] && (k < |b| ==> b[k] < a[k]);
        assert k > 0 && a[1..][..k - 1] == a[..k][1..] && b[1..][..k - 1] == b[..k][1..];
        assert k < |b| ==> b[1..][k - 1] < a[1..][k - 1];
      }
    } else {
      assert a[..0] == b[..0];
      forall k: nat | 0 < k < |a| && k <= |b| ensures a[..k] != b[..k] {
        assert a[..k][0] == a[0] && b[..k][0] == b[0];
      }
    }
  }

  /** `a` is as new as `b`, and of the two with one time the one with the later name. */
  ghost predicate NotOlder(a: Entry, b: Entry) {
    var x, y := if a.mtime.Some? then a.mtime.value else 0, if b.mtime.Some? then b.mtime.value else 0;
    y <= x && (x == y ==> a.name == b.name || NameAfter(a.name, b.name))
  }

  lemma NotNewerIsNotOlder(a: Entry, b: Entry)
    ensures NotOlder(a, b) <==> !NewerFirst(b, a)
  {
    NamesAreOrdered(a.name, b.name);
    NameGreaterMeans(a.name, b.name);
  }

  lemma NotOlderIsTransitive(a: Entry, b: Entry, c: Entry)
    requires NotOlder(a, b) && NotOlder(b, c)
    ensures NotOlder(a, c)
  {
    hide NameGreater, NameAfter;
    NameGreaterMeans(a.name, b.name);
    NameGreaterMeans(b.name, c.name);
    NameGreaterMeans(a.name, c.name);
    if NameGreater(a.name, b.name) && NameGreater(b.name, c.name) {
      NamesAreTransitive(a.name, b.name, c.name);
    }
  }

  /** The order of the sort: newest first, then by name, and equals as listed. */
  predicate Precedes(es: seq<Entry>, i: nat, j: nat)
    requires i < |es| && j < |es|
  {
    NewerFirst(es[i], es[j]) || (!NewerFirst(es[j], es[i]) && i < j)
  }

  lemma PrecedesIsTotal(es: seq<Entry>, i: nat, j: nat)
    requires i < |es| && j < |es|
    ensures !(Precedes(es, i, j) && Precedes(es, j, i))
    ensures i != j ==> Precedes(es, i, j) || Precedes(es, j, i)
  {
    NamesAreOrdered(es[i].name, es[j].name);
  }

  lemma PrecedesIsTransitive(es: seq<Entry>, i: nat, j: nat, k: nat)
    requires i < |es| && j < |es| && k < |es|
    requires Precedes(es, i, j) && Precedes(es, j, k)
    ensures Precedes(es, i, k)
  {
    var a, b, c := es[i].name, es[j].name, es[k].name;
    hide NameGreater;
    NamesAreOrdered(a, b);
    NamesAreOrdered(b, c);
    NamesAreOrdered(a, c);
    if NameGreater(a, b) && NameGreater(b, c) {
      NamesAreTransitive(a, b, c);
    }
  }

  // ----- the specification ----------------------------------------------------------

  /** How many dated entries come before entry `j`. */
  ghost function Rank(es: seq<Entry>, j: nat): nat
    requires j < |es|
  {
    |Before(es, j)|
  }

  ghost function Before(es: seq<Entry>, j: nat): set<nat>
    requires j < |es|
  {
    set i: nat | i < |es| && es[i].mtime.Some? && Precedes(es, i, j)
  }

  predicate Expired(e: Entry, now: nat, p: Policy) {
    p.maxAgeSeconds > 0 && e.mtime.Some? && e.mtime.value <= now && p.maxAgeSeconds < now - e.mtime.value
  }

  /** Entry `i` is to be deleted: it is too old, or enough newer ones are kept. */
  ghost predicate Doomed(es: seq<Entry>, now: nat, p: Policy, i: nat)
    requires i < |es|
  {
    es[i].mtime.Some? && (Expired(es[i], now, p) || (0 < p.keepNewest <= Rank(es, i)))
  }

  // ----- insertion sort ---------------------------------------------------------------

  ghost predicate Indices(es: seq<Entry>, s: seq<nat>) { forall k :: 0 <= k < |s| ==> s[k] < |es| }

  ghost predicate Sorted(es: seq<Entry>, s: seq<nat>)
    requires Indices(es, s)
  {
    forall a, b :: 0 <= a < b < |s| ==> Precedes(es, s[a], s[b])
  }

  /** No entry comes before one that is newer. */
  ghost predicate Descends(es: seq<Entry>, s: seq<nat>)
    requires Indices(es, s)
  {
    forall a, b :: 0 <= a < b < |s| ==> NotOlder(es[s[a]], es[s[b]])
  }

  /** `key` moved in from the end past every element it is newer than. */
  ghost function Inserted(es: seq<Entry>, s: seq<nat>, key: nat): (r: seq<nat>)
    requires Indices(es, s) && key < |es|
    ensures Indices(es, r) && |r| == |s| + 1
  {
    if s == [] || !NewerFirst(es[key], es[s[|s| - 1]]) then s + [key]
    else Inserted(es, s[..|s| - 1], key) + [s[|s| - 1]]
  }

  ghost function SortOf(es: seq<Entry>, s: seq<nat>): (r: seq<nat>)
    requires Indices(es, s)
    ensures Indices(es, r) && |r| == |s|
  {
    if s == [] then [] else Inserted(es, SortOf(es, s[..|s| - 1]), s[|s| - 1])
  }

  lemma {:induction false} InsertedIsSorted(es: seq<Entry>, s: seq<nat>, key: nat)
    requires Indices(es, s) && key < |es| && Sorted(es, s) && (forall x :: x in s ==> x < key)
    ensures Sorted(es, Inserted(es, s, key))
    ensures forall x :: x in Inserted(es, s, key) <==> x == key || x in s
  {
    hide NewerFirst;
    var r := Inserted(es, s, key);
    if s != [] {
      var n := |s| - 1;
      assert s[n] in s && forall x :: x in s[..n] ==> x in s;
      if NewerFirst(es[key], es[s[n]]) {
        InsertedIsSorted(es, s[..n], key);
        var front := Inserted(es, s[..n], key);
        assert s == s[..n] + [s[n]];
        assert forall a :: 0 <= a < |front| ==> front[a] in front;
        assert forall a :: 0 <= a < |front| ==> Precedes(es, front[a], s[n]);
      } else {
        forall a | 0 <= a < |s| ensures Precedes(es, s[a], key) {
          if a < n {
            PrecedesIsTransitive(es, s[a], s[n], key);
          }
        }
      }
    }
  }

  ghost predicate SameMembers(s: seq<nat>, t: seq<nat>) { multiset(s) == multiset(t) }

  lemma {:induction false} InsertedKeepsAll(es: seq<Entry>, s: seq<nat>, key: nat)
    requires Indices(es, s) && key < |es|
    ensures SameMembers(Inserted(es, s, key), s + [key])
    ensures forall x :: x in Inserted(es, s, key) ==> x == key || x in s
  {
    hide NewerFirst;
    if s != [] && NewerFirst(es[key], es[s[|s| - 1]]) {
      var front := s[..|s| - 1];
      InsertedKeepsAll(es, front, key);
      assert s == front + [s[|s| - 1]];
    }
  }

  lemma {:induction false} InsertedDescends(es: seq<Entry>, s: seq<nat>, key: nat)
    requires Indices(es, s) && key < |es| && Descends(es, s)
    ensures Descends(es, Inserted(es, s, key))
  {
    hide NewerFirst, NotOlder;
    if s == [] {
    } else if NewerFirst(es[key], es[s[|s| - 1]]) {
      var last, init := s[|s| - 1], s[..|s| - 1];
      NewerIsOneWay(es[key], es[last]);
      NotNewerIsNotOlder(es[key], es[last]);
      InsertedDescends(es, init, key);
      InsertedKeepsAll(es, init, key);
      PutLast(es, Inserted(es, init, key), s, key, last);
    } else {
      NotNewerIsNotOlder(es[s[|s| - 1]], es[key]);
      forall a | 0 <= a < |s| ensures NotOlder(es[s[a]], es[key]) {
        if a < |s| - 1 {
          NotOlderIsTransitive(es[s[a]], es[s[|s| - 1]], es[key]);
        }
      }
    }
  }

  /** The last element stays last behind what was moved in before it. */
  lemma PutLast(es: seq<Entry>, front: seq<nat>, s: seq<nat>, key: nat, last: nat)
    requires Indices(es, s) && Indices(es, front) && key < |es| && s != [] && last == s[|s| - 1]
    requires Descends(es, front) && Descends(es, s) && NotOlder(es[key], es[last])
    requires forall x :: x in front ==> x == key || x in s[..|s| - 1]
    ensures Indices(es, front + [last]) && Descends(es, front + [last])
  {
    hide NotOlder;
    forall a | 0 <= a < |front| ensures NotOlder(es[front[a]], es[last]) {
      assert front[a] in front;
      if front[a] != key {
        var c :| 0 <= c < |s| - 1 && s[..|s| - 1][c] == front[a];
        assert s[c] == front[a];
      }
    }
  }

  lemma NewerIsOneWay(a: Entry, b: Entry)
    requires NewerFirst(a, b)
    ensures !NewerFirst(b, a)
  {
    NamesAreOrdered(a.name, b.name);
  }

  /** The sort gives back what it was given, with no entry before a newer one. */
  lemma {:induction false} SortOfDescends(es: seq<Entry>, s: seq<nat>)
    requires Indices(es, s)
    ensures Descends(es, SortOf(es, s)) && SameMembers(SortOf(es, s), s)
  {
    if s != [] {
      var n := |s| - 1;
      SortOfDescends(es, s[..n]);
      InsertedDescends(es, SortOf(es, s[..n]), s[n]);
      InsertedKeepsAll(es, SortOf(es, s[..n]), s[n]);
      assert s == s[..n] + [s[n]];
    }
  }

  ghost predicate Ascending(s: seq<nat>) { forall a, b :: 0 <= a < b < |s| ==> s[a] < s[b] }

  lemma {:induction false} SortOfIsSorted(es: seq<Entry>, s: seq<nat>)
    requires Indices(es, s) && Ascending(s)
    ensures Sorted(es, SortOf(es, s))
    ensures forall x :: x in SortOf(es, s) <==> x in s
  {
    if s != [] {
      var n := |s| - 1;
      SortOfIsSorted(es, s[..n]);
      assert s == s[..n] + [s[n]];
      InsertedIsSorted(es, SortOf(es, s[..n]), s[n]);
    }
  }

  /** The body of the sort: moves element `i` up among those before it. */
  method InsertKey(es: seq<Entry>, order: array<nat>, i: nat)
    requires Indices(es, order[..]) && i < order.Length
    modifies order
    ensures order[..i + 1] == Inserted(es, old(order[..i]), old(order[i]))
    ensures order[i + 1..] == old(order[i + 1..])
    ensures Indices(es, order[..])
    ensures Descends(es, old(order[..i])) ==>
      Descends(es, order[..i + 1])
  {
    hide Descends;
    var key := order[i];
    assert key == order[..][i] && key < |es|;
    ghost var was, sorted := order[..], order[..i];
    assert Indices(es, sorted);
    var j := i;
    assert sorted[..j] == sorted && sorted[j..] == [];
    assert Inserted(es, sorted, key) + [] == Inserted(es, sorted, key);
    while j > 0 && NewerFirst(es[key], es[order[j - 1]])
      invariant j <= i && Indices(es, order[..])
      invariant forall k :: 0 <= k < j ==> order[k] == sorted[k]
      invariant forall k :: j < k <= i ==> order[k] == sorted[k - 1]
      invariant forall k :: i < k < order.Length ==> order[k] == was[k]
      invariant Inserted(es, sorted, key) == Inserted(es, sorted[..j], key) + sorted[j..]
    {
      InsertPasses(es, sorted, key, j);
      order[j] := order[j - 1];
      j := j - 1;
    }
    order[j] := key;
    assert Inserted(es, sorted[..j], key) == sorted[..j] + [key];
    assert order[..i + 1] == sorted[..j] + [key] + sorted[j..];
    if Descends(es, sorted) {
      InsertedDescends(es, sorted, key);
    }
  }

  lemma InsertPasses(es: seq<Entry>, sorted: seq<nat>, key: nat, j: nat)
    requires Indices(es, sorted) && key < |es| && 0 < j <= |sorted|
    requires NewerFirst(es[key], es[sorted[j - 1]])
    requires Inserted(es, sorted, key) == Inserted(es, sorted[..j], key) + sorted[j..]
    ensures Inserted(es, sorted, key) == Inserted(es, sorted[..j - 1], key) + sorted[j - 1..]
  {
    assert sorted[..j][..j - 1] == sorted[..j - 1];
    assert [sorted[j - 1]] + sorted[j..] == sorted[j - 1..];
  }

  /** Insertion sort in place, newest first. */
  method SortNewestFirst(es: seq<Entry>, order: array<nat>)
    requires Indices(es, order[..])
    modifies order
    ensures order[..] == SortOf(es, old(order[..]))
    ensures Descends(es, order[..]) && SameMembers(order[..], old(order[..]))
  {
    hide Descends, SameMembers;
    ghost var was := order[..];
    SortOfDescends(es, was);
    if order.Length == 0 {
      return;
    }
    SortOfOne(es, was[..1]);
    var i := 1;
    while i < order.Length
      invariant 1 <= i <= order.Length && Indices(es, order[..])
      invariant order[..i] == SortOf(es, was[..i])
      invariant order[i..] == was[i..]
    {
      assert order[i] == order[i..][0] == was[i];
      assert was[..i + 1][..i] == was[..i];
      assert order[i + 1..] == order[i..][1..];
      InsertKey(es, order, i);
      i := i + 1;
    }
    assert order[..i] == order[..] && was[..i] == was;
  }

  lemma SortOfOne(es: seq<Entry>, s: seq<nat>)
    requires Indices(es, s) && |s| == 1
    ensures SortOf(es, s) == s
  {
    assert s[..0] == [] && SortOf(es, s[..0]) == [];
  }

  // ----- ranks ------------------------------------------------------------------------

  /** The dated entries among the first `n`, as listed. */
  ghost function Dated(es: seq<Entry>, n: nat): (r: seq<nat>)
    requires n <= |es|
    ensures |r| <= n && (forall k :: 0 <= k < |r| ==> r[k] < n)
  {
    if n == 0 then []
    else if es[n - 1].mtime.Some? then Dated(es, n - 1) + [n - 1]
    else Dated(es, n - 1)
  }

  lemma {:induction false} DatedIsComplete(es: seq<Entry>, n: nat)
    requires n <= |es|
    ensures Ascending(Dated(es, n))
    ensures forall i: nat :: i in Dated(es, n) <==> i < n && es[i].mtime.Some?
  {
    if n > 0 {
      DatedIsComplete(es, n - 1);
    }
  }

  ghost function Elements(s: seq<nat>): (r: set<nat>)
    ensures forall x: nat :: x in r <==> x in s
  {
    if s == [] then {} else Elements(s[..|s| - 1]) + {s[|s| - 1]}
  }

  ghost predicate Unique(s: seq<nat>) { forall a, b :: 0 <= a < b < |s| ==> s[a] != s[b] }

  lemma {:induction false} SizeOfDistinct(s: seq<nat>)
    requires Unique(s)
    ensures |Elements(s)| == |s|
  {
    if s != [] {
      SizeOfDistinct(s[..|s| - 1]);
    }
  }

  lemma SortedIsUnique(es: seq<Entry>, s: seq<nat>)
    requires Indices(es, s) && Sorted(es, s)
    ensures Unique(s)
  {
    forall a, b | 0 <= a < b < |s| ensures s[a] != s[b] {
      PrecedesIsTotal(es, s[a], s[b]);
    }
  }

  /** `s` lists the dated entries in the order of the sort. */
  ghost predicate InOrder(es: seq<Entry>, s: seq<nat>) {
    && Indices(es, s) && Sorted(es, s)
    && forall i: nat :: i in s <==> i < |es| && es[i].mtime.Some?
  }

  lemma BeforeSorted(es: seq<Entry>, s: seq<nat>, k: nat, i: nat)
    requires InOrder(es, s) && k < |s|
    ensures i in Before(es, s[k]) <==> i in s[..k]
  {
    hide NewerFirst, Precedes;
    if i in s[..k] {
      assert i in s;
    }
    if i in Before(es, s[k]) {
      var a :| 0 <= a < |s| && s[a] == i;
      PrecedesIsTotal(es, s[a], s[k]);
      assert s[..k][a] == i;
    }
  }

  /** The order of the sort is the rank: the k-th entry has k dated entries before it. */
  lemma RankOfSorted(es: seq<Entry>, s: seq<nat>, k: nat)
    requires InOrder(es, s) && k < |s|
    ensures Rank(es, s[k]) == k
  {
    SortedIsUnique(es, s);
    forall i: nat ensures i in Before(es, s[k]) <==> i in Elements(s[..k]) {
      BeforeSorted(es, s, k, i);
    }
    hide Before, Elements, InOrder;
    SizeOfDistinct(s[..k]);
    assert Before(es, s[k]) == Elements(s[..k]);
  }

  /** So cutting the sorted list at `keep` cuts the entries at that rank. */
  lemma RankSplits(es: seq<Entry>, s: seq<nat>, keep: nat, i: nat)
    requires InOrder(es, s) && keep <= |s|
    ensures i in s[keep..] <==> i < |es| && es[i].mtime.Some? && keep <= Rank(es, i)
    ensures i in s[..keep] <==> i < |es| && es[i].mtime.Some? && Rank(es, i) < keep
  {
    if i in s {
      var a :| 0 <= a < |s| && s[a] == i;
      RankOfSorted(es, s, a);
      SortedIsUnique(es, s);
      hide Rank, InOrder;
      if a < keep {
        assert s[..keep][a] == i;
      } else {
        assert s[keep..][a - keep] == i;
      }
    } else {
      assert s == s[..keep] + s[keep..];
    }
  }

  // ----- the plan -----------------------------------------------------------------------

  ghost function Range(n: nat): (r: set<nat>)
    ensures |r| == n && forall y: nat :: y in r <==> y < n
  {
    if n == 0 then {} else Range(n - 1) + {n - 1}
  }

  /** Distinct indices below `n` that miss one leave room for it. */
  lemma RoomForOneMore(s: seq<nat>, n: nat, x: nat)
    requires Unique(s) && (forall y :: y in s ==> y < n) && x < n && x !in s
    ensures |s| < n
  {
    SizeOfDistinct(s);
    SubsetIsSmaller(Elements(s), Range(n) - {x});
  }

  lemma {:induction false} SubsetIsSmaller<T>(a: set<T>, b: set<T>)
    requires a <= b
    ensures |a| <= |b|
  {
    if a != {} {
      var x :| x in a;
      SubsetIsSmaller(a - {x}, b - {x});
    }
  }

  /** Adds an index once. The fixed capacity never drops one. */
  method AddUnique(plan: seq<nat>, index: nat, ghost n: nat) returns (r: seq<nat>)
    requires Unique(plan) && (forall y :: y in plan ==> y < n) && index < n <= MAX_LISTED
    ensures Unique(r) && forall y :: y in r <==> y == index || y in plan
  {
    for i := 0 to |plan|
      invariant index !in plan[..i]
    {
      if plan[i] == index {
        return plan;
      }
    }
    assert plan[..|plan|] == plan;
    RoomForOneMore(plan, n, index);
    r := if |plan| < MAX_LISTED then plan + [index] else plan;
  }

  /** How many of the first `n` entries carry no time. */
  ghost function Undated(es: seq<Entry>, n: nat): nat
    requires n <= |es|
  {
    if n == 0 then 0 else Undated(es, n - 1) + if es[n - 1].mtime.None? then 1 else 0
  }

  /** The age rule. */
  method PlanByAge(es: seq<Entry>, now: nat, p: Policy) returns (plan: seq<nat>)
    requires |es| <= MAX_LISTED
    ensures Unique(plan) && forall i: nat :: i in plan <==> i < |es| && Expired(es[i], now, p)
  {
    plan := [];
    if p.maxAgeSeconds > 0 {
      for i := 0 to |es|
        invariant Unique(plan) && forall x: nat :: x in plan <==> x < i && Expired(es[x], now, p)
      {
        var e := es[i];
        if e.mtime.Some? && e.mtime.value <= now && p.maxAgeSeconds < now - e.mtime.value {
          plan := AddUnique(plan, i, |es|);
        }
      }
    }
  }

  /** The dated entries in the order of the sort. */
  method OrderNewestFirst(es: seq<Entry>) returns (order: array<nat>)
    ensures fresh(order) && InOrder(es, order[..]) && Descends(es, order[..])
  {
    var dated: seq<nat> := [];
    for i := 0 to |es|
      invariant dated == Dated(es, i)
    {
      if es[i].mtime.Some? {
        dated := dated + [i];
      }
    }
    DatedIsComplete(es, |es|);
    order := new nat[|dated|](i requires 0 <= i < |dated| => dated[i]);
    assert order[..] == dated;
    SortOfIsSorted(es, dated);
    SortNewestFirst(es, order);
  }

  /** The rule that keeps the newest. */
  method PlanByCount(es: seq<Entry>, p: Policy, aged: seq<nat>) returns (plan: seq<nat>)
    requires |es| <= MAX_LISTED && Unique(aged) && forall y :: y in aged ==> y < |es|
    ensures Unique(plan)
    ensures forall i: nat :: i in plan <==>
              i in aged || (i < |es| && es[i].mtime.Some? && 0 < p.keepNewest <= Rank(es, i))
    ensures forall i: nat, j: nat ::
      i < |es| && j < |es| && es[i].mtime.Some? && i !in plan && j in plan && j !in aged ==> NotOlder(es[i], es[j])
  {
    plan := aged;
    if p.keepNewest > 0 {
      var order := OrderNewestFirst(es);
      ghost var s := order[..];
      var keep := if p.keepNewest < order.Length then p.keepNewest else order.Length;
      assert Indices(es, s);
      hide Rank, InOrder;
      for k := keep to order.Length
        invariant Unique(plan) && forall x :: x in plan <==> x in aged || x in s[keep..k]
        invariant forall y :: y in plan ==> y < |es|
        invariant order[..] == s
      {
        assert s[keep..k + 1] == s[keep..k] + [s[k]];
        plan := AddUnique(plan, order[k], |es|);
      }
      assert s[keep..order.Length] == s[keep..];
      forall i: nat ensures i in s[keep..] <==> i < |es| && es[i].mtime.Some? && p.keepNewest <= Rank(es, i) {
        RankSplits(es, s, keep, i);
        if i < |es| && es[i].mtime.Some? {
          InOrderHas(es, s, i);
          RankIsBounded(es, s, i);
        }
      }
      forall i: nat, j: nat | i < |es| && j < |es| && es[i].mtime.Some? && i !in plan && j in plan && j !in aged
        ensures NotOlder(es[i], es[j])
      {
        RankTellsAge(es, i, j);
      }
    }
  }

  /** The lower rank goes to the entry that is not older. */
  lemma RankTellsAge(es: seq<Entry>, i: nat, j: nat)
    requires i < |es| && j < |es| && es[j].mtime.Some? && Rank(es, i) < Rank(es, j)
    ensures NotOlder(es[i], es[j])
  {
    hide NotOlder, NewerFirst;
    NotNewerIsNotOlder(es[i], es[j]);
    if NewerFirst(es[j], es[i]) {
      NewerIsOneWay(es[j], es[i]);
      forall x | x in Before(es, j) ensures x in Before(es, i) {
        PrecedesIsTransitive(es, x, j, i);
      }
      SubsetIsSmaller(Before(es, j), Before(es, i));
    }
  }

  lemma InOrderHas(es: seq<Entry>, s: seq<nat>, i: nat)
    requires InOrder(es, s) && i < |es| && es[i].mtime.Some?
    ensures i in s
  {
  }

  lemma RankIsBounded(es: seq<Entry>, s: seq<nat>, i: nat)
    requires InOrder(es, s) && i in s
    ensures Rank(es, i) < |s|
  {
    var a :| 0 <= a < |s| && s[a] == i;
    RankOfSorted(es, s, a);
  }

  /** Decides what to delete, and nothing on an incomplete listing. */
  method PlanRetention(listing: Listing, now: nat, p: Policy) returns (plan: Plan)
    requires |listing.entries| <= MAX_LISTED
    ensures listing.truncated ==> plan == Plan([], 0, true)
    ensures !listing.truncated ==>
      && !plan.incomplete && Unique(plan.remove)
      && plan.keptUnknownMtime == Undated(listing.entries, |listing.entries|)
      && forall i: nat :: i in plan.remove <==> i < |listing.entries| && Doomed(listing.entries, now, p, i)
    // every entry that is too old goes, and no other when nothing is said of a number to keep
    ensures !listing.truncated ==> var es := listing.entries;
      && (forall i: nat :: i in plan.remove ==> i < |es| && es[i].mtime.Some?)
      && (forall i: nat :: i < |es| && es[i].mtime.Some? && 0 < p.maxAgeSeconds && es[i].mtime.value + p.maxAgeSeconds < now ==>
            i in plan.remove)
      && (p.keepNewest == 0 ==> forall i: nat :: i in plan.remove ==>
            0 < p.maxAgeSeconds && es[i].mtime.value + p.maxAgeSeconds < now)
    // of two dated entries of which one stays and the other goes without being too old, the newer stays
    ensures !listing.truncated ==> var es := listing.entries;
      forall i: nat, j: nat ::
        (&& i < |es| && j < |es| && es[i].mtime.Some? && i !in plan.remove && j in plan.remove
         && !(0 < p.maxAgeSeconds && es[j].mtime.value + p.maxAgeSeconds < now)) ==>
          && es[i].mtime.value >= es[j].mtime.value
          && (es[i].mtime.value == es[j].mtime.value && es[i].name != es[j].name ==>
                var a, b := es[i].name, es[j].name;
                exists k: nat :: k < |a| && k <= |b| && a[..k] == b[..k] && (k < |b| ==> b[k] < a[k]))
    ensures !listing.truncated && p.maxAgeSeconds == 0 && p.keepNewest > 0 ==> var es := listing.entries;
      |set i: nat | i < |es| && es[i].mtime.Some? && i !in plan.remove| ==
        Min(p.keepNewest, |set i: nat | i < |es| && es[i].mtime.Some?|)
  {
    if listing.truncated {
      return Plan([], 0, true);
    }
    var es := listing.entries;
    var unknown := 0;
    for i := 0 to |es|
      invariant unknown == Undated(es, i)
    {
      if es[i].mtime.None? {
        unknown := unknown + 1;
      }
    }
    var aged := PlanByAge(es, now, p);
    var remove := PlanByCount(es, p, aged);
    plan := Plan(remove, unknown, false);
    if p.maxAgeSeconds == 0 && p.keepNewest > 0 {
      NewestAreKept(es, now, p);
      assert (set i: nat | i < |es| && es[i].mtime.Some? && i !in remove)
          == (set i: nat | i < |es| && es[i].mtime.Some? && !Doomed(es, now, p, i));
    }
  }

  // ----- what the plan means for the directory ---------------------------------------------

  /** The indices that stay, in order, among the first `n`. */
  ghost function Kept(es: seq<Entry>, now: nat, p: Policy, n: nat): (r: seq<nat>)
    requires n <= |es|
    ensures forall k :: 0 <= k < |r| ==> r[k] < n && !Doomed(es, now, p, r[k])
  {
    if n == 0 then []
    else if Doomed(es, now, p, n - 1) then Kept(es, now, p, n - 1)
    else Kept(es, now, p, n - 1) + [n - 1]
  }

  /** The directory once the planned entries are gone. */
  ghost function Survivors(es: seq<Entry>, now: nat, p: Policy): (r: seq<Entry>) {
    var kept := Kept(es, now, p, |es|);
    seq(|kept|, k requires 0 <= k < |kept| => es[kept[k]])
  }

  lemma {:induction false} KeptAscends(es: seq<Entry>, now: nat, p: Policy, n: nat)
    requires n <= |es|
    ensures Ascending(Kept(es, now, p, n))
  {
    hide Doomed;
    if n > 0 {
      KeptAscends(es, now, p, n - 1);
    }
  }

  /** Removing entries lowers no one else's standing: a survivor's rank never rises. */
  lemma RankDrops(es: seq<Entry>, kept: seq<nat>, left: seq<Entry>, k: nat)
    requires Ascending(kept) && Indices(es, kept) && |left| == |kept| && k < |kept|
    requires forall a :: 0 <= a < |kept| ==> left[a] == es[kept[a]]
    ensures Rank(left, k) <= Rank(es, kept[k])
  {
    hide NewerFirst;
    var image := Image(kept, Before(left, k));
    SizeOfImage(kept, Before(left, k));
    forall x | x in image ensures x in Before(es, kept[k]) {
      var a :| a in Before(left, k) && kept[a] == x;
      assert Precedes(left, a, k);
      assert a < k ==> kept[a] < kept[k];
      assert Precedes(es, kept[a], kept[k]) by { if k < a { assert kept[k] < kept[a]; } }
    }
    SubsetIsSmaller(image, Before(es, kept[k]));
  }

  ghost function Image(kept: seq<nat>, s: set<nat>): set<nat>
    requires forall a :: a in s ==> a < |kept|
  {
    set a: nat | a in s :: kept[a]
  }

  lemma {:induction false} SizeOfImage(kept: seq<nat>, s: set<nat>)
    requires Ascending(kept) && forall a :: a in s ==> a < |kept|
    ensures |Image(kept, s)| == |s|
    decreases |s|
  {
    if s == {} {
      assert Image(kept, s) == {};
    } else {
      var x :| x in s;
      SizeOfImage(kept, s - {x});
      assert Image(kept, s) == Image(kept, s - {x}) + {kept[x]};
      forall a | a in s - {x} ensures kept[a] != kept[x] {
        assert a < x || x < a;
      }
    }
  }

  /** Replanning the survivors at the same time removes nothing. */
  lemma ReplanRemovesNothing(es: seq<Entry>, now: nat, p: Policy, k: nat)
    requires k < |Survivors(es, now, p)|
    ensures !Doomed(Survivors(es, now, p), now, p, k)
  {
    var kept, left := Kept(es, now, p, |es|), Survivors(es, now, p);
    KeptAscends(es, now, p, |es|);
    RankDrops(es, kept, left, k);
    assert left[k] == es[kept[k]] && !Doomed(es, now, p, kept[k]);
    hide Rank;
  }

  /** As time passes the plan only grows. */
  lemma PlanGrowsWithTime(es: seq<Entry>, now: nat, later: nat, p: Policy, i: nat)
    requires i < |es| && now <= later && Doomed(es, now, p, i)
    ensures Doomed(es, later, p, i)
  {
  }

  /** With the age rule off, exactly the newest `keepNewest` dated entries stay. */
  lemma NewestAreKept(es: seq<Entry>, now: nat, p: Policy)
    requires p.maxAgeSeconds == 0 && p.keepNewest > 0
    ensures |set i: nat | i < |es| && es[i].mtime.Some? && !Doomed(es, now, p, i)|
            == Min(p.keepNewest, |set i: nat | i < |es| && es[i].mtime.Some?|)
    ensures forall i: nat, j: nat :: i < |es| && j < |es| && es[i].mtime.Some? && !Doomed(es, now, p, i) && Doomed(es, now, p, j) ==>
      && es[i].mtime.value >= es[j].mtime.value
      && (es[i].mtime.value == es[j].mtime.value && es[i].name != es[j].name ==>
            var a, b := es[i].name, es[j].name;
            exists k: nat :: k < |a| && k <= |b| && a[..k] == b[..k] && (k < |b| ==> b[k] < a[k]))
  {
    KeptInNumber(es, now, p);
    forall i: nat, j: nat | i < |es| && j < |es| && es[i].mtime.Some? && !Doomed(es, now, p, i) && Doomed(es, now, p, j)
      ensures NotOlder(es[i], es[j])
    {
      RankTellsAge(es, i, j);
    }
  }

  /** The dated entries, each once, in the order of the sort. */
  lemma DatedInOrder(es: seq<Entry>) returns (s: seq<nat>)
    ensures InOrder(es, s) && Unique(s) && Elements(s) == set i: nat | i < |es| && es[i].mtime.Some?
  {
    DatedIsComplete(es, |es|);
    SortOfIsSorted(es, Dated(es, |es|));
    s := SortOf(es, Dated(es, |es|));
    SortedIsUnique(es, s);
  }

  lemma KeptInNumber(es: seq<Entry>, now: nat, p: Policy)
    requires p.maxAgeSeconds == 0 && p.keepNewest > 0
    ensures |set i: nat | i < |es| && es[i].mtime.Some? && !Doomed(es, now, p, i)|
            == Min(p.keepNewest, |set i: nat | i < |es| && es[i].mtime.Some?|)
  {
    hide Rank, InOrder, Elements;
    var s := DatedInOrder(es);
    SizeOfDistinct(s);
    var keep := Min(p.keepNewest, |s|);
    SizeOfDistinct(s[..keep]);
    forall i: nat ensures i in s[..keep] <==> i < |es| && es[i].mtime.Some? && !Doomed(es, now, p, i) {
      RankSplits(es, s, keep, i);
      if i < |es| && es[i].mtime.Some? {
        InOrderHas(es, s, i);
        RankIsBounded(es, s, i);
      }
    }
    assert (set i: nat | i < |es| && es[i].mtime.Some? && !Doomed(es, now, p, i)) == Elements(s[..keep]);
  }
}
