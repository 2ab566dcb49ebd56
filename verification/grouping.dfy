/**
 Grouping a sequence into a map of lists by a key, each list put in order
 by an integer sort key: the shape of the month view's `eventsByDay`.
 */
module Grouping {
  import opened Sorting

  /** The elements of `xs` whose key is `k`, in sequence order. */
  function WithKey<T, K(==)>(xs: seq<T>, key: T -> K, k: K): (r: seq<T>)
    ensures |r| <= |xs|
  {
    if xs == [] then []
    else
      var n := |xs| - 1;
      WithKey(xs[..n], key, k) + (if key(xs[n]) == k then [xs[n]] else [])
  }

  /** The keys that occur in `xs`. */
  function KeysOf<T, K>(xs: seq<T>, key: T -> K): set<K> {
    if xs == [] then {} else KeysOf(xs[..|xs| - 1], key) + {key(xs[|xs| - 1])}
  }

  lemma {:induction false} KeysOfMembers<T, K>(xs: seq<T>, key: T -> K, k: K)
    ensures k in KeysOf(xs, key) <==> exists i :: 0 <= i < |xs| && key(xs[i]) == k
  {
    if xs != [] {
      var n := |xs| - 1;
      KeysOfMembers(xs[..n], key, k);
      if k in KeysOf(xs[..n], key) {
        var i :| 0 <= i < n && key(xs[..n][i]) == k;
        assert key(xs[i]) == k;
      }
      if exists i :: 0 <= i < |xs| && key(xs[i]) == k {
        var i :| 0 <= i < |xs| && key(xs[i]) == k;
        if i < n {
          assert key(xs[..n][i]) == k;
        }
      }
    }
  }

  /** `WithKey` keeps exactly the elements with key `k`, each as often as it
      occurs in `xs`. */
  lemma {:induction false} WithKeyMembers<T, K>(xs: seq<T>, key: T -> K, k: K)
    ensures forall x :: multiset(WithKey(xs, key, k))[x] == if key(x) == k then multiset(xs)[x] else 0
    ensures forall x :: x in WithKey(xs, key, k) <==> x in xs && key(x) == k
  {
    if xs != [] {
      var n := |xs| - 1;
      WithKeyMembers(xs[..n], key, k);
      assert xs == xs[..n] + [xs[n]];
      assert multiset(xs) == multiset(xs[..n]) + multiset{xs[n]};
      forall x
        ensures multiset(WithKey(xs, key, k))[x] == if key(x) == k then multiset(xs)[x] else 0
      {
      }
      forall x
        ensures x in WithKey(xs, key, k) <==> x in xs && key(x) == k
      {
        assert x in WithKey(xs, key, k) <==> multiset(WithKey(xs, key, k))[x] > 0;
        assert x in xs <==> multiset(xs)[x] > 0;
      }
    }
  }

  /** A key that does not occur selects nothing. */
  lemma {:induction false} WithKeyAbsent<T, K>(xs: seq<T>, key: T -> K, k: K)
    requires k !in KeysOf(xs, key)
    ensures WithKey(xs, key, k) == []
  {
    if xs != [] {
      WithKeyAbsent(xs[..|xs| - 1], key, k);
    }
  }

  /** The group of key `k`: the elements with that key, in `order`. */
  function Group<T(!new), K(==)>(xs: seq<T>, key: T -> K, order: T -> int, k: K): seq<T> {
    SortBy(WithKey(xs, key, k), order)
  }

  /** A group is in order and holds exactly the elements with its key, each
      as often as in the sequence. */
  lemma GroupContents<T(!new), K>(xs: seq<T>, key: T -> K, order: T -> int, k: K)
    ensures var g := Group(xs, key, order, k);
            SortedBy(g, order)
            && (forall x :: x in g <==> x in xs && key(x) == k)
            && (forall x :: multiset(g)[x] == if key(x) == k then multiset(xs)[x] else 0)
  {
    WithKeyMembers(xs, key, k);
    SortByMembers(WithKey(xs, key, k), order);
  }

  /** All groups, as a single expression. */
  function Groups<T(!new), K(==)>(xs: seq<T>, key: T -> K, order: T -> int): map<K, seq<T>> {
    map k | k in KeysOf(xs, key) :: Group(xs, key, order, k)
  }

  /** Builds the groups as a program would: one pass appending each element
      to the list of its key, then one pass sorting every list. */
  method GroupBy<T(!new), K(==)>(xs: seq<T>, key: T -> K, order: T -> int) returns (m: map<K, seq<T>>)
    ensures m == Groups(xs, key, order)
  {
    m := Collect(xs, key);
    m := SortEach(m, xs, key, order);
  }

  /** `m` holds, for every key of `ys`, the elements of `ys` with that key in
      sequence order. */
  ghost predicate Collected<T, K>(m: map<K, seq<T>>, ys: seq<T>, key: T -> K) {
    m.Keys == KeysOf(ys, key) && forall k :: k in m ==> m[k] == WithKey(ys, key, k)
  }

  /** The first pass: every key of `xs` mapped to its elements in sequence
      order. */
  method Collect<T, K(==)>(xs: seq<T>, key: T -> K) returns (m: map<K, seq<T>>)
    ensures m.Keys == KeysOf(xs, key)
    ensures forall k :: k in m ==> m[k] == WithKey(xs, key, k)
  {
    m := map[];
    var i := 0;
    while i < |xs|
      invariant 0 <= i <= |xs|
      invariant Collected(m, xs[..i], key)
    {
      var x := xs[i];
      var list := if key(x) in m then m[key(x)] else [];
      CollectStep(m, xs, key, i);
      m := m[key(x) := list + [x]];
      i := i + 1;
    }
    assert xs[..|xs|] == xs;
  }

  /** Appending the next element to the list of its key keeps the map
      collected. */
  lemma CollectStep<T, K>(m: map<K, seq<T>>, xs: seq<T>, key: T -> K, i: nat)
    requires i < |xs| && Collected(m, xs[..i], key)
    ensures var x := xs[i];
            Collected(m[key(x) := (if key(x) in m then m[key(x)] else []) + [x]], xs[..i + 1], key)
  {
    var x := xs[i];
    var ys := xs[..i + 1];
    assert ys[..i] == xs[..i] && ys[i] == x;
    var m' := m[key(x) := (if key(x) in m then m[key(x)] else []) + [x]];
    assert KeysOf(ys, key) == KeysOf(xs[..i], key) + {key(x)};
    forall k | k in m'
      ensures m'[k] == WithKey(ys, key, k)
    {
      assert WithKey(ys, key, k) == WithKey(xs[..i], key, k) + (if key(x) == k then [x] else []);
      if k == key(x) && key(x) !in m {
        WithKeyAbsent(xs[..i], key, key(x));
      }
    }
  }

  /** Halfway through the second pass: the keys in `pending` still hold
      their collected lists, the others their groups. */
  ghost predicate HalfSorted<T(!new), K>(m: map<K, seq<T>>, pending: set<K>, xs: seq<T>, key: T -> K, order: T -> int) {
    pending <= m.Keys && m.Keys == KeysOf(xs, key)
    && (forall k :: k in m && k in pending ==> m[k] == WithKey(xs, key, k))
    && (forall k :: k in m && k !in pending ==> m[k] == Group(xs, key, order, k))
  }

  /** The second pass: every list put in order. */
  method SortEach<T(!new), K(==)>(m0: map<K, seq<T>>, xs: seq<T>, key: T -> K, order: T -> int) returns (m: map<K, seq<T>>)
    requires m0.Keys == KeysOf(xs, key)
    requires forall k :: k in m0 ==> m0[k] == WithKey(xs, key, k)
    ensures m == Groups(xs, key, order)
  {
    m := m0;
    var pending := m.Keys;
    while pending != {}
      invariant HalfSorted(m, pending, xs, key, order)
      decreases |pending|
    {
      var k :| k in pending;
      SortStep(m, pending, xs, key, order, k);
      m := m[k := SortBy(m[k], order)];
      pending := pending - {k};
    }
    GroupsOfParts(m, xs, key, order);
  }

  /** Sorting one pending list moves its key to the sorted side. */
  lemma SortStep<T(!new), K>(m: map<K, seq<T>>, pending: set<K>, xs: seq<T>, key: T -> K, order: T -> int, k: K)
    requires HalfSorted(m, pending, xs, key, order) && k in pending
    ensures HalfSorted(m[k := SortBy(m[k], order)], pending - {k}, xs, key, order)
  {
  }

  /** A map with the keys of `xs` and each key's group is the groups. */
  lemma GroupsOfParts<T(!new), K>(m: map<K, seq<T>>, xs: seq<T>, key: T -> K, order: T -> int)
    requires HalfSorted(m, {}, xs, key, order)
    ensures m == Groups(xs, key, order)
  {
  }

  /** The groups partition the sequence: each element is in the group of its
      own key, as many times as it occurs, and in no other group. */
  lemma GroupsPartition<T(!new), K>(xs: seq<T>, key: T -> K, order: T -> int, x: T)
    requires x in xs
    ensures var g := Groups(xs, key, order);
            key(x) in g
            && multiset(g[key(x)])[x] == multiset(xs)[x]
            && (forall k :: k in g && k != key(x) ==> x !in g[k])
  {
    var i :| 0 <= i < |xs| && xs[i] == x;
    KeysOfMembers(xs, key, key(x));
    GroupContents(xs, key, order, key(x));
    forall k | k in Groups(xs, key, order) && k != key(x)
      ensures x !in Groups(xs, key, order)[k]
    {
      GroupContents(xs, key, order, k);
    }
  }

  /** No group is empty, and each is in order. */
  lemma GroupsOrdered<T(!new), K>(xs: seq<T>, key: T -> K, order: T -> int)
    ensures forall k :: k in Groups(xs, key, order) ==>
              Groups(xs, key, order)[k] != [] && SortedBy(Groups(xs, key, order)[k], order)
  {
    forall k | k in Groups(xs, key, order)
      ensures Groups(xs, key, order)[k] != [] && SortedBy(Groups(xs, key, order)[k], order)
    {
      KeysOfMembers(xs, key, k);
      var i :| 0 <= i < |xs| && key(xs[i]) == k;
      GroupContents(xs, key, order, k);
      assert xs[i] in xs;
      assert xs[i] in Group(xs, key, order, k);
    }
  }

  /** Every element is in the group of its key. */
  lemma GroupsCover<T(!new), K>(xs: seq<T>, key: T -> K, order: T -> int, g: map<K, seq<T>>)
    requires g == Groups(xs, key, order)
    ensures forall x :: x in xs ==> key(x) in g && x in g[key(x)]
  {
    forall x | x in xs
      ensures key(x) in g && x in g[key(x)]
    {
      GroupsPartition(xs, key, order, x);
    }
  }

  /** A group holds only elements of its key. */
  lemma GroupsOnlyKey<T(!new), K>(xs: seq<T>, key: T -> K, order: T -> int, g: map<K, seq<T>>)
    requires g == Groups(xs, key, order)
    ensures forall k :: k in g ==> forall x :: x in g[k] ==> x in xs && key(x) == k
  {
    forall k | k in g
      ensures forall x :: x in g[k] ==> x in xs && key(x) == k
    {
      InGroup(xs, key, order, k, g[k]);
    }
  }

  /** The group of key `k` holds only elements with that key. */
  lemma InGroup<T(!new), K>(xs: seq<T>, key: T -> K, order: T -> int, k: K, group: seq<T>)
    requires group == Group(xs, key, order, k)
    ensures forall x :: x in group ==> x in xs && key(x) == k
  {
    GroupContents(xs, key, order, k);
  }

  /** Looking a key up gives the elements with that key in order, or nothing
      when no element has it. */
  lemma LookupGroup<T(!new), K>(xs: seq<T>, key: T -> K, order: T -> int, k: K)
    ensures k in Groups(xs, key, order) ==> Groups(xs, key, order)[k] == SortBy(WithKey(xs, key, k), order)
    ensures k !in Groups(xs, key, order) ==> WithKey(xs, key, k) == []
  {
    if k !in Groups(xs, key, order) {
      WithKeyAbsent(xs, key, k);
    }
  }
}
