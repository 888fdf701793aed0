/** Lists that differ only in order, and what such a difference leaves unchanged. */
module Reordering {
  import opened Ordering

  function Map<T, U>(f: T -> U, xs: seq<T>): (ys: seq<U>)
    ensures |ys| == |xs| && forall i :: 0 <= i < |xs| ==> ys[i] == f(xs[i])
  {
    seq(|xs|, i requires 0 <= i < |xs| => f(xs[i]))
  }

  /** No two positions carry the same key. */
  ghost predicate DistinctBy<T, K(!new)>(key: T -> K, xs: seq<T>) {
    forall i, j :: 0 <= i < j < |xs| ==> key(xs[i]) != key(xs[j])
  }

  function Itself<T>(): T -> T { (x: T) => x }

  ghost predicate Distinct<T(!new)>(xs: seq<T>) { DistinctBy(Itself<T>(), xs) }

  ghost predicate All<T>(ok: T -> bool, xs: seq<T>) { forall i :: 0 <= i < |xs| ==> ok(xs[i]) }

  /** `ys` can be put into an order in which it agrees with `xs` item by item up to `same`. */
  ghost predicate Reordered<T(!new)>(same: (T, T) -> bool, xs: seq<T>, ys: seq<T>) {
    exists zs: seq<T> :: multiset(zs) == multiset(ys) && Agree(same, xs, zs)
  }

  ghost predicate Agree<T>(same: (T, T) -> bool, xs: seq<T>, zs: seq<T>) {
    |xs| == |zs| && forall i :: 0 <= i < |xs| ==> same(xs[i], zs[i])
  }

  lemma SameMembers<T>(xs: seq<T>, ys: seq<T>)
    requires multiset(xs) == multiset(ys)
    ensures |xs| == |ys| && forall x :: x in xs <==> x in ys
  {
    assert |multiset(xs)| == |xs| && |multiset(ys)| == |ys|;
    assert forall x :: x in xs <==> x in multiset(xs);
    assert forall x :: x in ys <==> x in multiset(ys);
  }

  lemma RemoveAt<T>(xs: seq<T>, i: nat)
    requires i < |xs|
    ensures multiset(xs) == multiset{xs[i]} + multiset(xs[..i] + xs[i + 1..])
  {
    assert xs == xs[..i] + [xs[i]] + xs[i + 1..];
  }

  lemma MapRemoveAt<T, U>(f: T -> U, xs: seq<T>, i: nat)
    requires i < |xs|
    ensures multiset(Map(f, xs)) == multiset{f(xs[i])} + multiset(Map(f, xs[..i] + xs[i + 1..]))
  {
    RemoveAt(Map(f, xs), i);
    assert Map(f, xs)[..i] + Map(f, xs)[i + 1..] == Map(f, xs[..i] + xs[i + 1..]);
  }

  lemma MultisetTails<T>(xs: seq<T>, ys: seq<T>, i: nat)
    requires xs != [] && i < |ys| && ys[i] == xs[0] && multiset(xs) == multiset(ys)
    ensures multiset(xs[..0] + xs[1..]) == multiset(ys[..i] + ys[i + 1..])
  {
    RemoveAt(ys, i);
    RemoveAt(xs, 0);
    assert multiset(xs[..0] + xs[1..]) == multiset(xs) - multiset{xs[0]};
    assert multiset(ys[..i] + ys[i + 1..]) == multiset(ys) - multiset{xs[0]};
  }

  lemma {:induction false} MapMultiset<T, U>(f: T -> U, xs: seq<T>, ys: seq<T>)
    requires multiset(xs) == multiset(ys)
    ensures multiset(Map(f, xs)) == multiset(Map(f, ys))
    decreases |xs|
  {
    SameMembers(xs, ys);
    if xs != [] {
      assert xs[0] in ys;
      var i :| 0 <= i < |ys| && ys[i] == xs[0];
      MultisetTails(xs, ys, i);
      MapMultiset(f, xs[..0] + xs[1..], ys[..i] + ys[i + 1..]);
      MapRemoveAt(f, ys, i);
      MapRemoveAt(f, xs, 0);
    }
  }

  lemma {:induction false} DistinctCounts<T(!new), K(!new)>(key: T -> K, xs: seq<T>)
    ensures DistinctBy(key, xs)
       <==> (forall x :: multiset(xs)[x] <= 1) && (forall x, y :: x in xs && y in xs && key(x) == key(y) ==> x == y)
  {
    if xs != [] {
      var rest := xs[1..];
      DistinctCounts(key, rest);
      assert xs == [xs[0]] + rest;
      assert multiset(xs) == multiset{xs[0]} + multiset(rest);
      if DistinctBy(key, xs) {
        assert forall i :: 0 <= i < |rest| ==> rest[i] == xs[i + 1];
        assert xs[0] !in rest;
      }
      if (forall x :: multiset(xs)[x] <= 1) && (forall x, y :: x in xs && y in xs && key(x) == key(y) ==> x == y) {
        assert forall x :: multiset(rest)[x] <= multiset(xs)[x];
        assert multiset(xs)[xs[0]] <= 1 && xs[0] !in rest;
        assert forall x :: x in rest ==> x in xs;
        forall j | 0 < j < |xs| ensures key(xs[0]) != key(xs[j]) {
          assert xs[j] == rest[j - 1];
        }
      }
    }
  }

  lemma DistinctIgnoresOrder<T(!new), K(!new)>(key: T -> K, xs: seq<T>, ys: seq<T>)
    requires multiset(xs) == multiset(ys)
    ensures DistinctBy(key, xs) <==> DistinctBy(key, ys)
  {
    DistinctCounts(key, xs);
    DistinctCounts(key, ys);
    SameMembers(xs, ys);
  }

  lemma AllIgnoresOrder<T(!new)>(ok: T -> bool, xs: seq<T>, ys: seq<T>)
    requires multiset(xs) == multiset(ys)
    ensures All(ok, xs) <==> All(ok, ys)
  {
    SameMembers(xs, ys);
    assert All(ok, xs) <==> forall x :: x in xs ==> ok(x);
    assert All(ok, ys) <==> forall x :: x in ys ==> ok(x);
  }

  /** Reordering keeps lengths, element checks, distinct keys, and images as multisets. */
  lemma ReorderedKeeps<T(!new), K(!new), U(!new)>(same: (T, T) -> bool, ok: T -> bool, key: T -> K, f: T -> U,
                                                  xs: seq<T>, ys: seq<T>)
    requires Reordered(same, xs, ys)
    requires forall x, y :: same(x, y) ==> (ok(x) <==> ok(y)) && key(x) == key(y) && f(x) == f(y)
    ensures |xs| == |ys|
    ensures All(ok, xs) <==> All(ok, ys)
    ensures DistinctBy(key, xs) <==> DistinctBy(key, ys)
    ensures multiset(Map(f, xs)) == multiset(Map(f, ys))
  {
    var zs :| multiset(zs) == multiset(ys) && Agree(same, xs, zs);
    SameMembers(zs, ys);
    AllIgnoresOrder(ok, zs, ys);
    DistinctIgnoresOrder(key, zs, ys);
    MapMultiset(f, zs, ys);
    assert Map(f, xs) == Map(f, zs);
  }

  lemma DistinctSeparates<T(!new)>(key: T -> string, xs: seq<T>)
    requires DistinctBy(key, xs)
    ensures TotalPreorder(ByKey(key)) && Separates(ByKey(key), xs)
  {
    ByKeyIsPreorder(key);
    DistinctCounts(key, xs);
  }

  /** Sorting by a distinct key: same members, sorted, and nothing left to sort. */
  lemma SortByKey<T(!new)>(key: T -> string, xs: seq<T>)
    requires DistinctBy(key, xs)
    ensures multiset(Sort(ByKey(key), xs)) == multiset(xs)
    ensures DistinctBy(key, Sort(ByKey(key), xs))
    ensures Sort(ByKey(key), Sort(ByKey(key), xs)) == Sort(ByKey(key), xs)
    ensures |Sort(ByKey(key), xs)| == |xs|
  {
    ByKeyIsPreorder(key);
    SortSorts(ByKey(key), xs);
    SortOfSorted(ByKey(key), Sort(ByKey(key), xs));
    DistinctIgnoresOrder(key, xs, Sort(ByKey(key), xs));
  }

  lemma SortByKeyIgnoresOrder<T(!new)>(key: T -> string, xs: seq<T>, ys: seq<T>)
    requires DistinctBy(key, xs) && multiset(xs) == multiset(ys)
    ensures Sort(ByKey(key), xs) == Sort(ByKey(key), ys)
  {
    DistinctSeparates(key, xs);
    SortIgnoresOrder(ByKey(key), xs, ys);
  }

  /** Normalising every item and sorting by a key the normalisation keeps: the output is made
      of the normalised items and is left alone by doing the same again. */
  lemma SortMapFixed<T(!new)>(key: T -> string, f: T -> T, xs: seq<T>)
    requires DistinctBy(key, xs)
    requires forall x :: x in xs ==> key(f(x)) == key(x) && f(f(x)) == f(x)
    ensures var out := Sort(ByKey(key), Map(f, xs));
            && |out| == |xs| && DistinctBy(key, out) && multiset(out) == multiset(Map(f, xs))
            && (forall y :: y in out ==> exists x :: x in xs && y == f(x))
            && (forall x :: x in xs ==> f(x) in out)
            && Sort(ByKey(key), Map(f, out)) == out
  {
    var mapped := Map(f, xs);
    var out := Sort(ByKey(key), mapped);
    forall i, j | 0 <= i < j < |mapped| ensures key(mapped[i]) != key(mapped[j]) {
      assert xs[i] in xs && xs[j] in xs;
    }
    SortByKey(key, mapped);
    SameMembers(out, mapped);
    forall y | y in out ensures f(y) == y && exists x :: x in xs && y == f(x) {
      var i :| 0 <= i < |mapped| && mapped[i] == y;
      assert xs[i] in xs && y == f(xs[i]);
    }
    forall x | x in xs ensures f(x) in out {
      var i :| 0 <= i < |xs| && xs[i] == x;
      assert mapped[i] == f(x);
    }
    assert Map(f, out) == out;
  }
}
