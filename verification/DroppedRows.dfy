/** Listings whose sources drop rows after they have read as many as their limit allows
    (`backend/app/services/admin_read.py`): when their pages come out right all the same. */
module DroppedRows {
  import opened Ordering
  import opened Reordering
  import opened AuditPaging

  /** The rows of a source that are shown. */
  function Kept<T>(keep: T -> bool, source: seq<T>): (r: seq<T>)
    ensures |r| <= |source|
  {
    if |source| == 0 then [] else (if keep(source[0]) then [source[0]] else []) + Kept(keep, source[1..])
  }

  /** No shown row comes behind a dropped one. */
  ghost predicate DropsTail<T>(keep: T -> bool, source: seq<T>) {
    forall i, j :: 0 <= i < j < |source| && keep(source[j]) ==> keep(source[i])
  }

  lemma {:induction false} KeptAll<T>(keep: T -> bool, source: seq<T>)
    requires forall i :: 0 <= i < |source| ==> keep(source[i])
    ensures Kept(keep, source) == source
  {
    if |source| > 0 {
      KeptAll(keep, source[1..]);
    }
  }

  lemma {:induction false} KeptNone<T>(keep: T -> bool, source: seq<T>)
    requires forall i :: 0 <= i < |source| ==> !keep(source[i])
    ensures Kept(keep, source) == []
  {
    if |source| > 0 {
      KeptNone(keep, source[1..]);
    }
  }

  lemma {:induction false} KeptOfBoth<T>(keep: T -> bool, front: seq<T>, back: seq<T>)
    ensures Kept(keep, front + back) == Kept(keep, front) + Kept(keep, back)
    decreases |front|
  {
    if |front| == 0 {
      assert front + back == back;
    } else {
      var head := if keep(front[0]) then [front[0]] else [];
      assert (front + back)[1..] == front[1..] + back;
      KeptOfBoth(keep, front[1..], back);
      Regrouped(head, Kept(keep, front[1..]), Kept(keep, back));
    }
  }

  /** Reading the first rows and then dropping gives the first shown rows, if only a tail is dropped. */
  lemma {:induction false} LimitThenDrop<T>(keep: T -> bool, source: seq<T>, n: nat)
    requires DropsTail(keep, source)
    ensures Kept(keep, FirstN(source, n)) == FirstN(Kept(keep, source), n)
    decreases |source|
  {
    if |source| > 0 && n > 0 {
      if keep(source[0]) {
        LimitThenDrop(keep, source[1..], n - 1);
        assert FirstN(source, n) == [source[0]] + FirstN(source[1..], n - 1);
        assert FirstN(source, n)[1..] == FirstN(source[1..], n - 1);
      } else {
        KeptNone(keep, source);
        KeptNone(keep, FirstN(source, n));
      }
    } else if n == 0 {
      assert FirstN(source, n) == [];
    }
  }

  lemma {:induction false} FirstBehindDropped<T>(keep: T -> bool, source: seq<T>) returns (i: nat, j: nat)
    requires !DropsTail(keep, source)
    ensures i < j < |source| && !keep(source[i]) && keep(source[j])
    ensures forall k :: i <= k < j ==> !keep(source[k])
  {
    var a, b :| 0 <= a < b < |source| && keep(source[b]) && !keep(source[a]);
    i, j := a, a + 1;
    while !keep(source[j])
      invariant a == i < j <= b
      invariant forall k :: i <= k < j ==> !keep(source[k])
      decreases b - j
    {
      j := j + 1;
    }
  }

  lemma KeptUpTo<T>(keep: T -> bool, source: seq<T>, n: nat)
    requires n <= |source|
    ensures Kept(keep, source) == Kept(keep, source[..n]) + Kept(keep, source[n..])
  {
    assert source == source[..n] + source[n..];
    KeptOfBoth(keep, source[..n], source[n..]);
  }

  lemma DropHidesNothing<T>(keep: T -> bool, source: seq<T>, i: nat, j: nat)
    requires i <= j <= |source| && forall k :: i <= k < j ==> !keep(source[k])
    ensures Kept(keep, source[..j]) == Kept(keep, source[..i])
  {
    KeptUpTo(keep, source[..j], i);
    assert source[..j][..i] == source[..i];
    KeptNone(keep, source[..j][i..]);
    assert Kept(keep, source[..i]) + [] == Kept(keep, source[..i]);
  }

  /** A shown row behind a dropped one is not among the shown rows of the page it belongs on. */
  lemma ShownRowIsMissed<T>(keep: T -> bool, source: seq<T>, i: nat, j: nat)
    requires i < j < |source| && !keep(source[i]) && keep(source[j])
    requires forall k :: i <= k < j ==> !keep(source[k])
    ensures var offset := |Kept(keep, source[..i])|;
            && |Kept(keep, FirstN(source, offset + 1))| <= offset < |Kept(keep, source)|
            && Kept(keep, source)[offset] == source[j]
  {
    var offset := |Kept(keep, source[..i])|;
    DropHidesNothing(keep, source, i, i + 1);
    KeptUpTo(keep, source[..i + 1], offset + 1);
    assert source[..i + 1][..offset + 1] == FirstN(source, offset + 1);
    DropHidesNothing(keep, source, i, j);
    KeptUpTo(keep, source, j);
    assert Kept(keep, source[j..])[0] == source[j];
  }

  function KeptOfEach<T>(keep: T -> bool, sources: seq<seq<T>>): seq<seq<T>> {
    if |sources| == 0 then [] else [Kept(keep, sources[0])] + KeptOfEach(keep, sources[1..])
  }

  /** A page of sources that drop rows after they have read their first `offset + size`. */
  function PageDroppedLate<T>(le: (T, T) -> bool, keep: T -> bool, sources: seq<seq<T>>, offset: nat, size: nat): seq<T> {
    Slice(Sort(le, Concat(KeptOfEach(keep, FirstOfEach(sources, offset + size)))), offset, size)
  }

  /** The same page of everything that is shown. */
  function PageOfShown<T>(le: (T, T) -> bool, keep: T -> bool, sources: seq<seq<T>>, offset: nat, size: nat): seq<T> {
    Slice(Sort(le, Concat(KeptOfEach(keep, sources))), offset, size)
  }

  ghost predicate PagesAreRight<T>(le: (T, T) -> bool, keep: T -> bool, sources: seq<seq<T>>) {
    forall offset: nat, size: nat ::
      PageDroppedLate(le, keep, sources, offset, size) == PageOfShown(le, keep, sources, offset, size)
  }

  lemma {:induction false} KeptFirstOfEach<T>(keep: T -> bool, sources: seq<seq<T>>, n: nat)
    requires forall i :: 0 <= i < |sources| ==> DropsTail(keep, sources[i])
    ensures KeptOfEach(keep, FirstOfEach(sources, n)) == FirstOfEach(KeptOfEach(keep, sources), n)
    decreases |sources|
  {
    if |sources| > 0 {
      LimitThenDrop(keep, sources[0], n);
      KeptFirstOfEach(keep, sources[1..], n);
    }
  }

  lemma {:induction false} KeptIsSorted<T(!new)>(le: (T, T) -> bool, keep: T -> bool, source: seq<T>)
    requires SortedBy(le, source)
    ensures SortedBy(le, Kept(keep, source))
    ensures forall x :: x in Kept(keep, source) ==> x in source
  {
    if |source| > 0 {
      var rest := Kept(keep, source[1..]);
      KeptIsSorted(le, keep, source[1..]);
      forall j | 0 <= j < |rest| ensures le(source[0], rest[j]) {
        assert rest[j] in source[1..];
        var k :| 0 < k < |source| && source[k] == rest[j];
      }
    }
  }

  lemma {:induction false} KeptAreSorted<T(!new)>(le: (T, T) -> bool, keep: T -> bool, sources: seq<seq<T>>)
    requires AllSorted(le, sources)
    ensures AllSorted(le, KeptOfEach(keep, sources))
    decreases |sources|
  {
    if |sources| > 0 {
      KeptIsSorted(le, keep, sources[0]);
      KeptAreSorted(le, keep, sources[1..]);
    }
  }

  /** Sources that each drop only a tail page right, however many there are. */
  lemma TailDropsPageRight<T(!new)>(le: (T, T) -> bool, keep: T -> bool, sources: seq<seq<T>>)
    requires TotalPreorder(le) && AllSorted(le, sources)
    requires forall i :: 0 <= i < |sources| ==> DropsTail(keep, sources[i])
    ensures PagesAreRight(le, keep, sources)
  {
    forall offset: nat, size: nat
      ensures PageDroppedLate(le, keep, sources, offset, size) == PageOfShown(le, keep, sources, offset, size)
    {
      KeptFirstOfEach(keep, sources, offset + size);
      KeptAreSorted(le, keep, sources);
      PageIsPageOfFullMerge(le, KeptOfEach(keep, sources), offset, size);
    }
  }

  lemma OneSource<T(!new)>(le: (T, T) -> bool, keep: T -> bool, source: seq<T>)
    requires SortedBy(le, source)
    ensures Sort(le, Concat(KeptOfEach(keep, [source]))) == Kept(keep, source)
  {
    assert [source][1..] == [] && [Kept(keep, source)][1..] == [];
    assert KeptOfEach(keep, [source]) == [Kept(keep, source)] + KeptOfEach(keep, []);
    assert Concat([Kept(keep, source)]) == Kept(keep, source) + [] == Kept(keep, source);
    KeptIsSorted(le, keep, source);
    SortOfSorted(le, Kept(keep, source));
  }

  /** One listed source that drops rows after its limit pages right exactly when it drops only a tail:
      when no shown row comes behind a dropped one. */
  lemma LateDropsPageRightExactly<T(!new)>(le: (T, T) -> bool, keep: T -> bool, source: seq<T>)
    requires TotalPreorder(le) && SortedBy(le, source)
    ensures PagesAreRight(le, keep, [source]) <==> DropsTail(keep, source)
  {
    if DropsTail(keep, source) {
      TailDropsPageRight(le, keep, [source]);
    } else {
      var i, j := FirstBehindDropped(keep, source);
      var offset := |Kept(keep, source[..i])|;
      LateDropMissesRow(le, keep, source, i, j);
      assert PageDroppedLate(le, keep, [source], offset, 1) != PageOfShown(le, keep, [source], offset, 1);
    }
  }

  lemma OneFirst<T>(source: seq<T>, n: nat)
    ensures FirstOfEach([source], n) == [FirstN(source, n)]
  {
    assert [source][1..] == [];
  }

  lemma SliceOne<T>(xs: seq<T>, offset: nat)
    ensures Slice(xs, offset, 1) == if offset < |xs| then [xs[offset]] else []
  {
  }

  /** The page of one row that a shown row behind a dropped one belongs on comes out empty. */
  lemma LateDropMissesRow<T(!new)>(le: (T, T) -> bool, keep: T -> bool, source: seq<T>, i: nat, j: nat)
    requires SortedBy(le, source) && i < j < |source| && !keep(source[i]) && keep(source[j])
    requires forall k :: i <= k < j ==> !keep(source[k])
    ensures var offset := |Kept(keep, source[..i])|;
            && PageDroppedLate(le, keep, [source], offset, 1) == []
            && PageOfShown(le, keep, [source], offset, 1) == [source[j]]
  {
    var offset := |Kept(keep, source[..i])|;
    ShownRowIsMissed(keep, source, i, j);
    OneLatePage(le, keep, source, offset);
    OneShownPage(le, keep, source, offset);
  }

  lemma OneLatePage<T(!new)>(le: (T, T) -> bool, keep: T -> bool, source: seq<T>, offset: nat)
    requires SortedBy(le, source)
    ensures var kept := Kept(keep, FirstN(source, offset + 1));
            PageDroppedLate(le, keep, [source], offset, 1) == if offset < |kept| then [kept[offset]] else []
  {
    var read := FirstN(source, offset + 1);
    OneFirst(source, offset + 1);
    OneSource(le, keep, read);
    SliceOne(Kept(keep, read), offset);
  }

  lemma OneShownPage<T(!new)>(le: (T, T) -> bool, keep: T -> bool, source: seq<T>, offset: nat)
    requires SortedBy(le, source)
    ensures var kept := Kept(keep, source);
            PageOfShown(le, keep, [source], offset, 1) == if offset < |kept| then [kept[offset]] else []
  {
    OneSource(le, keep, source);
    SliceOne(Kept(keep, source), offset);
  }

  // ----- several sources that drop rows

  ghost predicate Holds<T>(sources: seq<seq<T>>, i: int, j: int, x: T) {
    0 <= i < |sources| && 0 <= j < |sources[i]| && sources[i][j] == x
  }

  /** No row is stored twice. */
  ghost predicate RowsDiffer<T(!new)>(sources: seq<seq<T>>) {
    forall i, j, k, l, x :: Holds(sources, i, j, x) && Holds(sources, k, l, x) ==> i == k && j == l
  }

  /** Everything that is shown, in order. */
  function ShownRows<T>(le: (T, T) -> bool, keep: T -> bool, sources: seq<seq<T>>): seq<T> {
    Sort(le, Concat(KeptOfEach(keep, sources)))
  }

  /** No row comes earlier among all shown rows than in its own source: the shown rows that other
      sources put before it make up for the dropped rows before it in its own. */
  ghost predicate NoneTooEarly<T(!new)>(le: (T, T) -> bool, keep: T -> bool, sources: seq<seq<T>>) {
    NoneAhead(ShownRows(le, keep, sources), sources)
  }

  ghost predicate NoneAhead<T>(all: seq<T>, sources: seq<seq<T>>) {
    forall i, j, r :: 0 <= r < |all| && Holds(sources, i, j, all[r]) ==> j <= r
  }

  lemma {:induction false} KeptMember<T(!new)>(keep: T -> bool, source: seq<T>, x: T)
    ensures x in Kept(keep, source) <==> x in source && keep(x)
  {
    if |source| > 0 {
      KeptMember(keep, source[1..], x);
      assert source == [source[0]] + source[1..];
    }
  }

  lemma {:induction false} ShownMember<T(!new)>(keep: T -> bool, sources: seq<seq<T>>, x: T)
    ensures x in Concat(KeptOfEach(keep, sources)) <==> keep(x) && exists i :: 0 <= i < |sources| && x in sources[i]
    decreases |sources|
  {
    if |sources| > 0 {
      KeptMember(keep, sources[0], x);
      ShownMember(keep, sources[1..], x);
      assert KeptOfEach(keep, sources)[1..] == KeptOfEach(keep, sources[1..]);
      if i :| 0 <= i < |sources[1..]| && x in sources[1..][i] {
        assert x in sources[i + 1];
      }
      if i :| 0 <= i < |sources| && x in sources[i] {
        assert i > 0 ==> x in sources[1..][i - 1];
      }
    }
  }

  lemma {:induction false} FirstOfEachAt<T>(sources: seq<seq<T>>, n: nat)
    ensures |FirstOfEach(sources, n)| == |sources|
    ensures forall i :: 0 <= i < |sources| ==> FirstOfEach(sources, n)[i] == FirstN(sources[i], n)
    decreases |sources|
  {
    if |sources| > 0 {
      FirstOfEachAt(sources[1..], n);
    }
  }

  lemma SortMember<T(!new)>(le: (T, T) -> bool, xs: seq<T>, x: T)
    requires TotalPreorder(le)
    ensures x in Sort(le, xs) <==> x in xs
  {
    SortSorts(le, xs);
    SameMembers(Sort(le, xs), xs);
  }

  /** Rows of a merge that are not among its first `n` can be left out without touching those. */
  lemma {:induction false} LeaveOutLate<T(!new)>(le: (T, T) -> bool, before: seq<T>, late: seq<T>, after: seq<T>, n: nat)
    requires TotalPreorder(le)
    requires forall x :: x in late ==> x !in FirstN(Sort(le, before + late + after), n)
    ensures FirstN(Sort(le, before + late + after), n) == FirstN(Sort(le, before + after), n)
    decreases |late|
  {
    if |late| == 0 {
      assert before + late + after == before + after;
    } else {
      var x, rest := late[0], late[1..];
      assert before + late + after == before + [x] + (rest + after);
      assert before + rest + after == before + (rest + after);
      var p, q := LeaveOut(le, before, x, rest + after);
      FrontUntouched(p, x, q, n);
      LeaveOutLate(le, before, rest, after, n);
    }
  }

  lemma FrontUntouched<T>(p: seq<T>, x: T, q: seq<T>, n: nat)
    requires x !in FirstN(p + [x] + q, n)
    ensures FirstN(p + [x] + q, n) == FirstN(p + q, n)
  {
    if |p| < n {
      InFront(p, x, q, n);
    } else {
      assert (p + [x] + q)[..n] == p[..n] == (p + q)[..n];
    }
  }

  lemma InFront<T>(p: seq<T>, x: T, q: seq<T>, n: nat)
    requires |p| < n
    ensures x in FirstN(p + [x] + q, n)
  {
    assert FirstN(p + [x] + q, n)[|p|] == x;
  }

  lemma BehindFront<T>(all: seq<T>, x: T, n: nat)
    requires forall r :: 0 <= r < |all| && all[r] == x ==> r >= n
    ensures x !in FirstN(all, n)
  {
  }

  /** The shown rows that a source does not read are not on the pages up to this one. */
  ghost predicate UnreadAreLate<T(!new)>(keep: T -> bool, sources: seq<seq<T>>, all: seq<T>, n: nat) {
    forall i, x :: 0 <= i < |sources| && x in Kept(keep, sources[i][|FirstN(sources[i], n)|..]) ==> x !in FirstN(all, n)
  }

  lemma {:induction false} UnreadDoNotMatter<T(!new)>(le: (T, T) -> bool, keep: T -> bool, before: seq<T>,
                                                      sources: seq<seq<T>>, n: nat)
    requires TotalPreorder(le)
    requires UnreadAreLate(keep, sources, Sort(le, before + Concat(KeptOfEach(keep, sources))), n)
    ensures FirstN(Sort(le, before + Concat(KeptOfEach(keep, FirstOfEach(sources, n)))), n)
            == FirstN(Sort(le, before + Concat(KeptOfEach(keep, sources))), n)
    decreases |sources|
  {
    if |sources| > 0 {
      var source, front := sources[0], FirstN(sources[0], n);
      var read, late, rest := Kept(keep, front), Kept(keep, source[|front|..]), Concat(KeptOfEach(keep, sources[1..]));
      KeptOfFirst(keep, sources);
      KeptSplits(keep, before, source, n, rest);
      FirstOfEachFirst(sources, n);
      KeptOfFirst(keep, FirstOfEach(sources, n));
      Regrouped(before, read, Concat(KeptOfEach(keep, FirstOfEach(sources[1..], n))));
      LeaveOutLate(le, before + read, late, rest, n);
      assert UnreadAreLate(keep, sources[1..], Sort(le, before + read + rest), n);
      UnreadDoNotMatter(le, keep, before + read, sources[1..], n);
    }
  }

  lemma KeptSplits<T>(keep: T -> bool, before: seq<T>, source: seq<T>, n: nat, rest: seq<T>)
    ensures before + (Kept(keep, source) + rest)
            == before + Kept(keep, FirstN(source, n)) + Kept(keep, source[|FirstN(source, n)|..]) + rest
  {
    var front := FirstN(source, n);
    KeptUpTo(keep, source, |front|);
    Spliced(before, Kept(keep, front), Kept(keep, source[|front|..]), rest);
  }

  lemma Spliced<T>(a: seq<T>, b: seq<T>, c: seq<T>, d: seq<T>)
    ensures a + ((b + c) + d) == a + b + c + d
  {
  }

  lemma KeptOfFirst<T>(keep: T -> bool, sources: seq<seq<T>>)
    requires |sources| > 0
    ensures Concat(KeptOfEach(keep, sources)) == Kept(keep, sources[0]) + Concat(KeptOfEach(keep, sources[1..]))
  {
    assert KeptOfEach(keep, sources)[1..] == KeptOfEach(keep, sources[1..]);
  }

  lemma FirstOfEachFirst<T>(sources: seq<seq<T>>, n: nat)
    requires |sources| > 0
    ensures |FirstOfEach(sources, n)| > 0 && FirstOfEach(sources, n)[0] == FirstN(sources[0], n)
    ensures FirstOfEach(sources, n)[1..] == FirstOfEach(sources[1..], n)
  {
  }

  lemma NoneTooEarlyUnreadLate<T(!new)>(le: (T, T) -> bool, keep: T -> bool, sources: seq<seq<T>>, n: nat)
    requires NoneTooEarly(le, keep, sources)
    ensures UnreadAreLate(keep, sources, ShownRows(le, keep, sources), n)
  {
    var all := ShownRows(le, keep, sources);
    forall i, x | 0 <= i < |sources| && x in Kept(keep, sources[i][|FirstN(sources[i], n)|..]) ensures x !in FirstN(all, n) {
      var from := |FirstN(sources[i], n)|;
      KeptMember(keep, sources[i][from..], x);
      var j :| 0 <= j < |sources[i][from..]| && sources[i][from..][j] == x;
      forall r | 0 <= r < |all| && all[r] == x ensures r >= n {
        assert Holds(sources, i, from + j, all[r]);
      }
      BehindFront(all, x, n);
    }
  }

  lemma UnreadIsNotShown<T(!new)>(le: (T, T) -> bool, keep: T -> bool, sources: seq<seq<T>>, i: int, j: int, n: nat, x: T)
    requires TotalPreorder(le) && RowsDiffer(sources) && Holds(sources, i, j, x) && n <= j
    ensures x !in ShownRows(le, keep, FirstOfEach(sources, n))
  {
    var read := FirstOfEach(sources, n);
    SortMember(le, Concat(KeptOfEach(keep, read)), x);
    ShownMember(keep, read, x);
    FirstOfEachAt(sources, n);
    forall k, l | 0 <= k < |read| && 0 <= l < |read[k]| ensures read[k][l] != x {
      assert Holds(sources, k, l, read[k][l]);
    }
  }

  /** A row that comes too early is missing from the page of one row that it should fill. */
  lemma EarlyRowIsMissed<T(!new)>(le: (T, T) -> bool, keep: T -> bool, sources: seq<seq<T>>, i: int, j: int, r: nat)
    requires TotalPreorder(le) && RowsDiffer(sources)
    requires r < |ShownRows(le, keep, sources)| && Holds(sources, i, j, ShownRows(le, keep, sources)[r]) && r < j
    ensures PageOfShown(le, keep, sources, r, 1) == [ShownRows(le, keep, sources)[r]]
    ensures PageDroppedLate(le, keep, sources, r, 1) != PageOfShown(le, keep, sources, r, 1)
  {
    UnreadIsNotShown(le, keep, sources, i, j, r + 1, ShownRows(le, keep, sources)[r]);
    SliceOne(ShownRows(le, keep, sources), r);
    SliceOne(ShownRows(le, keep, FirstOfEach(sources, r + 1)), r);
    OtherPage(ShownRows(le, keep, FirstOfEach(sources, r + 1)), r, ShownRows(le, keep, sources)[r]);
  }

  lemma OtherPage<T>(xs: seq<T>, r: nat, x: T)
    requires x !in xs
    ensures Slice(xs, r, 1) != [x]
  {
    SliceOne(xs, r);
  }

  /** Any number of sources that drop rows after their limit page right exactly when no row comes
      earlier among all shown rows than in its own source. */
  lemma LateDropsPageRightTogether<T(!new)>(le: (T, T) -> bool, keep: T -> bool, sources: seq<seq<T>>)
    requires TotalPreorder(le) && RowsDiffer(sources)
    ensures PagesAreRight(le, keep, sources) <==> NoneTooEarly(le, keep, sources)
  {
    if NoneTooEarly(le, keep, sources) {
      forall offset: nat, size: nat
        ensures PageDroppedLate(le, keep, sources, offset, size) == PageOfShown(le, keep, sources, offset, size)
      {
        var n := offset + size;
        NoneTooEarlyUnreadLate(le, keep, sources, n);
        assert [] + Concat(KeptOfEach(keep, sources)) == Concat(KeptOfEach(keep, sources));
        assert [] + Concat(KeptOfEach(keep, FirstOfEach(sources, n))) == Concat(KeptOfEach(keep, FirstOfEach(sources, n)));
        UnreadDoNotMatter(le, keep, [], sources, n);
        SlicesAgree(ShownRows(le, keep, FirstOfEach(sources, n)), ShownRows(le, keep, sources), offset, size);
      }
    } else {
      var i, j, r :| 0 <= r < |ShownRows(le, keep, sources)|
                     && Holds(sources, i, j, ShownRows(le, keep, sources)[r]) && r < j;
      EarlyRowIsMissed(le, keep, sources, i, j, r);
    }
  }

  /** The smallest failing source: its newest row is dropped and the next one is not. */
  lemma DroppingAfterTheLimitBreaksPages(newer: Item, older: Item, keep: Item -> bool)
    requires Descending([newer, older]) && !keep(newer) && keep(older)
    ensures !PagesAreRight(NewestFirst(), keep, [[newer, older]])
    ensures PageDroppedLate(NewestFirst(), keep, [[newer, older]], 0, 1) == []
    ensures PageOfShown(NewestFirst(), keep, [[newer, older]], 0, 1) == [older]
  {
    var source := [newer, older];
    NewestFirstIsPreorder();
    DescendingIsSorted(source);
    assert source[..0] == [];
    LateDropMissesRow(NewestFirst(), keep, source, 0, 1);
    assert !keep(source[0]) && keep(source[1]);
    LateDropsPageRightExactly(NewestFirst(), keep, source);
  }
}
