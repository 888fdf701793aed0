/** Paging over several histories at once (`backend/app/services/admin_read.py`,
    `backend/app/routes/dpc_controls.py`): only the first rows of each source are read, yet every
    page is what paging over the whole merged history would give. */
module AuditPaging {
  import opened Ordering
  import opened Numerals

  // ----- times as text

  /** A point in UTC time; fields compare from the year down. */
  datatype Moment = Moment(year: nat, month: nat, day: nat, hour: nat, minute: nat, second: nat, microsecond: nat)

  predicate MomentOk(m: Moment) {
    && m.year < 10_000 && m.month < 100 && m.day < 100 && m.hour < 100 && m.minute < 100 && m.second < 100
    && m.microsecond < 1_000_000
  }

  function Pad(n: nat, width: nat): string {
    if width == 0 then "" else Pad(n / 10, width - 1) + [DigitChar(n % 10)]
  }

  function Power(width: nat): nat { if width == 0 then 1 else 10 * Power(width - 1) }

  lemma {:induction false} PadLength(n: nat, width: nat)
    ensures |Pad(n, width)| == width
  {
    if width > 0 {
      PadLength(n / 10, width - 1);
    }
  }

  /** Texts of equal length in front decide first. */
  lemma {:induction false} LexFront(a: string, b: string, x: string, y: string)
    requires |a| == |b|
    ensures LexLe(a + x, b + y) <==> if a == b then LexLe(x, y) else LexLe(a, b)
    decreases |a|
  {
    if |a| == 0 {
      assert a + x == x && b + y == y;
    } else {
      assert (a + x)[1..] == a[1..] + x && (b + y)[1..] == b[1..] + y;
      assert a == [a[0]] + a[1..] && b == [b[0]] + b[1..];
      LexFront(a[1..], b[1..], x, y);
    }
  }

  lemma {:induction false} PadOrder(m: nat, n: nat, width: nat)
    requires m < Power(width) && n < Power(width)
    ensures LexLe(Pad(m, width), Pad(n, width)) <==> m <= n
    ensures Pad(m, width) == Pad(n, width) <==> m == n
    decreases width
  {
    if width > 0 {
      PadOrder(m / 10, n / 10, width - 1);
      PadOrder(n / 10, m / 10, width - 1);
      PadLength(m / 10, width - 1);
      PadLength(n / 10, width - 1);
      LexFront(Pad(m / 10, width - 1), Pad(n / 10, width - 1), [DigitChar(m % 10)], [DigitChar(n % 10)]);
      LexTotal(Pad(m / 10, width - 1), Pad(n / 10, width - 1));
      PadSplits(m, n, width);
    }
  }

  lemma PadSplits(m: nat, n: nat, width: nat)
    requires width > 0
    ensures Pad(m, width) == Pad(n, width) <==>
              Pad(m / 10, width - 1) == Pad(n / 10, width - 1) && m % 10 == n % 10
  {
    PadLength(m / 10, width - 1);
    PadLength(n / 10, width - 1);
    var a, b := Pad(m, width), Pad(n, width);
    assert a[..width - 1] == Pad(m / 10, width - 1) && a[width - 1] == DigitChar(m % 10);
    assert b[..width - 1] == Pad(n / 10, width - 1) && b[width - 1] == DigitChar(n % 10);
  }

  /** `isoformat()` leaves the fraction out when it is zero. */
  function Fraction(microsecond: nat): string { if microsecond == 0 then "" else "." + Pad(microsecond, 6) }

  datatype Part = Part(value: nat, width: nat, mark: char)

  function Parts(m: Moment): seq<Part> {
    [Part(m.year, 4, '-'), Part(m.month, 2, '-'), Part(m.day, 2, 'T'), Part(m.hour, 2, ':'), Part(m.minute, 2, ':')]
  }

  function Written(parts: seq<Part>, rest: string): string {
    if |parts| == 0 then rest else Pad(parts[0].value, parts[0].width) + ([parts[0].mark] + Written(parts[1..], rest))
  }

  function Seconds(m: Moment): string { Pad(m.second, 2) + (Fraction(m.microsecond) + "+00:00") }

  /** `isoformat_utc`. */
  function Iso(m: Moment): string { Written(Parts(m), Seconds(m)) }

  predicate PartsLe(p: seq<Part>, q: seq<Part>)
    requires |p| == |q|
  {
    |p| == 0 || p[0].value < q[0].value || (p[0].value == q[0].value && PartsLe(p[1..], q[1..]))
  }

  /** Time order: field by field. */
  predicate NoLater(m: Moment, n: Moment) {
    if Parts(m) != Parts(n) then PartsLe(Parts(m), Parts(n))
    else m.second < n.second || (m.second == n.second && m.microsecond <= n.microsecond)
  }

  ghost predicate SameLayout(p: seq<Part>, q: seq<Part>) {
    && |p| == |q|
    && forall i :: 0 <= i < |p| ==>
         && p[i].width == q[i].width && p[i].mark == q[i].mark
         && p[i].value < Power(p[i].width) && q[i].value < Power(q[i].width)
  }

  lemma LexSameMark(c: char, x: string, y: string)
    ensures LexLe([c] + x, [c] + y) <==> LexLe(x, y)
  {
    assert ([c] + x)[1..] == x && ([c] + y)[1..] == y;
  }

  lemma {:induction false} WrittenOrder(p: seq<Part>, q: seq<Part>, x: string, y: string)
    requires SameLayout(p, q)
    ensures LexLe(Written(p, x), Written(q, y)) <==> if p == q then LexLe(x, y) else PartsLe(p, q)
    decreases |p|
  {
    if |p| > 0 {
      var c := p[0].mark;
      WrittenOrder(p[1..], q[1..], x, y);
      PadOrder(p[0].value, q[0].value, p[0].width);
      PadLength(p[0].value, p[0].width);
      PadLength(q[0].value, p[0].width);
      LexFront(Pad(p[0].value, p[0].width), Pad(q[0].value, p[0].width), [c] + Written(p[1..], x),
               [c] + Written(q[1..], y));
      LexSameMark(c, Written(p[1..], x), Written(q[1..], y));
      assert p == [p[0]] + p[1..] && q == [q[0]] + q[1..];
    }
  }

  lemma Powers()
    ensures Power(2) == 100 && Power(4) == 10_000 && Power(6) == 1_000_000
  {
    assert Power(1) == 10 && Power(3) == 1_000 && Power(5) == 100_000;
  }

  /** The plus sign sorts before the point, so a missing fraction counts as zero. */
  lemma FractionOrder(m: nat, n: nat)
    requires m < 1_000_000 && n < 1_000_000
    ensures LexLe(Fraction(m) + "+00:00", Fraction(n) + "+00:00") <==> m <= n
  {
    var zone := "+00:00";
    LexTotal(zone, zone);
    Powers();
    PadOrder(m, n, 6);
    PadLength(m, 6);
    PadLength(n, 6);
    if m > 0 && n > 0 {
      assert Fraction(m) + zone == ['.'] + (Pad(m, 6) + zone) && Fraction(n) + zone == ['.'] + (Pad(n, 6) + zone);
      LexSameMark('.', Pad(m, 6) + zone, Pad(n, 6) + zone);
      LexFront(Pad(m, 6), Pad(n, 6), zone, zone);
    }
  }

  /** Sorting by the printed times is sorting by time. */
  lemma IsoOrder(m: Moment, n: Moment)
    requires MomentOk(m) && MomentOk(n)
    ensures LexLe(Iso(m), Iso(n)) <==> NoLater(m, n)
  {
    Powers();
    WrittenOrder(Parts(m), Parts(n), Seconds(m), Seconds(n));
    PadOrder(m.second, n.second, 2);
    PadLength(m.second, 2);
    PadLength(n.second, 2);
    LexFront(Pad(m.second, 2), Pad(n.second, 2), Fraction(m.microsecond) + "+00:00", Fraction(n.microsecond) + "+00:00");
    FractionOrder(m.microsecond, n.microsecond);
  }

  // ----- leaving rows out of a stable sort

  function FirstN<T>(xs: seq<T>, n: nat): seq<T> { if |xs| <= n then xs else xs[..n] }

  /** How many elements of `xs` may stand before `x`. */
  function AtMost<T>(le: (T, T) -> bool, xs: seq<T>, x: T): nat {
    if |xs| == 0 then 0 else (if le(xs[0], x) then 1 else 0) + AtMost(le, xs[1..], x)
  }

  lemma {:induction false} InsertWithin<T(!new)>(le: (T, T) -> bool, a: T, p: seq<T>, q: seq<T>, i: nat)
    requires i < |p| && le(a, p[i])
    ensures Insert(le, a, p + q) == Insert(le, a, p) + q && |Insert(le, a, p)| == |p| + 1
    decreases |p|
  {
    assert (p + q)[1..] == p[1..] + q;
    if le(a, p[0]) {
      assert [a] + (p + q) == [a] + p + q;
    } else {
      InsertWithin(le, a, p[1..], q, i - 1);
      assert [p[0]] + (Insert(le, a, p[1..]) + q) == [p[0]] + Insert(le, a, p[1..]) + q;
    }
  }

  lemma {:induction false} InsertBehind<T(!new)>(le: (T, T) -> bool, a: T, p: seq<T>, q: seq<T>)
    requires forall i :: 0 <= i < |p| ==> !le(a, p[i])
    ensures Insert(le, a, p + q) == p + Insert(le, a, q)
    decreases |p|
  {
    if |p| == 0 {
      assert p + q == q;
    } else {
      assert (p + q)[1..] == p[1..] + q;
      InsertBehind(le, a, p[1..], q);
      assert [p[0]] + (p[1..] + Insert(le, a, q)) == p + Insert(le, a, q);
    }
  }

  /** In a stable sort, `x` comes after every earlier element that may stand before it, and leaving it
      out moves nothing else. */
  lemma {:induction false} LeaveOut<T(!new)>(le: (T, T) -> bool, before: seq<T>, x: T, after: seq<T>)
    returns (p: seq<T>, q: seq<T>)
    requires TotalPreorder(le)
    ensures Sort(le, before + [x] + after) == p + [x] + q && Sort(le, before + after) == p + q
    ensures |p| >= AtMost(le, before, x)
    decreases |before|
  {
    if |before| == 0 {
      assert before + [x] + after == [x] + after && before + after == after;
      var sorted := Sort(le, after);
      p, q := SplitInsert(le, x, sorted);
    } else {
      var a, rest := before[0], before[1..];
      assert (before + [x] + after)[1..] == rest + [x] + after && (before + after)[1..] == rest + after;
      var p1, q1 := LeaveOut(le, rest, x, after);
      SortSorts(le, rest + [x] + after);
      p, q := InsertBeside(le, a, p1, x, q1);
    }
  }

  lemma {:induction false} SplitInsert<T(!new)>(le: (T, T) -> bool, x: T, ys: seq<T>) returns (p: seq<T>, q: seq<T>)
    ensures Insert(le, x, ys) == p + [x] + q && ys == p + q
    decreases |ys|
  {
    if |ys| == 0 || le(x, ys[0]) {
      p, q := [], ys;
    } else {
      p, q := SplitInsert(le, x, ys[1..]);
      assert ys == [ys[0]] + ys[1..];
      p := [ys[0]] + p;
    }
  }

  /** Inserting `a` into a sorted list with and without the `x` in its middle. */
  lemma InsertBeside<T(!new)>(le: (T, T) -> bool, a: T, p1: seq<T>, x: T, q1: seq<T>) returns (p: seq<T>, q: seq<T>)
    requires TotalPreorder(le) && SortedBy(le, p1 + [x] + q1)
    ensures Insert(le, a, p1 + [x] + q1) == p + [x] + q && Insert(le, a, p1 + q1) == p + q
    ensures |p| == |p1| + (if le(a, x) then 1 else 0) || |p| == |p1| + 1
  {
    assert p1 + [x] + q1 == p1 + ([x] + q1);
    if i :| 0 <= i < |p1| && le(a, p1[i]) {
      InsertWithin(le, a, p1, q1, i);
      InsertWithin(le, a, p1, [x] + q1, i);
      p, q := Insert(le, a, p1), q1;
    } else if le(a, x) {
      InsertBehind(le, a, p1, q1);
      InsertBehind(le, a, p1, [x] + q1);
      p, q := p1 + [a], q1;
      if |q1| > 0 {
        assert (p1 + [x] + q1)[|p1|] == x && (p1 + [x] + q1)[|p1| + 1] == q1[0];
        assert le(x, q1[0]);
      }
    } else {
      InsertBehind(le, a, p1, q1);
      InsertBehind(le, a, p1, [x] + q1);
      p, q := p1, Insert(le, a, q1);
    }
  }

  lemma {:induction false} AllAtMost<T>(le: (T, T) -> bool, more: seq<T>, front: seq<T>, x: T)
    requires forall i :: 0 <= i < |front| ==> le(front[i], x)
    ensures AtMost(le, more + front, x) >= |front|
    decreases |more|, |front|
  {
    if |more| > 0 {
      assert (more + front)[1..] == more[1..] + front;
      AllAtMost(le, more[1..], front, x);
    } else if |front| > 0 {
      assert more + front == front;
      assert [] + front[1..] == front[1..];
      AllAtMost(le, [], front[1..], x);
    }
  }

  /** The rows of a sorted source after the first `n` cannot be among the first `n` of a merge. */
  lemma {:induction false} LeaveOutTail<T(!new)>(le: (T, T) -> bool, before: seq<T>, front: seq<T>, tail: seq<T>,
                                                 after: seq<T>, n: nat)
    requires TotalPreorder(le) && |front| >= n
    requires forall i, j :: 0 <= i < |front| && 0 <= j < |tail| ==> le(front[i], tail[j])
    ensures FirstN(Sort(le, before + front + tail + after), n) == FirstN(Sort(le, before + front + after), n)
    decreases |tail|
  {
    if |tail| == 0 {
      assert before + front + tail + after == before + front + after;
    } else {
      var x, rest := tail[0], tail[1..];
      assert before + front + tail + after == (before + front) + [x] + (rest + after);
      assert before + front + rest + after == (before + front) + (rest + after);
      var p, q := LeaveOut(le, before + front, x, rest + after);
      AllAtMost(le, before, front, x);
      assert FirstN(p + [x] + q, n) == p[..n] == FirstN(p + q, n);
      LeaveOutTail(le, before, front, rest, after, n);
    }
  }

  // ----- merged pages

  function Concat<T>(sources: seq<seq<T>>): seq<T> { if |sources| == 0 then [] else sources[0] + Concat(sources[1..]) }

  function FirstOfEach<T>(sources: seq<seq<T>>, n: nat): seq<seq<T>> {
    if |sources| == 0 then [] else [FirstN(sources[0], n)] + FirstOfEach(sources[1..], n)
  }

  ghost predicate AllSorted<T>(le: (T, T) -> bool, sources: seq<seq<T>>) {
    forall i :: 0 <= i < |sources| ==> SortedBy(le, sources[i])
  }

  lemma {:induction false} FirstRowsSuffice<T(!new)>(le: (T, T) -> bool, before: seq<T>, sources: seq<seq<T>>, n: nat)
    requires TotalPreorder(le) && AllSorted(le, sources)
    ensures FirstN(Sort(le, before + Concat(FirstOfEach(sources, n))), n)
            == FirstN(Sort(le, before + Concat(sources)), n)
    decreases |sources|
  {
    if |sources| > 0 {
      var s, rest := sources[0], Concat(sources[1..]);
      var front := FirstN(s, n);
      FirstRowsSuffice(le, before + front, sources[1..], n);
      Regrouped(before, front, Concat(FirstOfEach(sources[1..], n)));
      assert Concat(FirstOfEach(sources, n)) == front + Concat(FirstOfEach(sources[1..], n)) by {
        assert FirstOfEach(sources, n)[1..] == FirstOfEach(sources[1..], n);
      }
      Regrouped(before, s, rest);
      if |s| > n {
        LeaveOutTail(le, before, front, s[n..], rest, n);
        Rejoined(before, s, rest, n);
      }
    }
  }

  lemma Regrouped<T>(a: seq<T>, b: seq<T>, c: seq<T>)
    ensures (a + b) + c == a + (b + c)
  {
  }

  lemma Rejoined<T>(before: seq<T>, s: seq<T>, rest: seq<T>, n: nat)
    requires n <= |s|
    ensures before + s[..n] + s[n..] + rest == before + s + rest
  {
    assert s == s[..n] + s[n..];
    Regrouped(before, s[..n], s[n..]);
  }

  /** Python's slice, cut to the length of the list. */
  function Slice<T>(xs: seq<T>, offset: nat, size: nat): seq<T> { FirstN(xs, offset + size)[|FirstN(xs, offset)|..] }

  /** One page, as it is computed. */
  function Page<T>(le: (T, T) -> bool, sources: seq<seq<T>>, offset: nat, size: nat): seq<T> {
    Slice(Sort(le, Concat(FirstOfEach(sources, offset + size))), offset, size)
  }

  lemma SlicesAgree<T>(xs: seq<T>, ys: seq<T>, offset: nat, size: nat)
    requires FirstN(xs, offset + size) == FirstN(ys, offset + size)
    ensures Slice(xs, offset, size) == Slice(ys, offset, size)
  {
    assert FirstN(xs, offset) == FirstN(FirstN(xs, offset + size), offset);
    assert FirstN(ys, offset) == FirstN(FirstN(ys, offset + size), offset);
  }

  lemma SlicesTile<T>(xs: seq<T>, offset: nat, size: nat)
    ensures FirstN(xs, offset) + Slice(xs, offset, size) == FirstN(xs, offset + size)
  {
  }

  /** A page computed from the first rows of each source is the page of the whole merged history. */
  lemma PageIsPageOfFullMerge<T(!new)>(le: (T, T) -> bool, sources: seq<seq<T>>, offset: nat, size: nat)
    requires TotalPreorder(le) && AllSorted(le, sources)
    ensures Page(le, sources, offset, size) == Slice(Sort(le, Concat(sources)), offset, size)
  {
    var n := offset + size;
    var all, some := Concat(sources), Concat(FirstOfEach(sources, n));
    FirstRowsSuffice(le, [], sources, n);
    assert [] + some == some && [] + all == all;
    SlicesAgree(Sort(le, some), Sort(le, all), offset, size);
  }

  /** Where page `page + 1` starts. */
  function Offset(page: nat, size: nat): (offset: nat)
    ensures offset == page * size
  {
    if page == 0 then 0 else Offset(page - 1, size) + size
  }

  /** The first `pages` pages, each computed on its own, one after the other. */
  function Pages<T>(le: (T, T) -> bool, sources: seq<seq<T>>, size: nat, pages: nat): seq<T> {
    if pages == 0 then [] else Pages(le, sources, size, pages - 1) + Page(le, sources, Offset(pages - 1, size), size)
  }

  /** Consecutive pages tile the merged history: nothing is missed and nothing is shown twice. */
  lemma {:induction false} PagesTileHistory<T(!new)>(le: (T, T) -> bool, sources: seq<seq<T>>, size: nat, pages: nat)
    requires TotalPreorder(le) && AllSorted(le, sources)
    ensures Pages(le, sources, size, pages) == FirstN(Sort(le, Concat(sources)), Offset(pages, size))
    decreases pages
  {
    if pages > 0 {
      var full, offset := Sort(le, Concat(sources)), Offset(pages - 1, size);
      PagesTileHistory(le, sources, size, pages - 1);
      PageIsPageOfFullMerge(le, sources, offset, size);
      SlicesTile(full, offset, size);
    }
  }

  // ----- the listing

  datatype Item = Item(occurredAt: Moment, particulars: string)

  /** `sort(key=..., reverse=True)` keeps the order of equal items. */
  function NewestFirst(): (Item, Item) -> bool { (a: Item, b: Item) => LexLe(Iso(b.occurredAt), Iso(a.occurredAt)) }

  /** What `ORDER BY ... DESC` gives. */
  ghost predicate Descending(source: seq<Item>) {
    && (forall i :: 0 <= i < |source| ==> MomentOk(source[i].occurredAt))
    && (forall i, j :: 0 <= i < j < |source| ==> NoLater(source[j].occurredAt, source[i].occurredAt))
  }

  lemma NewestFirstIsPreorder()
    ensures TotalPreorder(NewestFirst())
  {
    LexIsTotalOrder();
  }

  lemma DescendingIsSorted(source: seq<Item>)
    requires Descending(source)
    ensures SortedBy(NewestFirst(), source)
  {
    forall i, j | 0 <= i < j < |source| ensures NewestFirst()(source[i], source[j]) {
      IsoOrder(source[j].occurredAt, source[i].occurredAt);
    }
  }

  lemma {:induction false} ConcatFirstGrows<T>(sources: seq<seq<T>>, n: nat, i: nat)
    requires i < |sources|
    ensures Concat(FirstOfEach(sources[..i + 1], n)) == Concat(FirstOfEach(sources[..i], n)) + FirstN(sources[i], n)
    decreases i
  {
    var all, some := sources[..i + 1], sources[..i];
    if i == 0 {
      assert all[1..] == [] && some == [];
    } else {
      assert all[1..] == sources[1..][..i] && some[1..] == sources[1..][..i - 1];
      ConcatFirstGrows(sources[1..], n, i - 1);
    }
  }

  lemma NewestPage(sources: seq<seq<Item>>, offset: nat, size: nat)
    requires forall i :: 0 <= i < |sources| ==> Descending(sources[i])
    ensures Page(NewestFirst(), sources, offset, size) == Slice(Sort(NewestFirst(), Concat(sources)), offset, size)
  {
    NewestFirstIsPreorder();
    forall i | 0 <= i < |sources| ensures SortedBy(NewestFirst(), sources[i]) {
      DescendingIsSorted(sources[i]);
    }
    PageIsPageOfFullMerge(NewestFirst(), sources, offset, size);
  }

  /** A page shows events from the newest down. */
  lemma PagesGoBack(sources: seq<seq<Item>>, offset: nat, size: nat, i: int, j: int)
    requires var page := Page(NewestFirst(), sources, offset, size);
             0 <= i < j < |page| && MomentOk(page[i].occurredAt) && MomentOk(page[j].occurredAt)
    ensures var page := Page(NewestFirst(), sources, offset, size); NoLater(page[j].occurredAt, page[i].occurredAt)
  {
    var rows := Concat(FirstOfEach(sources, offset + size));
    var page := Page(NewestFirst(), sources, offset, size);
    NewestFirstIsPreorder();
    SortSorts(NewestFirst(), rows);
    SliceIsSorted(NewestFirst(), Sort(NewestFirst(), rows), offset, size);
    assert NewestFirst()(page[i], page[j]);
    IsoOrder(page[j].occurredAt, page[i].occurredAt);
  }

  lemma SliceIsSorted<T>(le: (T, T) -> bool, xs: seq<T>, offset: nat, size: nat)
    requires SortedBy(le, xs)
    ensures SortedBy(le, Slice(xs, offset, size))
  {
    var from, slice := |FirstN(xs, offset)|, Slice(xs, offset, size);
    forall i, j | 0 <= i < j < |slice| ensures le(slice[i], slice[j]) {
      assert slice[i] == xs[from + i] && slice[j] == xs[from + j];
    }
  }

  lemma CutIsSlice<T>(xs: seq<T>, offset: nat, size: nat)
    ensures var from, to := if |xs| <= offset then |xs| else offset, if |xs| <= offset + size then |xs| else offset + size;
            xs[from..to] == Slice(xs, offset, size)
  {
  }

  /** `list_audit_events` and `control_evidence`: the first rows of every selected source, sorted by
      printed time, and the page cut out of them. */
  method ListEvents(sources: seq<seq<Item>>, offset: nat, perPage: nat) returns (page: seq<Item>)
    requires forall i :: 0 <= i < |sources| ==> Descending(sources[i])
    ensures page == Slice(Sort(NewestFirst(), Concat(sources)), offset, perPage)
  {
    var limit := offset + perPage;
    var items: seq<Item> := [];
    for i := 0 to |sources|
      invariant items == Concat(FirstOfEach(sources[..i], limit))
    {
      ConcatFirstGrows(sources, limit, i);
      items := items + if |sources[i]| <= limit then sources[i] else sources[i][..limit];
    }
    assert sources[..|sources|] == sources;
    NewestPage(sources, offset, perPage);
    items := Sort(NewestFirst(), items);
    CutIsSlice(items, offset, perPage);
    var from, to := if |items| <= offset then |items| else offset, if |items| <= limit then |items| else limit;
    page := items[from..to];
  }
}
