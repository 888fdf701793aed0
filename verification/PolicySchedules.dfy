/** The weekly schedule check of `validate_policy_v2` (`backend/app/policy_contract.py`):
    windows may wrap midnight and day 7 to day 1. */
module PolicySchedules {
  import opened Wrappers
  import opened Ordering
  import opened PolicyNames
  import opened Reordering

  const MAX_SCHEDULES := 64

  datatype Schedule = Schedule(id: string, days: seq<int>, start: int, end: int, modeId: string, priority: int)

  function IsDay(): int -> bool { (day: int) => 1 <= day <= 7 }

  ghost predicate WindowFields(s: Schedule) {
    && s.days != [] && Distinct(s.days) && All(IsDay(), s.days)
    && 0 <= s.start <= 1439 && 0 <= s.end <= 1439 && s.start != s.end
    && 0 <= s.priority <= 1000
  }

  ghost predicate FieldsOk(s: Schedule, modeIds: set<string>) {
    WindowFields(s) && IsIdentifier(s.id) && IsIdentifier(s.modeId) && s.modeId in modeIds
  }

  function Yesterday(day: int): int { if day == 1 then 7 else day - 1 }

  /** What a schedule means: on its days from `start` on, past midnight when `end` comes first. */
  ghost predicate Active(s: Schedule, day: int, minute: int) {
    if s.start < s.end then day in s.days && s.start <= minute < s.end
    else (day in s.days && s.start <= minute) || (Yesterday(day) in s.days && minute < s.end)
  }

  ghost predicate IsInstant(day: int, minute: int) { 1 <= day <= 7 && 0 <= minute < 1440 }

  ghost predicate BothActive(a: Schedule, b: Schedule, day: int, minute: int) {
    IsInstant(day, minute) && Active(a, day, minute) && Active(b, day, minute)
  }

  ghost predicate Collide(a: Schedule, b: Schedule) {
    a.priority == b.priority && exists day, minute :: BothActive(a, b, day, minute)
  }

  ghost predicate Acceptable(raw: seq<Schedule>, modeIds: set<string>) {
    && |raw| <= MAX_SCHEDULES
    && (forall i :: 0 <= i < |raw| ==> FieldsOk(raw[i], modeIds))
    && (forall i, j :: 0 <= i < j < |raw| ==> raw[i].id != raw[j].id && !Collide(raw[i], raw[j]))
  }

  function NumberLe(): (int, int) -> bool { (a: int, b: int) => a <= b }

  function Normal(): Schedule -> Schedule { (s: Schedule) => s.(days := Sort(NumberLe(), s.days)) }

  function Id(): Schedule -> string { (s: Schedule) => s.id }

  // ----- marking a window, cell by cell

  type Cell = (int, int, int)

  ghost function Cells(s: Schedule): iset<Cell> {
    iset c: Cell | IsInstant(c.0, c.1) && Active(s, c.0, c.1) && c.2 == s.priority
  }

  function Range(a: int, b: int): (r: seq<int>)
    ensures a <= b ==> |r| == b - a && forall i :: 0 <= i < |r| ==> r[i] == a + i
    ensures a > b ==> r == []
    decreases b - a
  {
    if a >= b then [] else [a] + Range(a + 1, b)
  }

  function Minutes(s: Schedule): seq<int> {
    if s.start < s.end then Range(s.start, s.end) else Range(s.start, 1440) + Range(0, s.end)
  }

  function CellOf(s: Schedule, day: int, minute: int): Cell {
    (if s.start > s.end && minute < s.end then day % 7 + 1 else day, minute, s.priority)
  }

  /** The cells the loops mark on day `i` before minute `j`, and on the days before `i`. */
  ghost function RowCells(s: Schedule, i: nat, j: nat): set<Cell>
    requires i < |s.days| && j <= |Minutes(s)|
  {
    if j == 0 then {} else RowCells(s, i, j - 1) + {CellOf(s, s.days[i], Minutes(s)[j - 1])}
  }

  ghost function DayCells(s: Schedule, i: nat): set<Cell>
    requires i <= |s.days|
  {
    if i == 0 then {} else DayCells(s, i - 1) + RowCells(s, i - 1, |Minutes(s)|)
  }

  lemma CellIsActive(s: Schedule, a: int, b: int)
    requires WindowFields(s) && 0 <= a < |s.days| && 0 <= b < |Minutes(s)|
    ensures CellOf(s, s.days[a], Minutes(s)[b]) in Cells(s)
  {
    var day, minute := s.days[a], Minutes(s)[b];
    if s.start > s.end && minute < s.end {
      assert Yesterday(day % 7 + 1) == day;
    }
  }

  /** A schedule visits no cell twice, even when its window wraps. */
  lemma CellsDiffer(s: Schedule, a: int, b: int, c: int, d: int)
    requires WindowFields(s) && 0 <= a < |s.days| && 0 <= b < |Minutes(s)|
    requires 0 <= c < |s.days| && 0 <= d < |Minutes(s)|
    requires CellOf(s, s.days[a], Minutes(s)[b]) == CellOf(s, s.days[c], Minutes(s)[d])
    ensures a == c && b == d
  {
    assert Minutes(s)[b] == Minutes(s)[d];
    assert s.days[a] == s.days[c];
  }

  lemma {:induction false} RowMember(s: Schedule, i: nat, j: nat, c: Cell)
    requires i < |s.days| && j <= |Minutes(s)|
    ensures c in RowCells(s, i, j) <==> exists b :: 0 <= b < j && c == CellOf(s, s.days[i], Minutes(s)[b])
  {
    if j > 0 {
      RowMember(s, i, j - 1, c);
      var minutes := Minutes(s);
      assert c in RowCells(s, i, j) <==> c in RowCells(s, i, j - 1) || c == CellOf(s, s.days[i], minutes[j - 1]);
      if b :| 0 <= b < j && c == CellOf(s, s.days[i], minutes[b]) {
        assert b < j - 1 || b == j - 1;
      }
    }
  }

  lemma {:induction false} DayMember(s: Schedule, i: nat, c: Cell)
    requires i <= |s.days|
    ensures c in DayCells(s, i)
       <==> exists a, b :: 0 <= a < i && 0 <= b < |Minutes(s)| && c == CellOf(s, s.days[a], Minutes(s)[b])
  {
    if i > 0 {
      DayMember(s, i - 1, c);
      RowMember(s, i - 1, |Minutes(s)|, c);
    }
  }

  lemma CellVisited(s: Schedule, c: Cell) returns (a: int, b: int)
    requires WindowFields(s) && c in Cells(s)
    ensures 0 <= a < |s.days| && 0 <= b < |Minutes(s)| && c == CellOf(s, s.days[a], Minutes(s)[b])
  {
    var (day, minute, _) := c;
    var from := if minute < s.end && s.start > s.end && !(day in s.days && s.start <= minute) then Yesterday(day) else day;
    assert from in s.days;
    a :| 0 <= a < |s.days| && s.days[a] == from;
    b := if s.start < s.end || s.start <= minute then minute - s.start else 1440 - s.start + minute;
    assert Minutes(s)[b] == minute;
  }

  /** Together the loops visit exactly the cells in which the schedule is active. */
  lemma AllCellsMarked(s: Schedule)
    requires WindowFields(s)
    ensures forall c :: c in DayCells(s, |s.days|) <==> c in Cells(s)
  {
    forall c ensures c in DayCells(s, |s.days|) <==> c in Cells(s) {
      DayMember(s, |s.days|, c);
      if c in Cells(s) {
        var a, b := CellVisited(s, c);
      }
      if c in DayCells(s, |s.days|) {
        var a, b :| 0 <= a < |s.days| && 0 <= b < |Minutes(s)| && c == CellOf(s, s.days[a], Minutes(s)[b]);
        CellIsActive(s, a, b);
      }
    }
  }

  lemma NotMarkedYet(s: Schedule, i: nat, j: nat)
    requires WindowFields(s) && i < |s.days| && j < |Minutes(s)|
    ensures CellOf(s, s.days[i], Minutes(s)[j]) !in DayCells(s, i) + RowCells(s, i, j)
  {
    var key := CellOf(s, s.days[i], Minutes(s)[j]);
    DayMember(s, i, key);
    RowMember(s, i, j, key);
    if a, b :| 0 <= a < i && 0 <= b < |Minutes(s)| && key == CellOf(s, s.days[a], Minutes(s)[b]) {
      CellsDiffer(s, a, b, i, j);
    }
    if b :| 0 <= b < j && key == CellOf(s, s.days[i], Minutes(s)[b]) {
      CellsDiffer(s, i, b, i, j);
    }
  }

  ghost predicate Free(occupied: set<Cell>, s: Schedule) { forall c :: c in Cells(s) ==> c !in occupied }

  ghost predicate Fills(after: set<Cell>, occupied: set<Cell>, s: Schedule) {
    forall c :: c in after <==> c in occupied || c in Cells(s)
  }

  lemma RowOfWindow(s: Schedule, i: nat)
    requires WindowFields(s) && i < |s.days|
    ensures forall c :: c in RowCells(s, i, |Minutes(s)|) ==> c in Cells(s)
  {
    forall c | c in RowCells(s, i, |Minutes(s)|) ensures c in Cells(s) {
      RowMember(s, i, |Minutes(s)|, c);
      var b :| 0 <= b < |Minutes(s)| && c == CellOf(s, s.days[i], Minutes(s)[b]);
      CellIsActive(s, i, b);
    }
  }

  /** The innermost loop: the minutes of one day, refused exactly when one of them is taken by an
      earlier schedule. */
  method OccupyDay(taken: set<Cell>, ghost occupied: set<Cell>, s: Schedule, i: nat) returns (r: Result<set<Cell>>)
    requires WindowFields(s) && i < |s.days|
    requires taken == occupied + DayCells(s, i)
    ensures r.Ok? <==> RowCells(s, i, |Minutes(s)|) !! occupied
    ensures r.Ok? ==> r.value == occupied + DayCells(s, i + 1)
  {
    var next := taken;
    var minutes := Minutes(s);
    for j := 0 to |minutes|
      invariant next == taken + RowCells(s, i, j)
      invariant RowCells(s, i, j) !! occupied
    {
      var key := CellOf(s, s.days[i], minutes[j]);
      NotMarkedYet(s, i, j);
      if key in next {
        RowMember(s, i, |minutes|, key);
        return Err;
      }
      next := next + {key};
    }
    r := Ok(next);
  }

  /** The loops over days and minutes: mark the window of one schedule, refusing a cell
      already taken. */
  method Occupy(occupied: set<Cell>, s: Schedule) returns (r: Result<set<Cell>>)
    requires WindowFields(s)
    ensures r.Ok? <==> Free(occupied, s)
    ensures r.Ok? ==> Fills(r.value, occupied, s)
  {
    var taken := occupied;
    for i := 0 to |s.days|
      invariant taken == occupied + DayCells(s, i)
      invariant DayCells(s, i) !! occupied
    {
      var day := OccupyDay(taken, occupied, s, i);
      if day.Err? {
        RowOfWindow(s, i);
        return Err;
      }
      taken := day.value;
    }
    AllCellsMarked(s);
    r := Ok(taken);
  }

  ghost predicate TakenBy(raw: seq<Schedule>, n: int, c: Cell) {
    exists k :: 0 <= k < n <= |raw| && c in Cells(raw[k])
  }

  lemma CollisionIsSharedCell(a: Schedule, b: Schedule)
    ensures Collide(a, b) <==> exists c :: c in Cells(a) && c in Cells(b)
  {
    if Collide(a, b) {
      var day, minute :| BothActive(a, b, day, minute);
      var c: Cell := (day, minute, a.priority);
      assert c in Cells(a) && c in Cells(b);
    }
    if c :| c in Cells(a) && c in Cells(b) {
      assert BothActive(a, b, c.0, c.1);
    }
  }

  method CheckFields(s: Schedule, modeIds: set<string>) returns (ok: bool)
    ensures ok <==> FieldsOk(s, modeIds)
  {
    assert forall i :: 0 <= i < |s.days| ==> s.days[i] in s.days;
    if s.days == [] || (exists d :: d in s.days && !(1 <= d <= 7)) {
      return false;
    }
    var seen: set<int> := {};
    for i := 0 to |s.days|
      invariant forall d :: d in seen <==> d in s.days[..i]
      invariant Distinct(s.days[..i])
    {
      assert forall k :: 0 <= k < i ==> s.days[..i][k] == s.days[k];
      if s.days[i] in seen {
        var k :| 0 <= k < i && s.days[..i][k] == s.days[i];
        assert !Distinct(s.days);
        return false;
      }
      assert s.days[..i + 1] == s.days[..i] + [s.days[i]];
      seen := seen + {s.days[i]};
    }
    assert s.days[..|s.days|] == s.days;
    ok := && 0 <= s.start <= 1439 && 0 <= s.end <= 1439 && s.start != s.end && 0 <= s.priority <= 1000
          && IsIdentifier(s.id) && IsIdentifier(s.modeId) && s.modeId in modeIds;
  }

  /** The schedule loop accepts exactly when the fields are right, the identifiers differ and
      no two different schedules of one priority are ever active together. */
  method ValidateSchedules(raw: seq<Schedule>, modeIds: set<string>) returns (r: Result<seq<Schedule>>)
    ensures r.Ok? <==> Acceptable(raw, modeIds)
    ensures r.Ok? ==> r.value == Sort(ByKey(Id()), Map(Normal(), raw))
  {
    if |raw| > MAX_SCHEDULES {
      return Err;
    }
    var schedules: seq<Schedule> := [];
    var ids: set<string> := {};
    var occupied: set<Cell> := {};
    var i := 0;
    while i < |raw|
      invariant 0 <= i <= |raw|
      invariant Acceptable(raw[..i], modeIds)
      invariant forall x :: x in ids <==> exists k :: 0 <= k < i && raw[k].id == x
      invariant forall c :: c in occupied <==> TakenBy(raw, i, c)
      invariant schedules == Map(Normal(), raw[..i])
    {
      var s := raw[i];
      var ok := CheckFields(s, modeIds);
      if !ok || s.id in ids {
        return Err;
      }
      var next := Occupy(occupied, s);
      forall k | 0 <= k < i ensures Collide(raw[k], s) <==> exists c :: c in Cells(raw[k]) && c in Cells(s) {
        CollisionIsSharedCell(raw[k], s);
      }
      if next.Err? {
        ghost var c :| c in Cells(s) && c in occupied;
        ghost var k :| 0 <= k < i && c in Cells(raw[k]);
        assert Collide(raw[k], raw[i]);
        return Err;
      }
      forall k | 0 <= k < i ensures !Collide(raw[k], s) {
        if c :| c in Cells(raw[k]) && c in Cells(s) {
          assert TakenBy(raw, i, c);
        }
      }
      forall c ensures TakenBy(raw, i + 1, c) <==> TakenBy(raw, i, c) || c in Cells(s) {
      }
      assert raw[..i + 1] == raw[..i] + [s];
      assert raw[..i + 1][..i] == raw[..i];
      ids := ids + {s.id};
      occupied := next.value;
      schedules := schedules + [Normal()(s)];
      i := i + 1;
    }
    assert raw[..|raw|] == raw;
    r := Ok(Sort(ByKey(Id()), schedules));
  }

  // ----- acceptance does not depend on order

  ghost function FieldsCheck(modeIds: set<string>): Schedule -> bool { (s: Schedule) => FieldsOk(s, modeIds) }

  lemma CollideSymmetric(a: Schedule, b: Schedule)
    ensures Collide(a, b) <==> Collide(b, a)
  {
    assert forall day, minute :: BothActive(a, b, day, minute) <==> BothActive(b, a, day, minute);
  }

  ghost predicate Peaceful(raw: seq<Schedule>) {
    forall x, y :: x in raw && y in raw && x.id != y.id ==> !Collide(x, y)
  }

  lemma AcceptableByMembers(raw: seq<Schedule>, modeIds: set<string>)
    ensures Acceptable(raw, modeIds)
       <==> |raw| <= MAX_SCHEDULES && All(FieldsCheck(modeIds), raw) && DistinctBy(Id(), raw) && Peaceful(raw)
  {
    if Acceptable(raw, modeIds) {
      forall x, y | x in raw && y in raw && x.id != y.id ensures !Collide(x, y) {
        var i :| 0 <= i < |raw| && raw[i] == x;
        var j :| 0 <= j < |raw| && raw[j] == y;
        CollideSymmetric(x, y);
        assert i < j || j < i;
      }
    }
    if Peaceful(raw) && DistinctBy(Id(), raw) {
      forall i, j | 0 <= i < j < |raw| ensures raw[i].id != raw[j].id && !Collide(raw[i], raw[j]) {
        assert Id()(raw[i]) != Id()(raw[j]);
      }
    }
  }

  ghost predicate SameWindow(a: Schedule, b: Schedule) {
    b == a.(days := b.days) && multiset(a.days) == multiset(b.days)
  }

  lemma SameWindowSameMeaning(a: Schedule, b: Schedule)
    requires SameWindow(a, b)
    ensures forall day, minute :: Active(a, day, minute) <==> Active(b, day, minute)
    ensures forall ids :: FieldsOk(a, ids) <==> FieldsOk(b, ids)
    ensures Normal()(a) == Normal()(b)
    ensures Id()(a) == Id()(b)
  {
    SameMembers(a.days, b.days);
    DistinctIgnoresOrder(Itself<int>(), a.days, b.days);
    AllIgnoresOrder(IsDay(), a.days, b.days);
    SortIgnoresOrder(NumberLe(), a.days, b.days);
  }

  lemma NormalIsSameWindow(s: Schedule)
    ensures SameWindow(s, Normal()(s)) && Normal()(Normal()(s)) == Normal()(s)
  {
    SortSorts(NumberLe(), s.days);
    SortOfSorted(NumberLe(), Sort(NumberLe(), s.days));
  }

  ghost predicate HasWindow(x: Schedule, ys: seq<Schedule>) { exists y :: y in ys && SameWindow(x, y) }

  ghost predicate Represented(xs: seq<Schedule>, ys: seq<Schedule>) {
    forall x :: x in xs ==> HasWindow(x, ys)
  }

  lemma PeacefulTransfers(xs: seq<Schedule>, ys: seq<Schedule>)
    requires Represented(xs, ys) && Peaceful(ys)
    ensures Peaceful(xs)
  {
    forall a, b | a in xs && b in xs && a.id != b.id ensures !Collide(a, b) {
      assert HasWindow(a, ys) && HasWindow(b, ys);
      var c :| c in ys && SameWindow(a, c);
      var d :| d in ys && SameWindow(b, d);
      SameWindowSameMeaning(a, c);
      SameWindowSameMeaning(b, d);
      assert !Collide(c, d);
      assert forall day, minute :: BothActive(a, b, day, minute) <==> BothActive(c, d, day, minute);
    }
  }

  ghost function Window(): (Schedule, Schedule) -> bool { (a: Schedule, b: Schedule) => SameWindow(a, b) }

  lemma AgreeingRepresented(xs: seq<Schedule>, zs: seq<Schedule>)
    requires Agree(Window(), xs, zs)
    ensures Represented(xs, zs) && Represented(zs, xs)
  {
    forall x | x in xs ensures HasWindow(x, zs) {
      var i :| 0 <= i < |xs| && xs[i] == x;
      assert Window()(xs[i], zs[i]);
    }
    forall z | z in zs ensures HasWindow(z, xs) {
      var i :| 0 <= i < |zs| && zs[i] == z;
      assert Window()(xs[i], zs[i]) && SameWindow(zs[i], xs[i]);
    }
  }

  lemma ReorderedRepresented(xs: seq<Schedule>, ys: seq<Schedule>)
    requires Reordered(Window(), xs, ys)
    ensures Represented(xs, ys) && Represented(ys, xs)
  {
    var zs :| multiset(zs) == multiset(ys) && Agree(Window(), xs, zs);
    AgreeingRepresented(xs, zs);
    SameMembers(zs, ys);
    forall x | x in xs ensures HasWindow(x, ys) {
      assert HasWindow(x, zs);
    }
    forall y | y in ys ensures HasWindow(y, xs) {
      assert y in zs;
    }
  }

  lemma ReorderedWindows(xs: seq<Schedule>, ys: seq<Schedule>, modeIds: set<string>)
    requires Reordered(Window(), xs, ys)
    ensures |xs| == |ys| && (All(FieldsCheck(modeIds), xs) <==> All(FieldsCheck(modeIds), ys))
    ensures DistinctBy(Id(), xs) <==> DistinctBy(Id(), ys)
    ensures multiset(Map(Normal(), xs)) == multiset(Map(Normal(), ys))
  {
    forall a, b | Window()(a, b)
      ensures (FieldsCheck(modeIds)(a) <==> FieldsCheck(modeIds)(b)) && Id()(a) == Id()(b)
      ensures Normal()(a) == Normal()(b)
    {
      SameWindowSameMeaning(a, b);
    }
    ReorderedKeeps(Window(), FieldsCheck(modeIds), Id(), Normal(), xs, ys);
  }

  lemma ReorderedPeaceful(xs: seq<Schedule>, ys: seq<Schedule>)
    requires Reordered(Window(), xs, ys)
    ensures Peaceful(xs) <==> Peaceful(ys)
  {
    ReorderedRepresented(xs, ys);
    if Peaceful(ys) { PeacefulTransfers(xs, ys); }
    if Peaceful(xs) { PeacefulTransfers(ys, xs); }
  }

  /** Reordering the schedules, and the days inside them, changes neither acceptance nor output. */
  lemma SchedulesIgnoreOrder(xs: seq<Schedule>, ys: seq<Schedule>, modeIds: set<string>)
    requires Reordered(Window(), xs, ys)
    ensures Acceptable(xs, modeIds) <==> Acceptable(ys, modeIds)
    ensures Acceptable(xs, modeIds) ==>
              Sort(ByKey(Id()), Map(Normal(), xs)) == Sort(ByKey(Id()), Map(Normal(), ys))
  {
    ReorderedWindows(xs, ys, modeIds);
    ReorderedPeaceful(xs, ys);
    AcceptableByMembers(xs, modeIds);
    AcceptableByMembers(ys, modeIds);
    if DistinctBy(Id(), xs) {
      NormalKeepsIds(xs);
      SortByKeyIgnoresOrder(Id(), Map(Normal(), xs), Map(Normal(), ys));
    }
  }

  lemma NormalKeepsIds(xs: seq<Schedule>)
    requires DistinctBy(Id(), xs)
    ensures DistinctBy(Id(), Map(Normal(), xs))
  {
    forall i, j | 0 <= i < j < |xs| ensures Id()(Map(Normal(), xs)[i]) != Id()(Map(Normal(), xs)[j]) {
      assert Id()(xs[i]) != Id()(xs[j]);
    }
  }

  /** Sorted, normalised schedules are accepted again and stay as they are. */
  lemma SchedulesFixed(raw: seq<Schedule>, modeIds: set<string>)
    requires Acceptable(raw, modeIds)
    ensures var out := Sort(ByKey(Id()), Map(Normal(), raw));
            Acceptable(out, modeIds) && Sort(ByKey(Id()), Map(Normal(), out)) == out
  {
    var out := Sort(ByKey(Id()), Map(Normal(), raw));
    AcceptableByMembers(raw, modeIds);
    forall x | x in raw ensures Id()(Normal()(x)) == Id()(x) && Normal()(Normal()(x)) == Normal()(x) {
      NormalIsSameWindow(x);
    }
    SortMapFixed(Id(), Normal(), raw);
    forall y | y in out ensures FieldsOk(y, modeIds) && HasWindow(y, raw) {
      var x :| x in raw && y == Normal()(x);
      NormalIsSameWindow(x);
      SameWindowSameMeaning(x, y);
      assert SameWindow(y, x) && FieldsCheck(modeIds)(x);
    }
    PeacefulTransfers(out, raw);
    AcceptableByMembers(out, modeIds);
  }

  /** In an accepted policy the active schedule of highest priority is unique at every instant. */
  lemma HighestPriorityUnique(raw: seq<Schedule>, modeIds: set<string>, day: int, minute: int, i: int, j: int)
    requires Acceptable(raw, modeIds) && IsInstant(day, minute)
    requires 0 <= i < |raw| && Active(raw[i], day, minute)
    requires 0 <= j < |raw| && Active(raw[j], day, minute)
    requires forall k :: 0 <= k < |raw| && Active(raw[k], day, minute) ==>
               raw[k].priority <= raw[i].priority && raw[k].priority <= raw[j].priority
    ensures i == j
  {
    if i < j {
      assert BothActive(raw[i], raw[j], day, minute);
    } else if j < i {
      assert BothActive(raw[j], raw[i], day, minute);
    }
  }
}
