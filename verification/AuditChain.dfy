/** Hash chains kept by the server: how events are appended
    (`backend/app/services/policy_assignments.py`, `backend/app/services/policy_sync.py`) and
    how a chain is verified (`backend/app/services/audit_verification.py`). */
module AuditChain {
  import opened Wrappers
  import opened Ordering
  import opened Reordering

  type Hash = string

  /** The evidence of one event, with the hash of its predecessor and its own. */
  datatype Link<E> = Link(body: E, time: int, previous: Option<Hash>, hash: Hash)

  /** A table row: the identifier is not part of the evidence. */
  datatype Row<E> = Row(id: int, link: Link<E>)

  /** SHA-256 over the sorted JSON of an event body, its time and its predecessor's hash. */
  type Digest<!E> = (E, int, Option<Hash>) -> Hash

  /** Two links of different evidence with one digest. */
  predicate Collide<E(==)>(digest: Digest<E>, a: Link<E>, b: Link<E>) {
    && digest(a.body, a.time, a.previous) == digest(b.body, b.time, b.previous)
    && (a.body, a.time, a.previous) != (b.body, b.time, b.previous)
  }

  ghost predicate CollisionFree<E>(digest: Digest<E>, a: seq<Link<E>>, b: seq<Link<E>>) {
    forall i, j :: 0 <= i < |a| && 0 <= j < |b| ==> !Collide(digest, a[i], b[j])
  }

  function LastHash<E>(links: seq<Link<E>>): Option<Hash> {
    if |links| == 0 then None else Some(links[|links| - 1].hash)
  }

  ghost predicate LinkOk<E>(digest: Digest<E>, links: seq<Link<E>>, i: int)
    requires 0 <= i < |links|
  {
    && links[i].previous == LastHash(links[..i])
    && links[i].hash == digest(links[i].body, links[i].time, links[i].previous)
  }

  /** What the verifier accepts: every link follows, and the stored head is the last hash. */
  ghost predicate Accepts<E>(digest: Digest<E>, links: seq<Link<E>>, head: Option<Hash>) {
    (forall i :: 0 <= i < |links| ==> LinkOk(digest, links, i)) && head == LastHash(links)
  }

  lemma LinkOkInPrefix<E>(digest: Digest<E>, links: seq<Link<E>>, i: int, n: int)
    requires 0 <= i < n <= |links|
    ensures LinkOk(digest, links[..n], i) <==> LinkOk(digest, links, i)
  {
    assert links[..n][..i] == links[..i];
  }

  lemma AcceptsPrefix<E>(digest: Digest<E>, links: seq<Link<E>>, n: nat)
    requires n <= |links| && Accepts(digest, links, LastHash(links))
    ensures Accepts(digest, links[..n], LastHash(links[..n]))
  {
    forall i | 0 <= i < n ensures LinkOk(digest, links[..n], i) {
      LinkOkInPrefix(digest, links, i, n);
    }
  }

  lemma CollisionFreeFronts<E>(digest: Digest<E>, a: seq<Link<E>>, b: seq<Link<E>>)
    requires |a| > 0 && |b| > 0 && CollisionFree(digest, a, b)
    ensures CollisionFree(digest, a[..|a| - 1], b[..|b| - 1]) && !Collide(digest, a[|a| - 1], b[|b| - 1])
  {
  }

  /** Two event lists accepted against the same head are identical unless two of their links
      collide, so no edit, deletion, insertion or reordering passes. */
  lemma {:induction false} SameHeadSameLinks<E>(digest: Digest<E>, a: seq<Link<E>>, b: seq<Link<E>>,
                                                head: Option<Hash>)
    requires CollisionFree(digest, a, b) && Accepts(digest, a, head) && Accepts(digest, b, head)
    ensures a == b
    decreases |a|
  {
    if |a| > 0 {
      var m, n := |a| - 1, |b| - 1;
      assert LinkOk(digest, a, m) && LinkOk(digest, b, n);
      AcceptsPrefix(digest, a, m);
      AcceptsPrefix(digest, b, n);
      CollisionFreeFronts(digest, a, b);
      SameHeadSameLinks(digest, a[..m], b[..n], a[m].previous);
      assert a == a[..m] + [a[m]] && b == b[..n] + [b[n]];
    }
  }

  lemma AcceptsAppend<E>(digest: Digest<E>, links: seq<Link<E>>, link: Link<E>)
    requires Accepts(digest, links, LastHash(links))
    requires link.previous == LastHash(links) && link.hash == digest(link.body, link.time, link.previous)
    ensures Accepts(digest, links + [link], Some(link.hash))
  {
    var all := links + [link];
    forall i | 0 <= i < |all| ensures LinkOk(digest, all, i) {
      assert all[..|links|] == links;
      if i < |links| {
        LinkOkInPrefix(digest, all, i, |links|);
      }
    }
  }

  // ----- verification

  /** `ORDER BY` time, then identifier. */
  function InOrder<E>(): (Row<E>, Row<E>) -> bool {
    (a: Row<E>, b: Row<E>) => a.link.time < b.link.time || (a.link.time == b.link.time && a.id <= b.id)
  }

  function LinkOf<E>(): Row<E> -> Link<E> { (r: Row<E>) => r.link }

  ghost predicate ChainVerifies<E>(digest: Digest<E>, rows: seq<Row<E>>, head: Option<Hash>) {
    Accepts(digest, Map(LinkOf(), Sort(InOrder(), rows)), head)
  }

  // ----- a table of chains

  /** All events in order of insertion, and the head of each chain. */
  datatype Table<E, K> = Table(rows: seq<Row<E>>, heads: map<K, Hash>)

  function RowsFor<E, K(==)>(key: E -> K, rows: seq<Row<E>>, k: K): seq<Row<E>> {
    if |rows| == 0 then []
    else
      var n := |rows| - 1;
      RowsFor(key, rows[..n], k) + if key(rows[n].link.body) == k then [rows[n]] else []
  }

  function HeadOf<E, K(==)>(t: Table<E, K>, k: K): Option<Hash> {
    if k in t.heads then Some(t.heads[k]) else None
  }

  /** One chain of the table passes verification. */
  ghost predicate Verifies<E, K>(digest: Digest<E>, key: E -> K, t: Table<E, K>, k: K) {
    ChainVerifies(digest, RowsFor(key, t.rows, k), HeadOf(t, k))
  }

  /** `verify_policy_assignment_chain` and `verify_policy_synchronization_chain`: one pass over
      the events of a chain in order, then its head. */
  method VerifyChain<E, K(==)>(digest: Digest<E>, key: E -> K, t: Table<E, K>, k: K) returns (ok: bool)
    ensures ok <==> Verifies(digest, key, t, k)
  {
    var events := Sort(InOrder(), RowsFor(key, t.rows, k));
    ghost var links := Map(LinkOf(), events);
    var expectedPrevious: Option<Hash> := None;
    for i := 0 to |events|
      invariant forall j :: 0 <= j < i ==> LinkOk(digest, links, j)
      invariant expectedPrevious == LastHash(links[..i])
    {
      var event := events[i].link;
      if event.previous != expectedPrevious {
        assert !LinkOk(digest, links, i);
        return false;
      }
      if event.hash != digest(event.body, event.time, expectedPrevious) {
        assert !LinkOk(digest, links, i);
        return false;
      }
      expectedPrevious := Some(event.hash);
      assert links[..i + 1] == links[..i] + [links[i]];
    }
    assert links[..|links|] == links;
    ok := if |events| > 0 then HeadOf(t, k) == expectedPrevious else HeadOf(t, k).None?;
  }

  function NextLink<E, K(==)>(digest: Digest<E>, key: E -> K, t: Table<E, K>, body: E, time: int): Link<E> {
    var previous := HeadOf(t, key(body));
    Link(body, time, previous, digest(body, time, previous))
  }

  /** The event row and the moved (or first) head. */
  function Append<E, K(==)>(digest: Digest<E>, key: E -> K, t: Table<E, K>, body: E, time: int): Table<E, K> {
    var link := NextLink(digest, key, t, body, time);
    Table(t.rows + [Row(|t.rows|, link)], t.heads[key(body) := link.hash])
  }

  /** A unique index of the event table, on event UUIDs or on hashes, objects to the next event. */
  predicate Taken<E, K(==)>(digest: Digest<E>, key: E -> K, uuid: E -> string, t: Table<E, K>, body: E, time: int) {
    exists i :: 0 <= i < |t.rows| &&
      (uuid(t.rows[i].link.body) == uuid(body) || t.rows[i].link.hash == NextLink(digest, key, t, body, time).hash)
  }

  ghost predicate ChainKept<E, K>(digest: Digest<E>, key: E -> K, t: Table<E, K>, k: K) {
    Accepts(digest, Map(LinkOf(), RowsFor(key, t.rows, k)), HeadOf(t, k))
  }

  /** Every chain links up in order of insertion. */
  ghost predicate Kept<E, K(!new)>(digest: Digest<E>, key: E -> K, t: Table<E, K>) {
    && (forall k :: ChainKept(digest, key, t, k))
    && (forall i :: 0 <= i < |t.rows| ==> t.rows[i].id == i)
  }

  lemma RowsForAppend<E, K>(key: E -> K, rows: seq<Row<E>>, row: Row<E>, k: K)
    ensures RowsFor(key, rows + [row], k) == RowsFor(key, rows, k) + if key(row.link.body) == k then [row] else []
  {
    assert (rows + [row])[..|rows|] == rows;
  }

  lemma {:induction false} RowsForMembers<E, K>(key: E -> K, rows: seq<Row<E>>, k: K, r: Row<E>)
    requires r in RowsFor(key, rows, k)
    ensures r in rows
  {
    var n := |rows| - 1;
    if r in RowsFor(key, rows[..n], k) {
      RowsForMembers(key, rows[..n], k, r);
    }
  }

  /** No event UUID and no hash is used twice. */
  ghost predicate UniqueRows<E>(uuid: E -> string, rows: seq<Row<E>>) {
    forall i, j :: 0 <= i < j < |rows| ==>
      uuid(rows[i].link.body) != uuid(rows[j].link.body) && rows[i].link.hash != rows[j].link.hash
  }

  lemma AppendKeepsUnique<E, K>(digest: Digest<E>, key: E -> K, uuid: E -> string, t: Table<E, K>, body: E, time: int)
    requires UniqueRows(uuid, t.rows) && !Taken(digest, key, uuid, t, body, time)
    ensures UniqueRows(uuid, Append(digest, key, t, body, time).rows)
  {
  }

  function ByTime<E>(): (Row<E>, Row<E>) -> bool { (a: Row<E>, b: Row<E>) => a.link.time <= b.link.time }

  ghost predicate TimesInOrder<E>(rows: seq<Row<E>>) { SortedBy(ByTime(), rows) }

  function ById<E>(): (Row<E>, Row<E>) -> bool { (a: Row<E>, b: Row<E>) => a.id <= b.id }

  /** A chain is a selection of the table's rows in the same order. */
  lemma {:induction false} RowsForSorted<E, K>(le: (Row<E>, Row<E>) -> bool, key: E -> K, rows: seq<Row<E>>, k: K)
    requires SortedBy(le, rows)
    ensures SortedBy(le, RowsFor(key, rows, k))
  {
    if |rows| > 0 {
      var n := |rows| - 1;
      var before := RowsFor(key, rows[..n], k);
      RowsForSorted(le, key, rows[..n], k);
      forall i | 0 <= i < |before| ensures le(before[i], rows[n]) {
        RowsForMembers(key, rows[..n], k, before[i]);
        var m :| 0 <= m < n && rows[m] == before[i];
      }
    }
  }

  lemma AppendKeeps<E, K(!new)>(digest: Digest<E>, key: E -> K, t: Table<E, K>, body: E, time: int)
    requires Kept(digest, key, t)
    ensures Kept(digest, key, Append(digest, key, t, body, time))
  {
    var link := NextLink(digest, key, t, body, time);
    var row := Row(|t.rows|, link);
    var after := Append(digest, key, t, body, time);
    forall k ensures ChainKept(digest, key, after, k) {
      assert ChainKept(digest, key, t, k);
      var was := RowsFor(key, t.rows, k);
      RowsForAppend(key, t.rows, row, k);
      if key(body) == k {
        AcceptsAppend(digest, Map(LinkOf(), was), link);
        assert Map(LinkOf(), was + [row]) == Map(LinkOf(), was) + [link];
        assert HeadOf(after, k) == Some(link.hash);
      } else {
        assert was + [] == was;
        assert HeadOf(after, k) == HeadOf(t, k);
      }
    }
  }

  lemma InOrderIsPreorder<E(!new)>()
    ensures TotalPreorder(InOrder<E>())
  {
  }

  ghost predicate RowsCollisionFree<E(!new)>(digest: Digest<E>, found: seq<Row<E>>, rows: seq<Row<E>>) {
    forall r, q :: r in found && q in rows ==> !Collide(digest, r.link, q.link)
  }

  /** Whatever rows are in the database, if they pass against the stored head they are the
      events that were appended, in the order in which they were appended. */
  lemma OnlyTheHistoryVerifies<E(!new), K(!new)>(digest: Digest<E>, key: E -> K, t: Table<E, K>, k: K,
                                                 found: seq<Row<E>>)
    requires Kept(digest, key, t) && RowsCollisionFree(digest, found, RowsFor(key, t.rows, k))
    requires ChainVerifies(digest, found, HeadOf(t, k))
    ensures Map(LinkOf(), Sort(InOrder(), found)) == Map(LinkOf(), RowsFor(key, t.rows, k))
  {
    assert ChainKept(digest, key, t, k);
    var links := Map(LinkOf(), Sort(InOrder(), found));
    InOrderIsPreorder<E>();
    SortSorts(InOrder(), found);
    forall i, j | 0 <= i < |links| && 0 <= j < |RowsFor(key, t.rows, k)|
      ensures !Collide(digest, links[i], Map(LinkOf(), RowsFor(key, t.rows, k))[j])
    {
      assert Sort(InOrder(), found)[i] in found && RowsFor(key, t.rows, k)[j] in RowsFor(key, t.rows, k);
    }
    SameHeadSameLinks(digest, links, Map(LinkOf(), RowsFor(key, t.rows, k)), HeadOf(t, k));
  }

  /** The verifier reads events by time, the appender links them by insertion: as long as the
      clock does not go back between two events of a chain, the chain verifies. */
  lemma VerifiesInTime<E(!new), K(!new)>(digest: Digest<E>, key: E -> K, t: Table<E, K>, k: K)
    requires Kept(digest, key, t) && TimesInOrder(RowsFor(key, t.rows, k))
    ensures Verifies(digest, key, t, k)
  {
    assert ChainKept(digest, key, t, k);
    RowsForSorted(ById(), key, t.rows, k);
    SortOfSorted(InOrder(), RowsFor(key, t.rows, k));
  }

  /** And only then. */
  lemma VerifiesExactlyInTime<E(!new), K(!new)>(digest: Digest<E>, key: E -> K, t: Table<E, K>, k: K)
    requires Kept(digest, key, t) && RowsCollisionFree(digest, RowsFor(key, t.rows, k), RowsFor(key, t.rows, k))
    ensures Verifies(digest, key, t, k) <==> TimesInOrder(RowsFor(key, t.rows, k))
  {
    var rows := RowsFor(key, t.rows, k);
    if TimesInOrder(rows) {
      VerifiesInTime(digest, key, t, k);
    }
    if Verifies(digest, key, t, k) {
      OnlyTheHistoryVerifies(digest, key, t, k, rows);
      var sorted := Sort(InOrder(), rows);
      InOrderIsPreorder<E>();
      SortSorts(InOrder(), rows);
      forall i, j | 0 <= i < j < |rows| ensures ByTime<E>()(rows[i], rows[j]) {
        assert Map(LinkOf(), rows)[i] == Map(LinkOf(), sorted)[i];
        assert Map(LinkOf(), rows)[j] == Map(LinkOf(), sorted)[j];
        assert InOrder<E>()(sorted[i], sorted[j]);
      }
    }
  }

  /** A chain that verifies keeps verifying after an append exactly when none of its events is later
      than the new one. */
  lemma AppendVerifiesExactlyInTime<E(!new), K(!new)>(digest: Digest<E>, key: E -> K, t: Table<E, K>, body: E, time: int)
    requires var after := Append(digest, key, t, body, time);
             var rows := RowsFor(key, after.rows, key(body));
             Kept(digest, key, t) && Verifies(digest, key, t, key(body)) && RowsCollisionFree(digest, rows, rows)
    ensures Verifies(digest, key, Append(digest, key, t, body, time), key(body))
       <==> NoneLater(RowsFor(key, t.rows, key(body)), time)
  {
    var k, row := key(body), Row(|t.rows|, NextLink(digest, key, t, body, time));
    var rows := RowsFor(key, t.rows, k);
    RowsForAppend(key, t.rows, row, k);
    assert forall r :: r in rows ==> r in rows + [row];
    AppendKeeps(digest, key, t, body, time);
    VerifiesExactlyInTime(digest, key, t, k);
    VerifiesExactlyInTime(digest, key, Append(digest, key, t, body, time), k);
    OneMoreInTime(rows, row);
  }

  ghost predicate NoneLater<E>(rows: seq<Row<E>>, time: int) {
    forall i :: 0 <= i < |rows| ==> rows[i].link.time <= time
  }

  lemma OneMoreInTime<E>(rows: seq<Row<E>>, row: Row<E>)
    requires TimesInOrder(rows)
    ensures TimesInOrder(rows + [row]) <==> NoneLater(rows, row.link.time)
  {
    var all := rows + [row];
    if TimesInOrder(all) {
      forall i | 0 <= i < |rows| ensures rows[i].link.time <= row.link.time {
        assert ByTime<E>()(all[i], all[|rows|]);
      }
    }
  }

  function NoEvents<E, K>(): Table<E, K> { Table([], map[]) }

  /** The smallest chain of the appender that fails: two events, the second recorded earlier. */
  lemma ClockGoingBackIsRefused<E(!new), K(!new)>(digest: Digest<E>, key: E -> K, first: E, second: E,
                                                  earlier: int, later: int)
    requires earlier < later && key(first) == key(second)
    requires digest(first, later, None) != digest(second, earlier, Some(digest(first, later, None)))
    ensures var t := Append(digest, key, Append(digest, key, NoEvents<E, K>(), first, later), second, earlier);
            Kept(digest, key, t) && !Verifies(digest, key, t, key(first))
  {
    var empty, k := NoEvents<E, K>(), key(first);
    var one := Append(digest, key, empty, first, later);
    NoEventsKept(digest, key);
    AppendKeeps(digest, key, empty, first, later);
    AppendKeeps(digest, key, one, second, earlier);
    assert one.rows[..0] == [];
    assert RowsFor(key, one.rows, k) == [one.rows[0]];
    RowsForAppend(key, one.rows, Row(1, NextLink(digest, key, one, second, earlier)), k);
    VerifiesInTime(digest, key, one, k);
    AppendVerifiesExactlyInTime(digest, key, one, second, earlier);
  }

  lemma NoEventsKept<E(!new), K(!new)>(digest: Digest<E>, key: E -> K)
    ensures Kept(digest, key, NoEvents<E, K>())
  {
    forall k ensures ChainKept(digest, key, NoEvents<E, K>(), k) {
      assert RowsFor(key, [], k) == [];
    }
  }

  /** All events so far, in order, none later than `until`. */
  ghost predicate Timed<E, K>(t: Table<E, K>, until: int) {
    TimesInOrder(t.rows) && forall i :: 0 <= i < |t.rows| ==> t.rows[i].link.time <= until
  }

  lemma AppendTimed<E, K>(digest: Digest<E>, key: E -> K, t: Table<E, K>, body: E, time: int)
    requires Timed(t, time)
    ensures Timed(Append(digest, key, t, body, time), time)
  {
  }

  lemma TimedVerifies<E(!new), K(!new)>(digest: Digest<E>, key: E -> K, t: Table<E, K>, k: K, until: int)
    requires Kept(digest, key, t) && Timed(t, until)
    ensures Verifies(digest, key, t, k)
  {
    RowsForSorted(ByTime(), key, t.rows, k);
    VerifiesInTime(digest, key, t, k);
  }
}
