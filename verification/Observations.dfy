/** Reports of devices and the state row each kind of report overwrites: the pattern shared by
    check-ins and policy acknowledgements (`backend/app/services/device_status.py`). */
module Observations {
  import opened Wrappers

  datatype Row<R> = Row(report: R, device: int, credential: int, receivedAt: int, contentHash: string)

  /** The state row of a device: the report it was last overwritten from, when that one was received,
      and the columns copied from it. */
  datatype State<C> = State(last: nat, receivedAt: int, columns: C)

  datatype Table<R, C> = Table(rows: seq<Row<R>>, states: map<int, State<C>>)

  /** How reports of one kind are identified, dated, hashed and copied. */
  datatype Kind<!R, !C> = Kind(uuid: R -> string, observedAt: R -> int, hash: R -> string, columns: R -> C,
                               observed: C -> int)

  /** The copied columns include the time of observation. */
  ghost predicate KindOk<R(!new), C>(k: Kind<R, C>) { forall r :: k.observed(k.columns(r)) == k.observedAt(r) }

  datatype Outcome = Receipt(uuid: string, replayed: bool) | Conflict

  datatype Delivery<R> = Delivery(report: R, device: int, credential: int, now: int)

  function Empty<R, C>(): Table<R, C> { Table([], map[]) }

  function Find<R, C>(k: Kind<R, C>, rows: seq<Row<R>>, uuid: string): (r: Option<nat>)
    ensures r.Some? ==> r.value < |rows| && k.uuid(rows[r.value].report) == uuid
    ensures r.None? ==> forall i :: 0 <= i < |rows| ==> k.uuid(rows[i].report) != uuid
  {
    IndexOf(rows, (row: Row<R>) => k.uuid(row.report) == uuid)
  }

  /** `_exact_replay`. */
  predicate SameDelivery<R, C>(k: Kind<R, C>, row: Row<R>, d: Delivery<R>) {
    row.device == d.device && row.credential == d.credential && row.contentHash == k.hash(d.report)
  }

  /** A stored report that is observed no earlier takes over the state row. */
  function Overwritten<R, C>(k: Kind<R, C>, t: Table<R, C>, d: Delivery<R>): map<int, State<C>> {
    if d.device !in t.states || k.observedAt(d.report) >= k.observed(t.states[d.device].columns) then
      t.states[d.device := State(|t.rows|, d.now, k.columns(d.report))]
    else t.states
  }

  function Record<R, C>(k: Kind<R, C>, t: Table<R, C>, d: Delivery<R>): (Outcome, Table<R, C>) {
    var existing := Find(k, t.rows, k.uuid(d.report));
    if existing.Some? then
      if SameDelivery(k, t.rows[existing.value], d) then (Receipt(k.uuid(d.report), true), t) else (Conflict, t)
    else
      (Receipt(k.uuid(d.report), false),
       Table(t.rows + [Row(d.report, d.device, d.credential, d.now, k.hash(d.report))], Overwritten(k, t, d)))
  }

  function Run<R, C>(k: Kind<R, C>, t: Table<R, C>, ds: seq<Delivery<R>>): Table<R, C>
    decreases |ds|
  {
    if |ds| == 0 then t else Run(k, Record(k, t, ds[0]).1, ds[1..])
  }

  // ----- last observed wins

  /** The report that should be shown: observed last, and of those the one that arrived last. */
  ghost predicate IsLatest<R, C>(k: Kind<R, C>, rows: seq<Row<R>>, device: int, i: nat) {
    && i < |rows| && rows[i].device == device
    && forall j :: 0 <= j < |rows| && rows[j].device == device ==>
         && k.observedAt(rows[j].report) <= k.observedAt(rows[i].report)
         && (j > i ==> k.observedAt(rows[j].report) < k.observedAt(rows[i].report))
  }

  ghost predicate Shows<R, C>(k: Kind<R, C>, t: Table<R, C>, device: int) {
    if device in t.states then
      var state := t.states[device];
      && IsLatest(k, t.rows, device, state.last)
      && state == State(state.last, t.rows[state.last].receivedAt, k.columns(t.rows[state.last].report))
    else forall i :: 0 <= i < |t.rows| ==> t.rows[i].device != device
  }

  /** Every state row is a projection of the stored reports. */
  ghost predicate Projected<R, C>(k: Kind<R, C>, t: Table<R, C>) {
    && (forall device :: Shows(k, t, device))
    && (forall i :: 0 <= i < |t.rows| ==> t.rows[i].contentHash == k.hash(t.rows[i].report))
    && (forall i, j :: 0 <= i < j < |t.rows| ==> k.uuid(t.rows[i].report) != k.uuid(t.rows[j].report))
  }

  lemma RecordKeepsProjected<R(!new), C>(k: Kind<R, C>, t: Table<R, C>, d: Delivery<R>)
    requires KindOk(k) && Projected(k, t)
    ensures Projected(k, Record(k, t, d).1)
  {
    var after := Record(k, t, d).1;
    if after != t {
      forall device ensures Shows(k, after, device) {
        assert Shows(k, t, device);
        if device in t.states {
          var state := t.states[device];
          assert k.observed(state.columns) == k.observedAt(t.rows[state.last].report);
        }
      }
    }
  }

  /** After any run, each state row equals the stored report with the greatest observed time, ties
      going to the later arrival. */
  lemma {:induction false} RunKeepsProjected<R(!new), C>(k: Kind<R, C>, t: Table<R, C>, ds: seq<Delivery<R>>)
    requires KindOk(k) && Projected(k, t)
    ensures Projected(k, Run(k, t, ds))
    decreases |ds|
  {
    if |ds| > 0 {
      RecordKeepsProjected(k, t, ds[0]);
      RunKeepsProjected(k, Record(k, t, ds[0]).1, ds[1..]);
    }
  }

  lemma EmptyIsProjected<R, C>(k: Kind<R, C>)
    ensures Projected(k, Empty<R, C>())
  {
  }

  // ----- order and repetition of deliveries

  type Content<R> = (R, int, int)

  ghost function Delivered<R(!new)>(ds: seq<Delivery<R>>): set<Content<R>> {
    set d | d in ds :: (d.report, d.device, d.credential)
  }

  ghost function Stored<R(!new)>(rows: seq<Row<R>>): set<Content<R>> {
    set row | row in rows :: (row.report, row.device, row.credential)
  }

  /** A UUID is never used for two different reports. */
  ghost predicate UuidsDetermine<R, C>(k: Kind<R, C>, cs: set<Content<R>>) {
    forall a, b :: a in cs && b in cs && k.uuid(a.0) == k.uuid(b.0) ==> a == b
  }

  /** No report of this device was observed later. */
  ghost predicate Newest<R, C>(k: Kind<R, C>, cs: set<Content<R>>, a: Content<R>) {
    a in cs && forall b :: b in cs && b.1 == a.1 ==> k.observedAt(b.0) <= k.observedAt(a.0)
  }

  /** The newest reports of the device say the same. */
  ghost predicate NewestAgree<R(!new), C>(k: Kind<R, C>, cs: set<Content<R>>, device: int) {
    forall a, b :: Newest(k, cs, a) && Newest(k, cs, b) && a.1 == device && b.1 == device ==>
      k.columns(a.0) == k.columns(b.0)
  }

  lemma StoredGrows<R(!new)>(rows: seq<Row<R>>, row: Row<R>)
    ensures Stored(rows + [row]) == Stored(rows) + {(row.report, row.device, row.credential)}
  {
    assert forall r :: r in rows + [row] <==> r in rows || r == row;
  }

  lemma DeliveredHead<R(!new)>(ds: seq<Delivery<R>>)
    requires |ds| > 0
    ensures Delivered(ds) == {(ds[0].report, ds[0].device, ds[0].credential)} + Delivered(ds[1..])
  {
    assert forall d :: d in ds <==> d == ds[0] || d in ds[1..];
  }

  lemma RecordStores<R(!new), C>(k: Kind<R, C>, t: Table<R, C>, d: Delivery<R>)
    requires Projected(k, t) && UuidsDetermine(k, Stored(t.rows) + {(d.report, d.device, d.credential)})
    ensures Stored(Record(k, t, d).1.rows) == Stored(t.rows) + {(d.report, d.device, d.credential)}
  {
    var existing := Find(k, t.rows, k.uuid(d.report));
    if existing.Some? {
      var row := t.rows[existing.value];
      assert (row.report, row.device, row.credential) in Stored(t.rows);
    } else {
      StoredGrows(t.rows, Row(d.report, d.device, d.credential, d.now, k.hash(d.report)));
    }
  }

  lemma {:induction false} RunStores<R(!new), C>(k: Kind<R, C>, t: Table<R, C>, ds: seq<Delivery<R>>)
    requires KindOk(k) && Projected(k, t) && UuidsDetermine(k, Stored(t.rows) + Delivered(ds))
    ensures Stored(Run(k, t, ds).rows) == Stored(t.rows) + Delivered(ds)
    decreases |ds|
  {
    if |ds| > 0 {
      DeliveredHead(ds);
      RecordKeepsProjected(k, t, ds[0]);
      RecordStores(k, t, ds[0]);
      RunStores(k, Record(k, t, ds[0]).1, ds[1..]);
    }
  }

  /** What a state row shows of a device, apart from when and where the report was stored. */
  function Shown<R, C>(t: Table<R, C>, device: int): Option<C> {
    if device in t.states then Some(t.states[device].columns) else None
  }

  ghost function ContentOf<R>(row: Row<R>): Content<R> { (row.report, row.device, row.credential) }

  lemma ShownIsNewest<R(!new), C>(k: Kind<R, C>, t: Table<R, C>, device: int)
    requires Projected(k, t) && device in t.states
    ensures t.states[device].last < |t.rows|
    ensures var shown := ContentOf(t.rows[t.states[device].last]);
            Newest(k, Stored(t.rows), shown) && shown.1 == device && Shown(t, device) == Some(k.columns(shown.0))
  {
    assert Shows(k, t, device);
    var shown := ContentOf(t.rows[t.states[device].last]);
    forall b | b in Stored(t.rows) && b.1 == device ensures k.observedAt(b.0) <= k.observedAt(shown.0) {
      var j :| 0 <= j < |t.rows| && ContentOf(t.rows[j]) == b;
    }
  }

  lemma NothingShown<R(!new), C>(k: Kind<R, C>, t: Table<R, C>, device: int, a: Content<R>)
    requires Projected(k, t) && device !in t.states && a in Stored(t.rows)
    ensures a.1 != device
  {
    assert Shows(k, t, device);
  }

  lemma SameReportsSameView<R(!new), C>(k: Kind<R, C>, a: Table<R, C>, b: Table<R, C>, device: int)
    requires Projected(k, a) && Projected(k, b) && Stored(a.rows) == Stored(b.rows)
    requires NewestAgree(k, Stored(a.rows), device)
    ensures Shown(a, device) == Shown(b, device)
  {
    if device in a.states {
      ShownIsNewest(k, a, device);
    }
    if device in b.states {
      ShownIsNewest(k, b, device);
    }
    if device in a.states && device !in b.states {
      NothingShown(k, b, device, ContentOf(a.rows[a.states[device].last]));
    }
    if device !in a.states && device in b.states {
      NothingShown(k, a, device, ContentOf(b.rows[b.states[device].last]));
    }
  }

  lemma HasRow<R(!new)>(rows: seq<Row<R>>, row: Row<R>)
    ensures (row.report, row.device, row.credential) in Stored(rows) ==>
              exists i :: 0 <= i < |rows| && rows[i].report == row.report && rows[i].device == row.device
                       && rows[i].credential == row.credential
  {
  }

  lemma RunFromEmpty<R(!new), C>(k: Kind<R, C>, ds: seq<Delivery<R>>)
    requires KindOk(k) && UuidsDetermine(k, Delivered(ds))
    ensures Projected(k, Run(k, Empty<R, C>(), ds)) && Stored(Run(k, Empty<R, C>(), ds).rows) == Delivered(ds)
  {
    var empty := Empty<R, C>();
    EmptyIsProjected(k);
    assert Stored(empty.rows) + Delivered(ds) == Delivered(ds);
    RunKeepsProjected(k, empty, ds);
    RunStores(k, empty, ds);
  }

  /** Any two runs that deliver the same reports, in whatever order and however often each, show the
      same of a device, provided its newest reports agree. */
  lemma OrderDoesNotMatter<R(!new), C>(k: Kind<R, C>, first: seq<Delivery<R>>, second: seq<Delivery<R>>, device: int)
    requires KindOk(k) && Delivered(first) == Delivered(second)
    requires UuidsDetermine(k, Delivered(first)) && NewestAgree(k, Delivered(first), device)
    ensures Shown(Run(k, Empty<R, C>(), first), device) == Shown(Run(k, Empty<R, C>(), second), device)
  {
    RunFromEmpty(k, first);
    RunFromEmpty(k, second);
    SameReportsSameView(k, Run(k, Empty<R, C>(), first), Run(k, Empty<R, C>(), second), device);
  }

  lemma {:induction false} RunAppend<R, C>(k: Kind<R, C>, t: Table<R, C>, ds: seq<Delivery<R>>, d: Delivery<R>)
    ensures Run(k, t, ds + [d]) == Record(k, Run(k, t, ds), d).1
    decreases |ds|
  {
    if |ds| == 0 {
      assert (ds + [d])[1..] == [];
    } else {
      assert (ds + [d])[1..] == ds[1..] + [d];
      RunAppend(k, Record(k, t, ds[0]).1, ds[1..], d);
    }
  }

  ghost function Carried<R>(d: Delivery<R>): Content<R> { (d.report, d.device, d.credential) }

  lemma DeliveredAppend<R(!new)>(ds: seq<Delivery<R>>, d: Delivery<R>)
    ensures Delivered(ds + [d]) == Delivered(ds) + {Carried(d)}
  {
    assert forall e :: e in ds + [d] <==> e in ds || e == d;
  }

  /** A newest report that arrives last is the one shown. */
  lemma LastNewestIsShown<R(!new), C>(k: Kind<R, C>, ds: seq<Delivery<R>>, d: Delivery<R>)
    requires KindOk(k) && UuidsDetermine(k, Delivered(ds + [d])) && Carried(d) !in Delivered(ds)
    requires Newest(k, Delivered(ds + [d]), Carried(d))
    ensures Shown(Run(k, Empty<R, C>(), ds + [d]), d.device) == Some(k.columns(d.report))
  {
    var t := Run(k, Empty<R, C>(), ds);
    DeliveredAppend(ds, d);
    RunFromEmpty(k, ds);
    RunAppend(k, Empty<R, C>(), ds, d);
    forall i | 0 <= i < |t.rows| ensures k.uuid(t.rows[i].report) != k.uuid(d.report) {
      assert ContentOf(t.rows[i]) in Stored(t.rows);
    }
    if d.device in t.states {
      ShownIsNewest(k, t, d.device);
    }
  }

  lemma {:induction false} SomeDeliveries<R(!new)>(cs: set<Content<R>>) returns (ds: seq<Delivery<R>>)
    ensures Delivered(ds) == cs
    decreases |cs|
  {
    if cs == {} {
      ds := [];
    } else {
      var c :| c in cs;
      var rest := SomeDeliveries(cs - {c});
      ds := rest + [Delivery(c.0, c.1, c.2, 0)];
      DeliveredAppend(rest, Delivery(c.0, c.1, c.2, 0));
    }
  }

  lemma TwoLast<R(!new), C>(k: Kind<R, C>, cs: set<Content<R>>, a: Content<R>, b: Content<R>, rest: seq<Delivery<R>>)
    returns (ds: seq<Delivery<R>>)
    requires KindOk(k) && UuidsDetermine(k, cs) && Newest(k, cs, b) && a in cs && a != b
    requires Delivered(rest) == cs - {a, b}
    ensures Delivered(ds) == cs && Shown(Run(k, Empty<R, C>(), ds), b.1) == Some(k.columns(b.0))
  {
    var before, last := rest + [Delivery(a.0, a.1, a.2, 0)], Delivery(b.0, b.1, b.2, 0);
    DeliveredAppend(rest, Delivery(a.0, a.1, a.2, 0));
    DeliveredAppend(before, last);
    ds := before + [last];
    assert Delivered(ds) == cs;
    LastNewestIsShown(k, before, last);
  }

  /** Runs that deliver exactly these reports all show the same of the device. */
  ghost predicate OrderIsIrrelevant<R(!new), C(!new)>(k: Kind<R, C>, cs: set<Content<R>>, device: int) {
    forall first: seq<Delivery<R>>, second: seq<Delivery<R>> :: Delivered(first) == cs && Delivered(second) == cs ==>
      Shown(Run(k, Empty<R, C>(), first), device) == Shown(Run(k, Empty<R, C>(), second), device)
  }

  /** The order of arrival does not matter exactly when the newest reports of the device agree. */
  lemma OrderMattersExactly<R(!new), C(!new)>(k: Kind<R, C>, cs: set<Content<R>>, device: int)
    requires KindOk(k) && UuidsDetermine(k, cs)
    ensures OrderIsIrrelevant(k, cs, device) <==> NewestAgree(k, cs, device)
  {
    if NewestAgree(k, cs, device) {
      forall first: seq<Delivery<R>>, second: seq<Delivery<R>> | Delivered(first) == cs && Delivered(second) == cs
        ensures Shown(Run(k, Empty<R, C>(), first), device) == Shown(Run(k, Empty<R, C>(), second), device)
      {
        OrderDoesNotMatter(k, first, second, device);
      }
    } else {
      var first, second := DisagreeingRuns(k, cs, device);
    }
  }

  /** When they do not agree, some two runs differ. */
  lemma DisagreeingRuns<R(!new), C>(k: Kind<R, C>, cs: set<Content<R>>, device: int)
    returns (first: seq<Delivery<R>>, second: seq<Delivery<R>>)
    requires KindOk(k) && UuidsDetermine(k, cs) && !NewestAgree(k, cs, device)
    ensures Delivered(first) == cs && Delivered(second) == cs
    ensures Shown(Run(k, Empty<R, C>(), first), device) != Shown(Run(k, Empty<R, C>(), second), device)
  {
    var a, b :| Newest(k, cs, a) && Newest(k, cs, b) && a.1 == device && b.1 == device
                && k.columns(a.0) != k.columns(b.0);
    var rest := SomeDeliveries(cs - {a, b});
    first := TwoLast(k, cs, a, b, rest);
    assert cs - {b, a} == cs - {a, b};
    second := TwoLast(k, cs, b, a, rest);
  }

  /** The smallest case in which it matters: of two reports observed at the same time, the later
      arrival is shown. */
  lemma TiesGoToTheLaterArrival<R(!new), C>(k: Kind<R, C>, a: Delivery<R>, b: Delivery<R>)
    requires KindOk(k) && a.device == b.device && k.uuid(a.report) != k.uuid(b.report)
    requires k.observedAt(a.report) == k.observedAt(b.report)
    ensures Shown(Run(k, Empty<R, C>(), [a, b]), a.device) == Some(k.columns(b.report))
    ensures Shown(Run(k, Empty<R, C>(), [b, a]), a.device) == Some(k.columns(a.report))
  {
    RunOfTwo(k, a, b);
    RunOfTwo(k, b, a);
  }

  lemma RunOfTwo<R(!new), C>(k: Kind<R, C>, a: Delivery<R>, b: Delivery<R>)
    requires KindOk(k) && a.device == b.device && k.uuid(a.report) != k.uuid(b.report)
    requires k.observedAt(a.report) == k.observedAt(b.report)
    ensures Shown(Run(k, Empty<R, C>(), [a, b]), a.device) == Some(k.columns(b.report))
  {
    var first := Record(k, Empty<R, C>(), a).1;
    assert [a, b][1..] == [b] && [b][1..] == [];
    assert first.rows[..0] == [];
    assert Run(k, Empty<R, C>(), [a, b]) == Run(k, first, [b]) == Record(k, first, b).1;
  }

  /** A report under a stored UUID is taken for the stored one exactly when device, credential and
      content hash are the same, and is a conflict otherwise; either way nothing changes. */
  lemma RedeliveryExactly<R(!new), C>(k: Kind<R, C>, t: Table<R, C>, d: Delivery<R>, i: nat)
    requires Projected(k, t) && i < |t.rows| && k.uuid(t.rows[i].report) == k.uuid(d.report)
    ensures Record(k, t, d)
            == (if t.rows[i].device == d.device && t.rows[i].credential == d.credential
                   && k.hash(t.rows[i].report) == k.hash(d.report)
                then Receipt(k.uuid(d.report), true) else Conflict, t)
  {
    var existing := Find(k, t.rows, k.uuid(d.report));
    assert existing == Some(i);
  }

  /** Delivering a stored report again, from the same device and credential, changes nothing at all. */
  lemma ReplayIsSilent<R(!new), C>(k: Kind<R, C>, t: Table<R, C>, d: Delivery<R>)
    requires Projected(k, t) && (d.report, d.device, d.credential) in Stored(t.rows)
    ensures Record(k, t, d) == (Receipt(k.uuid(d.report), true), t)
  {
    HasRow(t.rows, Row(d.report, d.device, d.credential, 0, ""));
    var i :| 0 <= i < |t.rows| && t.rows[i].report == d.report && t.rows[i].device == d.device
          && t.rows[i].credential == d.credential;
    var existing := Find(k, t.rows, k.uuid(d.report));
    assert existing == Some(i);
  }
}
