/** The tables of device evidence and what ingestion keeps true of them: per device, a
    numbered, hash-linked history tiled by batches and matched by a chain head
    (`backend/app/models.py`). */
module DeviceAuditLog {
  import opened Wrappers
  import opened CanonicalJson

  datatype EventCode = PolicyBlock | EnforcementFailure | TamperAttempt | ConfigurationChanged | PolicyVerified
                     | PolicyApplied | PolicyRejected | SyncSucceeded | SyncFailed | ClockAnomaly | BootObserved
                     | PolicyStale | ScreenTimeExhausted | WebFilterBlocked | BlockOverrideApplied
                     | BlockOverrideCleared

  datatype EventOutcome = Allowed | Blocked | Succeeded | Failed | Detected

  datatype Event = Event(uuid: string, sequence: int, occurredAt: string, elapsed: int, bootCount: int,
                         code: EventCode, outcome: EventOutcome, policy: Option<string>, revision: Option<string>,
                         ruleId: Option<string>, metadata: seq<Entry>, previous: Option<string>)

  /** An event as uploaded and as stored: with the hash that goes with it. */
  datatype HashedEvent = HashedEvent(event: Event, hash: string)

  datatype BatchRow = BatchRow(deviceId: int, credentialId: int, first: int, last: int,
                               previousHead: Option<string>, finalHead: string, contentHash: string)

  datatype Head = Head(lastSequence: int, hash: string)

  /** Batches by UUID, events by device in order of insertion, chain heads by device, and the
      unique indexes on event UUIDs and event hashes. */
  datatype Store = Store(batches: map<string, BatchRow>, events: map<int, seq<HashedEvent>>,
                         heads: map<int, Head>, uuids: set<string>, hashes: set<string>)

  const EMPTY := Store(map[], map[], map[], {}, {})

  function History(s: Store, device: int): seq<HashedEvent> {
    if device in s.events then s.events[device] else []
  }

  function Uuids(events: seq<HashedEvent>): set<string> { set h | h in events :: h.event.uuid }
  function Hashes(events: seq<HashedEvent>): set<string> { set h | h in events :: h.hash }

  /** The rows added by one batch: the batch, its events, and the moved head. */
  function Appended(s: Store, uuid: string, row: BatchRow, added: seq<HashedEvent>): Store {
    Store(s.batches[uuid := row],
          s.events[row.deviceId := History(s, row.deviceId) + added],
          s.heads[row.deviceId := Head(row.last, row.finalHead)],
          s.uuids + Uuids(added), s.hashes + Hashes(added))
  }

  type Hasher = Event -> string

  /** The event at position `i` has the right number, its own hash, and its predecessor's. */
  ghost predicate InChain(h: Hasher, events: seq<HashedEvent>, first: int, previous: Option<string>, i: int)
    requires 0 <= i < |events|
  {
    && events[i].event.sequence == first + i && events[i].hash == h(events[i].event)
    && events[i].event.previous == (if i == 0 then previous else Some(events[i - 1].hash))
  }

  /** Events numbered from `first` on, the first linked to `previous`. */
  ghost predicate Chain(h: Hasher, events: seq<HashedEvent>, first: int, previous: Option<string>) {
    forall i :: 0 <= i < |events| ==> InChain(h, events, first, previous, i)
  }

  ghost predicate Chained(h: Hasher, events: seq<HashedEvent>) { Chain(h, events, 1, None) }

  function LastHash(events: seq<HashedEvent>): Option<string> {
    if |events| == 0 then None else Some(events[|events| - 1].hash)
  }

  ghost predicate HeadMatches(s: Store, device: int) {
    var past := History(s, device);
    if past == [] then device !in s.heads
    else device in s.heads && s.heads[device] == Head(|past|, past[|past| - 1].hash)
  }

  /** A batch row covers a stretch of its device's events and quotes the hashes at its ends. */
  ghost predicate RowMatches(s: Store, row: BatchRow) {
    var past := History(s, row.deviceId);
    && 1 <= row.first <= row.last <= |past|
    && row.finalHead == past[row.last - 1].hash
    && row.previousHead == LastHash(past[..row.first - 1])
  }

  ghost predicate CoveredBy(s: Store, uuid: string, device: int, n: int) {
    uuid in s.batches && s.batches[uuid].deviceId == device && s.batches[uuid].first <= n <= s.batches[uuid].last
  }

  ghost predicate Covered(s: Store, device: int, n: int) { exists u :: CoveredBy(s, u, device, n) }

  /** Every event of a device lies in exactly one batch of that device. */
  ghost predicate Tiled(s: Store, device: int) {
    && (forall n :: 1 <= n <= |History(s, device)| ==> Covered(s, device, n))
    && (forall u, v, n :: CoveredBy(s, u, device, n) && CoveredBy(s, v, device, n) ==> u == v)
  }

  ghost predicate DeviceOk(h: Hasher, s: Store, device: int) {
    Chained(h, History(s, device)) && HeadMatches(s, device) && Tiled(s, device)
  }

  ghost predicate RowsOk(s: Store) { forall u :: u in s.batches ==> RowMatches(s, s.batches[u]) }

  ghost predicate Valid(h: Hasher, s: Store) { (forall d :: DeviceOk(h, s, d)) && RowsOk(s) }

  lemma EmptyIsValid(h: Hasher)
    ensures Valid(h, EMPTY)
  {
  }

  /** The batch starts where the history of its device ends. */
  ghost predicate Fits(h: Hasher, s: Store, uuid: string, row: BatchRow, added: seq<HashedEvent>) {
    var past := History(s, row.deviceId);
    && uuid !in s.batches && added != []
    && row.first == |past| + 1 && row.last == |past| + |added|
    && row.previousHead == LastHash(past) && Some(row.finalHead) == LastHash(added)
    && Chain(h, added, row.first, row.previousHead)
  }

  lemma AppendChain(h: Hasher, past: seq<HashedEvent>, added: seq<HashedEvent>)
    requires Chained(h, past) && Chain(h, added, |past| + 1, LastHash(past))
    ensures Chained(h, past + added)
  {
    var all := past + added;
    forall i | 0 <= i < |all| ensures InChain(h, all, 1, None, i) {
      if i < |past| {
        assert InChain(h, past, 1, None, i);
        assert all[i] == past[i] && (i > 0 ==> all[i - 1] == past[i - 1]);
      } else {
        var j := i - |past|;
        assert InChain(h, added, |past| + 1, LastHash(past), j);
        assert all[i] == added[j];
        assert i > 0 ==> all[i - 1] == if j == 0 then past[i - 1] else added[j - 1];
      }
    }
  }

  lemma AppendedHistories(s: Store, uuid: string, row: BatchRow, added: seq<HashedEvent>, d: int)
    ensures History(Appended(s, uuid, row, added), d) == History(s, d) + if d == row.deviceId then added else []
  {
  }

  lemma RowStillMatches(s: Store, after: Store, row: BatchRow)
    requires RowMatches(s, row) && History(s, row.deviceId) <= History(after, row.deviceId)
    ensures RowMatches(after, row)
  {
    assert History(after, row.deviceId)[..row.first - 1] == History(s, row.deviceId)[..row.first - 1];
  }

  lemma NewRowMatches(h: Hasher, s: Store, uuid: string, row: BatchRow, added: seq<HashedEvent>)
    requires Fits(h, s, uuid, row, added)
    ensures RowMatches(Appended(s, uuid, row, added), row)
  {
    AppendedHistories(s, uuid, row, added, row.deviceId);
    assert (History(s, row.deviceId) + added)[..row.first - 1] == History(s, row.deviceId);
  }

  lemma AppendedRows(h: Hasher, s: Store, uuid: string, row: BatchRow, added: seq<HashedEvent>)
    requires RowsOk(s) && Fits(h, s, uuid, row, added)
    ensures RowsOk(Appended(s, uuid, row, added))
  {
    var after := Appended(s, uuid, row, added);
    forall u | u in after.batches ensures RowMatches(after, after.batches[u]) {
      if u == uuid {
        NewRowMatches(h, s, uuid, row, added);
      } else {
        AppendedHistories(s, uuid, row, added, s.batches[u].deviceId);
        RowStillMatches(s, after, s.batches[u]);
      }
    }
  }

  lemma AppendedTiles(h: Hasher, s: Store, uuid: string, row: BatchRow, added: seq<HashedEvent>, d: int)
    requires RowsOk(s) && Tiled(s, d) && Fits(h, s, uuid, row, added)
    ensures Tiled(Appended(s, uuid, row, added), d)
  {
    var after := Appended(s, uuid, row, added);
    AppendedHistories(s, uuid, row, added, d);
    forall n | 1 <= n <= |History(after, d)| ensures Covered(after, d, n) {
      if n <= |History(s, d)| {
        assert Covered(s, d, n);
        var u :| CoveredBy(s, u, d, n);
        assert CoveredBy(after, u, d, n);
      } else {
        assert CoveredBy(after, uuid, d, n);
      }
    }
    forall u, v, n | CoveredBy(after, u, d, n) && CoveredBy(after, v, d, n) ensures u == v {
      if u != uuid {
        assert CoveredBy(s, u, d, n) && RowMatches(s, s.batches[u]);
      }
      if v != uuid {
        assert CoveredBy(s, v, d, n) && RowMatches(s, s.batches[v]);
      }
    }
  }

  lemma AppendedDevice(h: Hasher, s: Store, uuid: string, row: BatchRow, added: seq<HashedEvent>, d: int)
    requires RowsOk(s) && DeviceOk(h, s, d) && Fits(h, s, uuid, row, added)
    ensures DeviceOk(h, Appended(s, uuid, row, added), d)
  {
    AppendedTiles(h, s, uuid, row, added, d);
    AppendedHistories(s, uuid, row, added, d);
    if d == row.deviceId {
      AppendChain(h, History(s, d), added);
    }
  }

  /** Appending a batch that fits keeps every device's evidence in order. */
  lemma AppendKeepsValid(h: Hasher, s: Store, uuid: string, row: BatchRow, added: seq<HashedEvent>)
    requires Valid(h, s) && Fits(h, s, uuid, row, added)
    ensures Valid(h, Appended(s, uuid, row, added))
    ensures forall d :: History(s, d) <= History(Appended(s, uuid, row, added), d)
  {
    AppendedRows(h, s, uuid, row, added);
    forall d ensures DeviceOk(h, Appended(s, uuid, row, added), d) {
      AppendedDevice(h, s, uuid, row, added, d);
    }
    forall d ensures History(s, d) <= History(Appended(s, uuid, row, added), d) {
      AppendedHistories(s, uuid, row, added, d);
    }
  }
}
