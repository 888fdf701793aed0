/** What an accepted upload of device evidence is told, and which uploads are accepted
    (`backend/app/services/device_audit_ingestion.py`). */
module DeviceAuditReceipts {
  import opened Wrappers
  import opened Utf8
  import opened Base64Url
  import opened CanonicalJson
  import opened DeviceAuditLog
  import opened DeviceAudit

  /** The receipt names a position in the history of the device and the hash stored there. */
  ghost predicate Acknowledges(history: seq<HashedEvent>, r: Receipt) {
    1 <= r.throughSequence <= |history| && history[r.throughSequence - 1].hash == r.chainHead
  }

  /** The events of the batch stand at the end of `history`, before position `n`. */
  ghost predicate EndsWith(history: seq<HashedEvent>, n: int, events: seq<HashedEvent>) {
    && |events| <= n <= |history|
    && forall i :: 0 <= i < |events| ==> SameEvent(history[n - |events| + i], events[i])
  }

  lemma AcceptedMeans(t: Tools, s: Store, up: Upload)
    requires Ingest(t, s, up).0.Accepted?
    ensures Live(up) && IsUuid4(up.payload.batch.uuid)
    ensures up.payload.batch.uuid in s.batches ==> Held(t, s, up) && Ingest(t, s, up).1 == s
    ensures up.payload.batch.uuid !in s.batches ==>
              Continues(t, s, up) && Storable(s, up) && Ingest(t, s, up).1 == Stored(t, s, up)
  {
  }

  lemma CheckedEvents(b: Batch)
    ensures |CheckedBatch(b).events| == |b.events|
    ensures forall i :: 0 <= i < |b.events| ==> SameEvent(CheckedBatch(b).events[i], b.events[i])
  {
  }

  predicate SameEvent(h: HashedEvent, g: HashedEvent) {
    h.hash == g.hash && h.event.uuid == g.event.uuid && h.event.sequence == g.event.sequence
  }

  lemma AppendedEnd(past: seq<HashedEvent>, added: seq<HashedEvent>, events: seq<HashedEvent>)
    requires |added| == |events| && forall i :: 0 <= i < |events| ==> SameEvent(added[i], events[i])
    ensures EndsWith(past + added, |past + added|, events) && (past + added)[..|past|] == past
  {
    forall i | 0 <= i < |events| ensures SameEvent((past + added)[|past + added| - |events| + i], events[i]) {
      assert (past + added)[|past| + i] == added[i];
    }
  }

  /** The batch continues the history of the device. */
  lemma NewBatchIsAppended(t: Tools, s: Store, up: Upload)
    requires Valid(HashOf(t), s) && Ingest(t, s, up).0.Accepted? && up.payload.batch.uuid !in s.batches
    ensures var b, past := up.payload.batch, History(s, up.device.id);
            && History(Ingest(t, s, up).1, up.device.id) == past + CheckedBatch(b).events
            && b.last == |past| + |b.events| && |b.events| > 0
            && b.finalHead == CheckedBatch(b).events[|b.events| - 1].hash
  {
    var b := up.payload.batch;
    AcceptedMeans(t, s, up);
    HeadsAreHistory(t, s, up.device.id);
    ContinuingBatch(t, s, up);
    AppendedHistories(s, b.uuid, RowFor(t, up), CheckedBatch(b).events, up.device.id);
  }

  lemma HeadsAreHistory(t: Tools, s: Store, device: int)
    requires Valid(HashOf(t), s)
    ensures ExpectedPrevious(s, device) == LastHash(History(s, device))
    ensures ExpectedFirst(s, device) == |History(s, device)| + 1
  {
    assert DeviceOk(HashOf(t), s, device);
  }

  lemma ContinuingBatch(t: Tools, s: Store, up: Upload)
    requires Continues(t, s, up) && ExpectedFirst(s, up.device.id) == |History(s, up.device.id)| + 1
    ensures var b := up.payload.batch;
            && |b.events| > 0 && |CheckedBatch(b).events| == |b.events|
            && b.last == |History(s, up.device.id)| + |b.events|
            && b.finalHead == CheckedBatch(b).events[|b.events| - 1].hash
  {
    CheckedIsChain(t, up.payload.batch);
  }

  lemma NewReceipt(t: Tools, s: Store, up: Upload)
    requires Valid(HashOf(t), s) && Ingest(t, s, up).0.Accepted? && up.payload.batch.uuid !in s.batches
    ensures var r, past, events := Ingest(t, s, up).0.receipt, History(s, up.device.id), up.payload.batch.events;
            var history := History(Ingest(t, s, up).1, up.device.id);
            && !r.replayed && r.batchUuid == up.payload.batch.uuid
            && Acknowledges(history, r) && r.throughSequence == |history| == |past| + |events|
            && history[..|past|] == past && EndsWith(history, |history|, events)
  {
    var b, past, history := up.payload.batch, History(s, up.device.id), History(Ingest(t, s, up).1, up.device.id);
    var added := CheckedBatch(b).events;
    NewBatchIsAppended(t, s, up);
    NewReceiptNames(t, s, up);
    CheckedEvents(b);
    AppendedEnd(past, added, b.events);
    assert |history| == |past| + |b.events| && history[|history| - 1] == added[|added| - 1];
  }

  lemma NewReceiptNames(t: Tools, s: Store, up: Upload)
    requires Ingest(t, s, up).0.Accepted? && up.payload.batch.uuid !in s.batches
    ensures Ingest(t, s, up).0.receipt
            == Receipt(up.payload.batch.uuid, up.payload.batch.last, up.payload.batch.finalHead, false)
  {
  }

  /** An accepted upload is told the number and hash of an event that is stored. If the batch is new,
      that is the last event of the device, and the events of the batch are the ones that were
      added; if it is not, nothing is added. */
  lemma ReceiptTells(t: Tools, s: Store, up: Upload)
    requires Valid(HashOf(t), s) && Ingest(t, s, up).0.Accepted?
    ensures var r, after := Ingest(t, s, up).0.receipt, Ingest(t, s, up).1;
            var past, history := History(s, up.device.id), History(after, up.device.id);
            && r.batchUuid == up.payload.batch.uuid && (r.replayed <==> up.payload.batch.uuid in s.batches)
            && Acknowledges(history, r)
            && (if r.replayed then after == s
                else && r.throughSequence == |history| == |past| + |up.payload.batch.events|
                     && history[..|past|] == past && EndsWith(history, |history|, up.payload.batch.events))
  {
    AcceptedMeans(t, s, up);
    var uuid := up.payload.batch.uuid;
    if uuid in s.batches {
      assert RowMatches(s, s.batches[uuid]);
    } else {
      NewReceipt(t, s, up);
    }
  }

  /** The receipt names an event of the history; if the batch was new, its events stand before there. */
  ghost predicate Holds(history: seq<HashedEvent>, r: Receipt, events: seq<HashedEvent>) {
    Acknowledges(history, r) && (!r.replayed ==> EndsWith(history, r.throughSequence, events))
  }

  lemma ReceiptHolds(t: Tools, s: Store, up: Upload)
    requires Valid(HashOf(t), s) && Ingest(t, s, up).0.Accepted?
    ensures Holds(History(Ingest(t, s, up).1, up.device.id), Ingest(t, s, up).0.receipt, up.payload.batch.events)
  {
    ReceiptTells(t, s, up);
  }

  lemma HistoryStays(t: Tools, s: Store, ups: seq<Upload>, device: int)
    requires Valid(HashOf(t), s)
    ensures History(s, device) <= History(Run(t, s, ups), device)
  {
    RunKeepsValid(t, s, ups);
  }

  /** What has been acknowledged stays stored: after any later uploads the event is still at its
      place, with all events before it. */
  lemma AcknowledgedStays(t: Tools, s: Store, up: Upload, later: seq<Upload>)
    requires Valid(HashOf(t), s) && Ingest(t, s, up).0.Accepted?
    ensures var r, after := Ingest(t, s, up).0.receipt, Ingest(t, s, up).1;
            var history := History(Run(t, after, later), up.device.id);
            Holds(history, r, up.payload.batch.events) && History(after, up.device.id) <= history
  {
    ReceiptHolds(t, s, up);
    IngestKeepsValid(t, s, up);
    HistoryStays(t, Ingest(t, s, up).1, later, up.device.id);
    LongerStill(History(Ingest(t, s, up).1, up.device.id), History(Run(t, Ingest(t, s, up).1, later), up.device.id),
                Ingest(t, s, up).0.receipt, up.payload.batch.events);
  }

  lemma LongerStill(history: seq<HashedEvent>, longer: seq<HashedEvent>, r: Receipt, events: seq<HashedEvent>)
    requires history <= longer && Holds(history, r, events)
    ensures Holds(longer, r, events)
  {
  }

  // ----- which uploads are accepted

  /** The signature text encodes 64 to 512 bytes that verify over the batch in its checked form. */
  ghost predicate SignedBy(t: Tools, p: SignedBatch, key: string) {
    exists bytes: seq<Byte> ::
      && 64 <= |bytes| <= 512 && p.signature == Encode64(bytes)
      && t.verify(key, p.batch.algorithm, Bytes(t, Dict(BatchEntries(CheckedBatch(p.batch)))), bytes)
  }

  /** No event of the batch, by UUID or hash, is stored or comes twice. */
  ghost predicate FreshEvents(s: Store, events: seq<HashedEvent>) {
    && (forall i :: 0 <= i < |events| ==> events[i].event.uuid !in s.uuids && events[i].hash !in s.hashes)
    && (forall i, j :: 0 <= i < j < |events| ==>
          events[i].event.uuid != events[j].event.uuid && events[i].hash != events[j].hash)
  }

  /** The upload is in order and goes on exactly where the stored history of its device ends. */
  ghost predicate GoesOn(t: Tools, s: Store, up: Upload) {
    var b, past := up.payload.batch, History(s, up.device.id);
    && up.device.active && up.credential.active && IsUuid4(b.uuid) && b.uuid !in s.batches
    && b.device == up.device.uuid && b.credential == up.credential.uuid
    && BatchOk(t, b) && b.first == |past| + 1 && b.previousHead == LastHash(past)
    && SignedBy(t, up.payload, up.credential.key) && FreshEvents(s, b.events)
  }

  lemma SignatureReads(text: string, bytes: seq<Byte>)
    requires bytes != []
    ensures SignatureBytes(text) == Ok(bytes) <==> text == Encode64(bytes)
  {
    SymbolsRead(Cut6(bytes));
    CutLength(bytes);
    Decode64Exact(text, bytes);
  }

  lemma NumbersAreFresh(t: Tools, s: Store, up: Upload)
    requires Valid(HashOf(t), s) && BatchOk(t, up.payload.batch)
    requires up.payload.batch.first == |History(s, up.device.id)| + 1
    ensures forall u :: u in s.batches && s.batches[u].deviceId == up.device.id ==>
              s.batches[u].last < up.payload.batch.first <= up.payload.batch.last
    ensures forall h, g :: h in up.payload.batch.events && g in History(s, up.device.id) ==>
              h.event.sequence != g.event.sequence
  {
    var b, past := up.payload.batch, History(s, up.device.id);
    assert DeviceOk(HashOf(t), s, up.device.id);
    LinkedNumbers(b.events, |b.events| - 1);
    forall u | u in s.batches && s.batches[u].deviceId == up.device.id ensures s.batches[u].last < b.first {
      assert RowMatches(s, s.batches[u]);
    }
    forall h, g | h in b.events && g in past ensures h.event.sequence != g.event.sequence {
      var i :| 0 <= i < |b.events| && b.events[i] == h;
      var j :| 0 <= j < |past| && past[j] == g;
      LinkedNumbers(b.events, i);
      assert InChain(HashOf(t), past, 1, None, j);
    }
  }

  lemma SignatureChecked(t: Tools, p: SignedBatch, key: string)
    ensures SignedBy(t, p, key)
       <==> SignatureBytes(p.signature).Ok? && 64 <= |SignatureBytes(p.signature).value| <= 512
            && t.verify(key, p.batch.algorithm, Bytes(t, Dict(BatchEntries(CheckedBatch(p.batch)))),
                        SignatureBytes(p.signature).value)
  {
    var message := Bytes(t, Dict(BatchEntries(CheckedBatch(p.batch))));
    if SignatureBytes(p.signature).Ok? && SignatureBytes(p.signature).value != [] {
      SignatureReads(p.signature, SignatureBytes(p.signature).value);
    }
    if bytes: seq<Byte> :| 64 <= |bytes| <= 512 && p.signature == Encode64(bytes)
                           && t.verify(key, p.batch.algorithm, message, bytes) {
      SignatureReads(p.signature, bytes);
    }
  }

  lemma FreshMeans(s: Store, events: seq<HashedEvent>)
    ensures FreshEvents(s, events)
       <==> (forall h :: h in events ==> h.event.uuid !in s.uuids && h.hash !in s.hashes)
            && (forall i, j :: 0 <= i < j < |events| ==>
                  events[i].event.uuid != events[j].event.uuid && events[i].hash != events[j].hash)
  {
  }

  /** A batch that has not been stored is accepted exactly when it goes on where the history of its
      device ends: the unique indexes on numbers and ranges never have anything to object to. */
  lemma NewBatchAcceptedExactly(t: Tools, s: Store, up: Upload)
    requires Valid(HashOf(t), s) && up.payload.batch.uuid !in s.batches
    ensures Ingest(t, s, up).0.Accepted? <==> GoesOn(t, s, up)
  {
    GoesOnMeans(t, s, up);
    AcceptedWhen(t, s, up);
  }

  lemma AcceptedWhen(t: Tools, s: Store, up: Upload)
    requires up.payload.batch.uuid !in s.batches
    ensures Ingest(t, s, up).0.Accepted?
       <==> Live(up) && IsUuid4(up.payload.batch.uuid) && Continues(t, s, up) && Storable(s, up)
  {
  }

  lemma GoesOnMeans(t: Tools, s: Store, up: Upload)
    requires Valid(HashOf(t), s) && up.payload.batch.uuid !in s.batches
    ensures GoesOn(t, s, up)
       <==> Live(up) && IsUuid4(up.payload.batch.uuid) && Continues(t, s, up) && Storable(s, up)
  {
    ContinuesAndStorable(t, s, up);
  }

  lemma ContinuesAndStorable(t: Tools, s: Store, up: Upload)
    requires Valid(HashOf(t), s)
    ensures var b, past := up.payload.batch, History(s, up.device.id);
            Continues(t, s, up) && Storable(s, up)
            <==> && b.device == up.device.uuid && b.credential == up.credential.uuid
                 && BatchOk(t, b) && b.first == |past| + 1 && b.previousHead == LastHash(past)
                 && SignedBy(t, up.payload, up.credential.key) && FreshEvents(s, b.events)
  {
    ContinuesMeans(t, s, up);
    if BatchOk(t, up.payload.batch) && up.payload.batch.first == |History(s, up.device.id)| + 1 {
      StorableHere(t, s, up);
      SignatureChecked(t, up.payload, up.credential.key);
    }
  }

  lemma StorableHere(t: Tools, s: Store, up: Upload)
    requires Valid(HashOf(t), s) && BatchOk(t, up.payload.batch)
    requires up.payload.batch.first == |History(s, up.device.id)| + 1
    ensures Storable(s, up)
       <==> FreshEvents(s, up.payload.batch.events) && SignatureBytes(up.payload.signature).Ok?
            && 64 <= |SignatureBytes(up.payload.signature).value| <= 512
  {
    NumbersAreFresh(t, s, up);
    StorableMeans(s, up);
  }

  lemma ContinuesMeans(t: Tools, s: Store, up: Upload)
    requires Valid(HashOf(t), s)
    ensures var b, past := up.payload.batch, History(s, up.device.id);
            Continues(t, s, up)
            <==> && BatchOk(t, b) && b.previousHead == LastHash(past) && b.first == |past| + 1
                 && b.device == up.device.uuid && b.credential == up.credential.uuid
                 && SignatureBytes(up.payload.signature).Ok?
                 && t.verify(up.credential.key, b.algorithm, Bytes(t, Dict(BatchEntries(CheckedBatch(b)))),
                             SignatureBytes(up.payload.signature).value)
  {
    HeadsAreHistory(t, s, up.device.id);
  }

  lemma StorableMeans(s: Store, up: Upload)
    requires forall u :: u in s.batches && s.batches[u].deviceId == up.device.id ==>
               s.batches[u].last < up.payload.batch.first <= up.payload.batch.last
    requires forall h, g :: h in up.payload.batch.events && g in History(s, up.device.id) ==>
               h.event.sequence != g.event.sequence
    ensures Storable(s, up)
       <==> FreshEvents(s, up.payload.batch.events) && SignatureBytes(up.payload.signature).Ok?
            && 64 <= |SignatureBytes(up.payload.signature).value| <= 512
  {
    FreshMeans(s, up.payload.batch.events);
  }

  /** The upload comes from the same device and credential as the stored batch of its UUID, both active,
      and has the same content. */
  predicate Resends(t: Tools, s: Store, up: Upload) {
    && up.device.active && up.credential.active && IsUuid4(up.payload.batch.uuid) && up.payload.batch.uuid in s.batches
    && var row := s.batches[up.payload.batch.uuid];
       && row.deviceId == up.device.id && row.credentialId == up.credential.id
       && row.contentHash == ContentHash(t, up.payload)
  }

  /** A stored batch is accepted again exactly as a repetition, and anything else under its UUID is
      refused; either way nothing changes. */
  lemma StoredBatchAcceptedExactly(t: Tools, s: Store, up: Upload)
    requires up.payload.batch.uuid in s.batches
    ensures Ingest(t, s, up).0.Accepted? <==> Resends(t, s, up)
    ensures Ingest(t, s, up).1 == s
    ensures IsUuid4(up.payload.batch.uuid) && !Resends(t, s, up) ==> Ingest(t, s, up).0 == Conflict
  {
  }
}
