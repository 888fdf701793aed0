/** The service that takes in signed batches of device events
    (`backend/app/services/device_audit_ingestion.py`). */
module DeviceAuditService {
  import opened Wrappers
  import opened Base64Url
  import opened DeviceAuditLog
  import opened DeviceAudit
  import opened DeviceAuditReceipts

  /** A new batch goes on where the history of its device ends, and a stored one is repeated as it is. */
  ghost predicate Acceptable(t: Tools, s: Store, up: Upload) {
    if up.payload.batch.uuid in s.batches then Resends(t, s, up) else GoesOn(t, s, up)
  }

  /** The receipt names the last event that was added, or one that was stored before. */
  ghost predicate Told(r: Receipt, before: Store, after: Store, up: Upload) {
    var b, past, history := up.payload.batch, History(before, up.device.id), History(after, up.device.id);
    && r.batchUuid == b.uuid && (r.replayed <==> b.uuid in before.batches) && Acknowledges(history, r)
    && (if r.replayed then after == before
        else r.throughSequence == |history| == |past| + |b.events| && past <= history
             && EndsWith(history, |history|, b.events))
  }

  lemma UploadMeans(t: Tools, s: Store, up: Upload)
    requires Valid(HashOf(t), s)
    ensures Valid(HashOf(t), Ingest(t, s, up).1)
    ensures Ingest(t, s, up).0.Accepted? <==> Acceptable(t, s, up)
    ensures Ingest(t, s, up).0.Accepted? ==> Told(Ingest(t, s, up).0.receipt, s, Ingest(t, s, up).1, up)
  {
    IngestKeepsValid(t, s, up);
    if up.payload.batch.uuid in s.batches {
      StoredBatchAcceptedExactly(t, s, up);
    } else {
      NewBatchAcceptedExactly(t, s, up);
    }
    if Ingest(t, s, up).0.Accepted? {
      ReceiptTells(t, s, up);
    }
  }

  lemma IndexesGrow(events: seq<HashedEvent>, i: nat)
    requires i < |events|
    ensures events[..i + 1] == events[..i] + [events[i]]
    ensures Uuids(events[..i + 1]) == Uuids(events[..i]) + {events[i].event.uuid}
    ensures Hashes(events[..i + 1]) == Hashes(events[..i]) + {events[i].hash}
  {
    assert forall h :: h in events[..i + 1] <==> h in events[..i] || h == events[i];
  }

  class AuditIngestion {
    var batches: map<string, BatchRow>
    var events: map<int, seq<HashedEvent>>
    var heads: map<int, Head>
    var uuids: set<string>
    var hashes: set<string>
    const tools: Tools

    constructor (tools: Tools)
      ensures this.tools == tools && Tables() == EMPTY
    {
      this.tools := tools;
      batches, events, heads, uuids, hashes := map[], map[], map[], {}, {};
    }

    ghost function Tables(): Store
      reads this
    {
      Store(batches, events, heads, uuids, hashes)
    }

    /** `ingest_device_audit_batch`: replay check, head lookup, verification, then the rows one
        by one; a refused call is rolled back. */
    method IngestDeviceAuditBatch(up: Upload) returns (answer: Answer)
      modifies this
      ensures (answer, Tables()) == Ingest(tools, old(Tables()), up)
      ensures Valid(HashOf(tools), old(Tables())) ==>
                && Valid(HashOf(tools), Tables())
                && (answer.Accepted? <==> Acceptable(tools, old(Tables()), up))
                && (answer.Accepted? ==> Told(answer.receipt, old(Tables()), Tables(), up))
    {
      ghost var before := Tables();
      if Valid(HashOf(tools), before) {
        UploadMeans(tools, before, up);
      }
      if !up.device.active || !up.credential.active {
        return Conflict;
      }
      var contentHash := ContentHash(tools, up.payload);
      var b := up.payload.batch;
      if !IsUuid4(b.uuid) {
        return ContractError;
      }
      if b.uuid in batches {
        var existing := batches[b.uuid];
        if existing.deviceId != up.device.id || existing.credentialId != up.credential.id
           || existing.contentHash != contentHash {
          return Conflict;
        }
        return Accepted(ReceiptFor(b.uuid, existing, true));
      }
      answer := IngestNewBatch(up, contentHash);
    }

    /** The head lookup, verification, and the rows. */
    method IngestNewBatch(up: Upload, contentHash: string) returns (answer: Answer)
      requires contentHash == ContentHash(tools, up.payload)
      modifies this
      ensures (answer, Tables()) == IngestNew(tools, old(Tables()), up)
    {
      var b := up.payload.batch;
      var before := Store(batches, events, heads, uuids, hashes);
      var expectedPrevious := if up.device.id in heads then Some(heads[up.device.id].hash) else None;
      var expectedFirst := if up.device.id in heads then heads[up.device.id].lastSequence + 1 else 1;
      if !Verifies(tools, up.payload, up.credential.key, expectedPrevious, expectedFirst)
         || b.device != up.device.uuid || b.credential != up.credential.uuid {
        return ContractError;
      }
      if !Storable(before, up) {
        return Conflict;
      }
      var row := BatchRow(up.device.id, up.credential.id, b.first, b.last, b.previousHead, b.finalHead, contentHash);
      AddRows(b.uuid, row, CheckedBatch(b).events);
      answer := Accepted(ReceiptFor(b.uuid, row, false));
    }

    /** The batch row, its event rows, and the head. */
    method AddRows(uuid: string, row: BatchRow, checked: seq<HashedEvent>)
      modifies this
      ensures Tables() == Appended(old(Tables()), uuid, row, checked)
    {
      var past := if row.deviceId in events then events[row.deviceId] else [];
      assert past == History(old(Tables()), row.deviceId);
      batches := batches[uuid := row];
      var stored, usedUuids, usedHashes := AddEvents(past, uuids, hashes, checked);
      events := events[row.deviceId := stored];
      uuids, hashes := usedUuids, usedHashes;
      heads := heads[row.deviceId := Head(row.last, row.finalHead)];
    }
  }

  /** The event rows of a batch, one by one, and what they add to the unique indexes. */
  method AddEvents(past: seq<HashedEvent>, uuids: set<string>, hashes: set<string>, checked: seq<HashedEvent>)
    returns (stored: seq<HashedEvent>, usedUuids: set<string>, usedHashes: set<string>)
    ensures stored == past + checked && usedUuids == uuids + Uuids(checked) && usedHashes == hashes + Hashes(checked)
  {
    stored, usedUuids, usedHashes := past, uuids, hashes;
    for i := 0 to |checked|
      invariant stored == past + checked[..i]
      invariant usedUuids == uuids + Uuids(checked[..i]) && usedHashes == hashes + Hashes(checked[..i])
    {
      IndexesGrow(checked, i);
      stored := stored + [checked[i]];
      usedUuids := usedUuids + {checked[i].event.uuid};
      usedHashes := usedHashes + {checked[i].hash};
    }
    assert checked[..|checked|] == checked;
  }
}
