/** How a device puts evidence together (`backend/app/device_audit_contract.py`): what is built
    passes the checks that ingestion makes. */
module DeviceAuditBuilding {
  import opened Wrappers
  import opened Ordering
  import opened Reordering
  import opened CanonicalJson
  import opened Base64Url
  import opened DeviceAuditLog
  import opened DeviceAudit

  /** `_metadata`: the entries of a dictionary are checked one by one and given back in key order. */
  method CheckMetadata(t: Tools, metadata: seq<Entry>) returns (r: Result<seq<Entry>>)
    requires DistinctBy(EntryKey(), metadata)
    ensures r == if MetadataOk(t, metadata) then Ok(Sort(ByKey(EntryKey()), metadata)) else Err
  {
    if |metadata| > MAX_METADATA_ENTRIES {
      return Err;
    }
    var result: seq<Entry> := [];
    for i := 0 to |metadata|
      invariant result == metadata[..i]
      invariant forall j :: 0 <= j < i ==> IsWord(t, metadata[j].key) && MetadataValueOk(t, metadata[j].value)
    {
      var item := metadata[i];
      if !IsWord(t, item.key) || !MetadataValueOk(t, item.value) {
        return Err;
      }
      result := result + [item];
    }
    assert result == metadata;
    KeysDiffer(metadata);
    r := Ok(Sort(ByKey(EntryKey()), result));
  }

  lemma KeysDiffer(metadata: seq<Entry>)
    requires DistinctBy(EntryKey(), metadata)
    ensures forall i, j :: 0 <= i < j < |metadata| ==> metadata[i].key != metadata[j].key
  {
    forall i, j | 0 <= i < j < |metadata| ensures metadata[i].key != metadata[j].key {
      assert EntryKey()(metadata[i]) != EntryKey()(metadata[j]);
    }
  }

  /** `build_audit_event`: the checked fields, metadata in key order, and the hash of both. */
  function BuildEvent(t: Tools, e: Event): Result<HashedEvent> {
    if EventOk(t, e) then Ok(HashedEvent(Rebuilt(e), EventHash(t, Rebuilt(e)))) else Err
  }

  lemma RebuildingIsStable(t: Tools, e: Event)
    requires EventOk(t, e)
    ensures EventOk(t, Rebuilt(e)) && Rebuilt(Rebuilt(e)) == Rebuilt(e)
  {
    RebuiltMetadata(t, e);
    ByKeyIsPreorder(EntryKey());
    SortSorts(ByKey(EntryKey()), e.metadata);
    SortOfSorted(ByKey(EntryKey()), Rebuilt(e).metadata);
    if |e.metadata| == 1 {
      assert e.metadata == [e.metadata[0]] && e.metadata[1..] == [];
      assert Rebuilt(e).metadata == e.metadata;
    }
  }

  /** An event that was built validates, to itself. */
  lemma BuiltEventValidates(t: Tools, e: Event)
    requires (forall bs :: IsHashText(t.sha(bs))) && BuildEvent(t, e).Ok?
    ensures HashedEventOk(t, BuildEvent(t, e).value) && Checked(BuildEvent(t, e).value) == BuildEvent(t, e).value
  {
    RebuildingIsStable(t, e);
  }

  /** `build_audit_batch`. */
  function BuildBatch(t: Tools, uuid: string, device: string, credential: string, algorithm: Algorithm,
                      events: seq<HashedEvent>): Result<Batch>
  {
    if 1 <= |events| <= MAX_EVENTS_PER_BATCH && (forall i :: 0 <= i < |events| ==> HashedEventOk(t, events[i]))
       && Linked(events) && IsUuid4(uuid) && IsUuid4(device) && IsUuid4(credential)
    then
      var checked := Map((h: HashedEvent) => Checked(h), events);
      Ok(Batch(AUDIT_PROTOCOL_VERSION, uuid, device, credential, checked[0].event.sequence,
               checked[|checked| - 1].event.sequence, checked[0].event.previous, checked[|checked| - 1].hash,
               algorithm, checked))
    else Err
  }

  lemma CheckedAgain(t: Tools, h: HashedEvent)
    requires HashedEventOk(t, h)
    ensures HashedEventOk(t, Checked(h)) && Checked(Checked(h)) == Checked(h)
  {
    RebuildingIsStable(t, h.event);
  }

  /** A batch that was built is in order and is its own checked form. */
  lemma BuiltBatchIsChecked(t: Tools, uuid: string, device: string, credential: string, algorithm: Algorithm,
                            events: seq<HashedEvent>)
    requires BuildBatch(t, uuid, device, credential, algorithm, events).Ok?
    ensures var b := BuildBatch(t, uuid, device, credential, algorithm, events).value;
            BatchOk(t, b) && CheckedBatch(b) == b
  {
    var b := BuildBatch(t, uuid, device, credential, algorithm, events).value;
    AllCheckedAgain(t, events);
    CheckingKeepsLinks(events);
    assert b.events == CheckedAll(events);
    assert CheckedBatch(b) == b.(events := CheckedAll(b.events));
  }

  function CheckedAll(events: seq<HashedEvent>): seq<HashedEvent> { Map((h: HashedEvent) => Checked(h), events) }

  lemma AllCheckedAgain(t: Tools, events: seq<HashedEvent>)
    requires forall i :: 0 <= i < |events| ==> HashedEventOk(t, events[i])
    ensures forall i :: 0 <= i < |events| ==> HashedEventOk(t, CheckedAll(events)[i])
    ensures CheckedAll(CheckedAll(events)) == CheckedAll(events)
  {
    forall i | 0 <= i < |events|
      ensures HashedEventOk(t, CheckedAll(events)[i]) && Checked(CheckedAll(events)[i]) == CheckedAll(events)[i]
    {
      CheckedAgain(t, events[i]);
    }
  }

  lemma CheckingKeepsLinks(events: seq<HashedEvent>)
    requires Linked(events)
    ensures Linked(CheckedAll(events))
  {
  }

  /** Whatever validates can be built, and what is built is its checked form. */
  lemma ValidIsBuilt(t: Tools, b: Batch)
    requires BatchOk(t, b)
    ensures BuildBatch(t, b.uuid, b.device, b.credential, b.algorithm, b.events) == Ok(CheckedBatch(b))
    ensures forall i :: 0 <= i < |b.events| ==> BuildEvent(t, b.events[i].event) == Ok(Checked(b.events[i]))
  {
    assert CheckedBatch(b) == b.(events := CheckedAll(b.events));
    forall i | 0 <= i < |b.events| ensures BuildEvent(t, b.events[i].event) == Ok(Checked(b.events[i])) {
      assert HashedEventOk(t, b.events[i]);
    }
  }

  /** Building, signing and verifying: a batch that was built and signed verifies against the head and
      the number its first event continues, and against no others. */
  lemma BuiltBatchVerifies(t: Tools, uuid: string, device: string, credential: string, algorithm: Algorithm,
                           events: seq<HashedEvent>, key: string, signature: string, previous: Option<string>, first: int)
    requires BuildBatch(t, uuid, device, credential, algorithm, events).Ok?
    requires var b := BuildBatch(t, uuid, device, credential, algorithm, events).value;
             SignatureBytes(signature).Ok?
             && t.verify(key, algorithm, Bytes(t, Dict(BatchEntries(b))), SignatureBytes(signature).value)
    ensures Verifies(t, SignedBatch(BuildBatch(t, uuid, device, credential, algorithm, events).value, signature), key,
                     previous, first)
       <==> previous == events[0].event.previous && first == events[0].event.sequence
  {
    BuiltBatchIsChecked(t, uuid, device, credential, algorithm, events);
  }
}
