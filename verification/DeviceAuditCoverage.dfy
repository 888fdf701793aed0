/** What hashes and signatures of device evidence cover (`backend/app/device_audit_contract.py`):
    every field of every event and of the batch, up to Unicode normalisation. */
module DeviceAuditCoverage {
  import opened Wrappers
  import opened Reordering
  import opened CanonicalJson
  import opened DeviceAuditLog
  import opened DeviceAudit

  // ----- fields of an object

  ghost predicate KeysDiffer(entries: seq<Entry>) {
    forall i, j :: 0 <= i < j < |entries| ==> entries[i].key != entries[j].key
  }

  ghost predicate PlainKeys(nfc: string -> string, entries: seq<Entry>) {
    forall i :: 0 <= i < |entries| ==> nfc(entries[i].key) == entries[i].key
  }

  lemma {:induction false} OnlyAssignment(nfc: string -> string, entries: seq<Entry>, i: nat)
    requires i < |entries| && PlainKeys(nfc, entries) && KeysDiffer(entries)
    ensures LastAssignment(nfc, entries, entries[i].key) == Some(entries[i].value)
  {
    if i > 0 {
      OnlyAssignment(nfc, entries[1..], i - 1);
    } else {
      NoAssignment(nfc, entries[1..], entries[0].key);
    }
  }

  lemma {:induction false} NoAssignment(nfc: string -> string, entries: seq<Entry>, key: string)
    requires PlainKeys(nfc, entries) && forall i :: 0 <= i < |entries| ==> entries[i].key != key
    ensures LastAssignment(nfc, entries, key) == None
  {
    if entries != [] {
      NoAssignment(nfc, entries[1..], key);
    }
  }

  /** Objects with the same plain, different keys have one normal form only if they agree field by field. */
  lemma FieldsAgree(nfc: string -> string, xs: seq<Entry>, ys: seq<Entry>, i: nat)
    requires |xs| == |ys| && i < |xs| && (forall j :: 0 <= j < |xs| ==> xs[j].key == ys[j].key)
    requires PlainKeys(nfc, xs) && KeysDiffer(xs) && Normalize(nfc, Dict(xs)) == Normalize(nfc, Dict(ys))
    ensures Normalize(nfc, xs[i].value) == Normalize(nfc, ys[i].value)
  {
    OnlyAssignment(nfc, xs, i);
    OnlyAssignment(nfc, ys, i);
    DictNormalForms(nfc, xs, ys);
    assert SameAssignment(nfc, xs, ys, xs[i].key);
  }

  // ----- events

  const EVENT_KEYS := ["event_uuid", "occurred_at", "elapsed_realtime_ms", "boot_count", "event_code", "outcome",
                       "policy_uuid", "revision_uuid", "rule_id", "metadata", "sequence", "previous_event_hash",
                       "event_hash"]

  /** The length and the seventh letter tell the keys apart. */
  function PlaceOf(key: string): int
    requires |key| >= 7
  {
    if |key| == 7 then (if key[6] == 'e' then 5 else 8)
    else if |key| == 8 then (if key[6] == 't' then 9 else 10)
    else if |key| == 10 then (if key[6] == 'u' then 0 else if key[6] == 'o' then 3 else if key[6] == 'c' then 4 else 12)
    else if |key| == 11 then (if key[6] == 'e' then 1 else 6)
    else if |key| == 13 then 7
    else if key[6] == 'd' then 2 else 11
  }

  lemma KeyPlace(i: int)
    requires 0 <= i < 13
    ensures IsAscii(EVENT_KEYS[i]) && |EVENT_KEYS[i]| >= 7 && PlaceOf(EVENT_KEYS[i]) == i
  {
    if i < 3 {
      assert i == 0 || i == 1 || i == 2;
    } else if i < 6 {
      assert i == 3 || i == 4 || i == 5;
    } else if i < 9 {
      assert i == 6 || i == 7 || i == 8;
    } else {
      assert i == 9 || i == 10 || i == 11 || i == 12;
    }
  }

  function EventEntries(e: Event): seq<Entry> {
    Particulars(e) + [Entry("sequence", Int(e.sequence)), Entry("previous_event_hash", OptionalText(e.previous))]
  }

  function HashedEntries(h: HashedEvent): seq<Entry> {
    Particulars(h.event)
    + [Entry("sequence", Int(h.event.sequence)), Entry("previous_event_hash", OptionalText(h.event.previous)),
       Entry("event_hash", Str(h.hash))]
  }

  lemma EntriesAreKeyed(entries: seq<Entry>, nfc: string -> string, n: nat)
    requires KeepsAscii(nfc) && n == |entries| <= |EVENT_KEYS|
    requires forall i :: 0 <= i < n ==> entries[i].key == EVENT_KEYS[i]
    ensures PlainKeys(nfc, entries) && KeysDiffer(entries)
  {
    forall i | 0 <= i < n ensures nfc(entries[i].key) == entries[i].key {
      KeyPlace(i);
    }
    forall i, j | 0 <= i < j < n ensures entries[i].key != entries[j].key {
      KeyPlace(i);
      KeyPlace(j);
    }
  }

  lemma EntryValues(e: Event)
    ensures |EventEntries(e)| == 12
    ensures var xs := EventEntries(e);
            && xs[0].value == Str(e.uuid) && xs[1].value == Str(e.occurredAt) && xs[2].value == Int(e.elapsed)
            && xs[3].value == Int(e.bootCount) && xs[4].value == Str(CodeText(e.code))
            && xs[5].value == Str(OutcomeText(e.outcome)) && xs[6].value == OptionalText(e.policy)
            && xs[7].value == OptionalText(e.revision) && xs[8].value == OptionalText(e.ruleId)
            && xs[9].value == Dict(e.metadata) && xs[10].value == Int(e.sequence)
            && xs[11].value == OptionalText(e.previous)
  {
  }

  lemma EntryKeys(e: Event)
    ensures forall i :: 0 <= i < 12 ==> EventEntries(e)[i].key == EVENT_KEYS[i]
  {
    EntryValues(e);
  }

  predicate SameText(nfc: string -> string, a: string, b: string) { nfc(a) == nfc(b) }

  predicate SameOptional(nfc: string -> string, a: Option<string>, b: Option<string>) {
    a.Some? == b.Some? && (a.Some? ==> SameText(nfc, a.value, b.value))
  }

  /** The events agree in every field, up to NFC in texts and to the order of metadata. */
  ghost predicate SameFields(nfc: string -> string, e: Event, f: Event) {
    && SameText(nfc, e.uuid, f.uuid) && SameText(nfc, e.occurredAt, f.occurredAt)
    && e.elapsed == f.elapsed && e.bootCount == f.bootCount && e.code == f.code && e.outcome == f.outcome
    && SameOptional(nfc, e.policy, f.policy) && SameOptional(nfc, e.revision, f.revision)
    && SameOptional(nfc, e.ruleId, f.ruleId)
    && (forall key :: SameAssignment(nfc, e.metadata, f.metadata, key))
    && e.sequence == f.sequence && SameOptional(nfc, e.previous, f.previous)
  }

  lemma OptionalTextRead(nfc: string -> string, a: Option<string>, b: Option<string>)
    requires Normalize(nfc, OptionalText(a)) == Normalize(nfc, OptionalText(b))
    ensures SameOptional(nfc, a, b)
  {
  }

  /** Lengths and a few letters tell the codes apart. */
  function CodeOf(s: string): EventCode
    requires |s| >= 11
  {
    if |s| == 11 then SyncFailed
    else if |s| == 12 then (if s[7] == 'b' then PolicyBlock else PolicyStale)
    else if |s| == 13 then (if s[0] == 'c' then ClockAnomaly else BootObserved)
    else if |s| == 14 then (if s[0] == 't' then TamperAttempt else if s[0] == 'p' then PolicyApplied else SyncSucceeded)
    else if |s| == 15 then (if s[7] == 'v' then PolicyVerified else PolicyRejected)
    else if |s| == 18 then WebFilterBlocked
    else if |s| == 19 then EnforcementFailure
    else if |s| == 21 then (if s[0] == 'c' then ConfigurationChanged else ScreenTimeExhausted)
    else if |s| == 22 && s[15] == 'a' then BlockOverrideApplied
    else BlockOverrideCleared
  }

  lemma CodeRead(c: EventCode)
    ensures |CodeText(c)| >= 11 && CodeOf(CodeText(c)) == c
  {
    match c
    case PolicyBlock => case EnforcementFailure => case TamperAttempt => case ConfigurationChanged =>
    case PolicyVerified => case PolicyApplied => case PolicyRejected => case SyncSucceeded =>
    case SyncFailed => case ClockAnomaly => case BootObserved => case PolicyStale =>
    case ScreenTimeExhausted => case WebFilterBlocked => case BlockOverrideApplied => case BlockOverrideCleared =>
  }

  lemma CodeIsAscii(c: EventCode)
    ensures IsAscii(CodeText(c))
  {
    if c in {PolicyBlock, EnforcementFailure, TamperAttempt, ConfigurationChanged} {
      EarlyCodeIsAscii(c);
    } else if c in {PolicyVerified, PolicyApplied, PolicyRejected, SyncSucceeded} {
      PolicyCodeIsAscii(c);
    } else if c in {SyncFailed, ClockAnomaly, BootObserved, PolicyStale} {
      DeviceCodeIsAscii(c);
    } else {
      LateCodeIsAscii(c);
    }
  }

  lemma EarlyCodeIsAscii(c: EventCode)
    requires c.PolicyBlock? || c.EnforcementFailure? || c.TamperAttempt? || c.ConfigurationChanged?
    ensures IsAscii(CodeText(c))
  {
  }

  lemma PolicyCodeIsAscii(c: EventCode)
    requires c.PolicyVerified? || c.PolicyApplied? || c.PolicyRejected? || c.SyncSucceeded?
    ensures IsAscii(CodeText(c))
  {
  }

  lemma DeviceCodeIsAscii(c: EventCode)
    requires c.SyncFailed? || c.ClockAnomaly? || c.BootObserved? || c.PolicyStale?
    ensures IsAscii(CodeText(c))
  {
  }

  lemma LateCodeIsAscii(c: EventCode)
    requires c.ScreenTimeExhausted? || c.WebFilterBlocked? || c.BlockOverrideApplied? || c.BlockOverrideCleared?
    ensures IsAscii(CodeText(c))
  {
    if c.ScreenTimeExhausted? || c.WebFilterBlocked? {
      LimitCodeIsAscii(c);
    } else {
      OverrideCodeIsAscii(c);
    }
  }

  lemma LimitCodeIsAscii(c: EventCode)
    requires c.ScreenTimeExhausted? || c.WebFilterBlocked?
    ensures IsAscii(CodeText(c))
  {
  }

  lemma OverrideCodeIsAscii(c: EventCode)
    requires c.BlockOverrideApplied? || c.BlockOverrideCleared?
    ensures IsAscii(CodeText(c))
  {
  }

  function OutcomeOf(s: string): EventOutcome
    requires |s| >= 6
  {
    if |s| == 6 then Failed else if |s| == 9 then Succeeded else if |s| == 8 then Detected
    else if s[0] == 'a' then Allowed else Blocked
  }

  lemma OutcomeRead(o: EventOutcome)
    ensures IsAscii(OutcomeText(o)) && |OutcomeText(o)| >= 6 && OutcomeOf(OutcomeText(o)) == o
  {
  }

  lemma TextsOf(nfc: string -> string, e: Event, f: Event)
    requires KeepsAscii(nfc)
    requires nfc(CodeText(e.code)) == nfc(CodeText(f.code)) && nfc(OutcomeText(e.outcome)) == nfc(OutcomeText(f.outcome))
    ensures e.code == f.code && e.outcome == f.outcome
  {
    CodeRead(e.code);
    CodeRead(f.code);
    CodeIsAscii(e.code);
    CodeIsAscii(f.code);
    OutcomeRead(e.outcome);
    OutcomeRead(f.outcome);
  }

  lemma FieldsRead(nfc: string -> string, e: Event, f: Event)
    requires KeepsAscii(nfc) && |EventEntries(e)| == |EventEntries(f)| == 12
    requires forall i :: 0 <= i < 12 ==>
               Normalize(nfc, EventEntries(e)[i].value) == Normalize(nfc, EventEntries(f)[i].value)
    ensures SameFields(nfc, e, f)
  {
    EntryValues(e);
    EntryValues(f);
    TextsOf(nfc, e, f);
    OptionalTextRead(nfc, e.policy, f.policy);
    OptionalTextRead(nfc, e.revision, f.revision);
    OptionalTextRead(nfc, e.ruleId, f.ruleId);
    OptionalTextRead(nfc, e.previous, f.previous);
    DictNormalForms(nfc, e.metadata, f.metadata);
  }

  lemma KeyedFieldsAgree(nfc: string -> string, xs: seq<Entry>, ys: seq<Entry>)
    requires KeepsAscii(nfc) && |xs| == |ys| <= |EVENT_KEYS|
    requires forall i :: 0 <= i < |xs| ==> xs[i].key == EVENT_KEYS[i] && ys[i].key == EVENT_KEYS[i]
    requires Normalize(nfc, Dict(xs)) == Normalize(nfc, Dict(ys))
    ensures forall i :: 0 <= i < |xs| ==> Normalize(nfc, xs[i].value) == Normalize(nfc, ys[i].value)
  {
    EntriesAreKeyed(xs, nfc, |xs|);
    forall i | 0 <= i < |xs| ensures Normalize(nfc, xs[i].value) == Normalize(nfc, ys[i].value) {
      FieldsAgree(nfc, xs, ys, i);
    }
  }

  /** What is hashed of an event fixes all of it. */
  lemma EventIsCovered(t: Tools, e: Event, f: Event)
    requires KeepsAscii(t.nfc) && Normalize(t.nfc, EventJson(e)) == Normalize(t.nfc, EventJson(f))
    ensures SameFields(t.nfc, e, f)
  {
    EntryValues(e);
    EntryValues(f);
    EntryKeys(e);
    EntryKeys(f);
    KeyedFieldsAgree(t.nfc, EventEntries(e), EventEntries(f));
    FieldsRead(t.nfc, e, f);
  }

  // ----- batches

  lemma HashedEntriesAre(h: HashedEvent)
    ensures |HashedEntries(h)| == 13 && |EventEntries(h.event)| == 12 && HashedEntries(h)[12] == Entry("event_hash", Str(h.hash))
    ensures forall i :: 0 <= i < 12 ==> HashedEntries(h)[i] == EventEntries(h.event)[i]
    ensures forall i :: 0 <= i < 13 ==> HashedEntries(h)[i].key == EVENT_KEYS[i]
  {
    EntryValues(h.event);
    EntryKeys(h.event);
  }

  /** So does what is signed of it, which includes its hash. */
  lemma HashedEventIsCovered(t: Tools, h: HashedEvent, g: HashedEvent)
    requires KeepsAscii(t.nfc) && Normalize(t.nfc, HashedJson(h)) == Normalize(t.nfc, HashedJson(g))
    ensures SameFields(t.nfc, h.event, g.event) && SameText(t.nfc, h.hash, g.hash)
  {
    HashedValuesAgree(t.nfc, h, g);
    EntryValues(h.event);
    EntryValues(g.event);
    FieldsRead(t.nfc, h.event, g.event);
  }

  lemma HashedValuesAgree(nfc: string -> string, h: HashedEvent, g: HashedEvent)
    requires KeepsAscii(nfc) && Normalize(nfc, Dict(HashedEntries(h))) == Normalize(nfc, Dict(HashedEntries(g)))
    ensures |EventEntries(h.event)| == |EventEntries(g.event)| == 12
    ensures forall i :: 0 <= i < 12 ==>
              Normalize(nfc, EventEntries(h.event)[i].value) == Normalize(nfc, EventEntries(g.event)[i].value)
    ensures SameText(nfc, h.hash, g.hash)
  {
    HashedEntriesAre(h);
    HashedEntriesAre(g);
    KeyedFieldsAgree(nfc, HashedEntries(h), HashedEntries(g));
    LastAndRest(nfc, HashedEntries(h), HashedEntries(g), EventEntries(h.event), EventEntries(g.event));
  }

  lemma LastAndRest(nfc: string -> string, xs: seq<Entry>, ys: seq<Entry>, us: seq<Entry>, vs: seq<Entry>)
    requires |xs| == |ys| == 13 && |us| == |vs| == 12
    requires forall i :: 0 <= i < 13 ==> Normalize(nfc, xs[i].value) == Normalize(nfc, ys[i].value)
    requires forall i :: 0 <= i < 12 ==> xs[i] == us[i] && ys[i] == vs[i]
    ensures forall i :: 0 <= i < 12 ==> Normalize(nfc, us[i].value) == Normalize(nfc, vs[i].value)
    ensures Normalize(nfc, xs[12].value) == Normalize(nfc, ys[12].value)
  {
    forall i | 0 <= i < 12 ensures Normalize(nfc, us[i].value) == Normalize(nfc, vs[i].value) {
      assert xs[i] == us[i] && ys[i] == vs[i];
    }
  }

  const BATCH_KEYS := ["protocol_version", "batch_uuid", "device_uuid", "credential_uuid", "first_sequence",
                       "last_sequence", "previous_head", "final_head", "signature_algorithm", "events", "signature"]

  function BatchPlaceOf(key: string): int
    requires |key| >= 6
  {
    if |key| == 16 then 0 else if |key| == 10 then (if key[0] == 'b' then 1 else 7)
    else if |key| == 11 then 2 else if |key| == 15 then 3 else if |key| == 14 then 4
    else if |key| == 13 then (if key[0] == 'l' then 5 else 6)
    else if |key| == 19 then 8 else if |key| == 6 then 9 else 10
  }

  lemma BatchKeyPlace(i: int)
    requires 0 <= i < 11
    ensures IsAscii(BATCH_KEYS[i]) && |BATCH_KEYS[i]| >= 6 && BatchPlaceOf(BATCH_KEYS[i]) == i
  {
    if i < 4 {
      assert i == 0 || i == 1 || i == 2 || i == 3;
    } else if i < 8 {
      assert i == 4 || i == 5 || i == 6 || i == 7;
    } else {
      assert i == 8 || i == 9 || i == 10;
    }
  }

  /** The signed batch, and the whole payload, which is hashed to recognise a retransmission. */
  function PayloadEntries(p: SignedBatch): seq<Entry> { BatchEntries(p.batch) + [Entry("signature", Str(p.signature))] }

  function EventsJson(b: Batch): seq<Value> { Map((h: HashedEvent) => HashedJson(h), b.events) }

  lemma PayloadValues(p: SignedBatch)
    ensures |PayloadEntries(p)| == 11
    ensures var xs, b := PayloadEntries(p), p.batch;
            && xs[0].value == Int(b.protocol) && xs[1].value == Str(b.uuid) && xs[2].value == Str(b.device)
            && xs[3].value == Str(b.credential) && xs[4].value == Int(b.first) && xs[5].value == Int(b.last)
            && xs[6].value == OptionalText(b.previousHead) && xs[7].value == Str(b.finalHead)
            && xs[8].value == Str(AlgorithmText(b.algorithm)) && xs[9].value == List(EventsJson(b))
            && xs[10].value == Str(p.signature)
  {
  }

  lemma PayloadKeys(p: SignedBatch)
    ensures |PayloadEntries(p)| == 11 && forall i :: 0 <= i < 11 ==> PayloadEntries(p)[i].key == BATCH_KEYS[i]
  {
    PayloadValues(p);
  }

  ghost predicate SameHeader(nfc: string -> string, b: Batch, c: Batch) {
    && b.protocol == c.protocol && SameText(nfc, b.uuid, c.uuid) && SameText(nfc, b.device, c.device)
    && SameText(nfc, b.credential, c.credential) && b.first == c.first && b.last == c.last
    && SameOptional(nfc, b.previousHead, c.previousHead) && SameText(nfc, b.finalHead, c.finalHead)
    && b.algorithm == c.algorithm
  }

  ghost predicate SameBatch(nfc: string -> string, b: Batch, c: Batch) {
    && SameHeader(nfc, b, c) && |b.events| == |c.events|
    && forall i :: 0 <= i < |b.events| ==>
         SameFields(nfc, b.events[i].event, c.events[i].event) && SameText(nfc, b.events[i].hash, c.events[i].hash)
  }

  lemma {:induction false} ItemsAgree(nfc: string -> string, xs: seq<Value>, ys: seq<Value>)
    requires NormalizeItems(nfc, xs) == NormalizeItems(nfc, ys)
    ensures |xs| == |ys| && forall i :: 0 <= i < |xs| ==> Normalize(nfc, xs[i]) == Normalize(nfc, ys[i])
  {
    if xs != [] && ys != [] {
      assert NormalizeItems(nfc, xs)[1..] == NormalizeItems(nfc, xs[1..]);
      assert NormalizeItems(nfc, ys)[1..] == NormalizeItems(nfc, ys[1..]);
      assert NormalizeItems(nfc, xs)[0] == NormalizeItems(nfc, ys)[0];
      ItemsAgree(nfc, xs[1..], ys[1..]);
    }
  }

  lemma EventsAgree(t: Tools, b: Batch, c: Batch)
    requires KeepsAscii(t.nfc) && Normalize(t.nfc, List(EventsJson(b))) == Normalize(t.nfc, List(EventsJson(c)))
    ensures |b.events| == |c.events|
    ensures forall i :: 0 <= i < |b.events| ==>
              SameFields(t.nfc, b.events[i].event, c.events[i].event)
              && SameText(t.nfc, b.events[i].hash, c.events[i].hash)
  {
    ItemsAgree(t.nfc, EventsJson(b), EventsJson(c));
    forall i | 0 <= i < |b.events|
      ensures SameFields(t.nfc, b.events[i].event, c.events[i].event)
      ensures SameText(t.nfc, b.events[i].hash, c.events[i].hash)
    {
      assert EventsJson(b)[i] == HashedJson(b.events[i]) && EventsJson(c)[i] == HashedJson(c.events[i]);
      HashedEventIsCovered(t, b.events[i], c.events[i]);
    }
  }

  lemma AlgorithmRead(nfc: string -> string, a: Algorithm, b: Algorithm)
    requires KeepsAscii(nfc) && nfc(AlgorithmText(a)) == nfc(AlgorithmText(b))
    ensures a == b
  {
    assert IsAscii("ECDSA_P256_SHA256") && IsAscii("RSA_2048_SHA256");
    assert "ECDSA_P256_SHA256"[0] == 'E' && "RSA_2048_SHA256"[0] == 'R';
  }

  lemma BatchFieldsAgree(nfc: string -> string, xs: seq<Entry>, ys: seq<Entry>)
    requires KeepsAscii(nfc) && |xs| == |ys| <= |BATCH_KEYS|
    requires forall i :: 0 <= i < |xs| ==> xs[i].key == BATCH_KEYS[i] && ys[i].key == BATCH_KEYS[i]
    requires Normalize(nfc, Dict(xs)) == Normalize(nfc, Dict(ys))
    ensures forall i :: 0 <= i < |xs| ==> Normalize(nfc, xs[i].value) == Normalize(nfc, ys[i].value)
  {
    forall i | 0 <= i < |xs| ensures nfc(xs[i].key) == xs[i].key {
      BatchKeyPlace(i);
    }
    forall i, j | 0 <= i < j < |xs| ensures xs[i].key != xs[j].key {
      BatchKeyPlace(i);
      BatchKeyPlace(j);
    }
    forall i | 0 <= i < |xs| ensures Normalize(nfc, xs[i].value) == Normalize(nfc, ys[i].value) {
      FieldsAgree(nfc, xs, ys, i);
    }
  }

  lemma BatchRead(t: Tools, p: SignedBatch, q: SignedBatch)
    requires KeepsAscii(t.nfc) && |PayloadEntries(p)| == |PayloadEntries(q)| == 11
    requires forall i :: 0 <= i < 10 ==>
               Normalize(t.nfc, PayloadEntries(p)[i].value) == Normalize(t.nfc, PayloadEntries(q)[i].value)
    ensures SameBatch(t.nfc, p.batch, q.batch)
  {
    PayloadValues(p);
    PayloadValues(q);
    HeaderRead(t, p, q);
    EventsAgree(t, p.batch, q.batch);
  }

  lemma HeaderRead(t: Tools, p: SignedBatch, q: SignedBatch)
    requires KeepsAscii(t.nfc) && |PayloadEntries(p)| == |PayloadEntries(q)| == 11
    requires forall i :: 0 <= i < 9 ==>
               Normalize(t.nfc, PayloadEntries(p)[i].value) == Normalize(t.nfc, PayloadEntries(q)[i].value)
    ensures SameHeader(t.nfc, p.batch, q.batch)
  {
    PayloadValues(p);
    PayloadValues(q);
    AlgorithmRead(t.nfc, p.batch.algorithm, q.batch.algorithm);
    OptionalTextRead(t.nfc, p.batch.previousHead, q.batch.previousHead);
  }

  /** What is signed of a batch fixes all of it. */
  lemma BatchIsCovered(t: Tools, b: Batch, c: Batch)
    requires KeepsAscii(t.nfc)
    requires Normalize(t.nfc, Dict(BatchEntries(b))) == Normalize(t.nfc, Dict(BatchEntries(c)))
    ensures SameBatch(t.nfc, b, c)
  {
    var p, q := SignedBatch(b, ""), SignedBatch(c, "");
    PayloadKeys(p);
    PayloadKeys(q);
    assert PayloadEntries(p)[..10] == BatchEntries(b) && PayloadEntries(q)[..10] == BatchEntries(c);
    BatchFieldsAgree(t.nfc, PayloadEntries(p)[..10], PayloadEntries(q)[..10]);
    forall i | 0 <= i < 10
      ensures Normalize(t.nfc, PayloadEntries(p)[i].value) == Normalize(t.nfc, PayloadEntries(q)[i].value)
    {
      assert PayloadEntries(p)[..10][i] == PayloadEntries(p)[i] && PayloadEntries(q)[..10][i] == PayloadEntries(q)[i];
    }
    BatchRead(t, p, q);
  }

  /** A payload is recognised as a retransmission only if it agrees with the stored one in the whole
      batch and in the signature, unless the two collide. */
  lemma ContentIsCovered(t: Tools, p: SignedBatch, q: SignedBatch)
    requires KeepsAscii(t.nfc) && Encodable(Dict(PayloadEntries(p))) && Encodable(Dict(PayloadEntries(q)))
    requires ContentHash(t, p) == ContentHash(t, q) ==>
               Bytes(t, Dict(PayloadEntries(p))) == Bytes(t, Dict(PayloadEntries(q)))
    ensures ContentHash(t, p) == ContentHash(t, q) ==>
              SameBatch(t.nfc, p.batch, q.batch) && SameText(t.nfc, p.signature, q.signature)
  {
    if ContentHash(t, p) == ContentHash(t, q) {
      Injective(t.nfc, Dict(PayloadEntries(p)), Dict(PayloadEntries(q)));
      PayloadIsCovered(t, p, q);
    }
  }

  lemma PayloadIsCovered(t: Tools, p: SignedBatch, q: SignedBatch)
    requires KeepsAscii(t.nfc) && Normalize(t.nfc, Dict(PayloadEntries(p))) == Normalize(t.nfc, Dict(PayloadEntries(q)))
    ensures SameBatch(t.nfc, p.batch, q.batch) && SameText(t.nfc, p.signature, q.signature)
  {
    PayloadKeys(p);
    PayloadKeys(q);
    BatchFieldsAgree(t.nfc, PayloadEntries(p), PayloadEntries(q));
    BatchRead(t, p, q);
    SignatureRead(t.nfc, p, q);
  }

  lemma SignatureRead(nfc: string -> string, p: SignedBatch, q: SignedBatch)
    requires |PayloadEntries(p)| == |PayloadEntries(q)| == 11
    requires Normalize(nfc, PayloadEntries(p)[10].value) == Normalize(nfc, PayloadEntries(q)[10].value)
    ensures SameText(nfc, p.signature, q.signature)
  {
    PayloadValues(p);
    PayloadValues(q);
  }

  /** After any two runs, devices with equal chain heads have the same evidence, event by event and
      field by field, unless two of their events collide. */
  lemma EqualHeadsEqualEvidence(t: Tools, upsA: seq<Upload>, upsB: seq<Upload>, a: int, b: int)
    requires KeepsAscii(t.nfc)
    requires CollisionFree(t, History(Run(t, EMPTY, upsA), a), History(Run(t, EMPTY, upsB), b))
    requires a in Run(t, EMPTY, upsA).heads && b in Run(t, EMPTY, upsB).heads
    requires Run(t, EMPTY, upsA).heads[a].hash == Run(t, EMPTY, upsB).heads[b].hash
    ensures var past, other := History(Run(t, EMPTY, upsA), a), History(Run(t, EMPTY, upsB), b);
            |past| == |other| && forall i :: 0 <= i < |past| ==> SameFields(t.nfc, past[i].event, other[i].event)
  {
    EqualHeadsEqualHistories(t, upsA, upsB, a, b);
    SameEventsSameFields(t, History(Run(t, EMPTY, upsA), a), History(Run(t, EMPTY, upsB), b));
  }

  lemma SameEventsSameFields(t: Tools, past: seq<HashedEvent>, other: seq<HashedEvent>)
    requires KeepsAscii(t.nfc) && SameEvents(t, past, other)
    ensures |past| == |other| && forall i :: 0 <= i < |past| ==> SameFields(t.nfc, past[i].event, other[i].event)
  {
    forall i | 0 <= i < |past| ensures SameFields(t.nfc, past[i].event, other[i].event) {
      EventIsCovered(t, past[i].event, other[i].event);
    }
  }
}
