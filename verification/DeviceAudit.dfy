/** Signed batches of hash-chained device events: the contract
    (`backend/app/device_audit_contract.py`) and their ingestion
    (`backend/app/services/device_audit_ingestion.py`). */
module DeviceAudit {
  import opened Wrappers
  import opened Ordering
  import opened Reordering
  import opened Utf8
  import opened CanonicalJson
  import opened Base64Url
  import opened DeviceAuditLog

  const AUDIT_PROTOCOL_VERSION := 3
  const MAX_EVENTS_PER_BATCH := 200
  const MAX_METADATA_ENTRIES := 16
  const MAX_METADATA_TEXT := 256
  const MAX_INT64 := 0x7FFF_FFFF_FFFF_FFFF
  const MAX_INT32 := 0x7FFF_FFFF

  /** Unicode tables, the hexadecimal SHA-256 digest, and the signature check of a public key. */
  datatype Tools = Tools(nfc: string -> string, printable: char -> bool, alnum: char -> bool,
                         instant: string -> bool, sha: seq<Byte> -> string,
                         verify: (string, Algorithm, seq<Byte>, seq<Byte>) -> bool)

  /** NFC leaves ASCII text alone. */
  ghost predicate KeepsAscii(nfc: string -> string) { forall s :: IsAscii(s) ==> nfc(s) == s }

  predicate IsAscii(s: string) { forall i :: 0 <= i < |s| ==> s[i] as int < 128 }

  datatype Algorithm = EcdsaP256Sha256 | Rsa2048Sha256

  datatype Batch = Batch(protocol: int, uuid: string, device: string, credential: string, first: int, last: int,
                         previousHead: Option<string>, finalHead: string, algorithm: Algorithm,
                         events: seq<HashedEvent>)

  datatype SignedBatch = SignedBatch(batch: Batch, signature: string)

  // ----- JSON forms

  function CodeText(c: EventCode): string {
    match c
    case PolicyBlock => "policy_block" case EnforcementFailure => "enforcement_failure"
    case TamperAttempt => "tamper_attempt" case ConfigurationChanged => "configuration_changed"
    case PolicyVerified => "policy_verified" case PolicyApplied => "policy_applied"
    case PolicyRejected => "policy_rejected" case SyncSucceeded => "sync_succeeded"
    case SyncFailed => "sync_failed" case ClockAnomaly => "clock_anomaly"
    case BootObserved => "boot_observed" case PolicyStale => "policy_stale"
    case ScreenTimeExhausted => "screen_time_exhausted" case WebFilterBlocked => "web_filter_blocked"
    case BlockOverrideApplied => "block_override_applied" case BlockOverrideCleared => "block_override_cleared"
  }

  function OutcomeText(o: EventOutcome): string {
    match o
    case Allowed => "allowed" case Blocked => "blocked" case Succeeded => "succeeded"
    case Failed => "failed" case Detected => "detected"
  }

  function AlgorithmText(a: Algorithm): string {
    if a.EcdsaP256Sha256? then "ECDSA_P256_SHA256" else "RSA_2048_SHA256"
  }

  function OptionalText(s: Option<string>): Value { if s.Some? then Str(s.value) else Null }

  function Particulars(e: Event): seq<Entry> {
    [Entry("event_uuid", Str(e.uuid)), Entry("occurred_at", Str(e.occurredAt)),
     Entry("elapsed_realtime_ms", Int(e.elapsed)), Entry("boot_count", Int(e.bootCount)),
     Entry("event_code", Str(CodeText(e.code))), Entry("outcome", Str(OutcomeText(e.outcome))),
     Entry("policy_uuid", OptionalText(e.policy)), Entry("revision_uuid", OptionalText(e.revision)),
     Entry("rule_id", OptionalText(e.ruleId)), Entry("metadata", Dict(e.metadata))]
  }

  /** The hashed part of an event. */
  function EventJson(e: Event): Value {
    Dict(Particulars(e) + [Entry("sequence", Int(e.sequence)), Entry("previous_event_hash", OptionalText(e.previous))])
  }

  function HashedJson(h: HashedEvent): Value {
    Dict(Particulars(h.event)
         + [Entry("sequence", Int(h.event.sequence)), Entry("previous_event_hash", OptionalText(h.event.previous)),
            Entry("event_hash", Str(h.hash))])
  }

  function BatchEntries(b: Batch): seq<Entry> {
    [Entry("protocol_version", Int(b.protocol)), Entry("batch_uuid", Str(b.uuid)), Entry("device_uuid", Str(b.device)),
     Entry("credential_uuid", Str(b.credential)), Entry("first_sequence", Int(b.first)),
     Entry("last_sequence", Int(b.last)), Entry("previous_head", OptionalText(b.previousHead)),
     Entry("final_head", Str(b.finalHead)), Entry("signature_algorithm", Str(AlgorithmText(b.algorithm))),
     Entry("events", List(Map((h: HashedEvent) => HashedJson(h), b.events)))]
  }

  function Bytes(t: Tools, v: Value): seq<Byte> { Encode(Print(Normalize(t.nfc, v))) }

  function EventHash(t: Tools, e: Event): string { t.sha(Bytes(t, EventJson(e))) }

  // ----- the contract

  predicate IsWord(t: Tools, s: string) { 1 <= |s| <= 64 && forall c :: c in s ==> c == '_' || t.alnum(c) }

  predicate MetadataValueOk(t: Tools, v: Value) {
    match v
    case Null => true
    case Bool(_) => true
    case Int(n) => -0x8000_0000_0000_0000 <= n < 0x8000_0000_0000_0000
    case Str(s) => |s| <= MAX_METADATA_TEXT && forall c :: c in s ==> t.printable(c)
    case _ => false
  }

  predicate MetadataOk(t: Tools, metadata: seq<Entry>) {
    && |metadata| <= MAX_METADATA_ENTRIES
    && (forall i :: 0 <= i < |metadata| ==> IsWord(t, metadata[i].key) && MetadataValueOk(t, metadata[i].value))
    && (forall i, j :: 0 <= i < j < |metadata| ==> metadata[i].key != metadata[j].key)
  }

  predicate OptionalUuidOk(s: Option<string>) { s.Some? ==> IsUuid4(s.value) }

  predicate IsBlank(c: char) { c == ' ' || '\t' <= c <= '\r' }

  /** What `bytes.fromhex` reads, in lower case: pairs of digits, with white space between pairs. */
  predicate IsHexBytes(s: string) {
    || s == ""
    || (IsBlank(s[0]) && IsHexBytes(s[1..]))
    || (|s| >= 2 && IsLowerHex(s[0]) && IsLowerHex(s[1]) && IsHexBytes(s[2..]))
  }

  /** `_hash`. */
  predicate IsHashText(s: string) { |s| == 64 && IsHexBytes(s) }

  predicate OptionalHashOk(s: Option<string>) { s.Some? ==> IsHashText(s.value) }

  /** A blocked site is reported by the hash of its domain and by nothing else. */
  predicate EvidenceOk(e: Event) {
    e.code == WebFilterBlocked ==>
      && |e.metadata| == 1 && e.metadata[0].key == "domain_hash"
      && e.metadata[0].value.Str? && IsHashText(e.metadata[0].value.s)
  }

  predicate EventOk(t: Tools, e: Event) {
    && IsUuid4(e.uuid) && 1 <= e.sequence <= MAX_INT64 && t.instant(e.occurredAt)
    && 0 <= e.elapsed <= MAX_INT64 && 0 <= e.bootCount <= MAX_INT32
    && OptionalUuidOk(e.policy) && OptionalUuidOk(e.revision) && e.policy.Some? == e.revision.Some?
    && (e.ruleId.Some? ==> IsWord(t, e.ruleId.value))
    && MetadataOk(t, e.metadata) && OptionalHashOk(e.previous) && EvidenceOk(e)
  }

  function EntryKey(): Entry -> string { (e: Entry) => e.key }

  /** The event `build_audit_event` gives back: its metadata in key order. */
  function Rebuilt(e: Event): Event { e.(metadata := Sort(ByKey(EntryKey()), e.metadata)) }

  predicate HashedEventOk(t: Tools, h: HashedEvent) {
    EventOk(t, h.event) && IsHashText(h.hash) && h.hash == EventHash(t, Rebuilt(h.event))
  }

  /** Each event follows the one before it. */
  predicate Linked(events: seq<HashedEvent>) {
    forall i :: 0 < i < |events| ==>
      && events[i].event.sequence == events[i - 1].event.sequence + 1
      && events[i].event.previous == Some(events[i - 1].hash)
  }

  function Checked(h: HashedEvent): HashedEvent { h.(event := Rebuilt(h.event)) }

  /** `_validate_batch`: the events, their links, and the summary fields. */
  predicate BatchOk(t: Tools, b: Batch) {
    && b.protocol == AUDIT_PROTOCOL_VERSION
    && 1 <= |b.events| <= MAX_EVENTS_PER_BATCH
    && (forall i :: 0 <= i < |b.events| ==> HashedEventOk(t, b.events[i]))
    && Linked(b.events)
    && IsUuid4(b.uuid) && IsUuid4(b.device) && IsUuid4(b.credential)
    && b.first == b.events[0].event.sequence && b.last == b.events[|b.events| - 1].event.sequence
    && b.previousHead == b.events[0].event.previous && b.finalHead == b.events[|b.events| - 1].hash
  }

  function CheckedBatch(b: Batch): Batch { b.(events := Map((h: HashedEvent) => Checked(h), b.events)) }

  function SignatureBytes(s: string): Result<seq<Byte>> { if s == "" then Ok([]) else Decode64(s, None) }

  /** `verify_audit_batch` against the stored head. */
  predicate Verifies(t: Tools, p: SignedBatch, key: string, previous: Option<string>, first: int) {
    && BatchOk(t, p.batch) && p.batch.previousHead == previous && p.batch.first == first
    && SignatureBytes(p.signature).Ok?
    && t.verify(key, p.batch.algorithm, Bytes(t, Dict(BatchEntries(CheckedBatch(p.batch)))),
                SignatureBytes(p.signature).value)
  }

  // ----- the tables

  datatype Device = Device(id: int, uuid: string, active: bool)

  datatype Credential = Credential(id: int, uuid: string, active: bool, key: string)

  datatype Upload = Upload(payload: SignedBatch, device: Device, credential: Credential)

  datatype Receipt = Receipt(batchUuid: string, throughSequence: int, chainHead: string, replayed: bool)

  datatype Answer = Accepted(receipt: Receipt) | ContractError | Conflict

  function ContentHash(t: Tools, p: SignedBatch): string {
    t.sha(Bytes(t, Dict(BatchEntries(p.batch) + [Entry("signature", Str(p.signature))])))
  }

  function RowFor(t: Tools, up: Upload): BatchRow {
    var b := up.payload.batch;
    BatchRow(up.device.id, up.credential.id, b.first, b.last, b.previousHead, b.finalHead, ContentHash(t, up.payload))
  }

  function ReceiptFor(uuid: string, row: BatchRow, replayed: bool): Receipt {
    Receipt(uuid, row.last, row.finalHead, replayed)
  }

  /** The unique and check constraints of the rows an accepted batch adds. */
  predicate Storable(s: Store, up: Upload) {
    var b := up.payload.batch;
    && (forall u :: u in s.batches && s.batches[u].deviceId == up.device.id ==>
          s.batches[u].first != b.first || s.batches[u].last != b.last)
    && (forall h :: h in b.events ==> h.event.uuid !in s.uuids && h.hash !in s.hashes)
    && (forall i, j :: 0 <= i < j < |b.events| ==>
          b.events[i].event.uuid != b.events[j].event.uuid && b.events[i].hash != b.events[j].hash)
    && (forall h, g :: h in b.events && g in History(s, up.device.id) ==> h.event.sequence != g.event.sequence)
    && SignatureBytes(up.payload.signature).Ok? && 64 <= |SignatureBytes(up.payload.signature).value| <= 512
  }

  function ExpectedPrevious(s: Store, device: int): Option<string> {
    if device in s.heads then Some(s.heads[device].hash) else None
  }

  function ExpectedFirst(s: Store, device: int): int {
    if device in s.heads then s.heads[device].lastSequence + 1 else 1
  }

  predicate Continues(t: Tools, s: Store, up: Upload) {
    && Verifies(t, up.payload, up.credential.key, ExpectedPrevious(s, up.device.id), ExpectedFirst(s, up.device.id))
    && up.payload.batch.device == up.device.uuid && up.payload.batch.credential == up.credential.uuid
  }

  function Stored(t: Tools, s: Store, up: Upload): Store {
    Appended(s, up.payload.batch.uuid, RowFor(t, up), CheckedBatch(up.payload.batch).events)
  }

  /** A batch that has not been stored before. */
  function IngestNew(t: Tools, s: Store, up: Upload): (Answer, Store) {
    if !Continues(t, s, up) then (ContractError, s)
    else if !Storable(s, up) then (Conflict, s)
    else (Accepted(ReceiptFor(up.payload.batch.uuid, RowFor(t, up), false)), Stored(t, s, up))
  }

  /** What one upload answers and the tables it leaves. */
  function Ingest(t: Tools, s: Store, up: Upload): (Answer, Store) {
    var uuid := up.payload.batch.uuid;
    if !up.device.active || !up.credential.active then (Conflict, s)
    else if !IsUuid4(uuid) then (ContractError, s)
    else if uuid in s.batches then
      var row := s.batches[uuid];
      if row.deviceId == up.device.id && row.credentialId == up.credential.id
         && row.contentHash == ContentHash(t, up.payload)
      then (Accepted(ReceiptFor(uuid, row, true)), s)
      else (Conflict, s)
    else IngestNew(t, s, up)
  }

  function Run(t: Tools, s: Store, ups: seq<Upload>): Store
    decreases |ups|
  {
    if ups == [] then s else Run(t, Ingest(t, s, ups[0]).1, ups[1..])
  }

  function Answers(t: Tools, s: Store, ups: seq<Upload>): (r: seq<Answer>)
    ensures |r| == |ups|
    decreases |ups|
  {
    if ups == [] then [] else [Ingest(t, s, ups[0]).0] + Answers(t, Ingest(t, s, ups[0]).1, ups[1..])
  }

  // ----- what every run keeps

  ghost function HashOf(t: Tools): Hasher { (e: Event) => EventHash(t, e) }

  lemma {:induction false} LinkedNumbers(events: seq<HashedEvent>, i: nat)
    requires Linked(events) && i < |events|
    ensures events[i].event.sequence == events[0].event.sequence + i
  {
    if i > 0 {
      LinkedNumbers(events, i - 1);
    }
  }

  /** A batch that passes the contract is a chain of its own. */
  lemma CheckedIsChain(t: Tools, b: Batch)
    requires BatchOk(t, b)
    ensures var added := CheckedBatch(b).events;
            && added != [] && |added| == b.last - b.first + 1 && LastHash(added) == Some(b.finalHead)
            && Chain(HashOf(t), added, b.first, b.previousHead)
  {
    var added := CheckedBatch(b).events;
    forall i | 0 <= i < |added| ensures InChain(HashOf(t), added, b.first, b.previousHead, i) {
      LinkedNumbers(b.events, i);
      assert HashedEventOk(t, b.events[i]);
    }
    LinkedNumbers(b.events, |b.events| - 1);
  }

  lemma ContinuingFits(t: Tools, s: Store, up: Upload)
    requires HeadMatches(s, up.device.id) && Continues(t, s, up) && up.payload.batch.uuid !in s.batches
    ensures Fits(HashOf(t), s, up.payload.batch.uuid, RowFor(t, up), CheckedBatch(up.payload.batch).events)
  {
    CheckedIsChain(t, up.payload.batch);
  }

  lemma IngestStores(t: Tools, s: Store, up: Upload)
    ensures Ingest(t, s, up).1 == s
         || (Ingest(t, s, up).1 == Stored(t, s, up) && Continues(t, s, up)
             && up.payload.batch.uuid !in s.batches && Ingest(t, s, up).0.Accepted?)
  {
  }

  /** One upload keeps every chain numbered, linked, tiled by batches and matched by its head,
      and only ever extends a history. */
  lemma IngestKeepsValid(t: Tools, s: Store, up: Upload)
    requires Valid(HashOf(t), s)
    ensures Valid(HashOf(t), Ingest(t, s, up).1)
    ensures forall d :: History(s, d) <= History(Ingest(t, s, up).1, d)
  {
    IngestStores(t, s, up);
    if Ingest(t, s, up).1 != s {
      assert DeviceOk(HashOf(t), s, up.device.id);
      ContinuingFits(t, s, up);
      AppendKeepsValid(HashOf(t), s, up.payload.batch.uuid, RowFor(t, up), CheckedBatch(up.payload.batch).events);
    }
  }

  /** So does every run of uploads, for any number of devices. */
  lemma {:induction false} RunKeepsValid(t: Tools, s: Store, ups: seq<Upload>)
    requires Valid(HashOf(t), s)
    ensures Valid(HashOf(t), Run(t, s, ups))
    ensures forall d :: History(s, d) <= History(Run(t, s, ups), d)
    decreases |ups|
  {
    if ups != [] {
      IngestKeepsValid(t, s, ups[0]);
      RunKeepsValid(t, Ingest(t, s, ups[0]).1, ups[1..]);
    }
  }

  // ----- tamper evidence

  lemma LastOf(nfc: string -> string, front: seq<Entry>, e: Entry, key: string)
    ensures LastAssignment(nfc, front + [e], key)
         == if nfc(e.key) == key then Some(e.value) else LastAssignment(nfc, front, key)
    decreases |front|
  {
    if front == [] {
      assert front + [e] == [e];
    } else {
      LastOf(nfc, front[1..], e, key);
      assert (front + [e])[1..] == front[1..] + [e];
    }
  }

  lemma ChainFields(t: Tools, e: Event)
    requires KeepsAscii(t.nfc)
    ensures LastAssignment(t.nfc, EventJson(e).entries, "previous_event_hash") == Some(OptionalText(e.previous))
    ensures LastAssignment(t.nfc, EventJson(e).entries, "sequence") == Some(Int(e.sequence))
  {
    var front := Particulars(e);
    var number := Entry("sequence", Int(e.sequence));
    var link := Entry("previous_event_hash", OptionalText(e.previous));
    assert front + [number, link] == (front + [number]) + [link];
    assert IsAscii("sequence") && IsAscii("previous_event_hash");
    assert "sequence"[0] == 's' && "previous_event_hash"[0] == 'p';
    LastOf(t.nfc, front + [number], link, "previous_event_hash");
    LastOf(t.nfc, front + [number], link, "sequence");
    LastOf(t.nfc, front, number, "sequence");
  }

  lemma NormalFormFixesField(t: Tools, e: Event, f: Event, key: string, v: Value, w: Value)
    requires Normalize(t.nfc, EventJson(e)) == Normalize(t.nfc, EventJson(f))
    requires LastAssignment(t.nfc, EventJson(e).entries, key) == Some(v)
    requires LastAssignment(t.nfc, EventJson(f).entries, key) == Some(w)
    ensures Normalize(t.nfc, v) == Normalize(t.nfc, w)
  {
    DictNormalForms(t.nfc, EventJson(e).entries, EventJson(f).entries);
    assert SameAssignment(t.nfc, EventJson(e).entries, EventJson(f).entries, key);
  }

  /** Two events with one normal form have the same number and the same predecessor hash. */
  lemma NormalFormFixesLinks(t: Tools, e: Event, f: Event)
    requires KeepsAscii(t.nfc) && Normalize(t.nfc, EventJson(e)) == Normalize(t.nfc, EventJson(f))
    requires OptionalHashOk(e.previous) && OptionalHashOk(f.previous)
    ensures e.sequence == f.sequence && e.previous == f.previous
  {
    ChainFields(t, e);
    ChainFields(t, f);
    NormalFormFixesField(t, e, f, "sequence", Int(e.sequence), Int(f.sequence));
    NormalFormFixesField(t, e, f, "previous_event_hash", OptionalText(e.previous), OptionalText(f.previous));
    if e.previous.Some? { HexBytesAreAscii(e.previous.value); }
    if f.previous.Some? { HexBytesAreAscii(f.previous.value); }
  }

  lemma {:induction false} HexBytesAreAscii(s: string)
    requires IsHexBytes(s)
    ensures IsAscii(s)
  {
    if s == "" {
    } else if IsBlank(s[0]) {
      HexBytesAreAscii(s[1..]);
      assert s == [s[0]] + s[1..];
    } else {
      HexBytesAreAscii(s[2..]);
      assert s == [s[0], s[1]] + s[2..];
    }
  }

  ghost predicate SameEvents(t: Tools, a: seq<HashedEvent>, b: seq<HashedEvent>) {
    |a| == |b| && forall i :: 0 <= i < |a| ==>
      a[i].hash == b[i].hash && Normalize(t.nfc, EventJson(a[i].event)) == Normalize(t.nfc, EventJson(b[i].event))
  }

  /** Two events with one hash that are not hashed from the same bytes. */
  predicate Collide(t: Tools, e: Event, f: Event) {
    EventHash(t, e) == EventHash(t, f) && Bytes(t, EventJson(e)) != Bytes(t, EventJson(f))
  }

  ghost predicate CollisionFree(t: Tools, a: seq<HashedEvent>, b: seq<HashedEvent>) {
    forall i, j :: 0 <= i < |a| && 0 <= j < |b| ==> !Collide(t, a[i].event, b[j].event)
  }

  lemma CollisionFreeFronts(t: Tools, a: seq<HashedEvent>, b: seq<HashedEvent>)
    requires a != [] && b != [] && CollisionFree(t, a, b)
    ensures CollisionFree(t, a[..|a| - 1], b[..|b| - 1])
  {
  }

  ghost predicate StorableEvents(a: seq<HashedEvent>) {
    forall i :: 0 <= i < |a| ==> Encodable(EventJson(a[i].event)) && OptionalHashOk(a[i].event.previous)
  }

  lemma SameBytesSameLinks(t: Tools, e: Event, f: Event)
    requires KeepsAscii(t.nfc) && Bytes(t, EventJson(e)) == Bytes(t, EventJson(f))
    requires Encodable(EventJson(e)) && Encodable(EventJson(f))
    requires OptionalHashOk(e.previous) && OptionalHashOk(f.previous)
    ensures Normalize(t.nfc, EventJson(e)) == Normalize(t.nfc, EventJson(f))
    ensures e.sequence == f.sequence && e.previous == f.previous
  {
    Injective(t.nfc, EventJson(e), EventJson(f));
    NormalFormFixesLinks(t, e, f);
  }

  lemma PrefixChained(h: Hasher, a: seq<HashedEvent>, m: nat)
    requires m <= |a| && Chained(h, a)
    ensures Chained(h, a[..m])
  {
    forall i | 0 <= i < m ensures InChain(h, a[..m], 1, None, i) {
      assert InChain(h, a, 1, None, i);
    }
  }

  lemma SameEventsExtend(t: Tools, a: seq<HashedEvent>, b: seq<HashedEvent>)
    requires a != [] && b != [] && SameEvents(t, a[..|a| - 1], b[..|b| - 1])
    requires a[|a| - 1].hash == b[|b| - 1].hash
    requires Normalize(t.nfc, EventJson(a[|a| - 1].event)) == Normalize(t.nfc, EventJson(b[|b| - 1].event))
    ensures SameEvents(t, a, b)
  {
    forall i | 0 <= i < |a|
      ensures a[i].hash == b[i].hash && Normalize(t.nfc, EventJson(a[i].event)) == Normalize(t.nfc, EventJson(b[i].event))
    {
      if i < |a| - 1 {
        assert a[i] == a[..|a| - 1][i] && b[i] == b[..|b| - 1][i];
      }
    }
  }

  lemma LastLink(h: Hasher, a: seq<HashedEvent>)
    requires a != [] && Chained(h, a)
    ensures var last := a[|a| - 1];
            last.event.sequence == |a| && last.hash == h(last.event) && last.event.previous == LastHash(a[..|a| - 1])
  {
    assert InChain(h, a, 1, None, |a| - 1);
  }

  lemma SameLastEvent(t: Tools, a: seq<HashedEvent>, b: seq<HashedEvent>)
    requires KeepsAscii(t.nfc) && CollisionFree(t, a, b)
    requires Chained(HashOf(t), a) && Chained(HashOf(t), b) && StorableEvents(a) && StorableEvents(b)
    requires a != [] && b != [] && LastHash(a) == LastHash(b)
    ensures Normalize(t.nfc, EventJson(a[|a| - 1].event)) == Normalize(t.nfc, EventJson(b[|b| - 1].event))
    ensures |a| == |b| && LastHash(a[..|a| - 1]) == LastHash(b[..|b| - 1])
  {
    LastLink(HashOf(t), a);
    LastLink(HashOf(t), b);
    assert !Collide(t, a[|a| - 1].event, b[|b| - 1].event);
    SameBytesSameLinks(t, a[|a| - 1].event, b[|b| - 1].event);
  }

  lemma FrontIsChain(t: Tools, a: seq<HashedEvent>)
    requires a != [] && Chained(HashOf(t), a) && StorableEvents(a)
    ensures Chained(HashOf(t), a[..|a| - 1]) && StorableEvents(a[..|a| - 1])
  {
    PrefixChained(HashOf(t), a, |a| - 1);
  }

  lemma {:induction false} SameLastHash(t: Tools, a: seq<HashedEvent>, b: seq<HashedEvent>)
    requires KeepsAscii(t.nfc) && CollisionFree(t, a, b)
    requires Chained(HashOf(t), a) && Chained(HashOf(t), b) && StorableEvents(a) && StorableEvents(b)
    requires LastHash(a) == LastHash(b)
    ensures SameEvents(t, a, b)
    decreases |a|
  {
    if |a| > 0 {
      SameLastEvent(t, a, b);
      FrontIsChain(t, a);
      FrontIsChain(t, b);
      CollisionFreeFronts(t, a, b);
      SameLastHash(t, a[..|a| - 1], b[..|b| - 1]);
      SameEventsExtend(t, a, b);
    }
  }

  lemma EventEncodable(t: Tools, e: Event)
    requires MetadataOk(t, e.metadata)
    ensures Encodable(EventJson(e))
  {
    var front := Particulars(e);
    forall i | 0 <= i < |e.metadata| ensures Encodable(e.metadata[i].value) {
      assert MetadataValueOk(t, e.metadata[i].value);
    }
    assert Encodable(front[9].value);
    forall i | 0 <= i < |front| ensures Encodable(front[i].value) {
    }
  }

  lemma RebuiltMetadata(t: Tools, e: Event)
    requires MetadataOk(t, e.metadata)
    ensures MetadataOk(t, Rebuilt(e).metadata)
  {
    assert DistinctBy(EntryKey(), e.metadata) by {
      forall i, j | 0 <= i < j < |e.metadata| ensures EntryKey()(e.metadata[i]) != EntryKey()(e.metadata[j]) {
      }
    }
    SortByKey(EntryKey(), e.metadata);
    SameMembers(Rebuilt(e).metadata, e.metadata);
    forall i, j | 0 <= i < j < |Rebuilt(e).metadata| ensures Rebuilt(e).metadata[i].key != Rebuilt(e).metadata[j].key {
      assert EntryKey()(Rebuilt(e).metadata[i]) != EntryKey()(Rebuilt(e).metadata[j]);
    }
    forall i | 0 <= i < |Rebuilt(e).metadata|
      ensures IsWord(t, Rebuilt(e).metadata[i].key) && MetadataValueOk(t, Rebuilt(e).metadata[i].value)
    {
      assert Rebuilt(e).metadata[i] in e.metadata;
    }
  }

  lemma CheckedStorable(t: Tools, b: Batch)
    requires BatchOk(t, b)
    ensures StorableEvents(CheckedBatch(b).events)
  {
    forall i | 0 <= i < |b.events|
      ensures Encodable(EventJson(Checked(b.events[i]).event)) && OptionalHashOk(Checked(b.events[i]).event.previous)
    {
      assert HashedEventOk(t, b.events[i]);
      RebuiltMetadata(t, b.events[i].event);
      EventEncodable(t, Rebuilt(b.events[i].event));
    }
  }

  lemma AppendedStorable(s: Store, uuid: string, row: BatchRow, added: seq<HashedEvent>)
    requires StorableEvents(added) && forall d :: StorableEvents(History(s, d))
    ensures forall d :: StorableEvents(History(Appended(s, uuid, row, added), d))
  {
    forall d ensures StorableEvents(History(Appended(s, uuid, row, added), d)) {
      AppendedHistories(s, uuid, row, added, d);
      assert StorableEvents(History(s, d));
    }
  }

  lemma IngestKeepsStorable(t: Tools, s: Store, up: Upload)
    requires forall d :: StorableEvents(History(s, d))
    ensures forall d :: StorableEvents(History(Ingest(t, s, up).1, d))
  {
    IngestStores(t, s, up);
    if Ingest(t, s, up).1 != s {
      var b := up.payload.batch;
      CheckedStorable(t, b);
      AppendedStorable(s, b.uuid, RowFor(t, up), CheckedBatch(b).events);
    }
  }

  lemma {:induction false} RunKeepsStorable(t: Tools, s: Store, ups: seq<Upload>)
    requires forall d :: StorableEvents(History(s, d))
    ensures forall d :: StorableEvents(History(Run(t, s, ups), d))
    decreases |ups|
  {
    if ups != [] {
      IngestKeepsStorable(t, s, ups[0]);
      RunKeepsStorable(t, Ingest(t, s, ups[0]).1, ups[1..]);
    }
  }

  lemma HistoriesAreInOrder(t: Tools, ups: seq<Upload>, d: int)
    ensures var s := Run(t, EMPTY, ups);
            && Chained(HashOf(t), History(s, d)) && StorableEvents(History(s, d))
            && (d in s.heads ==> LastHash(History(s, d)) == Some(s.heads[d].hash))
  {
    var s := Run(t, EMPTY, ups);
    EmptyIsValid(HashOf(t));
    RunKeepsValid(t, EMPTY, ups);
    RunKeepsStorable(t, EMPTY, ups);
    assert DeviceOk(HashOf(t), s, d);
  }

  /** After any two runs, two devices with equal chain heads have equal whole histories, up to
      Unicode normalisation of the text in them, unless two of their events collide. */
  lemma EqualHeadsEqualHistories(t: Tools, upsA: seq<Upload>, upsB: seq<Upload>, a: int, b: int)
    requires KeepsAscii(t.nfc)
    requires CollisionFree(t, History(Run(t, EMPTY, upsA), a), History(Run(t, EMPTY, upsB), b))
    requires var s := Run(t, EMPTY, upsA); var r := Run(t, EMPTY, upsB);
             a in s.heads && b in r.heads && s.heads[a].hash == r.heads[b].hash
    ensures SameEvents(t, History(Run(t, EMPTY, upsA), a), History(Run(t, EMPTY, upsB), b))
  {
    HistoriesAreInOrder(t, upsA, a);
    HistoriesAreInOrder(t, upsB, b);
    SameLastHash(t, History(Run(t, EMPTY, upsA), a), History(Run(t, EMPTY, upsB), b));
  }

  // ----- exactly-once storage

  /** The batch of this upload is stored, from this device, credential and content. */
  predicate Held(t: Tools, s: Store, up: Upload) {
    var uuid := up.payload.batch.uuid;
    && IsUuid4(uuid) && uuid in s.batches
    && s.batches[uuid].deviceId == up.device.id && s.batches[uuid].credentialId == up.credential.id
    && s.batches[uuid].contentHash == ContentHash(t, up.payload)
  }

  predicate Live(up: Upload) { up.device.active && up.credential.active }

  /** Sending a stored batch again changes nothing and repeats its receipt. */
  lemma RedeliveryIsSilent(t: Tools, s: Store, up: Upload)
    requires Held(t, s, up) && Live(up)
    ensures var uuid := up.payload.batch.uuid;
            Ingest(t, s, up) == (Accepted(ReceiptFor(uuid, s.batches[uuid], true)), s)
  {
  }

  lemma AcceptedIsHeld(t: Tools, s: Store, up: Upload)
    requires Ingest(t, s, up).0.Accepted?
    ensures Held(t, Ingest(t, s, up).1, up)
    ensures var row := Ingest(t, s, up).1.batches[up.payload.batch.uuid];
            Ingest(t, s, up).0.receipt.(replayed := true) == ReceiptFor(up.payload.batch.uuid, row, true)
  {
  }

  lemma RowsNeverChange(t: Tools, s: Store, up: Upload, uuid: string)
    requires uuid in s.batches
    ensures uuid in Ingest(t, s, up).1.batches && Ingest(t, s, up).1.batches[uuid] == s.batches[uuid]
  {
    IngestStores(t, s, up);
  }

  /** The uploads that are not marked as retransmissions. */
  function Originals(ups: seq<Upload>, again: seq<bool>): seq<Upload>
    requires |ups| == |again|
  {
    if ups == [] then []
    else (if again[0] then [] else [ups[0]]) + Originals(ups[1..], again[1..])
  }

  /** Upload `k` repeats one that is stored already or that was accepted earlier in the run. */
  ghost predicate Repeats(t: Tools, s: Store, ups: seq<Upload>, k: int)
    requires 0 <= k < |ups|
  {
    Held(t, s, ups[k])
    || exists j :: 0 <= j < k && ups[j] == ups[k] && Answers(t, s, ups)[j].Accepted?
  }

  lemma RepeatsAfterStep(t: Tools, s: Store, ups: seq<Upload>, k: int)
    requires 0 < k < |ups| && Repeats(t, s, ups, k)
    ensures Repeats(t, Ingest(t, s, ups[0]).1, ups[1..], k - 1)
  {
    var next := Ingest(t, s, ups[0]).1;
    if Held(t, s, ups[k]) {
      RowsNeverChange(t, s, ups[0], ups[k].payload.batch.uuid);
    } else {
      var j :| 0 <= j < k && ups[j] == ups[k] && Answers(t, s, ups)[j].Accepted?;
      if j == 0 {
        AcceptedIsHeld(t, s, ups[0]);
      } else {
        assert Answers(t, next, ups[1..])[j - 1] == Answers(t, s, ups)[j];
      }
    }
  }

  /** While devices and credentials stay active, a run with accepted batches retransmitted at
      any later points ends in the same state as the run without the retransmissions. */
  lemma {:induction false} RetransmissionsChangeNothing(t: Tools, s: Store, ups: seq<Upload>, again: seq<bool>)
    requires |ups| == |again| && forall k :: 0 <= k < |ups| ==> Live(ups[k])
    requires forall k :: 0 <= k < |ups| && again[k] ==> Repeats(t, s, ups, k)
    ensures Run(t, s, ups) == Run(t, s, Originals(ups, again))
    decreases |ups|
  {
    if ups != [] {
      var next := Ingest(t, s, ups[0]).1;
      forall k | 0 <= k < |ups[1..]| && again[1..][k] ensures Repeats(t, next, ups[1..], k) {
        assert again[k + 1] && Repeats(t, s, ups, k + 1);
        RepeatsAfterStep(t, s, ups, k + 1);
      }
      RetransmissionsChangeNothing(t, next, ups[1..], again[1..]);
      if again[0] {
        assert Repeats(t, s, ups, 0);
        RedeliveryIsSilent(t, s, ups[0]);
        assert Originals(ups, again) == Originals(ups[1..], again[1..]);
      } else {
        assert Originals(ups, again)[1..] == Originals(ups[1..], again[1..]);
      }
    }
  }

  lemma {:induction false} HeldThroughRun(t: Tools, s: Store, ups: seq<Upload>, uuid: string)
    requires uuid in s.batches
    ensures uuid in Run(t, s, ups).batches && Run(t, s, ups).batches[uuid] == s.batches[uuid]
    decreases |ups|
  {
    if ups != [] {
      RowsNeverChange(t, s, ups[0], uuid);
      HeldThroughRun(t, Ingest(t, s, ups[0]).1, ups[1..], uuid);
    }
  }

  /** However many uploads come in between, a retry of an accepted batch gets the first receipt
      back, marked as replayed. */
  lemma RetryRepeatsReceipt(t: Tools, s: Store, up: Upload, between: seq<Upload>)
    requires Live(up) && Ingest(t, s, up).0.Accepted?
    ensures var later := Run(t, Ingest(t, s, up).1, between);
            Ingest(t, later, up) == (Accepted(Ingest(t, s, up).0.receipt.(replayed := true)), later)
  {
    AcceptedIsHeld(t, s, up);
    HeldThroughRun(t, Ingest(t, s, up).1, between, up.payload.batch.uuid);
    RedeliveryIsSilent(t, Run(t, Ingest(t, s, up).1, between), up);
  }
}
