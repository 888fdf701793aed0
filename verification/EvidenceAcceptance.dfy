/** Which events and batches of evidence are in order, requirement by requirement
    (`backend/app/device_audit_contract.py`). */
module EvidenceAcceptance {
  import opened Wrappers
  import opened Base64Url
  import opened CanonicalJson
  import opened DeviceAuditLog
  import opened DeviceAudit

  // ----- texts

  /** One white-space character, or two lower-case hexadecimal digits. */
  predicate HexPiece(p: string) {
    || (|p| == 1 && (p[0] == ' ' || 9 <= p[0] as int <= 13))
    || (|p| == 2 && IsHexLetter(p[0]) && IsHexLetter(p[1]))
  }

  predicate IsHexLetter(c: char) { '0' <= c <= '9' || 'a' <= c <= 'f' }

  function Flat(pieces: seq<string>): string { if pieces == [] then "" else pieces[0] + Flat(pieces[1..]) }

  /** Pairs of digits with white space between pairs: what `bytes.fromhex` reads. */
  ghost predicate IsHexOfBytes(s: string) {
    exists pieces: seq<string> :: s == Flat(pieces) && forall i :: 0 <= i < |pieces| ==> HexPiece(pieces[i])
  }

  lemma {:induction false} PiecesAreRead(pieces: seq<string>)
    requires forall i :: 0 <= i < |pieces| ==> HexPiece(pieces[i])
    ensures IsHexBytes(Flat(pieces))
  {
    if pieces != [] {
      var p, rest := pieces[0], Flat(pieces[1..]);
      PiecesAreRead(pieces[1..]);
      if |p| == 1 {
        assert (p + rest)[1..] == rest && (p + rest)[0] == p[0];
      } else {
        assert (p + rest)[2..] == rest && (p + rest)[0] == p[0] && (p + rest)[1] == p[1];
      }
    }
  }

  lemma {:induction false} ReadInPieces(s: string) returns (pieces: seq<string>)
    requires IsHexBytes(s)
    ensures s == Flat(pieces) && forall i :: 0 <= i < |pieces| ==> HexPiece(pieces[i])
    decreases |s|
  {
    if s == "" {
      pieces := [];
    } else if IsBlank(s[0]) && IsHexBytes(s[1..]) {
      var rest := ReadInPieces(s[1..]);
      pieces := [[s[0]]] + rest;
      assert pieces[1..] == rest && s == [s[0]] + s[1..];
    } else {
      var rest := ReadInPieces(s[2..]);
      pieces := [[s[0], s[1]]] + rest;
      assert pieces[1..] == rest && s == [s[0], s[1]] + s[2..];
    }
  }

  ghost predicate IsHash(s: string) { |s| == 64 && IsHexOfBytes(s) }

  lemma HashExactly(s: string)
    ensures IsHashText(s) <==> IsHash(s)
  {
    if IsHexBytes(s) {
      var pieces := ReadInPieces(s);
    }
    if pieces: seq<string> :| s == Flat(pieces) && forall i :: 0 <= i < |pieces| ==> HexPiece(pieces[i]) {
      PiecesAreRead(pieces);
    }
  }

  /** 1 to 64 letters, digits and underscores. */
  predicate IsKey(t: Tools, s: string) { 0 < |s| < 65 && forall i :: 0 <= i < |s| ==> s[i] == '_' || t.alnum(s[i]) }

  lemma KeyExactly(t: Tools, s: string)
    ensures IsWord(t, s) <==> IsKey(t, s)
  {
    assert forall i :: 0 <= i < |s| ==> s[i] in s;
  }

  // ----- events

  /** Nothing, a truth value, a 64-bit number, or a printable text of bounded length. */
  predicate PlainValue(t: Tools, v: Value) {
    || v.Null? || v.Bool?
    || (v.Int? && -9_223_372_036_854_775_808 <= v.n <= 9_223_372_036_854_775_807)
    || (v.Str? && |v.s| <= MAX_METADATA_TEXT && forall i :: 0 <= i < |v.s| ==> t.printable(v.s[i]))
  }

  ghost predicate MetadataMeets(t: Tools, metadata: seq<Entry>) {
    && |metadata| <= MAX_METADATA_ENTRIES
    && (forall e :: e in metadata ==> IsKey(t, e.key) && PlainValue(t, e.value))
    && forall i, j :: 0 <= i < |metadata| && 0 <= j < |metadata| && metadata[i].key == metadata[j].key ==> i == j
  }

  lemma MetadataExactly(t: Tools, metadata: seq<Entry>)
    ensures MetadataOk(t, metadata) <==> MetadataMeets(t, metadata)
  {
    forall i | 0 <= i < |metadata|
      ensures IsWord(t, metadata[i].key) && MetadataValueOk(t, metadata[i].value)
         <==> IsKey(t, metadata[i].key) && PlainValue(t, metadata[i].value)
    {
      KeyExactly(t, metadata[i].key);
      ValueExactly(t, metadata[i].value);
    }
  }

  lemma ValueExactly(t: Tools, v: Value)
    ensures MetadataValueOk(t, v) <==> PlainValue(t, v)
  {
    if v.Str? {
      assert forall i :: 0 <= i < |v.s| ==> v.s[i] in v.s;
    }
  }

  /** A blocked site comes with the hash of its domain and nothing else. */
  ghost predicate BlockedSiteMeets(e: Event) {
    e.code == WebFilterBlocked ==> exists h :: IsHash(h) && e.metadata == [Entry("domain_hash", Str(h))]
  }

  lemma BlockedSiteExactly(e: Event)
    ensures EvidenceOk(e) <==> BlockedSiteMeets(e)
  {
    if e.code == WebFilterBlocked {
      if EvidenceOk(e) {
        HashExactly(e.metadata[0].value.s);
        assert e.metadata == [Entry("domain_hash", Str(e.metadata[0].value.s))];
      }
      if h :| IsHash(h) && e.metadata == [Entry("domain_hash", Str(h))] {
        HashExactly(h);
      }
    }
  }

  ghost predicate EventMeets(t: Tools, e: Event) {
    && IsUuid4(e.uuid) && 0 < e.sequence <= 9_223_372_036_854_775_807 && t.instant(e.occurredAt)
    && 0 <= e.elapsed <= 9_223_372_036_854_775_807 && 0 <= e.bootCount <= 2_147_483_647
    && (match (e.policy, e.revision)
        case (None, None) => true
        case (Some(policy), Some(revision)) => IsUuid4(policy) && IsUuid4(revision)
        case _ => false)
    && (e.ruleId.Some? ==> IsKey(t, e.ruleId.value)) && (e.previous.Some? ==> IsHash(e.previous.value))
    && MetadataMeets(t, e.metadata) && BlockedSiteMeets(e)
  }

  lemma EventExactly(t: Tools, e: Event)
    ensures EventOk(t, e) <==> EventMeets(t, e)
  {
    if e.ruleId.Some? { KeyExactly(t, e.ruleId.value); }
    if e.previous.Some? { HashExactly(e.previous.value); }
    MetadataExactly(t, e.metadata);
    BlockedSiteExactly(e);
  }

  // ----- batches

  /** The header is in order and there are 1 to 200 events. */
  predicate HeaderMeets(b: Batch) {
    && b.protocol == AUDIT_PROTOCOL_VERSION && IsUuid4(b.uuid) && IsUuid4(b.device) && IsUuid4(b.credential)
    && 0 < |b.events| <= MAX_EVENTS_PER_BATCH
  }

  /** Events in order, each with the hash of its checked form, numbered on, each naming the
      hash of the one before, between the numbers and heads the batch names. */
  ghost predicate BatchMeets(t: Tools, b: Batch) {
    && HeaderMeets(b)
    && (forall h :: h in b.events ==> EventMeets(t, h.event) && IsHash(h.hash) && h.hash == EventHash(t, Rebuilt(h.event)))
    && (forall i :: 0 <= i < |b.events| ==> InPlace(b, i))
    && b.last == b.first + |b.events| - 1 && b.finalHead == b.events[|b.events| - 1].hash
  }

  predicate InPlace(b: Batch, i: int)
    requires 0 <= i < |b.events|
  {
    && b.events[i].event.sequence == b.first + i
    && b.events[i].event.previous == if i == 0 then b.previousHead else Some(b.events[i - 1].hash)
  }

  lemma HashedEventExactly(t: Tools, h: HashedEvent)
    ensures HashedEventOk(t, h)
       <==> EventMeets(t, h.event) && IsHash(h.hash) && h.hash == EventHash(t, Rebuilt(h.event))
  {
    EventExactly(t, h.event);
    HashExactly(h.hash);
  }

  lemma LinkedIsInPlace(b: Batch)
    requires b.events != [] && Linked(b.events)
    requires b.first == b.events[0].event.sequence && b.previousHead == b.events[0].event.previous
    ensures forall i :: 0 <= i < |b.events| ==> InPlace(b, i)
  {
    forall i | 0 <= i < |b.events| ensures InPlace(b, i) {
      LinkedNumbers(b.events, i);
    }
  }

  lemma InPlaceIsLinked(b: Batch)
    requires b.events != [] && forall i :: 0 <= i < |b.events| ==> InPlace(b, i)
    ensures Linked(b.events) && b.first == b.events[0].event.sequence && b.previousHead == b.events[0].event.previous
    ensures b.events[|b.events| - 1].event.sequence == b.first + |b.events| - 1
  {
    forall i | 0 < i < |b.events|
      ensures b.events[i].event.sequence == b.events[i - 1].event.sequence + 1
      ensures b.events[i].event.previous == Some(b.events[i - 1].hash)
    {
      assert InPlace(b, i) && InPlace(b, i - 1);
    }
    assert InPlace(b, 0) && InPlace(b, |b.events| - 1);
  }

  lemma EventsExactly(t: Tools, events: seq<HashedEvent>)
    ensures (forall i :: 0 <= i < |events| ==> HashedEventOk(t, events[i]))
       <==> forall h :: h in events ==> EventMeets(t, h.event) && IsHash(h.hash) && h.hash == EventHash(t, Rebuilt(h.event))
  {
    forall h ensures HashedEventOk(t, h)
                <==> EventMeets(t, h.event) && IsHash(h.hash) && h.hash == EventHash(t, Rebuilt(h.event))
    {
      HashedEventExactly(t, h);
    }
  }

  lemma LinksExactly(b: Batch)
    requires b.events != []
    ensures Linked(b.events) && b.first == b.events[0].event.sequence && b.previousHead == b.events[0].event.previous
            && b.last == b.events[|b.events| - 1].event.sequence
       <==> (forall i :: 0 <= i < |b.events| ==> InPlace(b, i)) && b.last == b.first + |b.events| - 1
  {
    if Linked(b.events) && b.first == b.events[0].event.sequence && b.previousHead == b.events[0].event.previous {
      LinkedIsInPlace(b);
      LinkedNumbers(b.events, |b.events| - 1);
    }
    if forall i :: 0 <= i < |b.events| ==> InPlace(b, i) {
      InPlaceIsLinked(b);
    }
  }

  lemma BatchParts(t: Tools, b: Batch)
    ensures BatchOk(t, b)
       <==> HeaderMeets(b) && (forall i :: 0 <= i < |b.events| ==> HashedEventOk(t, b.events[i]))
            && Linked(b.events) && b.first == b.events[0].event.sequence
            && b.previousHead == b.events[0].event.previous
            && b.last == b.events[|b.events| - 1].event.sequence && b.finalHead == b.events[|b.events| - 1].hash
  {
  }

  /** A batch is in order exactly when it meets these requirements. */
  lemma BatchExactly(t: Tools, b: Batch)
    ensures BatchOk(t, b) <==> BatchMeets(t, b)
  {
    BatchParts(t, b);
    EventsExactly(t, b.events);
    if b.events != [] {
      LinksExactly(b);
    }
  }
}
