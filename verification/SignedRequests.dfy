/** Exactly which requests are admitted as signed (`backend/app/services/device_authentication.py`),
    in terms of the rows, the headers and the bytes that were signed. */
module SignedRequests {
  import opened Wrappers
  import opened Numerals
  import opened Text
  import opened Utf8
  import opened Base64Url
  import opened RequestTarget
  import opened SigningMessages
  import opened NonceTable
  import opened DeviceAuthentication
  import opened EcdsaCredentials

  /** The credential with this UUID is active and belongs to the device of the route. */
  predicate OwnsActive(a: Attempt, uuid: string) {
    && IsUuid4(uuid) && IsUuid4(a.route.device) && a.request.authorization == SCHEME + uuid
    && uuid in a.view.credentials && a.view.credentials[uuid].active
    && a.route.device in a.view.devices && a.view.credentials[uuid].deviceId == a.view.devices[a.route.device]
  }

  /** Ten digits, the first not zero, that denote a second close enough to the clock. */
  predicate InTime(l: Limits, timestamp: string, at: int) {
    && |timestamp| == 10 && timestamp[0] != '0' && (forall i :: 0 <= i < 10 ==> IsDigit(timestamp[i]))
    && ParseDigits(timestamp, 0).value * SECOND - l.skew * SECOND <= at
    && at <= ParseDigits(timestamp, 0).value * SECOND + l.skew * SECOND
  }

  /** The lines that are signed. */
  function Lines(a: Attempt, query: string, uuid: string): seq<string> {
    ["DEVICE-AUTH-V1", a.request.httpMethod, a.route.path, query, a.request.bodyHash, a.request.timestamp,
     a.request.nonce, uuid, a.route.device]
  }

  /** The key of the credential accepts the signature over exactly this request. */
  predicate Signs(c: Setup, a: Attempt, uuid: string, query: string, signature: seq<Byte>)
    requires uuid in a.view.credentials
  {
    var row := a.view.credentials[uuid];
    && a.request.signature == Encode64(signature) && |signature| == 256
    && c.verify(row.key, row.algorithm, signature, Encode(Join(Lines(a, query, uuid), '\n')))
  }

  predicate Unspent(s: Store, key: NonceKey, now: int) { key in s.nonces ==> s.nonces[key] <= now }

  /** Everything that a signed request needs. */
  predicate SignedBy(c: Setup, s: Store, a: Attempt, uuid: string, nonce: seq<Byte>, query: string, signature: seq<Byte>) {
    && OwnsActive(a, uuid) && InTime(c.limits, a.request.timestamp, a.checkedAt)
    && |nonce| == 16 && a.request.nonce == Encode64(nonce)
    && CanonicalTarget(a.request.target) == Ok(Canonical(a.route.path, query))
    && (forall i :: 0 <= i < |Split(query, '&')| && Split(query, '&')[i] != "" ==>
          Cut(Split(query, '&')[i], '=').0 in a.route.queryNames)
    && a.request.bodyHash == c.bodyDigest(a.request.body) && IsHexDigest(a.request.bodyHash)
    && Signs(c, a, uuid, query, signature)
    && c.limits.ttl > 0 && Unspent(s, (c.credentialId(uuid), c.nonceHash(nonce)), a.now)
  }

  lemma SchemeIsRead(authorization: string, uuid: string)
    ensures ParseAuthorization(authorization) == Some(uuid) <==> IsUuid4(uuid) && authorization == SCHEME + uuid
  {
    if IsUuid4(uuid) && authorization == SCHEME + uuid {
      SchemeIsParsed(uuid);
    }
    if ParseAuthorization(authorization).Some? {
      assert authorization == SCHEME + authorization[|SCHEME|..];
    }
  }

  lemma NonceIsRead(text: string, nonce: seq<Byte>)
    ensures HeaderOk(text, 22) && Decode64(text, Some(16)) == Ok(nonce) <==> |nonce| == 16 && text == Encode64(nonce)
  {
    if |nonce| == 16 && text == Encode64(nonce) {
      NonceHeader(nonce);
      Decode64Exact(text, nonce);
    }
  }

  lemma TimestampIsRead(text: string)
    ensures HeaderOk(text, 10) && ParseTimestamp(text).Some?
       <==> |text| == 10 && text[0] != '0' && forall i :: 0 <= i < 10 ==> IsDigit(text[i])
    ensures ParseTimestamp(text).Some? ==> ParseTimestamp(text).value == ParseDigits(text, 0).value
  {
    if |text| == 10 && text[0] != '0' && forall i :: 0 <= i < 10 ==> IsDigit(text[i]) {
      TimestampHeader(text);
    }
  }

  lemma TimeIsChecked(c: Setup, a: Attempt)
    ensures InTime(c.limits, a.request.timestamp, a.checkedAt)
       <==> HeaderOk(a.request.timestamp, 10) && ParseTimestamp(a.request.timestamp).Some?
            && Fresh(c.limits.skew, StampOf(a.request), a.checkedAt)
  {
    TimestampIsRead(a.request.timestamp);
  }

  lemma BodyHeader(text: string)
    requires IsHexDigest(text)
    ensures HeaderOk(text, 64)
  {
    PlainHeader(text, 64);
  }

  lemma SignatureIsRead(a: Algorithm, text: string, signature: seq<Byte>)
    ensures HeaderOk(text, 342) && SignatureBytes(a, text) == Ok(signature)
       <==> |signature| == 256 && text == Encode64(signature)
  {
    if HeaderOk(text, 342) && SignatureBytes(a, text) == Ok(signature) {
      EncodingIsHeader(signature);
    }
    if |signature| == 256 && text == Encode64(signature) {
      EncodingIsHeader(signature);
      EncodingIsRead(a, signature);
    }
  }

  /** What was checked, given what the headers denote. */
  lemma GenuineMeans(c: Setup, a: Attempt, uuid: string, nonce: seq<Byte>, query: string, signature: seq<Byte>)
    requires OwnsActive(a, uuid) && CanonicalTarget(a.request.target) == Ok(Canonical(a.route.path, query))
    requires |nonce| == 16 && a.request.nonce == Encode64(nonce)
    requires |signature| == 256 && a.request.signature == Encode64(signature)
    requires HeaderOk(a.request.timestamp, 10) && ParseTimestamp(a.request.timestamp).Some?
    ensures Genuine(c, a.view, a.route, a.request)
       <==> QueryNamesOk(query, a.route.queryNames) && a.request.bodyHash == c.bodyDigest(a.request.body)
            && IsHexDigest(a.request.bodyHash) && Signs(c, a, uuid, query, signature)
  {
    SchemeIsRead(a.request.authorization, uuid);
    NonceIsRead(a.request.nonce, nonce);
    SignatureIsRead(a.view.credentials[uuid].algorithm, a.request.signature, signature);
    if IsHexDigest(a.request.bodyHash) {
      BodyHeader(a.request.bodyHash);
    }
  }

  lemma KeyIsRead(c: Setup, a: Attempt, uuid: string, nonce: seq<Byte>)
    requires OwnsActive(a, uuid) && |nonce| == 16 && a.request.nonce == Encode64(nonce)
    ensures KeyOf(c, a.request) == (c.credentialId(uuid), c.nonceHash(nonce))
  {
    SchemeIsRead(a.request.authorization, uuid);
    NonceIsRead(a.request.nonce, nonce);
  }

  lemma GenuineParts(c: Setup, a: Attempt) returns (uuid: string, nonce: seq<Byte>, query: string, signature: seq<Byte>)
    requires Genuine(c, a.view, a.route, a.request)
    ensures OwnsActive(a, uuid) && CanonicalTarget(a.request.target) == Ok(Canonical(a.route.path, query))
    ensures |nonce| == 16 && a.request.nonce == Encode64(nonce)
    ensures |signature| == 256 && a.request.signature == Encode64(signature)
    ensures HeaderOk(a.request.timestamp, 10) && ParseTimestamp(a.request.timestamp).Some?
  {
    uuid := ParseAuthorization(a.request.authorization).value;
    nonce := Decode64(a.request.nonce, Some(16)).value;
    query := CanonicalTarget(a.request.target).value.query;
    signature := SignatureBytes(a.view.credentials[uuid].algorithm, a.request.signature).value;
    SchemeIsRead(a.request.authorization, uuid);
    NonceIsRead(a.request.nonce, nonce);
    SignatureIsRead(a.view.credentials[uuid].algorithm, a.request.signature, signature);
  }

  /** A request is admitted as signed exactly when an active credential of the device signed its
      method, path, query, body, time, nonce and device, it is in time, and its nonce is unspent. */
  lemma SignedExactly(c: Setup, s: Store, g: Gate, a: Attempt)
    requires !(g.mode == Legacy && g.allowLegacy)
    ensures Admit(c, s, g, a).0.Signed?
       <==> exists uuid, nonce, query, signature :: SignedBy(c, s, a, uuid, nonce, query, signature)
  {
    TimeIsChecked(c, a);
    if Admit(c, s, g, a).0.Signed? {
      var uuid, nonce, query, signature := GenuineParts(c, a);
      GenuineMeans(c, a, uuid, nonce, query, signature);
      KeyIsRead(c, a, uuid, nonce);
      assert SignedBy(c, s, a, uuid, nonce, query, signature);
    }
    if uuid, nonce, query, signature :| SignedBy(c, s, a, uuid, nonce, query, signature) {
      GenuineMeans(c, a, uuid, nonce, query, signature);
      KeyIsRead(c, a, uuid, nonce);
      assert a.request.authorization != "";
    }
  }

  /** The same of the part that follows once there is a credential. */
  lemma CredentialExactly(c: Setup, s: Store, a: Attempt)
    ensures Authenticate(c, s, a).0
       <==> exists uuid, nonce, query, signature :: SignedBy(c, s, a, uuid, nonce, query, signature)
  {
    SignedExactly(c, s, Gate(AllRequired, false, {}), a);
    assert a.request.authorization == "" ==> ParseAuthorization(a.request.authorization).None?;
  }

  /** A device registered as an old one, to which no credential was ever given. */
  ghost predicate OldDevice(g: Gate, v: View, device: string) {
    && IsUuid4(device) && device in v.devices && device in g.legacyDevices
    && forall uuid :: uuid in v.credentials ==> v.credentials[uuid].deviceId != v.devices[device]
  }

  /** Who gets in without a signature: everybody on a tolerant route in legacy mode, and old devices on
      one while only new devices must sign. Nothing is recorded for them. */
  lemma UnsignedExactly(c: Setup, s: Store, g: Gate, a: Attempt)
    ensures Admit(c, s, g, a).0 == Unchecked <==> g.mode == Legacy && g.allowLegacy
    ensures Admit(c, s, g, a).0 == LegacyDevice
       <==> g.mode == NewDevicesRequired && g.allowLegacy && a.request.authorization == ""
            && OldDevice(g, a.view, a.route.device)
    ensures !Admit(c, s, g, a).0.Signed? ==> Admit(c, s, g, a).1 == s
  {
  }

  /** Without an active credential of the UUID that the header names, a request is turned away. */
  lemma RevokedIsTurnedAway(c: Setup, s: Store, g: Gate, a: Attempt)
    requires !(g.mode == Legacy && g.allowLegacy) && a.request.authorization != ""
    requires forall uuid :: a.request.authorization == SCHEME + uuid && uuid in a.view.credentials ==>
               !a.view.credentials[uuid].active
    ensures Admit(c, s, g, a) == (TurnedAway, s)
  {
    if Genuine(c, a.view, a.route, a.request) {
      var uuid, nonce, query, signature := GenuineParts(c, a);
      assert false;
    }
  }
}
