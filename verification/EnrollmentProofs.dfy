/** Exactly when enrollments and rotations succeed, in terms of rows, texts and the messages that
    are signed (`backend/app/services/device_enrollment.py`, `backend/app/device_cryptography.py`). */
module EnrollmentProofs {
  import opened Wrappers
  import opened Numerals
  import opened Text
  import opened Utf8
  import opened Base64Url
  import opened SigningMessages
  import opened DeviceEnrollment

  /** The encoding of 16 bytes. */
  ghost predicate NonceOk(nonce: string) { exists bytes: seq<Byte> :: |bytes| == 16 && nonce == Encode64(bytes) }

  /** The key is in order, and its owner signed these lines with the fingerprint in fourth or fifth place. */
  predicate KeySigns(t: Tools, key: string, algorithm: string, proof: string, lines: seq<string>) {
    t.verifySignature(key, algorithm, proof, Encode(Join(lines, '\n')))
  }

  /** No credential row has this UUID or this key. */
  ghost predicate Unique(s: Registry, uuid: string, fingerprint: seq<Byte>) {
    forall c :: 0 <= c < |s.credentials| ==> s.credentials[c].uuid != uuid && s.credentials[c].fingerprint != fingerprint
  }

  /** The request proves that the new key is held, for this device and this token. */
  ghost predicate Proves(t: Tools, r: Enrollment, tokenUuid: string, fingerprint: seq<Byte>) {
    && t.validateKey(r.publicKey, r.algorithm) == Some(fingerprint) && NonceOk(r.nonce)
    && KeySigns(t, r.publicKey, r.algorithm, r.proof,
                ["DEVICE-ENROLL-V1", r.device, tokenUuid, r.algorithm, Hex(fingerprint), r.androidVersion,
                 PrintInt(r.apiLevel), r.nonce])
  }

  ghost predicate ProvesRotation(t: Tools, r: Rotation, device: string, credential: string, fingerprint: seq<Byte>) {
    && t.validateKey(r.publicKey, r.algorithm) == Some(fingerprint) && NonceOk(r.nonce)
    && KeySigns(t, r.publicKey, r.algorithm, r.proof,
                ["DEVICE-ROTATE-V1", device, credential, r.algorithm, Hex(fingerprint), r.nonce])
  }

  lemma NonceIsChecked(nonce: string)
    ensures Decode64(nonce, Some(16)).Ok? <==> NonceOk(nonce)
  {
    Decode64Length(nonce, 16);
  }

  lemma ProofIsChecked(t: Tools, r: Enrollment, tokenUuid: string)
    ensures ProofOk(t, r, tokenUuid) <==> exists fingerprint :: Proves(t, r, tokenUuid, fingerprint)
    ensures forall fingerprint :: Proves(t, r, tokenUuid, fingerprint) ==>
              ProofOk(t, r, tokenUuid) && t.validateKey(r.publicKey, r.algorithm) == Some(fingerprint)
  {
    NonceIsChecked(r.nonce);
    if ProofOk(t, r, tokenUuid) {
      assert Proves(t, r, tokenUuid, t.validateKey(r.publicKey, r.algorithm).value);
    }
  }

  lemma RotationProofIsChecked(t: Tools, r: Rotation, device: string, credential: string)
    ensures RotationProofOk(t, r, device, credential)
       <==> exists fingerprint :: ProvesRotation(t, r, device, credential, fingerprint)
    ensures forall fingerprint :: ProvesRotation(t, r, device, credential, fingerprint) ==>
              RotationProofOk(t, r, device, credential)
              && t.validateKey(r.publicKey, r.algorithm) == Some(fingerprint)
  {
    NonceIsChecked(r.nonce);
    if RotationProofOk(t, r, device, credential) {
      assert ProvesRotation(t, r, device, credential, t.validateKey(r.publicKey, r.algorithm).value);
    }
  }

  lemma ClashIsShared(s: Registry, uuid: string, fingerprint: seq<Byte>)
    ensures Clashes(s.credentials, uuid, fingerprint) <==> !Unique(s, uuid, fingerprint)
  {
  }

  // ----- enrollment

  /** The pairing text names the active token `i`, in time and with the secret it was issued with. */
  ghost predicate Presented(t: Tools, s: Registry, i: nat, r: Enrollment, now: int) {
    && i < |s.tokens| && s.tokens[i].status == Active && now < s.tokens[i].expiresAt
    && exists secret: seq<Byte> ::
         && IsUuid4(s.tokens[i].uuid) && |secret| == 32
         && r.pairingToken == s.tokens[i].uuid + "." + Encode64(secret)
         && t.verifier(s.tokens[i].uuid, secret, s.tokens[i].pepper) == Some(s.tokens[i].verifier)
  }

  /** The device is unknown and the token for any device, or it is the one the token is for, has no
      usable credential, and does not report a lower API level. */
  ghost predicate DeviceFits(s: Registry, bound: Option<nat>, r: Enrollment) {
    match bound
    case None => forall d :: 0 <= d < |s.devices| ==> s.devices[d].uuid != r.device
    case Some(d) =>
      && d < |s.devices| && s.devices[d].uuid == r.device && s.devices[d].apiLevel <= r.apiLevel
      && forall c :: 0 <= c < |s.credentials| ==> !(s.credentials[c].device == d && s.credentials[c].status == Usable)
  }

  ghost predicate MayJoin(t: Tools, s: Registry, i: nat, r: Enrollment, uuid: string, now: int, fingerprint: seq<Byte>) {
    && Presented(t, s, i, r, now) && DeviceFits(s, s.tokens[i].bound, r)
    && Proves(t, r, s.tokens[i].uuid, fingerprint) && Unique(s, uuid, fingerprint)
  }

  lemma PresentedOpens(t: Tools, s: Registry, i: nat, r: Enrollment, now: int)
    requires i < |s.tokens|
    ensures Presented(t, s, i, r, now) <==> Opens(t, s, i, r, now)
  {
    var token := s.tokens[i];
    if Opens(t, s, i, r, now) {
      ParsedTokenIsIssued(r.pairingToken);
    }
    if Presented(t, s, i, r, now) {
      var secret: seq<Byte> :|
        && IsUuid4(token.uuid) && |secret| == 32 && r.pairingToken == token.uuid + "." + Encode64(secret)
        && t.verifier(token.uuid, secret, token.pepper) == Some(token.verifier);
      PairingTokenExact(r.pairingToken, token.uuid, secret);
    }
  }

  lemma FittingMayEnroll(s: Registry, bound: Option<nat>, r: Enrollment)
    requires Valid(s)
    ensures DeviceFits(s, bound, r) <==> MayEnroll(s, bound, r)
  {
    var found := DeviceBy(s.devices, r.device);
    if bound.Some? && bound.value < |s.devices| && s.devices[bound.value].uuid == r.device {
      assert found == bound;
    }
  }

  lemma JoinsBy(t: Tools, s: Registry, i: nat, r: Enrollment, uuid: string, now: int)
    requires Valid(s) && i < |s.tokens|
    ensures EnrollsBy(t, s, i, r, uuid, now) <==> exists fingerprint :: MayJoin(t, s, i, r, uuid, now, fingerprint)
  {
    PresentedOpens(t, s, i, r, now);
    FittingMayEnroll(s, s.tokens[i].bound, r);
    ProofIsChecked(t, r, s.tokens[i].uuid);
    if EnrollsBy(t, s, i, r, uuid, now) {
      var fingerprint := t.validateKey(r.publicKey, r.algorithm).value;
      ClashIsShared(s, uuid, fingerprint);
      assert MayJoin(t, s, i, r, uuid, now, fingerprint);
    }
    if fingerprint :| MayJoin(t, s, i, r, uuid, now, fingerprint) {
      ClashIsShared(s, uuid, fingerprint);
    }
  }

  /** A request enrolls exactly when it presents an active token in time and with its secret, from a
      device the token is for, and proves a key that is new. */
  lemma JoinsExactly(t: Tools, s: Registry, r: Enrollment, uuid: string, now: int)
    requires Valid(s)
    ensures Enroll(t, s, r, uuid, now).0.Enrolled?
       <==> !t.certificationRequired && exists i: nat, fingerprint :: MayJoin(t, s, i, r, uuid, now, fingerprint)
  {
    EnrollsExactly(t, s, r, uuid, now);
    if SomeTokenEnrolls(t, s, r, uuid, now) {
      var i: nat :| i < |s.tokens| && EnrollsBy(t, s, i, r, uuid, now);
      JoinsBy(t, s, i, r, uuid, now);
    }
    if i: nat, fingerprint :| MayJoin(t, s, i, r, uuid, now, fingerprint) {
      JoinsBy(t, s, i, r, uuid, now);
    }
  }

  /** A token is issued exactly for a known device, or for none, at a known place, while administration
      is enabled and tokens can be hashed, last, and are told apart. */
  lemma IssuesExactly(t: Tools, s: Registry, bound: Option<string>, placement: Option<Placement>, uuid: string,
                      secret: seq<Byte>, now: int)
    ensures Issue(t, s, bound, placement, uuid, secret, now).0.Issued?
       <==> && t.administrationEnabled
            && (bound.Some? ==> exists d :: 0 <= d < |s.devices| && s.devices[d].uuid == bound.value)
            && (placement.Some? ==> placement.value == Placement(true, true))
            && t.verifier(uuid, secret, t.pepper).Some? && t.ttl > 0
            && forall i :: 0 <= i < |s.tokens| ==> s.tokens[i].uuid != uuid
    ensures !Issue(t, s, bound, placement, uuid, secret, now).0.Issued? ==>
              Issue(t, s, bound, placement, uuid, secret, now).1 == s
  {
  }

  /** Token `i` has one more failure, and is locked by the fifth; nothing else changes. */
  ghost predicate FailureCounted(s: Registry, after: Registry, i: nat) {
    && i < |s.tokens| && after == s.(tokens := after.tokens) && |after.tokens| == |s.tokens|
    && after.tokens[i] == s.tokens[i].(failedAttempts := s.tokens[i].failedAttempts + 1,
                                       status := if s.tokens[i].failedAttempts == 4 then Locked else Active)
    && forall j :: 0 <= j < |s.tokens| && j != i ==> after.tokens[j] == s.tokens[j]
  }

  /** The device is not the one the token is for. */
  ghost predicate WrongDevice(s: Registry, bound: Option<nat>, r: Enrollment) {
    bound.Some? && !(bound.value < |s.devices| && s.devices[bound.value].uuid == r.device)
  }

  /** The device is known though the token is for new ones, or has a usable credential already. */
  ghost predicate Occupied(s: Registry, bound: Option<nat>, r: Enrollment) {
    exists d :: 0 <= d < |s.devices| && s.devices[d].uuid == r.device
                && (bound.None? || exists c :: 0 <= c < |s.credentials| && s.credentials[c].device == d
                                              && s.credentials[c].status == Usable)
  }

  ghost predicate Downgrades(s: Registry, r: Enrollment) {
    exists d :: 0 <= d < |s.devices| && s.devices[d].uuid == r.device && r.apiLevel < s.devices[d].apiLevel
  }

  /** A request that presents its token and still is refused: a failure is counted exactly for a wrong
      device, and for a missing proof or a downgrade where nothing is in the way; otherwise nothing
      changes. */
  lemma RefusalTells(t: Tools, s: Registry, i: nat, r: Enrollment, uuid: string, now: int)
    requires Valid(s) && !t.certificationRequired && Presented(t, s, i, r, now)
    requires !Enroll(t, s, r, uuid, now).0.Enrolled?
    ensures var (outcome, after) := Enroll(t, s, r, uuid, now);
            var bound := s.tokens[i].bound;
            var proven := exists fingerprint :: Proves(t, r, s.tokens[i].uuid, fingerprint);
            && (outcome == Failed <==>
                  WrongDevice(s, bound, r) || (!Occupied(s, bound, r) && (!proven || Downgrades(s, r))))
            && (outcome == Conflict <==> !WrongDevice(s, bound, r) && Occupied(s, bound, r))
            && (if outcome == Failed then FailureCounted(s, after, i) else after == s)
  {
    var token, bound := s.tokens[i], s.tokens[i].bound;
    PresentedOpens(t, s, i, r, now);
    OpenedMeans(t, s, i, r, uuid, now);
    ProofIsChecked(t, r, token.uuid);
    DeviceMeans(s, bound, r);
    assert TokenOk(s, i);
  }

  lemma OpenedMeans(t: Tools, s: Registry, i: nat, r: Enrollment, uuid: string, now: int)
    requires Valid(s) && !t.certificationRequired && i < |s.tokens| && Opens(t, s, i, r, now)
    ensures Enroll(t, s, r, uuid, now) == EnrollWith(t, s, r, i, uuid)
  {
    var found := TokenBy(s.tokens, s.tokens[i].uuid);
    assert found.Some? && s.tokens[found.value].uuid == s.tokens[i].uuid;
    assert found == Some(i);
  }

  lemma DeviceMeans(s: Registry, bound: Option<nat>, r: Enrollment)
    requires Valid(s)
    ensures var device := DeviceBy(s.devices, r.device);
            && (WrongDevice(s, bound, r) <==> bound.Some? && device != bound)
            && (Occupied(s, bound, r) <==>
                  device.Some? && (bound.None? || UsableOn(s.credentials, device.value).Some?))
            && (Downgrades(s, r) <==> device.Some? && r.apiLevel < s.devices[device.value].apiLevel)
  {
    var device := DeviceBy(s.devices, r.device);
    forall d | 0 <= d < |s.devices| && s.devices[d].uuid == r.device ensures device == Some(d) {
      assert device.Some? && s.devices[device.value].uuid == r.device;
    }
    if device.Some? && UsableOn(s.credentials, device.value).Some? {
      var c := UsableOn(s.credentials, device.value).value;
      assert s.credentials[c].device == device.value && s.credentials[c].status == Usable;
    }
  }

  // ----- rotation

  /** Credential `c` was superseded by a new one of the same device, and nothing else changed. */
  ghost predicate RotatedTo(s: Registry, after: Registry, c: nat, uuid: string, fingerprint: seq<Byte>) {
    && c < |s.credentials| && after == s.(credentials := after.credentials)
    && |after.credentials| == |s.credentials| + 1
    && after.credentials[|s.credentials|]
       == Credential(uuid, s.credentials[c].device, None, fingerprint, Usable, None)
    && after.credentials[c] == s.credentials[c].(status := Superseded, supersededBy := Some(|s.credentials|))
    && forall k :: 0 <= k < |s.credentials| && k != c ==> after.credentials[k] == s.credentials[k]
  }

  ghost predicate MayRotate(t: Tools, s: Registry, c: nat, r: Rotation, uuid: string, fingerprint: seq<Byte>) {
    && c < |s.credentials| && s.credentials[c].device < |s.devices| && s.credentials[c].status == Usable
    && ProvesRotation(t, r, s.devices[s.credentials[c].device].uuid, s.credentials[c].uuid, fingerprint)
    && Unique(s, uuid, fingerprint)
  }

  /** A rotation succeeds exactly for a usable credential, when a new key signed for its device and
      for it; then the credential is superseded by one with that key. Otherwise nothing changes. */
  lemma RotatesExactly(t: Tools, s: Registry, c: nat, r: Rotation, uuid: string)
    requires c < |s.credentials| && s.credentials[c].device < |s.devices|
    ensures Rotate(t, s, c, r, uuid).0.Rotated? <==> exists fingerprint :: MayRotate(t, s, c, r, uuid, fingerprint)
    ensures Rotate(t, s, c, r, uuid).0.Rotated? ==>
              t.validateKey(r.publicKey, r.algorithm).Some?
              && RotatedTo(s, Rotate(t, s, c, r, uuid).1, c, uuid, t.validateKey(r.publicKey, r.algorithm).value)
    ensures !Rotate(t, s, c, r, uuid).0.Rotated? ==> Rotate(t, s, c, r, uuid).1 == s
  {
    RotationProofIsChecked(t, r, s.devices[s.credentials[c].device].uuid, s.credentials[c].uuid);
    if Rotate(t, s, c, r, uuid).0.Rotated? {
      var fingerprint := t.validateKey(r.publicKey, r.algorithm).value;
      ClashIsShared(s, uuid, fingerprint);
      assert MayRotate(t, s, c, r, uuid, fingerprint);
    }
    if fingerprint :| MayRotate(t, s, c, r, uuid, fingerprint) {
      ClashIsShared(s, uuid, fingerprint);
    }
  }
}
