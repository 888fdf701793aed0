/** Pairing tokens and device credentials (`backend/app/services/device_enrollment.py`). */
module DeviceEnrollment {
  import opened Wrappers
  import opened Utf8
  import opened Base64Url
  import opened SigningMessages

  const MAX_FAILED_ATTEMPTS := 5

  datatype TokenStatus = Active | Consumed | Revoked | Expired | Locked

  datatype Token = Token(uuid: string, verifier: string, pepper: int, bound: Option<nat>, status: TokenStatus,
                         expiresAt: int, failedAttempts: int, consumedBy: Option<nat>)

  datatype CredentialStatus = Usable | Withdrawn | Superseded

  datatype Credential = Credential(uuid: string, device: nat, token: Option<nat>, fingerprint: seq<Byte>,
                                   status: CredentialStatus, supersededBy: Option<nat>)

  datatype Device = Device(uuid: string, apiLevel: int)

  /** Rows of each table; an identifier is a position. */
  datatype Registry = Registry(devices: seq<Device>, tokens: seq<Token>, credentials: seq<Credential>)

  const EMPTY := Registry([], [], [])

  /** Settings and cryptography. A token verifier is missing when its pepper is. */
  datatype Tools = Tools(administrationEnabled: bool, certificationRequired: bool, ttl: int, pepper: int,
                         verifier: (string, seq<Byte>, int) -> Option<string>,
                         validateKey: (string, string) -> Option<seq<Byte>>,
                         verifySignature: (string, string, string, seq<Byte>) -> bool)

  datatype Outcome = Issued(pairingToken: string) | Enrolled(credential: nat) | Rotated(credential: nat) | Done
                   | Failed | Conflict | NotFound | Unavailable

  function TokenBy(tokens: seq<Token>, uuid: string): (r: Option<nat>)
    ensures r.Some? ==> r.value < |tokens| && tokens[r.value].uuid == uuid
    ensures r.None? ==> forall i :: 0 <= i < |tokens| ==> tokens[i].uuid != uuid
  {
    IndexOf(tokens, (t: Token) => t.uuid == uuid)
  }

  function DeviceBy(devices: seq<Device>, uuid: string): (r: Option<nat>)
    ensures r.Some? ==> r.value < |devices| && devices[r.value].uuid == uuid
    ensures r.None? ==> forall i :: 0 <= i < |devices| ==> devices[i].uuid != uuid
  {
    IndexOf(devices, (d: Device) => d.uuid == uuid)
  }

  function UsableOn(credentials: seq<Credential>, device: nat): (r: Option<nat>)
    ensures r.Some? ==>
      r.value < |credentials| && credentials[r.value].device == device && credentials[r.value].status == Usable
    ensures r.None? ==>
      forall c :: 0 <= c < |credentials| ==> !(credentials[c].device == device && credentials[c].status == Usable)
  {
    IndexOf(credentials, (c: Credential) => c.device == device && c.status == Usable)
  }

  // ----- tokens

  /** Where the device of a new token is installed, once school and revision have been looked up. */
  datatype Placement = Placement(schoolKnown: bool, revisionActive: bool)

  function Issue(t: Tools, s: Registry, bound: Option<string>, placement: Option<Placement>, uuid: string,
                 secret: seq<Byte>, now: int): (Outcome, Registry)
  {
    var device := if bound.Some? then DeviceBy(s.devices, bound.value) else None;
    if !t.administrationEnabled then (Conflict, s)
    else if bound.Some? && device.None? then (NotFound, s)
    else if placement.Some? && !(placement.value.schoolKnown && placement.value.revisionActive) then (NotFound, s)
    else
      var verifier := t.verifier(uuid, secret, t.pepper);
      if verifier.None? || t.ttl <= 0 || TokenBy(s.tokens, uuid).Some? then (Unavailable, s)
      else
        var token := Token(uuid, verifier.value, t.pepper, device, Active, now + t.ttl, 0, None);
        (Issued(IssuePairingToken(uuid, secret)), s.(tokens := s.tokens + [token]))
  }

  function RevokeToken(s: Registry, uuid: string): (Outcome, Registry) {
    var i := TokenBy(s.tokens, uuid);
    if i.None? then (NotFound, s)
    else if s.tokens[i.value].status != Active then (Conflict, s)
    else (Done, s.(tokens := s.tokens[i.value := s.tokens[i.value].(status := Revoked)]))
  }

  /** `_record_failed_enrollment`: only an active token counts failures. */
  function CountFailure(token: Token): Token {
    if token.status != Active then token
    else
      var failed := if token.failedAttempts + 1 < 5 then token.failedAttempts + 1 else 5;
      token.(failedAttempts := failed, status := if failed >= 5 then Locked else Active)
  }

  // ----- enrollment

  datatype Enrollment = Enrollment(pairingToken: string, device: string, androidVersion: string, apiLevel: int,
                                   algorithm: string, publicKey: string, nonce: string, proof: string)

  /** The proof that a new key is held, over the message that names the device and the token. */
  predicate ProofOk(t: Tools, r: Enrollment, tokenUuid: string) {
    && t.validateKey(r.publicKey, r.algorithm).Some?
    && Decode64(r.nonce, Some(16)).Ok?
    && t.verifySignature(r.publicKey, r.algorithm, r.proof,
                         SigningBytes(Message.Enrollment(r.device, tokenUuid, r.algorithm,
                                                         t.validateKey(r.publicKey, r.algorithm).value,
                                                         r.androidVersion, r.apiLevel, r.nonce)).value)
  }

  /** A unique index of the credential table is violated. */
  predicate Clashes(credentials: seq<Credential>, uuid: string, fingerprint: seq<Byte>) {
    exists c :: 0 <= c < |credentials| && (credentials[c].uuid == uuid || credentials[c].fingerprint == fingerprint)
  }

  function WithFailure(s: Registry, i: nat): Registry
    requires i < |s.tokens|
  {
    s.(tokens := s.tokens[i := CountFailure(s.tokens[i])])
  }

  function WithExpired(s: Registry, i: nat): Registry
    requires i < |s.tokens|
  {
    s.(tokens := s.tokens[i := s.tokens[i].(status := Expired)])
  }

  /** Device, credential and consumed token, all at once. */
  function WithEnrolled(s: Registry, i: nat, device: Option<nat>, r: Enrollment, uuid: string, fingerprint: seq<Byte>)
    : Registry
    requires i < |s.tokens| && (device.Some? ==> device.value < |s.devices|)
  {
    var d := if device.Some? then device.value else |s.devices|;
    var devices := if device.Some? then s.devices[d := s.devices[d].(apiLevel := r.apiLevel)]
                   else s.devices + [Device(r.device, r.apiLevel)];
    Registry(devices, s.tokens[i := s.tokens[i].(status := Consumed, consumedBy := Some(d))],
             s.credentials + [Credential(uuid, d, Some(i), fingerprint, Usable, None)])
  }

  /** The checks that follow once the token has been found active, in time, and its secret right. */
  function EnrollWith(t: Tools, s: Registry, r: Enrollment, i: nat, uuid: string): (Outcome, Registry)
    requires i < |s.tokens|
  {
    var token := s.tokens[i];
    var device := DeviceBy(s.devices, r.device);
    if token.bound.Some? && device != token.bound then (Failed, WithFailure(s, i))
    else if token.bound.None? && device.Some? then (Conflict, s)
    else if device.Some? && UsableOn(s.credentials, device.value).Some? then (Conflict, s)
    else if !ProofOk(t, r, token.uuid) then (Failed, WithFailure(s, i))
    else if device.Some? && r.apiLevel < s.devices[device.value].apiLevel then (Failed, WithFailure(s, i))
    else
      var fingerprint := t.validateKey(r.publicKey, r.algorithm).value;
      if Clashes(s.credentials, uuid, fingerprint) then (Unavailable, s)
      else (Enrolled(|s.credentials|), WithEnrolled(s, i, device, r, uuid, fingerprint))
  }

  /** `enroll_device`. */
  function Enroll(t: Tools, s: Registry, r: Enrollment, uuid: string, now: int): (Outcome, Registry) {
    if t.certificationRequired then (Conflict, s)
    else
      match ParsePairingToken(r.pairingToken)
      case Err => (Failed, s)
      case Ok((tokenUuid, secret)) =>
        var found := TokenBy(s.tokens, tokenUuid);
        if found.None? then (Failed, s)
        else
          var i := found.value;
          var token := s.tokens[i];
          if token.status != Active then (Failed, s)
          else if token.expiresAt <= now then (Failed, WithExpired(s, i))
          else
            var presented := t.verifier(tokenUuid, secret, token.pepper);
            if presented.None? then (Unavailable, s)
            else if presented.value != token.verifier then (Failed, WithFailure(s, i))
            else EnrollWith(t, s, r, i, uuid)
  }

  // ----- credentials

  datatype Rotation = Rotation(algorithm: string, publicKey: string, nonce: string, proof: string)

  predicate RotationProofOk(t: Tools, r: Rotation, device: string, credential: string) {
    && t.validateKey(r.publicKey, r.algorithm).Some?
    && Decode64(r.nonce, Some(16)).Ok?
    && t.verifySignature(r.publicKey, r.algorithm, r.proof,
                         SigningBytes(Message.Rotation(device, credential, r.algorithm,
                                                       t.validateKey(r.publicKey, r.algorithm).value, r.nonce)).value)
  }

  function WithRotated(s: Registry, c: nat, uuid: string, fingerprint: seq<Byte>): Registry
    requires c < |s.credentials|
  {
    var replacement := Credential(uuid, s.credentials[c].device, None, fingerprint, Usable, None);
    s.(credentials := s.credentials[c := s.credentials[c].(status := Superseded, supersededBy := Some(|s.credentials|))]
                      + [replacement])
  }

  /** `rotate_device_credential`, for the usable credential that authenticated the request. */
  function Rotate(t: Tools, s: Registry, c: nat, r: Rotation, uuid: string): (Outcome, Registry)
    requires c < |s.credentials| && s.credentials[c].device < |s.devices|
  {
    if s.credentials[c].status != Usable then (Failed, s)
    else if !RotationProofOk(t, r, s.devices[s.credentials[c].device].uuid, s.credentials[c].uuid) then (Failed, s)
    else
      var fingerprint := t.validateKey(r.publicKey, r.algorithm).value;
      if Clashes(s.credentials, uuid, fingerprint) then (Unavailable, s)
      else (Rotated(|s.credentials|), WithRotated(s, c, uuid, fingerprint))
  }

  /** `revoke_device_credential`. */
  function RevokeCredential(s: Registry, device: string): (Outcome, Registry) {
    var d := DeviceBy(s.devices, device);
    if d.None? || UsableOn(s.credentials, d.value).None? then (NotFound, s)
    else
      var c := UsableOn(s.credentials, d.value).value;
      (Done, s.(credentials := s.credentials[c := s.credentials[c].(status := Withdrawn)]))
  }

  // ----- what the tables satisfy

  ghost predicate TokenOk(s: Registry, i: nat)
    requires i < |s.tokens|
  {
    var token := s.tokens[i];
    && 0 <= token.failedAttempts <= MAX_FAILED_ATTEMPTS
    && (token.status == Active ==> token.failedAttempts < MAX_FAILED_ATTEMPTS)
    && (token.status == Locked ==> token.failedAttempts == MAX_FAILED_ATTEMPTS)
    && (token.status == Consumed <==> token.consumedBy.Some?)
    && (token.status == Consumed && token.bound.Some? ==> token.consumedBy == token.bound)
    && (token.status == Consumed ==> exists c :: ConsumedBy(s, i, c))
  }

  /** Credential `c` was issued for token `i`, on the device that consumed it. */
  predicate ConsumedBy(s: Registry, i: nat, c: int)
    requires i < |s.tokens|
  {
    0 <= c < |s.credentials| && s.credentials[c].token == Some(i) && s.tokens[i].consumedBy == Some(s.credentials[c].device)
  }

  ghost predicate CredentialOk(s: Registry, c: nat)
    requires c < |s.credentials|
  {
    var credential := s.credentials[c];
    && credential.device < |s.devices|
    && (credential.token.Some? ==>
          credential.token.value < |s.tokens| && s.tokens[credential.token.value].consumedBy == Some(credential.device))
    && (credential.status == Superseded <==> credential.supersededBy.Some?)
    && (credential.supersededBy.Some? ==>
          && c < credential.supersededBy.value < |s.credentials|
          && s.credentials[credential.supersededBy.value].device == credential.device)
  }

  /** Two credentials are told apart by every unique column, by their token and by their successor,
      and at most one of a device is usable. */
  predicate Apart(a: Credential, b: Credential) {
    && a.uuid != b.uuid && a.fingerprint != b.fingerprint
    && (a.token.Some? ==> a.token != b.token)
    && (a.supersededBy.Some? ==> a.supersededBy != b.supersededBy)
    && !(a.device == b.device && a.status == Usable && b.status == Usable)
  }

  ghost predicate Valid(s: Registry) {
    && (forall i: nat :: i < |s.tokens| ==> TokenOk(s, i))
    && (forall c: nat :: c < |s.credentials| ==> CredentialOk(s, c))
    && (forall c, d :: 0 <= c < d < |s.credentials| ==> Apart(s.credentials[c], s.credentials[d]))
    && (forall i, j :: 0 <= i < j < |s.tokens| ==> s.tokens[i].uuid != s.tokens[j].uuid)
    && (forall d, e :: 0 <= d < e < |s.devices| ==> s.devices[d].uuid != s.devices[e].uuid)
  }

  lemma TokenChangeKeeps(s: Registry, i: nat, token: Token)
    requires Valid(s) && i < |s.tokens| && s.tokens[i].status == Active
    requires token.uuid == s.tokens[i].uuid && token.status != Consumed && token.consumedBy.None?
    requires 0 <= token.failedAttempts <= MAX_FAILED_ATTEMPTS
    requires token.status == Active ==> token.failedAttempts < MAX_FAILED_ATTEMPTS
    requires token.status == Locked ==> token.failedAttempts == MAX_FAILED_ATTEMPTS
    ensures Valid(s.(tokens := s.tokens[i := token]))
  {
    var after := s.(tokens := s.tokens[i := token]);
    assert TokenOk(s, i);
    forall j: nat | j < |after.tokens| ensures TokenOk(after, j) {
      assert TokenOk(s, j);
      if j != i && s.tokens[j].status == Consumed {
        var c :| ConsumedBy(s, j, c);
        assert ConsumedBy(after, j, c);
      }
    }
    forall c: nat | c < |after.credentials| ensures CredentialOk(after, c) {
      assert CredentialOk(s, c);
    }
  }

  lemma NewTokenKeeps(s: Registry, token: Token)
    requires Valid(s) && TokenBy(s.tokens, token.uuid).None?
    requires token.status == Active && token.failedAttempts == 0 && token.consumedBy.None?
    ensures Valid(s.(tokens := s.tokens + [token]))
  {
    var after := s.(tokens := s.tokens + [token]);
    forall j: nat | j < |after.tokens| ensures TokenOk(after, j) {
      if j < |s.tokens| {
        assert TokenOk(s, j);
        if s.tokens[j].status == Consumed {
          var c :| ConsumedBy(s, j, c);
          assert ConsumedBy(after, j, c);
        }
      }
    }
    forall c: nat | c < |after.credentials| ensures CredentialOk(after, c) {
      assert CredentialOk(s, c);
    }
  }

  lemma WithdrawingKeeps(s: Registry, c: nat)
    requires Valid(s) && c < |s.credentials| && s.credentials[c].status == Usable
    ensures Valid(s.(credentials := s.credentials[c := s.credentials[c].(status := Withdrawn)]))
  {
    var after := s.(credentials := s.credentials[c := s.credentials[c].(status := Withdrawn)]);
    forall j: nat | j < |after.tokens| ensures TokenOk(after, j) {
      assert TokenOk(s, j);
      if s.tokens[j].status == Consumed {
        var d :| ConsumedBy(s, j, d);
        assert ConsumedBy(after, j, d);
      }
    }
    forall d: nat | d < |after.credentials| ensures CredentialOk(after, d) {
      assert CredentialOk(s, d);
    }
    forall d, e | 0 <= d < e < |after.credentials| ensures Apart(after.credentials[d], after.credentials[e]) {
      assert Apart(s.credentials[d], s.credentials[e]);
    }
  }

  lemma RotatingKeeps(s: Registry, c: nat, uuid: string, fingerprint: seq<Byte>)
    requires Valid(s) && c < |s.credentials| && s.credentials[c].status == Usable
    requires !Clashes(s.credentials, uuid, fingerprint)
    ensures Valid(WithRotated(s, c, uuid, fingerprint))
  {
    var after := WithRotated(s, c, uuid, fingerprint);
    var n := |s.credentials|;
    forall j: nat | j < |after.tokens| ensures TokenOk(after, j) {
      assert TokenOk(s, j);
      if s.tokens[j].status == Consumed {
        var d :| ConsumedBy(s, j, d);
        assert ConsumedBy(after, j, d);
      }
    }
    assert CredentialOk(s, c);
    forall d: nat | d < |after.credentials| ensures CredentialOk(after, d) {
      if d < n {
        assert CredentialOk(s, d);
      }
    }
    forall d, e | 0 <= d < e < |after.credentials| ensures Apart(after.credentials[d], after.credentials[e]) {
      if e < n {
        assert Apart(s.credentials[d], s.credentials[e]);
        assert CredentialOk(s, d) && CredentialOk(s, e);
      } else {
        assert CredentialOk(s, d);
        if d < c {
          assert Apart(s.credentials[d], s.credentials[c]);
        } else if c < d {
          assert Apart(s.credentials[c], s.credentials[d]);
        }
      }
    }
  }

  lemma EnrollingKeeps(s: Registry, i: nat, device: Option<nat>, r: Enrollment, uuid: string, fingerprint: seq<Byte>)
    requires Valid(s) && i < |s.tokens| && s.tokens[i].status == Active
    requires device == DeviceBy(s.devices, r.device)
    requires device.Some? ==> UsableOn(s.credentials, device.value).None?
    requires s.tokens[i].bound.Some? ==> device == s.tokens[i].bound
    requires !Clashes(s.credentials, uuid, fingerprint)
    ensures Valid(WithEnrolled(s, i, device, r, uuid, fingerprint))
  {
    var after := WithEnrolled(s, i, device, r, uuid, fingerprint);
    var n := |s.credentials|;
    assert TokenOk(s, i);
    forall j: nat | j < |after.tokens| ensures TokenOk(after, j) {
      assert TokenOk(s, j);
      if j == i {
        assert ConsumedBy(after, i, n);
      } else if s.tokens[j].status == Consumed {
        var c :| ConsumedBy(s, j, c);
        assert ConsumedBy(after, j, c);
      }
    }
    forall c: nat | c < |after.credentials| ensures CredentialOk(after, c) {
      if c < n {
        assert CredentialOk(s, c);
      }
    }
    forall c, d | 0 <= c < d < |after.credentials| ensures Apart(after.credentials[c], after.credentials[d]) {
      assert CredentialOk(s, c);
      if d < n {
        assert Apart(s.credentials[c], s.credentials[d]);
      }
    }
  }

  lemma FailureKeeps(s: Registry, i: nat)
    requires Valid(s) && i < |s.tokens|
    ensures Valid(WithFailure(s, i))
  {
    assert TokenOk(s, i);
    if s.tokens[i].status == Active {
      TokenChangeKeeps(s, i, CountFailure(s.tokens[i]));
    } else {
      assert WithFailure(s, i) == s;
    }
  }

  lemma EnrollWithKeeps(t: Tools, s: Registry, r: Enrollment, i: nat, uuid: string)
    requires Valid(s) && i < |s.tokens| && s.tokens[i].status == Active
    ensures Valid(EnrollWith(t, s, r, i, uuid).1)
  {
    FailureKeeps(s, i);
    var device := DeviceBy(s.devices, r.device);
    if EnrollWith(t, s, r, i, uuid).0.Enrolled? {
      EnrollingKeeps(s, i, device, r, uuid, t.validateKey(r.publicKey, r.algorithm).value);
    }
  }

  /** The text is the pairing token of the token row with this identifier. */
  predicate Presents(pairingToken: string, uuid: string) {
    ParsePairingToken(pairingToken).Ok? && ParsePairingToken(pairingToken).value.0 == uuid
  }

  /** An enrollment changes nothing unless the token it names is active. */
  lemma EnrollCases(t: Tools, s: Registry, r: Enrollment, uuid: string, now: int) returns (i: nat)
    ensures Enroll(t, s, r, uuid, now).1 == s
         || (i < |s.tokens| && s.tokens[i].status == Active && Presents(r.pairingToken, s.tokens[i].uuid)
             && Enroll(t, s, r, uuid, now).1 in [WithExpired(s, i), WithFailure(s, i), EnrollWith(t, s, r, i, uuid).1])
  {
    i := 0;
    var parsed := ParsePairingToken(r.pairingToken);
    if parsed.Ok? && TokenBy(s.tokens, parsed.value.0).Some? {
      i := TokenBy(s.tokens, parsed.value.0).value;
    }
  }

  lemma EnrollKeeps(t: Tools, s: Registry, r: Enrollment, uuid: string, now: int)
    requires Valid(s)
    ensures Valid(Enroll(t, s, r, uuid, now).1)
  {
    var i := EnrollCases(t, s, r, uuid, now);
    if Enroll(t, s, r, uuid, now).1 != s {
      assert TokenOk(s, i);
      TokenChangeKeeps(s, i, s.tokens[i].(status := Expired));
      FailureKeeps(s, i);
      EnrollWithKeeps(t, s, r, i, uuid);
    }
  }

  // ----- whole runs

  datatype Step =
    | IssueToken(bound: Option<string>, placement: Option<Placement>, tokenUuid: string, secret: seq<Byte>, now: int)
    | RevokeTokenStep(tokenUuid: string)
    | EnrollDevice(request: Enrollment, credentialUuid: string, now: int)
    | RotateCredential(credential: nat, rotation: Rotation, credentialUuid: string)
    | RevokeDeviceCredential(device: string)

  function Execute(t: Tools, s: Registry, step: Step): (Outcome, Registry) {
    match step
    case IssueToken(bound, placement, uuid, secret, now) => Issue(t, s, bound, placement, uuid, secret, now)
    case RevokeTokenStep(uuid) => RevokeToken(s, uuid)
    case EnrollDevice(request, uuid, now) => Enroll(t, s, request, uuid, now)
    case RotateCredential(c, rotation, uuid) =>
      if c < |s.credentials| && s.credentials[c].device < |s.devices| then Rotate(t, s, c, rotation, uuid)
      else (Failed, s)
    case RevokeDeviceCredential(device) => RevokeCredential(s, device)
  }

  function Run(t: Tools, s: Registry, steps: seq<Step>): Registry
    decreases |steps|
  {
    if |steps| == 0 then s else Run(t, Execute(t, s, steps[0]).1, steps[1..])
  }

  lemma ExecuteKeeps(t: Tools, s: Registry, step: Step)
    requires Valid(s)
    ensures Valid(Execute(t, s, step).1)
  {
    match step
    case IssueToken(bound, placement, uuid, secret, now) =>
      if Issue(t, s, bound, placement, uuid, secret, now).0.Issued? {
        NewTokenKeeps(s, Issue(t, s, bound, placement, uuid, secret, now).1.tokens[|s.tokens|]);
      }
    case RevokeTokenStep(uuid) =>
      if RevokeToken(s, uuid).0.Done? {
        var i := TokenBy(s.tokens, uuid).value;
        assert TokenOk(s, i);
        TokenChangeKeeps(s, i, s.tokens[i].(status := Revoked));
      }
    case EnrollDevice(request, uuid, now) => EnrollKeeps(t, s, request, uuid, now);
    case RotateCredential(c, rotation, uuid) =>
      if Execute(t, s, step).0.Rotated? {
        RotatingKeeps(s, c, uuid, t.validateKey(rotation.publicKey, rotation.algorithm).value);
      }
    case RevokeDeviceCredential(device) =>
      if RevokeCredential(s, device).0.Done? {
        WithdrawingKeeps(s, UsableOn(s.credentials, DeviceBy(s.devices, device).value).value);
      }
  }

  /** What a step may do to existing rows: tokens that are not active never change again, credentials
      keep everything but their status, which only leaves `Usable`, and API levels never fall. */
  ghost predicate Follows(s: Registry, after: Registry) {
    && |s.tokens| <= |after.tokens| && |s.credentials| <= |after.credentials| && |s.devices| <= |after.devices|
    && (forall d :: 0 <= d < |s.devices| ==>
          after.devices[d].uuid == s.devices[d].uuid && after.devices[d].apiLevel >= s.devices[d].apiLevel)
    && (forall i :: 0 <= i < |s.tokens| && s.tokens[i].status != Active ==> after.tokens[i] == s.tokens[i])
    && (forall i :: 0 <= i < |s.tokens| ==> after.tokens[i].failedAttempts >= s.tokens[i].failedAttempts)
    && (forall c :: 0 <= c < |s.credentials| && s.credentials[c].status != Usable ==>
          after.credentials[c] == s.credentials[c])
    && (forall c :: 0 <= c < |s.credentials| ==>
          && after.credentials[c].device == s.credentials[c].device
          && after.credentials[c].token == s.credentials[c].token
          && after.credentials[c].fingerprint == s.credentials[c].fingerprint)
  }

  lemma ChangedTokenFollows(s: Registry, i: nat)
    requires Valid(s) && i < |s.tokens| && s.tokens[i].status == Active
    ensures Follows(s, WithFailure(s, i)) && Follows(s, WithExpired(s, i))
  {
    assert TokenOk(s, i);
  }

  lemma EnrollWithFollows(t: Tools, s: Registry, r: Enrollment, i: nat, uuid: string)
    requires Valid(s) && i < |s.tokens| && s.tokens[i].status == Active
    ensures Follows(s, EnrollWith(t, s, r, i, uuid).1)
  {
    ChangedTokenFollows(s, i);
  }

  lemma EnrollFollows(t: Tools, s: Registry, r: Enrollment, uuid: string, now: int)
    requires Valid(s)
    ensures Follows(s, Enroll(t, s, r, uuid, now).1)
  {
    var i := EnrollCases(t, s, r, uuid, now);
    if Enroll(t, s, r, uuid, now).1 != s {
      ChangedTokenFollows(s, i);
      EnrollWithFollows(t, s, r, i, uuid);
    }
  }

  lemma TokenStepsFollow(t: Tools, s: Registry, bound: Option<string>, placement: Option<Placement>, uuid: string,
                         secret: seq<Byte>, now: int)
    requires Valid(s)
    ensures Follows(s, Issue(t, s, bound, placement, uuid, secret, now).1) && Follows(s, RevokeToken(s, uuid).1)
  {
  }

  lemma RotationFollows(t: Tools, s: Registry, c: nat, rotation: Rotation, uuid: string)
    requires Valid(s) && c < |s.credentials| && s.credentials[c].device < |s.devices|
    ensures Follows(s, Rotate(t, s, c, rotation, uuid).1)
  {
  }

  lemma RevocationFollows(s: Registry, device: string)
    requires Valid(s)
    ensures Follows(s, RevokeCredential(s, device).1)
  {
  }

  lemma ExecuteFollows(t: Tools, s: Registry, step: Step)
    requires Valid(s)
    ensures Follows(s, Execute(t, s, step).1)
  {
    match step
    case IssueToken(bound, placement, uuid, secret, now) => TokenStepsFollow(t, s, bound, placement, uuid, secret, now);
    case RevokeTokenStep(uuid) => TokenStepsFollow(t, s, None, None, uuid, [], 0);
    case EnrollDevice(request, uuid, now) => EnrollFollows(t, s, request, uuid, now);
    case RotateCredential(c, rotation, uuid) =>
      if c < |s.credentials| && s.credentials[c].device < |s.devices| {
        RotationFollows(t, s, c, rotation, uuid);
      }
    case RevokeDeviceCredential(device) => RevocationFollows(s, device);
  }

  /** Every run of issuing, revoking, enrolling and rotating keeps the constraints of the tables;
      tokens that have left `Active` and credentials that have left `Usable` never change again. */
  lemma {:induction false} RunKeeps(t: Tools, s: Registry, steps: seq<Step>)
    requires Valid(s)
    ensures Valid(Run(t, s, steps)) && Follows(s, Run(t, s, steps))
    decreases |steps|
  {
    if |steps| > 0 {
      ExecuteKeeps(t, s, steps[0]);
      ExecuteFollows(t, s, steps[0]);
      RunKeeps(t, Execute(t, s, steps[0]).1, steps[1..]);
    }
  }

  lemma EmptyIsValid()
    ensures Valid(EMPTY)
  {
  }

  /** A token stands for exactly one credential if it has been consumed, on the device it was bound to
      if it was bound, and for none otherwise. */
  lemma TokensAreConsumedOnce(t: Tools, steps: seq<Step>, i: nat)
    requires i < |Run(t, EMPTY, steps).tokens|
    ensures var s := Run(t, EMPTY, steps);
            && 0 <= s.tokens[i].failedAttempts <= MAX_FAILED_ATTEMPTS
            && (s.tokens[i].status == Consumed <==> exists c :: ConsumedBy(s, i, c))
            && (s.tokens[i].status == Consumed && s.tokens[i].bound.Some? ==> s.tokens[i].consumedBy == s.tokens[i].bound)
            && forall c, d :: 0 <= c < d < |s.credentials| ==>
                 !(s.credentials[c].token == Some(i) && s.credentials[d].token == Some(i))
  {
    EmptyIsValid();
    RunKeeps(t, EMPTY, steps);
    var s := Run(t, EMPTY, steps);
    assert TokenOk(s, i);
    forall c, d | 0 <= c < d < |s.credentials|
      ensures !(s.credentials[c].token == Some(i) && s.credentials[d].token == Some(i))
    {
      assert Apart(s.credentials[c], s.credentials[d]);
    }
  }

  /** No device ever has two usable credentials. */
  lemma OneUsableCredential(t: Tools, steps: seq<Step>, c: nat, d: nat)
    requires c < |Run(t, EMPTY, steps).credentials| && d < |Run(t, EMPTY, steps).credentials|
    ensures var s := Run(t, EMPTY, steps);
            (s.credentials[c].device == s.credentials[d].device
             && s.credentials[c].status == Usable && s.credentials[d].status == Usable) ==> c == d
  {
    EmptyIsValid();
    RunKeeps(t, EMPTY, steps);
    var s := Run(t, EMPTY, steps);
    if c < d {
      assert Apart(s.credentials[c], s.credentials[d]);
    } else if d < c {
      assert Apart(s.credentials[d], s.credentials[c]);
    }
  }

  // ----- chains of successors

  /** The end of the chain of successors of a credential. */
  function Latest(s: Registry, c: nat): (r: nat)
    requires Valid(s) && c < |s.credentials|
    ensures c <= r < |s.credentials| && s.credentials[r].supersededBy.None?
    ensures s.credentials[r].device == s.credentials[c].device
    decreases |s.credentials| - c
  {
    assert CredentialOk(s, c);
    if s.credentials[c].supersededBy.None? then c else Latest(s, s.credentials[c].supersededBy.value)
  }

  /** Rotation chains stay on one device, end, and do not merge: they lead to the usable credential
      of the device, or to one that was withdrawn, and a credential has at most one predecessor. */
  lemma ChainsEnd(t: Tools, steps: seq<Step>, c: nat, d: nat)
    requires c < |Run(t, EMPTY, steps).credentials| && d < |Run(t, EMPTY, steps).credentials|
    ensures Valid(Run(t, EMPTY, steps))
    ensures var s := Run(t, EMPTY, steps);
            && s.credentials[Latest(s, c)].status != Superseded
            && s.credentials[Latest(s, c)].device == s.credentials[c].device
            && (s.credentials[Latest(s, c)].status == Usable ==>
                  UsableOn(s.credentials, s.credentials[c].device) == Some(Latest(s, c)))
            && (s.credentials[c].supersededBy.Some? && s.credentials[c].supersededBy == s.credentials[d].supersededBy
                ==> c == d)
  {
    EmptyIsValid();
    RunKeeps(t, EMPTY, steps);
    var s := Run(t, EMPTY, steps);
    assert CredentialOk(s, Latest(s, c));
    if s.credentials[Latest(s, c)].status == Usable {
      var u := UsableOn(s.credentials, s.credentials[c].device);
      OneUsableCredential(t, steps, u.value, Latest(s, c));
    }
    if c < d {
      assert Apart(s.credentials[c], s.credentials[d]);
    } else if d < c {
      assert Apart(s.credentials[d], s.credentials[c]);
    }
  }

  // ----- which tokens enroll

  ghost predicate HasActiveToken(s: Registry, uuid: string) {
    exists i :: 0 <= i < |s.tokens| && s.tokens[i].uuid == uuid && s.tokens[i].status == Active
  }

  /** The request presents token `i`, in time and with its secret. */
  predicate Opens(t: Tools, s: Registry, i: nat, r: Enrollment, now: int)
    requires i < |s.tokens|
  {
    var token := s.tokens[i];
    && Presents(r.pairingToken, token.uuid) && token.status == Active && now < token.expiresAt
    && t.verifier(token.uuid, ParsePairingToken(r.pairingToken).value.1, token.pepper) == Some(token.verifier)
  }

  /** A token for any device enrolls unknown ones; a bound one enrolls its device, when that has no
      usable credential and its API level does not fall. */
  predicate MayEnroll(s: Registry, bound: Option<nat>, r: Enrollment) {
    var device := DeviceBy(s.devices, r.device);
    && device == bound
    && (device.Some? ==> UsableOn(s.credentials, device.value).None? && r.apiLevel >= s.devices[device.value].apiLevel)
  }

  predicate KeyIsNew(t: Tools, s: Registry, r: Enrollment, tokenUuid: string, uuid: string) {
    ProofOk(t, r, tokenUuid) && !Clashes(s.credentials, uuid, t.validateKey(r.publicKey, r.algorithm).value)
  }

  predicate EnrollsBy(t: Tools, s: Registry, i: nat, r: Enrollment, uuid: string, now: int)
    requires i < |s.tokens|
  {
    Opens(t, s, i, r, now) && MayEnroll(s, s.tokens[i].bound, r) && KeyIsNew(t, s, r, s.tokens[i].uuid, uuid)
  }

  lemma EnrollsExactlyBy(t: Tools, s: Registry, i: nat, r: Enrollment, uuid: string, now: int)
    requires Valid(s) && i < |s.tokens| && Presents(r.pairingToken, s.tokens[i].uuid)
    ensures Enroll(t, s, r, uuid, now).0.Enrolled? <==> !t.certificationRequired && EnrollsBy(t, s, i, r, uuid, now)
    ensures Enroll(t, s, r, uuid, now).0.Enrolled? ==>
              Enroll(t, s, r, uuid, now) == EnrollWith(t, s, r, i, uuid)
  {
    var found := TokenBy(s.tokens, s.tokens[i].uuid);
    assert found.Some? && s.tokens[found.value].uuid == s.tokens[i].uuid;
    assert found == Some(i);
  }

  ghost predicate SomeTokenEnrolls(t: Tools, s: Registry, r: Enrollment, uuid: string, now: int) {
    exists i: nat :: i < |s.tokens| && EnrollsBy(t, s, i, r, uuid, now)
  }

  /** A request enrolls exactly when one of the tokens lets it. */
  lemma EnrollsExactly(t: Tools, s: Registry, r: Enrollment, uuid: string, now: int)
    requires Valid(s)
    ensures Enroll(t, s, r, uuid, now).0.Enrolled?
       <==> !t.certificationRequired && SomeTokenEnrolls(t, s, r, uuid, now)
  {
    var parsed := ParsePairingToken(r.pairingToken);
    if parsed.Ok? && TokenBy(s.tokens, parsed.value.0).Some? {
      EnrollsExactlyBy(t, s, TokenBy(s.tokens, parsed.value.0).value, r, uuid, now);
    }
    if i: nat :| i < |s.tokens| && EnrollsBy(t, s, i, r, uuid, now) {
      EnrollsExactlyBy(t, s, i, r, uuid, now);
    }
  }

  predicate Names(step: Step, uuid: string) {
    match step
    case RevokeTokenStep(tokenUuid) => tokenUuid == uuid
    case EnrollDevice(request, _, _) => Presents(request.pairingToken, uuid)
    case _ => false
  }

  lemma UnnamedTokenStays(t: Tools, s: Registry, step: Step, i: nat)
    requires i < |s.tokens| && !Names(step, s.tokens[i].uuid)
    ensures var after := Execute(t, s, step).1;
            |s.tokens| <= |after.tokens| && after.tokens[i] == s.tokens[i]
  {
    if step.EnrollDevice? {
      var j := EnrollCases(t, s, step.request, step.credentialUuid, step.now);
    }
  }

  lemma {:induction false} UnnamedTokenStaysLong(t: Tools, s: Registry, steps: seq<Step>, i: nat)
    requires i < |s.tokens| && forall k :: 0 <= k < |steps| ==> !Names(steps[k], s.tokens[i].uuid)
    ensures var after := Run(t, s, steps);
            |s.tokens| <= |after.tokens| && after.tokens[i] == s.tokens[i]
    decreases |steps|
  {
    if |steps| > 0 {
      UnnamedTokenStays(t, s, steps[0], i);
      UnnamedTokenStaysLong(t, Execute(t, s, steps[0]).1, steps[1..], i);
    }
  }

  /** One active row is added for the token handed out, which names the row and carries its secret;
      a refusal changes nothing. */
  ghost predicate TokenIssued(t: Tools, s: Registry, after: Registry, outcome: Outcome, bound: Option<string>,
                              uuid: string, secret: seq<Byte>, now: int) {
    if !outcome.Issued? then after == s
    else
      && after.devices == s.devices && after.credentials == s.credentials
      && |after.tokens| == |s.tokens| + 1 && after.tokens[..|s.tokens|] == s.tokens
      && var token := after.tokens[|s.tokens|];
      && token.uuid == uuid && token.status == Active && token.failedAttempts == 0 && token.consumedBy.None?
      && token.expiresAt == now + t.ttl && now < token.expiresAt
      && t.verifier(uuid, secret, token.pepper) == Some(token.verifier)
      && token.bound.Some? == bound.Some?
      && (bound.Some? ==> token.bound.value < |s.devices| && s.devices[token.bound.value].uuid == bound.value)
      && (IsUuid4(uuid) && |secret| == 32 ==> ParsePairingToken(outcome.pairingToken) == Ok((uuid, secret)))
  }

  lemma IssueAddsToken(t: Tools, s: Registry, bound: Option<string>, placement: Option<Placement>, uuid: string,
                       secret: seq<Byte>, now: int)
    ensures var (outcome, after) := Issue(t, s, bound, placement, uuid, secret, now);
            TokenIssued(t, s, after, outcome, bound, uuid, secret, now)
  {
    if IsUuid4(uuid) && |secret| == 32 {
      PairingTokenExact(IssuePairingToken(uuid, secret), uuid, secret);
    }
  }

  /** The pairing token handed out is the one that enrolls. After any run that does not name it, it
      enrolls exactly the requests in time, from a device it is for, that prove a new key; each
      adds one usable credential and consumes the token. */
  lemma IssuedTokenEnrolls(t: Tools, s: Registry, bound: Option<string>, placement: Option<Placement>,
                           tokenUuid: string, secret: seq<Byte>, issued: int, steps: seq<Step>,
                           r: Enrollment, uuid: string, now: int)
    requires Valid(s) && IsUuid4(tokenUuid) && |secret| == 32
    requires Issue(t, s, bound, placement, tokenUuid, secret, issued).0 == Issued(r.pairingToken)
    requires forall k :: 0 <= k < |steps| ==> !Names(steps[k], tokenUuid)
    ensures var held := Issue(t, s, bound, placement, tokenUuid, secret, issued).1;
            var later := Run(t, held, steps);
            var (outcome, after) := Enroll(t, later, r, uuid, now);
            && |s.tokens| < |later.tokens| && later.tokens[|s.tokens|] == held.tokens[|s.tokens|]
            && (outcome.Enrolled? <==>
                  && !t.certificationRequired && now < issued + t.ttl
                  && MayEnroll(later, held.tokens[|s.tokens|].bound, r) && KeyIsNew(t, later, r, tokenUuid, uuid))
            && (outcome.Enrolled? ==>
                  && EnrolledBy(later, after, |s.tokens|, r, uuid, t.validateKey(r.publicKey, r.algorithm).value))
  {
    IssueAddsToken(t, s, bound, placement, tokenUuid, secret, issued);
    var held := Issue(t, s, bound, placement, tokenUuid, secret, issued).1;
    var i := |s.tokens|;
    assert held.tokens[i].uuid == tokenUuid;
    ExecuteKeeps(t, s, IssueToken(bound, placement, tokenUuid, secret, issued));
    RunKeeps(t, held, steps);
    UnnamedTokenStaysLong(t, held, steps, i);
    var later := Run(t, held, steps);
    EnrollsExactlyBy(t, later, i, r, uuid, now);
    if Enroll(t, later, r, uuid, now).0.Enrolled? {
      EnrollingShows(t, later, i, r, uuid);
    }
  }

  /** One usable credential is added, for a device with the reported API level, and the token is consumed. */
  ghost predicate EnrolledBy(s: Registry, after: Registry, i: nat, r: Enrollment, uuid: string, fingerprint: seq<Byte>) {
    && i < |s.tokens| == |after.tokens|
    && after.tokens[i] == s.tokens[i].(status := Consumed, consumedBy := DeviceBy(after.devices, r.device))
    && (forall j :: 0 <= j < |s.tokens| && j != i ==> after.tokens[j] == s.tokens[j])
    && DeviceBy(after.devices, r.device).Some?
    && var d := DeviceBy(after.devices, r.device).value;
    && after.devices[d].apiLevel == r.apiLevel
    && after.credentials == s.credentials + [Credential(uuid, d, Some(i), fingerprint, Usable, None)]
    && UsableOn(after.credentials, d) == Some(|s.credentials|)
  }

  lemma EnrollingShows(t: Tools, s: Registry, i: nat, r: Enrollment, uuid: string)
    requires Valid(s) && i < |s.tokens| && EnrollWith(t, s, r, i, uuid).0.Enrolled?
    ensures EnrolledBy(s, EnrollWith(t, s, r, i, uuid).1, i, r, uuid, t.validateKey(r.publicKey, r.algorithm).value)
  {
    var after := EnrollWith(t, s, r, i, uuid).1;
    var d := if DeviceBy(s.devices, r.device).Some? then DeviceBy(s.devices, r.device).value else |s.devices|;
    assert after.devices[d].uuid == r.device;
    assert forall e :: 0 <= e < |after.devices| && e != d ==> after.devices[e].uuid == s.devices[e].uuid != r.device;
    assert DeviceBy(after.devices, r.device) == Some(d);
    forall c: nat | c < |s.credentials|
      ensures !(after.credentials[c].device == d && after.credentials[c].status == Usable)
    {
      assert CredentialOk(s, c);
    }
    var added := after.credentials[|s.credentials|];
    assert added.device == d && added.status == Usable;
  }

  /** Exactly the active token with this identifier is revoked. */
  ghost predicate TokenRevoked(s: Registry, after: Registry, outcome: Outcome, uuid: string) {
    && (outcome == Done <==> HasActiveToken(s, uuid)) && !HasActiveToken(after, uuid)
    && (outcome == NotFound <==> forall i :: 0 <= i < |s.tokens| ==> s.tokens[i].uuid != uuid)
    && after == s.(tokens := after.tokens) && |after.tokens| == |s.tokens|
    && (forall i :: 0 <= i < |s.tokens| ==>
          after.tokens[i] == if s.tokens[i].uuid == uuid && s.tokens[i].status == Active
                             then s.tokens[i].(status := Revoked) else s.tokens[i])
  }

  lemma RevokingShows(s: Registry, uuid: string)
    requires Valid(s)
    ensures TokenRevoked(s, RevokeToken(s, uuid).1, RevokeToken(s, uuid).0, uuid)
  {
    var i := TokenBy(s.tokens, uuid);
    if i.Some? {
      assert forall j :: 0 <= j < |s.tokens| && j != i.value ==> s.tokens[j].uuid != uuid;
    }
  }

  /** Once a token has been found by a revocation, presenting it never enrolls again. */
  lemma RevokedTokenNeverEnrolls(t: Tools, s: Registry, tokenUuid: string, steps: seq<Step>,
                                 r: Enrollment, uuid: string, now: int)
    requires Valid(s) && RevokeToken(s, tokenUuid).0 != NotFound && Presents(r.pairingToken, tokenUuid)
    ensures !Enroll(t, Run(t, RevokeToken(s, tokenUuid).1, steps), r, uuid, now).0.Enrolled?
  {
    RevokingShows(s, tokenUuid);
    var after, i := RevokeToken(s, tokenUuid).1, TokenBy(s.tokens, tokenUuid).value;
    assert after.tokens[i].uuid == tokenUuid && after.tokens[i].status != Active;
    ExecuteKeeps(t, s, RevokeTokenStep(tokenUuid));
    RunKeeps(t, after, steps);
    EnrollsExactlyBy(t, Run(t, after, steps), i, r, uuid, now);
  }

  ghost predicate HasUsableCredential(s: Registry, device: string) {
    exists c :: 0 <= c < |s.credentials| && UsableFor(s, c, device)
  }

  predicate UsableFor(s: Registry, c: nat, device: string)
    requires c < |s.credentials|
  {
    && s.credentials[c].status == Usable
    && s.credentials[c].device < |s.devices| && s.devices[s.credentials[c].device].uuid == device
  }

  /** Exactly the usable credential of this device is withdrawn. */
  ghost predicate CredentialRevoked(s: Registry, after: Registry, outcome: Outcome, device: string) {
    && (outcome == Done <==> HasUsableCredential(s, device)) && !HasUsableCredential(after, device)
    && (outcome == Done || outcome == NotFound)
    && after == s.(credentials := after.credentials) && |after.credentials| == |s.credentials|
    && (forall c :: 0 <= c < |s.credentials| ==>
          after.credentials[c] == if UsableFor(s, c, device) then s.credentials[c].(status := Withdrawn)
                                  else s.credentials[c])
  }

  lemma WithdrawingShows(s: Registry, device: string)
    requires Valid(s)
    ensures CredentialRevoked(s, RevokeCredential(s, device).1, RevokeCredential(s, device).0, device)
  {
    var after := RevokeCredential(s, device).1;
    assert forall c: nat :: c < |s.credentials| ==> CredentialOk(s, c);
    var d := DeviceBy(s.devices, device);
    if d.Some? {
      assert forall e :: 0 <= e < |s.devices| && e != d.value ==> s.devices[e].uuid != device;
      if UsableOn(s.credentials, d.value).Some? {
        var u := UsableOn(s.credentials, d.value).value;
        forall c | 0 <= c < |s.credentials| && c != u ensures !UsableFor(s, c, device) {
          assert if c < u then Apart(s.credentials[c], s.credentials[u]) else Apart(s.credentials[u], s.credentials[c]);
        }
        assert UsableFor(s, u, device);
      }
    }
  }

  // ----- locked tokens

  /** Whatever comes after the secret in a request, a wrong secret never enrolls, and the fifth wrong
      one locks the token for good. */
  lemma WrongSecretsLock(t: Tools, s: Registry, r: Enrollment, uuid: string, now: int, i: nat)
    requires Valid(s) && i < |s.tokens| && ParsePairingToken(r.pairingToken).Ok? && !t.certificationRequired
    requires ParsePairingToken(r.pairingToken).value.0 == s.tokens[i].uuid
    requires var presented := t.verifier(s.tokens[i].uuid, ParsePairingToken(r.pairingToken).value.1, s.tokens[i].pepper);
             presented.Some? && presented.value != s.tokens[i].verifier
    ensures Enroll(t, s, r, uuid, now).0 == Failed
    ensures var token, after := s.tokens[i], Enroll(t, s, r, uuid, now).1;
            |after.tokens| == |s.tokens|
            && (token.status == Active && now < token.expiresAt ==>
                  && after.tokens[i].failedAttempts == token.failedAttempts + 1
                  && (after.tokens[i].status == Locked <==> token.failedAttempts == 4))
  {
    assert TokenOk(s, i);
    var found := TokenBy(s.tokens, s.tokens[i].uuid);
    assert found.Some? && s.tokens[found.value].uuid == s.tokens[i].uuid;
    assert found == Some(i);
  }

  // ----- the service

  class EnrollmentService {
    var devices: seq<Device>
    var tokens: seq<Token>
    var credentials: seq<Credential>
    const tools: Tools

    constructor (tools: Tools)
      ensures this.tools == tools && Tables() == EMPTY
    {
      this.tools := tools;
      devices, tokens, credentials := [], [], [];
    }

    ghost function Tables(): Registry
      reads this
    {
      Registry(devices, tokens, credentials)
    }

    /** `issue_enrollment_token`. */
    method IssueEnrollmentToken(bound: Option<string>, placement: Option<Placement>, uuid: string, secret: seq<Byte>,
                                now: int) returns (outcome: Outcome)
      modifies this`tokens
      ensures (outcome, Tables()) == Issue(tools, old(Tables()), bound, placement, uuid, secret, now)
      ensures TokenIssued(tools, old(Tables()), Tables(), outcome, bound, uuid, secret, now)
    {
      IssueAddsToken(tools, Tables(), bound, placement, uuid, secret, now);
      if !tools.administrationEnabled {
        return Conflict;
      }
      var device: Option<nat> := None;
      if bound.Some? {
        device := DeviceBy(devices, bound.value);
        if device.None? {
          return NotFound;
        }
      }
      if placement.Some? && !(placement.value.schoolKnown && placement.value.revisionActive) {
        return NotFound;
      }
      var verifier := tools.verifier(uuid, secret, tools.pepper);
      if verifier.None? || tools.ttl <= 0 || TokenBy(tokens, uuid).Some? {
        return Unavailable;
      }
      tokens := tokens + [Token(uuid, verifier.value, tools.pepper, device, Active, now + tools.ttl, 0, None)];
      outcome := Issued(IssuePairingToken(uuid, secret));
    }

    /** `_record_failed_enrollment`. */
    method RecordFailedEnrollment(i: nat)
      requires i < |tokens|
      modifies this`tokens
      ensures Tables() == WithFailure(old(Tables()), i)
    {
      if tokens[i].status == Active {
        var attempts := if tokens[i].failedAttempts + 1 < 5 then tokens[i].failedAttempts + 1 else 5;
        tokens := tokens[i := tokens[i].(failedAttempts := attempts)];
        if attempts >= 5 {
          tokens := tokens[i := tokens[i].(status := Locked)];
        }
      }
      assert tokens == old(tokens)[i := CountFailure(old(tokens)[i])];
    }

    /** `enroll_device`, up to the check of the secret. */
    method EnrollDevice(r: Enrollment, uuid: string, now: int) returns (outcome: Outcome)
      modifies this
      ensures (outcome, Tables()) == Enroll(tools, old(Tables()), r, uuid, now)
    {
      if tools.certificationRequired {
        return Conflict;
      }
      var parsed := ParsePairingToken(r.pairingToken);
      if parsed.Err? {
        return Failed;
      }
      var (tokenUuid, secret) := parsed.value;
      var found := TokenBy(tokens, tokenUuid);
      if found.None? || tokens[found.value].status != Active {
        return Failed;
      }
      var i := found.value;
      if tokens[i].expiresAt <= now {
        tokens := tokens[i := tokens[i].(status := Expired)];
        return Failed;
      }
      var presented := tools.verifier(tokenUuid, secret, tokens[i].pepper);
      if presented.None? {
        return Unavailable;
      }
      if presented.value != tokens[i].verifier {
        RecordFailedEnrollment(i);
        return Failed;
      }
      outcome := EnrollWithToken(r, i, uuid);
    }

    /** `enroll_device`, from the lookup of the device on. */
    method EnrollWithToken(r: Enrollment, i: nat, uuid: string) returns (outcome: Outcome)
      requires i < |tokens|
      modifies this
      ensures (outcome, Tables()) == EnrollWith(tools, old(Tables()), r, i, uuid)
    {
      var token, device := tokens[i], DeviceBy(devices, r.device);
      if token.bound.Some? {
        if device.None? || device.value != token.bound.value {
          RecordFailedEnrollment(i);
          return Failed;
        }
      } else if device.Some? {
        return Conflict;
      }
      if device.Some? && UsableOn(credentials, device.value).Some? {
        return Conflict;
      }
      if !ProofOk(tools, r, token.uuid) {
        RecordFailedEnrollment(i);
        return Failed;
      }
      if device.Some? && r.apiLevel < devices[device.value].apiLevel {
        RecordFailedEnrollment(i);
        return Failed;
      }
      var fingerprint := tools.validateKey(r.publicKey, r.algorithm).value;
      var devicesBefore, d := devices, |devices|;
      if device.None? {
        devices := devices + [Device(r.device, r.apiLevel)];
      } else {
        d := device.value;
        devices := devices[d := devices[d].(apiLevel := r.apiLevel)];
      }
      if Clashes(credentials, uuid, fingerprint) {
        devices := devicesBefore;
        return Unavailable;
      }
      var credential := |credentials|;
      credentials := credentials + [Credential(uuid, d, Some(i), fingerprint, Usable, None)];
      tokens := tokens[i := tokens[i].(status := Consumed, consumedBy := Some(d))];
      outcome := Enrolled(credential);
    }

    /** `rotate_device_credential`. */
    method RotateDeviceCredential(c: nat, r: Rotation, uuid: string) returns (outcome: Outcome)
      requires c < |credentials| && credentials[c].device < |devices|
      modifies this`credentials
      ensures (outcome, Tables()) == Rotate(tools, old(Tables()), c, r, uuid)
    {
      var current := credentials[c];
      if current.status != Usable || !RotationProofOk(tools, r, devices[current.device].uuid, current.uuid) {
        return Failed;
      }
      var fingerprint := tools.validateKey(r.publicKey, r.algorithm).value;
      var before := credentials;
      credentials := credentials[c := current.(status := Superseded)];
      if Clashes(credentials, uuid, fingerprint) {
        credentials := before;
        assert Clashes(before, uuid, fingerprint);
        return Unavailable;
      }
      assert !Clashes(before, uuid, fingerprint) by {
        assert forall k :: 0 <= k < |before| ==>
            before[k].uuid == credentials[k].uuid && before[k].fingerprint == credentials[k].fingerprint;
      }
      var replacement := |credentials|;
      credentials := credentials + [Credential(uuid, current.device, None, fingerprint, Usable, None)];
      credentials := credentials[c := credentials[c].(supersededBy := Some(replacement))];
      assert credentials == WithRotated(old(Tables()), c, uuid, fingerprint).credentials;
      outcome := Rotated(replacement);
    }

    /** `revoke_device_credential`. */
    method RevokeDeviceCredential(device: string) returns (outcome: Outcome)
      modifies this`credentials
      ensures (outcome, Tables()) == RevokeCredential(old(Tables()), device)
      ensures old(Valid(Tables())) ==> CredentialRevoked(old(Tables()), Tables(), outcome, device)
    {
      if Valid(Tables()) {
        WithdrawingShows(Tables(), device);
      }
      var d := DeviceBy(devices, device);
      if d.None? {
        return NotFound;
      }
      var found := UsableOn(credentials, d.value);
      if found.None? {
        return NotFound;
      }
      credentials := credentials[found.value := credentials[found.value].(status := Withdrawn)];
      outcome := Done;
    }

    /** `revoke_enrollment_token`. */
    method RevokeEnrollmentToken(uuid: string) returns (outcome: Outcome)
      modifies this`tokens
      ensures (outcome, Tables()) == RevokeToken(old(Tables()), uuid)
      ensures old(Valid(Tables())) ==> TokenRevoked(old(Tables()), Tables(), outcome, uuid)
    {
      if Valid(Tables()) {
        RevokingShows(Tables(), uuid);
      }
      var found := TokenBy(tokens, uuid);
      if found.None? {
        return NotFound;
      }
      if tokens[found.value].status != Active {
        return Conflict;
      }
      tokens := tokens[found.value := tokens[found.value].(status := Revoked)];
      outcome := Done;
    }
  }
}
