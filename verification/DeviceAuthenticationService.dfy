/** The service that authenticates requests of devices
    (`backend/app/services/device_authentication.py`). */
module DeviceAuthenticationService {
  import opened Wrappers
  import opened Base64Url
  import opened RequestTarget
  import opened SigningMessages
  import opened NonceTable
  import opened DeviceAuthentication
  import opened SignedRequests

  class DeviceAuthenticator {
    var nonces: map<NonceKey, int>
    var lastUsed: map<int, int>
    const setup: Setup

    constructor (setup: Setup)
      ensures this.setup == setup && Tables() == EMPTY
    {
      this.setup := setup;
      nonces, lastUsed := map[], map[];
    }

    ghost function Tables(): Store
      reads this
    {
      Store(nonces, lastUsed)
    }

    /** `authenticate_device_request`. */
    method AuthenticateDeviceRequest(g: Gate, a: Attempt) returns (admission: Admission)
      modifies this
      ensures (admission, Tables()) == Admit(setup, old(Tables()), g, a)
      ensures admission != Signed ==> Tables() == old(Tables())
      ensures admission == Signed ==>
                && Genuine(setup, a.view, a.route, a.request)
                && Fresh(setup.limits.skew, StampOf(a.request), a.checkedAt)
                && (KeyOf(setup, a.request) in old(nonces) ==> old(nonces[KeyOf(setup, a.request)]) <= a.now)
                && KeyOf(setup, a.request) in nonces
                && nonces[KeyOf(setup, a.request)] == a.now + setup.limits.ttl * SECOND
                && lastUsed == old(lastUsed)[KeyOf(setup, a.request).0 := a.now]
      ensures admission == Unchecked <==> g.mode == Legacy && g.allowLegacy
      ensures admission == LegacyDevice
         <==> g.mode == NewDevicesRequired && g.allowLegacy && a.request.authorization == ""
              && OldDevice(g, a.view, a.route.device)
      ensures !(g.mode == Legacy && g.allowLegacy) ==>
                (admission == Signed
                 <==> exists uuid, nonce, query, signature ::
                        SignedBy(setup, old(Tables()), a, uuid, nonce, query, signature))
    {
      UnsignedExactly(setup, Tables(), g, a);
      if !(g.mode == Legacy && g.allowLegacy) {
        SignedExactly(setup, Tables(), g, a);
      }
      if g.mode == Legacy && g.allowLegacy {
        return Unchecked;
      }
      if a.request.authorization == "" {
        if g.mode == NewDevicesRequired && g.allowLegacy && IsUuid4(a.route.device) && a.route.device in a.view.devices
           && a.route.device in g.legacyDevices && !HasCredential(a.view, a.route.device) {
          return LegacyDevice;
        }
        return TurnedAway;
      }
      var accepted := AuthenticateCredential(a);
      admission := if accepted then Signed else TurnedAway;
    }

    /** The part of it that follows once there is a credential. */
    method AuthenticateCredential(a: Attempt) returns (accepted: bool)
      modifies this
      ensures (accepted, Tables()) == Authenticate(setup, old(Tables()), a)
      ensures accepted <==> exists uuid, nonce, query, signature ::
                              SignedBy(setup, old(Tables()), a, uuid, nonce, query, signature)
    {
      CredentialExactly(setup, Tables(), a);
      if !IsUuid4(a.route.device) {
        return false;
      }
      var parsed := ParseAuthorization(a.request.authorization);
      if parsed.None? || parsed.value !in a.view.credentials || !a.view.credentials[parsed.value].active {
        return false;
      }
      var credential := a.view.credentials[parsed.value];
      if a.route.device !in a.view.devices || credential.deviceId != a.view.devices[a.route.device] {
        return false;
      }
      var signed := SignedInTime(a, parsed.value, credential);
      if !signed {
        return false;
      }
      accepted := StoreNonce(setup.credentialId(parsed.value), setup.nonceHash(Decode64(a.request.nonce, Some(16)).value),
                             a.now);
    }

    /** Expired nonces are deleted, the use of the credential and its nonce are recorded, and all
        of it is rolled back when the table refuses the nonce. */
    method StoreNonce(credentialId: int, nonceHash: string, now: int) returns (stored: bool)
      modifies this
      ensures (stored, Tables()) == Spend(setup.limits.ttl, old(Tables()), (credentialId, nonceHash), now)
    {
      var beforeNonces, beforeUse := nonces, lastUsed;
      nonces := map k | k in nonces && nonces[k] > now :: nonces[k];
      lastUsed := lastUsed[credentialId := now];
      if (credentialId, nonceHash) in nonces || setup.limits.ttl == 0 {
        nonces, lastUsed := beforeNonces, beforeUse;
        return false;
      }
      nonces := nonces[(credentialId, nonceHash) := now + setup.limits.ttl * SECOND];
      stored := true;
    }

    /** The checks on headers, time, target, body and signature. */
    method SignedInTime(a: Attempt, uuid: string, credential: Credential) returns (ok: bool)
      requires Entitled(a.view, a.route, a.request)
      requires Some(uuid) == ParseAuthorization(a.request.authorization) && credential == a.view.credentials[uuid]
      ensures ok == Passes(setup.limits, AsTry(setup, a))
    {
      var r := a.request;
      if !HeaderOk(r.timestamp, 10) || !HeaderOk(r.nonce, 22) || !HeaderOk(r.bodyHash, 64)
         || !HeaderOk(r.signature, 342) {
        return false;
      }
      var stamp := ParseTimestamp(r.timestamp);
      if stamp.None? || !Fresh(setup.limits.skew, stamp.value, a.checkedAt) || Decode64(r.nonce, Some(16)).Err? {
        return false;
      }
      var target := CanonicalizeRequestTarget(r.target);
      if target.Err? || target.value.path != a.route.path || !QueryNamesOk(target.value.query, a.route.queryNames) {
        return false;
      }
      if setup.bodyDigest(r.body) != r.bodyHash {
        return false;
      }
      var message := SigningBytes(MessageOf(r, target.value, uuid, a.route.device));
      var signature := SignatureBytes(credential.algorithm, r.signature);
      ok := message.Ok? && signature.Ok? && setup.verify(credential.key, credential.algorithm, signature.value, message.value);
    }
  }
}
