/** Authentication of signed device requests (`backend/app/services/device_authentication.py`):
    which requests pass, and how long the nonce table keeps one from passing twice. */
module DeviceAuthentication {
  import opened Wrappers
  import opened Numerals
  import opened Text
  import opened Utf8
  import opened Base64Url
  import opened RequestTarget
  import opened SigningMessages
  import opened NonceTable

  datatype Algorithm = EcdsaP256Sha256 | Rsa2048Sha256

  datatype Credential = Credential(deviceId: int, active: bool, algorithm: Algorithm, key: string)

  /** The device and credential rows that one request sees, by UUID. */
  datatype View = View(devices: map<string, int>, credentials: map<string, Credential>)

  /** Settings, the row identifier of each credential, hashing, and the signature check. */
  datatype Setup = Setup(limits: Limits, credentialId: string -> int, bodyDigest: seq<Byte> -> string,
                         nonceHash: seq<Byte> -> string, verify: (string, Algorithm, seq<Byte>, seq<Byte>) -> bool)

  datatype SignedRequest = SignedRequest(httpMethod: string, target: string, body: seq<Byte>, authorization: string,
                                         timestamp: string, nonce: string, bodyHash: string, signature: string)

  /** The route a request arrives on. */
  datatype Route = Route(device: string, path: string, queryNames: seq<string>)

  const SCHEME := "DeviceCredential "

  /** `_parse_authorization`. */
  function ParseAuthorization(value: string): Option<string> {
    if |value| == 53 && SCHEME <= value && IsUuid4(value[|SCHEME|..]) then Some(value[|SCHEME|..]) else None
  }

  predicate IsSpace(c: char) { c == ' ' || '\t' <= c <= '\r' }

  /** A header of the expected length that is not a list. */
  predicate HeaderOk(value: string, length: nat) {
    |value| == length && (length > 0 ==> !IsSpace(value[0]) && !IsSpace(value[length - 1])) && ',' !in value
  }

  /** The number of seconds a timestamp denotes. */
  function ParseTimestamp(value: string): Option<nat> {
    if value == "" || (exists i :: 0 <= i < |value| && !IsDigit(value[i])) || (|value| > 1 && value[0] == '0') then None
    else Some(ParseDigits(value, 0).value)
  }

  /** `_validate_query_names`. */
  predicate QueryNamesOk(query: string, names: seq<string>) {
    var components := Split(query, '&');
    forall i :: 0 <= i < |components| && components[i] != "" ==> Cut(components[i], '=').0 in names
  }

  /** `decode_base64url` insists on the length of an RSA signature only. */
  function SignatureBytes(a: Algorithm, text: string): Result<seq<Byte>> {
    Decode64(text, if a.Rsa2048Sha256? then Some(256) else None)
  }

  function MessageOf(r: SignedRequest, target: Canonical, credential: string, device: string): Message {
    Request(r.httpMethod, target.path, target.query, r.bodyHash, r.timestamp, r.nonce, credential, device)
  }

  /** The device and credential are known, usable and belong together. */
  predicate Entitled(v: View, route: Route, r: SignedRequest) {
    && IsUuid4(route.device)
    && ParseAuthorization(r.authorization).Some?
    && var credential := ParseAuthorization(r.authorization).value;
       && credential in v.credentials && v.credentials[credential].active
       && route.device in v.devices && v.credentials[credential].deviceId == v.devices[route.device]
  }

  /** What is signed for a request. */
  function SignedBytes(route: Route, r: SignedRequest): Result<seq<Byte>>
    requires ParseAuthorization(r.authorization).Some? && CanonicalTarget(r.target).Ok?
  {
    SigningBytes(MessageOf(r, CanonicalTarget(r.target).value, ParseAuthorization(r.authorization).value, route.device))
  }

  /** Every header but the signature, the target and the body are in order; the time is open. */
  predicate Presentable(c: Setup, v: View, route: Route, r: SignedRequest) {
    && Entitled(v, route, r)
    && HeaderOk(r.timestamp, 10) && HeaderOk(r.nonce, 22) && HeaderOk(r.bodyHash, 64)
    && ParseTimestamp(r.timestamp).Some?
    && Decode64(r.nonce, Some(16)).Ok?
    && CanonicalTarget(r.target).Ok? && CanonicalTarget(r.target).value.path == route.path
    && QueryNamesOk(CanonicalTarget(r.target).value.query, route.queryNames)
    && c.bodyDigest(r.body) == r.bodyHash
    && SignedBytes(route, r).Ok?
  }

  /** The signature check of the library accepts these bytes for the request. */
  predicate Verifies(c: Setup, v: View, route: Route, r: SignedRequest, signature: seq<Byte>)
    requires Presentable(c, v, route, r)
  {
    var credential := v.credentials[ParseAuthorization(r.authorization).value];
    c.verify(credential.key, credential.algorithm, signature, SignedBytes(route, r).value)
  }

  function AlgorithmOf(v: View, r: SignedRequest): Algorithm
    requires ParseAuthorization(r.authorization).Some? && ParseAuthorization(r.authorization).value in v.credentials
  {
    v.credentials[ParseAuthorization(r.authorization).value].algorithm
  }

  /** The signature is in order too. */
  predicate Genuine(c: Setup, v: View, route: Route, r: SignedRequest) {
    && Presentable(c, v, route, r) && HeaderOk(r.signature, 342)
    && var signature := SignatureBytes(AlgorithmOf(v, r), r.signature);
       signature.Ok? && Verifies(c, v, route, r, signature.value)
  }

  // ----- replays

  /** `checkedAt`: the clock when the timestamp is compared; `now`: the clock when the nonce is stored. */
  datatype Attempt = Attempt(view: View, route: Route, request: SignedRequest, checkedAt: int, now: int)

  function KeyOf(c: Setup, r: SignedRequest): NonceKey {
    match (ParseAuthorization(r.authorization), Decode64(r.nonce, Some(16)))
    case (Some(credential), Ok(nonce)) => (c.credentialId(credential), c.nonceHash(nonce))
    case _ => (0, "")
  }

  function StampOf(r: SignedRequest): int {
    var stamp := ParseTimestamp(r.timestamp);
    if stamp.Some? then stamp.value else 0
  }

  function AsTry(c: Setup, a: Attempt): Try {
    Try(Genuine(c, a.view, a.route, a.request), StampOf(a.request), KeyOf(c, a.request), a.checkedAt, a.now)
  }

  function AsTries(c: Setup, attempts: seq<Attempt>): seq<Try> {
    seq(|attempts|, i requires 0 <= i < |attempts| => AsTry(c, attempts[i]))
  }

  /** `authenticate_device_request`, for a request that carries a credential. */
  function Authenticate(c: Setup, s: Store, a: Attempt): (bool, Store) { Attempted(c.limits, s, AsTry(c, a)) }

  // ----- requests without a signature

  datatype Mode = Legacy | NewDevicesRequired | AllRequired

  /** The enrollment mode, whether the route tolerates old devices, and the devices registered as such. */
  datatype Gate = Gate(mode: Mode, allowLegacy: bool, legacyDevices: set<string>)

  datatype Admission = Unchecked | LegacyDevice | Signed | TurnedAway

  predicate HasCredential(v: View, device: string)
    requires device in v.devices
  {
    exists uuid :: uuid in v.credentials && v.credentials[uuid].deviceId == v.devices[device]
  }

  /** An old device that has never been given a credential. */
  predicate Tolerated(g: Gate, v: View, device: string) {
    && IsUuid4(device) && g.mode == NewDevicesRequired && g.allowLegacy
    && device in v.devices && device in g.legacyDevices && !HasCredential(v, device)
  }

  /** `authenticate_device_request`; a missing header is an empty text. */
  function Admit(c: Setup, s: Store, g: Gate, a: Attempt): (Admission, Store) {
    if g.mode == Legacy && g.allowLegacy then (Unchecked, s)
    else if a.request.authorization == "" then
      (if Tolerated(g, a.view, a.route.device) then LegacyDevice else TurnedAway, s)
    else
      var (accepted, after) := Authenticate(c, s, a);
      (if accepted then Signed else TurnedAway, after)
  }

  /** Whatever is admitted on this route is genuine, in time, and had not spent its nonce. */
  ghost predicate SignatureNeeded(c: Setup, g: Gate, v: View, route: Route) {
    forall s: Store, a: Attempt :: a.view == v && a.route == route && !Admit(c, s, g, a).0.TurnedAway? ==>
      Genuine(c, v, route, a.request) && Fresh(c.limits.skew, StampOf(a.request), a.checkedAt)
      && !(KeyOf(c, a.request) in s.nonces && s.nonces[KeyOf(c, a.request)] > a.now)
  }

  /** A route asks for a signature exactly when it is not open to everybody and the device is not a
      tolerated one: so a device that was given a credential can never do without it again, and
      under `AllRequired` no device can. */
  lemma SignatureNeededExactly(c: Setup, g: Gate, v: View, route: Route)
    ensures SignatureNeeded(c, g, v, route)
       <==> !(g.mode == Legacy && g.allowLegacy) && !Tolerated(g, v, route.device)
  {
    var a := Attempt(v, route, SignedRequest("", "", [], "", "", "", "", ""), 0, 0);
    assert ParseAuthorization("").None?;
    assert !Genuine(c, v, route, a.request);
    if SignatureNeeded(c, g, v, route) {
      assert Admit(c, EMPTY, g, a).0.TurnedAway?;
    }
  }

  /** Some run from an empty table accepts this very request twice. */
  ghost predicate Replayable(c: Setup, r: SignedRequest, delay: nat) {
    exists attempts: seq<Attempt>, i: nat, j: nat :: Replay(c, r, delay, attempts, i, j)
  }

  ghost predicate Replay(c: Setup, r: SignedRequest, delay: nat, attempts: seq<Attempt>, i: nat, j: nat) {
    && i < j < |attempts| && attempts[i].request == r && attempts[j].request == r
    && Timely(AsTries(c, attempts), delay)
    && AcceptedAt(c.limits, EMPTY, AsTries(c, attempts), i) && AcceptedAt(c.limits, EMPTY, AsTries(c, attempts), j)
  }

  /** Twice the skew and the delay reach the lifetime of a nonce, if nonces can be stored at all. */
  predicate Outlived(l: Limits, delay: nat) { 0 < l.ttl && l.ttl * SECOND <= 2 * l.skew * SECOND + delay }

  lemma ReplayMeansOutlived(c: Setup, r: SignedRequest, delay: nat, attempts: seq<Attempt>, i: nat, j: nat)
    requires Replay(c, r, delay, attempts, i, j)
    ensures Outlived(c.limits, delay) && Genuine(c, attempts[i].view, attempts[i].route, r)
  {
    var tries := AsTries(c, attempts);
    assert tries[i].genuine && tries[i].key == tries[j].key && tries[i].stamp == tries[j].stamp;
    if !Outlived(c.limits, delay) && 0 < c.limits.ttl {
      NoReplayInTime(c.limits, EMPTY, tries, delay, i, j);
    }
  }

  lemma OutlivedMeansReplay(c: Setup, v: View, route: Route, r: SignedRequest, delay: nat)
    requires Genuine(c, v, route, r) && Outlived(c.limits, delay)
    ensures Replayable(c, r, delay)
  {
    var tries := EarlyAndLate(c.limits, StampOf(r), KeyOf(c, r), delay);
    ReplayOutOfTime(c.limits, StampOf(r), KeyOf(c, r), delay);
    var attempts := [Attempt(v, route, r, tries[0].checkedAt, tries[0].now),
                     Attempt(v, route, r, tries[1].checkedAt, tries[1].now)];
    assert AsTries(c, attempts) == tries;
    assert Replay(c, r, delay, attempts, 0, 1);
  }

  /** A request can be replayed exactly when it is genuine and twice the skew plus the delay reach
      the nonce lifetime. */
  lemma ReplayBound(c: Setup, r: SignedRequest, delay: nat)
    ensures Replayable(c, r, delay) <==> Outlived(c.limits, delay) && exists v, route :: Genuine(c, v, route, r)
  {
    if Replayable(c, r, delay) {
      var attempts: seq<Attempt>, i: nat, j: nat :| Replay(c, r, delay, attempts, i, j);
      ReplayMeansOutlived(c, r, delay, attempts, i, j);
    }
    if Outlived(c.limits, delay) && exists v, route :: Genuine(c, v, route, r) {
      var v, route :| Genuine(c, v, route, r);
      OutlivedMeansReplay(c, v, route, r, delay);
    }
  }

  /** The configured 300 and 600 seconds lie on the bound: every genuine request can be replayed,
      even without any delay. */
  lemma DefaultsLieOnTheBound(c: Setup, v: View, route: Route, r: SignedRequest, delay: nat)
    requires c.limits == Limits(300, 600) && Genuine(c, v, route, r)
    ensures Replayable(c, r, delay)
  {
    OutlivedMeansReplay(c, v, route, r, delay);
  }

  // ----- what a signature stands for

  function IncomingOf(r: SignedRequest, credential: string, device: string): Incoming {
    Incoming(r.httpMethod, r.target, r.bodyHash, r.timestamp, r.nonce, credential, device)
  }

  lemma GenuineIsWellFormed(c: Setup, v: View, route: Route, r: SignedRequest)
    requires Genuine(c, v, route, r) && '\n' !in r.httpMethod
    ensures IncomingOf(r, ParseAuthorization(r.authorization).value, route.device).WellFormed()
  {
  }

  /** One signed text stands for one request: two genuine requests that carry it have the same method,
      path, query, timestamp, nonce, credential, device and, unless their bodies collide, body. */
  lemma SignatureStandsForOneRequest(c: Setup, v: View, w: View, first: Route, second: Route, r: SignedRequest,
                                     q: SignedRequest)
    requires Genuine(c, v, first, r) && Genuine(c, w, second, q)
    requires '\n' !in r.httpMethod && '\n' !in q.httpMethod
    requires c.bodyDigest(r.body) == c.bodyDigest(q.body) ==> r.body == q.body
    requires SignedBytes(first, r) == SignedBytes(second, q)
    ensures r.httpMethod == q.httpMethod && TargetMeaning(r.target) == TargetMeaning(q.target) && r.body == q.body
    ensures r.timestamp == q.timestamp && r.nonce == q.nonce && first.device == second.device
    ensures ParseAuthorization(r.authorization) == ParseAuthorization(q.authorization)
  {
    GenuineIsWellFormed(c, v, first, r);
    GenuineIsWellFormed(c, w, second, q);
    SignatureCoversOneRequest(IncomingOf(r, ParseAuthorization(r.authorization).value, first.device),
                              IncomingOf(q, ParseAuthorization(q.authorization).value, second.device));
    assert c.bodyDigest(r.body) == c.bodyDigest(q.body);
  }

  // ----- which signatures fit the header

  lemma EncodingIsHeader(bs: seq<Byte>)
    ensures HeaderOk(Encode64(bs), 342) <==> |bs| == 256
  {
    var value := Encode64(bs);
    EncodedLength(bs);
    SymbolsAlphabet(Cut6(bs));
    assert SixOf(',').None?;
    if |value| > 0 {
      assert value[0] in value && value[|value| - 1] in value;
    }
  }

  /** Whatever the algorithm, exactly the encodings of 256 bytes get past the signature header. */
  lemma SignaturesAre256Bytes(a: Algorithm, text: string)
    ensures HeaderOk(text, 342) && SignatureBytes(a, text).Ok?
       <==> exists bs: seq<Byte> :: |bs| == 256 && text == Encode64(bs)
  {
    if HeaderOk(text, 342) && SignatureBytes(a, text).Ok? {
      var bs := SignatureBytes(a, text).value;
      assert text == Encode64(bs);
      EncodingIsHeader(bs);
    }
    forall bs: seq<Byte> | |bs| == 256 && text == Encode64(bs)
      ensures HeaderOk(text, 342) && SignatureBytes(a, text) == Ok(bs)
    {
      EncodingIsHeader(bs);
      EncodingIsRead(a, bs);
    }
  }

  lemma EncodingIsRead(a: Algorithm, bs: seq<Byte>)
    requires |bs| == 256
    ensures SignatureBytes(a, Encode64(bs)) == Ok(bs)
  {
    Decode64Exact(Encode64(bs), bs);
  }

  /** A request that carries a signature which verifies is accepted as genuine exactly when that
      signature has 256 bytes. */
  lemma VerifyingSignaturePasses(c: Setup, v: View, route: Route, r: SignedRequest, signature: seq<Byte>)
    requires Presentable(c, v, route, r) && Verifies(c, v, route, r, signature)
    ensures Genuine(c, v, route, r.(signature := Encode64(signature))) <==> |signature| == 256
  {
    var sent := r.(signature := Encode64(signature));
    SignatureIsApart(c, v, route, r, sent.signature);
    EncodingIsHeader(signature);
    if |signature| == 256 {
      EncodingIsRead(AlgorithmOf(v, r), signature);
    }
  }

  lemma SignatureIsApart(c: Setup, v: View, route: Route, r: SignedRequest, text: string)
    requires Presentable(c, v, route, r)
    ensures Presentable(c, v, route, r.(signature := text))
    ensures SignedBytes(route, r.(signature := text)) == SignedBytes(route, r)
  {
  }
}
