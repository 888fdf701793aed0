/** What becomes of devices whose credential holds an ECDSA key
    (`backend/app/services/device_authentication.py`). */
module EcdsaCredentials {
  import opened Wrappers
  import opened Numerals
  import opened Text
  import opened Utf8
  import opened Base64Url
  import opened RequestTarget
  import opened SigningMessages
  import opened NonceTable
  import opened DeviceAuthentication

  /** The DER encoding of a P-256 signature: a SEQUENCE of two INTEGERs of at most 33 bytes each. */
  function EcdsaDer(first: seq<Byte>, second: seq<Byte>): (der: seq<Byte>)
    requires 1 <= |first| <= 33 && 1 <= |second| <= 33
    ensures 8 <= |der| <= 72
  {
    [0x30, |first| + |second| + 4, 0x02, |first|] + first + [0x02, |second|] + second
  }

  predicate IsEcdsaDer(bs: seq<Byte>) {
    && 8 <= |bs| <= 72 && 1 <= bs[3] <= 33 && bs[3] + 7 <= |bs|
    && 1 <= |bs| - 6 - bs[3] <= 33
    && bs == EcdsaDer(bs[4..4 + bs[3]], bs[6 + bs[3]..])
  }

  lemma EcdsaDerIsDer(first: seq<Byte>, second: seq<Byte>)
    requires 1 <= |first| <= 33 && 1 <= |second| <= 33
    ensures IsEcdsaDer(EcdsaDer(first, second))
  {
    var bs := EcdsaDer(first, second);
    assert bs[4..4 + |first|] == first;
    assert bs[6 + |first|..] == second;
  }

  /** The library accepts an ECDSA signature in this encoding only. */
  ghost predicate EcdsaIsDer(c: Setup) {
    forall key, signature, message :: c.verify(key, EcdsaP256Sha256, signature, message) ==> IsEcdsaDer(signature)
  }

  /** So no signature by an ECDSA credential gets a request accepted, though the library would accept it. */
  lemma EcdsaNeverPasses(c: Setup, s: Store, g: Gate, a: Attempt)
    requires EcdsaIsDer(c) && Entitled(a.view, a.route, a.request)
    requires AlgorithmOf(a.view, a.request) == EcdsaP256Sha256
    ensures !Genuine(c, a.view, a.route, a.request) && !Admit(c, s, g, a).0.Signed?
  {
    if Genuine(c, a.view, a.route, a.request) {
      SignaturesAre256Bytes(EcdsaP256Sha256, a.request.signature);
      var bs: seq<Byte> :| |bs| == 256 && a.request.signature == Encode64(bs);
      EncodingIsRead(EcdsaP256Sha256, bs);
    }
  }

  // ----- a device with an ECDSA credential

  /** What an honest device needs for a request. */
  datatype Sender = Sender(device: string, credential: string, key: string, target: string, body: seq<Byte>,
                           timestamp: string, nonce: seq<Byte>)

  predicate SenderOk(c: Setup, d: Sender) {
    && IsUuid4(d.device) && IsUuid4(d.credential) && CanonicalTarget(d.target).Ok? && |d.nonce| == 16
    && |d.timestamp| == 10 && d.timestamp[0] != '0' && (forall i :: 0 <= i < 10 ==> IsDigit(d.timestamp[i]))
    && IsHexDigest(c.bodyDigest(d.body))
  }

  function SentBy(c: Setup, d: Sender, signature: string): SignedRequest {
    SignedRequest("GET", d.target, d.body, SCHEME + d.credential, d.timestamp, Encode64(d.nonce), c.bodyDigest(d.body),
                  signature)
  }

  function NamesOf(query: string): seq<string> {
    var components := Split(query, '&');
    seq(|components|, i requires 0 <= i < |components| => Cut(components[i], '=').0)
  }

  function RouteOf(d: Sender): Route
    requires CanonicalTarget(d.target).Ok?
  {
    var c := CanonicalTarget(d.target).value;
    Route(d.device, c.path, NamesOf(c.query))
  }

  function ViewOf(d: Sender, a: Algorithm): View { View(map[d.device := 1], map[d.credential := Credential(1, true, a, d.key)]) }

  lemma NamesOfAreOk(query: string)
    ensures QueryNamesOk(query, NamesOf(query))
  {
    var components := Split(query, '&');
    forall i | 0 <= i < |components| ensures Cut(components[i], '=').0 in NamesOf(query) {
      assert NamesOf(query)[i] == Cut(components[i], '=').0;
    }
  }

  lemma PlainHeader(value: string, length: nat)
    requires |value| == length && forall c :: c in value ==> !IsSpace(c) && c != ','
    ensures HeaderOk(value, length)
  {
    if length > 0 {
      assert value[0] in value && value[length - 1] in value;
    }
  }

  lemma NonceHeader(nonce: seq<Byte>)
    requires |nonce| == 16
    ensures HeaderOk(Encode64(nonce), 22) && Decode64(Encode64(nonce), Some(16)).Ok?
  {
    EncodedLength(nonce);
    SymbolsAlphabet(Cut6(nonce));
    assert SixOf(',').None?;
    PlainHeader(Encode64(nonce), 22);
    Decode64Exact(Encode64(nonce), nonce);
  }

  lemma SchemeIsParsed(credential: string)
    requires IsUuid4(credential)
    ensures ParseAuthorization(SCHEME + credential) == Some(credential)
  {
    assert (SCHEME + credential)[|SCHEME|..] == credential;
  }

  lemma TimestampHeader(s: string)
    requires |s| == 10 && s[0] != '0' && forall i :: 0 <= i < 10 ==> IsDigit(s[i])
    ensures HeaderOk(s, 10) && ParseTimestamp(s).Some?
  {
    PlainHeader(s, 10);
  }

  /** Whatever the algorithm of its credential, all but the signature of an honest request is in order. */
  lemma SenderIsPresentable(c: Setup, d: Sender, a: Algorithm, signature: string)
    requires SenderOk(c, d)
    ensures Presentable(c, ViewOf(d, a), RouteOf(d), SentBy(c, d, signature))
    ensures AlgorithmOf(ViewOf(d, a), SentBy(c, d, signature)) == a
  {
    SchemeIsParsed(d.credential);
    TimestampHeader(d.timestamp);
    NonceHeader(d.nonce);
    PlainHeader(c.bodyDigest(d.body), 64);
    NamesOfAreOk(CanonicalTarget(d.target).value.query);
  }

  /** Whatever a device with an ECDSA credential asks for, and however well it signs, it is turned away. */
  lemma EcdsaSenderIsTurnedAway(c: Setup, s: Store, g: Gate, d: Sender, signature: seq<Byte>, checkedAt: int, now: int)
    requires SenderOk(c, d) && IsEcdsaDer(signature)
    requires !(g.mode == Legacy && g.allowLegacy)
    ensures var view, r := ViewOf(d, EcdsaP256Sha256), SentBy(c, d, Encode64(signature));
            && Presentable(c, view, RouteOf(d), r)
            && Admit(c, s, g, Attempt(view, RouteOf(d), r, checkedAt, now)) == (TurnedAway, s)
  {
    SenderIsPresentable(c, d, EcdsaP256Sha256, Encode64(signature));
    EncodingIsHeader(signature);
  }
}
