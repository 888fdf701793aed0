/** The newline-joined messages devices sign (`backend/app/device_cryptography.py`). */
module SigningMessages {
  import opened Wrappers
  import opened Numerals
  import opened Text
  import opened Utf8
  import opened Base64Url
  import opened RequestTarget

  datatype Message =
    | Enrollment(deviceUuid: string, tokenUuid: string, algorithm: string, fingerprint: seq<Byte>,
                 androidVersion: string, apiLevel: int, nonce: string)
    | Rotation(deviceUuid: string, credentialUuid: string, algorithm: string, fingerprint: seq<Byte>, nonce: string)
    | Request(httpMethod: string, path: string, query: string, bodyHash: string, timestamp: string,
              nonce: string, credentialUuid: string, deviceUuid: string)

  function Hex(bs: seq<Byte>): string {
    if bs == [] then "" else [HexDigit(bs[0] / 16), HexDigit(bs[0] % 16)] + Hex(bs[1..])
  }

  function Fields(m: Message): (fields: seq<string>)
    ensures fields != []
  {
    match m
    case Enrollment(device, token, algorithm, fingerprint, version, level, nonce) =>
      ["DEVICE-ENROLL-V1", device, token, algorithm, Hex(fingerprint), version, PrintInt(level), nonce]
    case Rotation(device, credential, algorithm, fingerprint, nonce) =>
      ["DEVICE-ROTATE-V1", device, credential, algorithm, Hex(fingerprint), nonce]
    case Request(verb, path, query, bodyHash, timestamp, nonce, credential, device) =>
      ["DEVICE-AUTH-V1", verb, path, query, bodyHash, timestamp, nonce, credential, device]
  }

  predicate IsHexDigest(s: string) { |s| == 64 && forall c :: c in s ==> IsLowerHex(c) }

  /** The bytes that are signed; a request whose body digest is malformed has none. */
  function SigningBytes(m: Message): Result<seq<Byte>> {
    if m.Request? && !IsHexDigest(m.bodyHash) then Err
    else Ok(Encode(Join(Fields(m), '\n')))
  }

  /** The fields that come from callers as text hold no newline. */
  predicate NewlineFree(m: Message) {
    match m
    case Enrollment(device, token, algorithm, _, version, _, nonce) =>
      '\n' !in device && '\n' !in token && '\n' !in algorithm && '\n' !in version && '\n' !in nonce
    case Rotation(device, credential, algorithm, _, nonce) =>
      '\n' !in device && '\n' !in credential && '\n' !in algorithm && '\n' !in nonce
    case Request(verb, path, query, bodyHash, timestamp, nonce, credential, device) =>
      && '\n' !in verb && '\n' !in path && '\n' !in query && '\n' !in bodyHash
      && '\n' !in timestamp && '\n' !in nonce && '\n' !in credential && '\n' !in device
  }

  lemma HexHead(bs: seq<Byte>)
    requires bs != []
    ensures |Hex(bs)| >= 2 && Hex(bs)[2..] == Hex(bs[1..]) && Hex(bs)[0] != '\n' && Hex(bs)[1] != '\n'
    ensures HexValue(Hex(bs)[0]) == Some(bs[0] / 16) && HexValue(Hex(bs)[1]) == Some(bs[0] % 16)
  {
  }

  lemma {:induction false} HexHasNoNewline(bs: seq<Byte>)
    ensures '\n' !in Hex(bs)
  {
    if bs != [] {
      HexHasNoNewline(bs[1..]);
      HexHead(bs);
    }
  }

  lemma {:induction false} HexInjective(a: seq<Byte>, b: seq<Byte>)
    requires Hex(a) == Hex(b)
    ensures a == b
  {
    if a != [] && b != [] {
      HexHead(a);
      HexHead(b);
      HexInjective(a[1..], b[1..]);
      assert a == [a[0]] + a[1..] && b == [b[0]] + b[1..];
    }
  }

  lemma {:induction false} NatHasNoNewline(n: nat)
    ensures '\n' !in PrintNat(n)
  {
    if n >= 10 {
      NatHasNoNewline(n / 10);
    }
  }

  lemma IntegersPrintApart(m: int, n: int)
    ensures '\n' !in PrintInt(m)
    ensures PrintInt(m) == PrintInt(n) ==> m == n
  {
    NatHasNoNewline(if m < 0 then -m else m);
    DigitsOfNat(if m < 0 then -m else m, "");
    DigitsOfNat(if n < 0 then -n else n, "");
    if PrintInt(m) == PrintInt(n) {
      assert (m < 0) == (n < 0);
      if m < 0 {
        assert PrintInt(m)[1..] == PrintNat(-m) && PrintInt(n)[1..] == PrintNat(-n);
        PrintNatInjective(-m, -n);
      } else {
        PrintNatInjective(m, n);
      }
    }
  }

  lemma FieldsHaveNoNewline(m: Message)
    requires NewlineFree(m)
    ensures forall i :: 0 <= i < |Fields(m)| ==> '\n' !in Fields(m)[i]
  {
    if !m.Request? {
      HexHasNoNewline(m.fingerprint);
    }
    if m.Enrollment? {
      IntegersPrintApart(m.apiLevel, 0);
    }
  }

  lemma FieldsDetermineMessage(m: Message, n: Message)
    requires Fields(m) == Fields(n)
    ensures m == n
  {
    assert Fields(m)[0] == Fields(n)[0];
    assert |"DEVICE-ENROLL-V1"| == 16 && |"DEVICE-AUTH-V1"| == 14;
    assert "DEVICE-ENROLL-V1"[7] == 'E' && "DEVICE-ROTATE-V1"[7] == 'R' && "DEVICE-AUTH-V1"[7] == 'A';
    var f, g := Fields(m), Fields(n);
    assert f[1] == g[1] && f[2] == g[2] && f[3] == g[3] && f[4] == g[4] && f[5] == g[5];
    if m.Request? {
      assert f[6] == g[6] && f[7] == g[7] && f[8] == g[8];
    } else {
      HexInjective(m.fingerprint, n.fingerprint);
      if m.Enrollment? {
        assert f[6] == g[6] && f[7] == g[7];
        IntegersPrintApart(m.apiLevel, n.apiLevel);
      }
    }
  }

  /** One signature input determines the kind of message and every field of it. */
  lemma MessagesUnambiguous(m: Message, n: Message)
    requires NewlineFree(m) && NewlineFree(n)
    requires SigningBytes(m).Ok? && SigningBytes(m) == SigningBytes(n)
    ensures m == n
  {
    EncodeInjective(Join(Fields(m), '\n'), Join(Fields(n), '\n'));
    FieldsHaveNoNewline(m);
    FieldsHaveNoNewline(n);
    SplitJoin(Fields(m), '\n');
    SplitJoin(Fields(n), '\n');
    FieldsDetermineMessage(m, n);
  }

  /** A request as it reaches the signature check, with the header and path checks behind it. */
  datatype Incoming = Incoming(httpMethod: string, target: string, bodyHash: string, timestamp: string,
                               nonce: string, credentialUuid: string, deviceUuid: string)
  {
    predicate WellFormed() {
      && '\n' !in httpMethod
      && CanonicalTarget(target).Ok?
      && IsHexDigest(bodyHash)
      && (forall c :: c in timestamp ==> IsDigit(c))
      && Decode64(nonce, Some(16)).Ok?
      && IsUuid4(credentialUuid) && IsUuid4(deviceUuid)
    }

    function Signed(): Message
      requires CanonicalTarget(target).Ok?
    {
      var c := CanonicalTarget(target).value;
      Request(httpMethod, c.path, c.query, bodyHash, timestamp, nonce, credentialUuid, deviceUuid)
    }
  }

  lemma TargetHasNoNewline(target: string)
    requires CanonicalTarget(target).Ok?
    ensures '\n' !in CanonicalTarget(target).value.path && '\n' !in CanonicalTarget(target).value.query
  {
    CanonicalPieces(target);
  }

  lemma NonceHasNoNewline(nonce: string)
    requires Decode64(nonce, Some(16)).Ok?
    ensures '\n' !in nonce
  {
    SymbolsRead(Cut6(Decode64(nonce, Some(16)).value));
  }

  lemma IncomingIsNewlineFree(r: Incoming)
    requires r.WellFormed()
    ensures NewlineFree(r.Signed())
  {
    TargetHasNoNewline(r.target);
    NonceHasNoNewline(r.nonce);
    UuidAlphabet(r.credentialUuid);
    UuidAlphabet(r.deviceUuid);
  }

  /** Requests share a signature input exactly when they have the same method, meaning of the
      target, body digest, time, nonce, credential and device. */
  lemma SignatureCoversOneRequest(a: Incoming, b: Incoming)
    requires a.WellFormed() && b.WellFormed()
    ensures SigningBytes(a.Signed()) == SigningBytes(b.Signed())
       <==> TargetMeaning(a.target) == TargetMeaning(b.target) && a == b.(target := a.target)
  {
    CanonicalDecidesMeaning(a.target, b.target);
    if SigningBytes(a.Signed()) == SigningBytes(b.Signed()) {
      IncomingIsNewlineFree(a);
      IncomingIsNewlineFree(b);
      MessagesUnambiguous(a.Signed(), b.Signed());
    }
  }
}
