/** Unpadded URL-safe base64 (section 5 and section 3.5 of RFC 4648), canonical UUIDs and
    pairing tokens. */
module Base64Url {
  import opened Wrappers
  import opened Numerals
  import opened Text
  import opened Utf8

  type Six = d: int | 0 <= d < 64

  function Symbol(d: Six): char {
    if d < 26 then ('A' as int + d) as char
    else if d < 52 then ('a' as int + (d - 26)) as char
    else if d < 62 then ('0' as int + (d - 52)) as char
    else if d == 62 then '-' else '_'
  }

  function SixOf(c: char): Option<Six> {
    if 'A' <= c <= 'Z' then Some(c as int - 'A' as int)
    else if 'a' <= c <= 'z' then Some(c as int - 'a' as int + 26)
    else if '0' <= c <= '9' then Some(c as int - '0' as int + 52)
    else if c == '-' then Some(62)
    else if c == '_' then Some(63)
    else None
  }

  function Symbols(ds: seq<Six>): string {
    if ds == [] then "" else [Symbol(ds[0])] + Symbols(ds[1..])
  }

  function Sixes(s: string): Result<seq<Six>> {
    if s == "" then Ok([])
    else
      match (SixOf(s[0]), Sixes(s[1..]))
      case (Some(d), Ok(ds)) => Ok([d] + ds)
      case _ => Err
  }

  // The four six-bit groups of three bytes, and the three bytes of four groups.

  function Six1(b0: int): Six requires 0 <= b0 < 256 { b0 / 4 }
  function Six2(b0: int, b1: int): Six requires 0 <= b0 < 256 && 0 <= b1 < 256 { b0 % 4 * 16 + b1 / 16 }
  function Six3(b1: int, b2: int): Six requires 0 <= b1 < 256 && 0 <= b2 < 256 { b1 % 16 * 4 + b2 / 64 }
  function Six4(b2: int): Six requires 0 <= b2 < 256 { b2 % 64 }

  function Octet1(d0: int, d1: int): Byte requires 0 <= d0 < 64 && 0 <= d1 < 64 { d0 * 4 + d1 / 16 }
  function Octet2(d1: int, d2: int): Byte requires 0 <= d1 < 64 && 0 <= d2 < 64 { d1 % 16 * 16 + d2 / 4 }
  function Octet3(d2: int, d3: int): Byte requires 0 <= d2 < 64 && 0 <= d3 < 64 { d2 % 4 * 64 + d3 }

  lemma Regroups(b0: Byte, b1: Byte, b2: Byte)
    ensures Octet1(Six1(b0), Six2(b0, b1)) == b0
    ensures Octet2(Six2(b0, b1), Six3(b1, b2)) == b1
    ensures Octet3(Six3(b1, b2), Six4(b2)) == b2
  {
  }

  /** Bytes cut into groups of six bits, zero bits filling the last group. */
  function Cut6(bs: seq<Byte>): seq<Six> {
    if bs == [] then []
    else if |bs| == 1 then [Six1(bs[0]), Six2(bs[0], 0)]
    else if |bs| == 2 then [Six1(bs[0]), Six2(bs[0], bs[1]), Six3(bs[1], 0)]
    else [Six1(bs[0]), Six2(bs[0], bs[1]), Six3(bs[1], bs[2]), Six4(bs[2])] + Cut6(bs[3..])
  }

  /** The library decoder once the padding is put back: it drops left-over bits and refuses
      a single left-over symbol. */
  function Glue8(ds: seq<Six>): Result<seq<Byte>> {
    if ds == [] then Ok([])
    else if |ds| == 1 then Err
    else if |ds| == 2 then Ok([Octet1(ds[0], ds[1])])
    else if |ds| == 3 then Ok([Octet1(ds[0], ds[1]), Octet2(ds[1], ds[2])])
    else
      match Glue8(ds[4..])
      case Err => Err
      case Ok(rest) => Ok([Octet1(ds[0], ds[1]), Octet2(ds[1], ds[2]), Octet3(ds[2], ds[3])] + rest)
  }

  /** `encode_base64url`: the padding is stripped. */
  function Encode64(bs: seq<Byte>): string { Symbols(Cut6(bs)) }

  /** `decode_base64url`, with the length the caller insists on, if any. */
  function Decode64(value: string, length: Option<nat>): Result<seq<Byte>> {
    if value == "" || Sixes(value).Err? then Err
    else
      match Glue8(Sixes(value).value)
      case Err => Err
      case Ok(bs) =>
        if Encode64(bs) != value then Err
        else if length.Some? && |bs| != length.value then Err
        else Ok(bs)
  }

  lemma {:induction false} SymbolsRead(ds: seq<Six>)
    ensures Sixes(Symbols(ds)) == Ok(ds)
    ensures |Symbols(ds)| == |ds| && '.' !in Symbols(ds) && '\n' !in Symbols(ds)
  {
    if ds != [] {
      SymbolsRead(ds[1..]);
      assert Symbols(ds)[1..] == Symbols(ds[1..]);
      assert ds == [ds[0]] + ds[1..];
    }
  }

  lemma {:induction false} CutLength(bs: seq<Byte>)
    ensures |Cut6(bs)| == (4 * |bs| + 2) / 3
  {
    if |bs| >= 3 {
      CutLength(bs[3..]);
    }
  }

  lemma GlueBlock(a: Six, b: Six, c: Six, d: Six, rest: seq<Six>)
    requires Glue8(rest).Ok?
    ensures Glue8([a, b, c, d] + rest) == Ok([Octet1(a, b), Octet2(b, c), Octet3(c, d)] + Glue8(rest).value)
  {
    assert ([a, b, c, d] + rest)[4..] == rest;
  }

  lemma GlueCutBlock(b0: Byte, b1: Byte, b2: Byte, rest: seq<Byte>)
    requires Glue8(Cut6(rest)) == Ok(rest)
    ensures Glue8([Six1(b0), Six2(b0, b1), Six3(b1, b2), Six4(b2)] + Cut6(rest)) == Ok([b0, b1, b2] + rest)
  {
    GlueBlock(Six1(b0), Six2(b0, b1), Six3(b1, b2), Six4(b2), Cut6(rest));
    Regroups(b0, b1, b2);
  }

  lemma GlueEnd(ds: seq<Six>)
    ensures |ds| == 2 ==> Glue8(ds) == Ok([Octet1(ds[0], ds[1])])
    ensures |ds| == 3 ==> Glue8(ds) == Ok([Octet1(ds[0], ds[1]), Octet2(ds[1], ds[2])])
  {
  }

  lemma LastByte(b: int)
    requires 0 <= b < 256
    ensures Octet1(Six1(b), Six2(b, 0)) == b
  {
    assert b % 4 * 16 / 16 == b % 4;
  }

  lemma GlueCutOne(bs: seq<Byte>)
    requires |bs| == 1
    ensures Glue8(Cut6(bs)) == Ok(bs)
  {
    var ds := Cut6(bs);
    GlueEnd(ds);
    LastByte(bs[0]);
    assert [bs[0]] == bs;
  }

  lemma GlueCutTwo(bs: seq<Byte>)
    requires |bs| == 2
    ensures Glue8(Cut6(bs)) == Ok(bs)
  {
    var ds := Cut6(bs);
    GlueEnd(ds);
    assert Octet1(ds[0], ds[1]) == bs[0] && Octet2(ds[1], ds[2]) == bs[1] by { Regroups(bs[0], bs[1], 0); }
    assert [bs[0], bs[1]] == bs;
  }

  lemma {:induction false} GlueCut(bs: seq<Byte>)
    ensures Glue8(Cut6(bs)) == Ok(bs)
  {
    if |bs| >= 3 {
      GlueCut(bs[3..]);
      GlueCutBlock(bs[0], bs[1], bs[2], bs[3..]);
      assert bs == [bs[0], bs[1], bs[2]] + bs[3..];
    } else if |bs| == 2 {
      GlueCutTwo(bs);
    } else if |bs| == 1 {
      GlueCutOne(bs);
    }
  }

  /** Exactly the encodings of non-empty byte strings decode, each to its own bytes. */
  lemma Decode64Exact(value: string, bs: seq<Byte>)
    ensures Decode64(value, None) == Ok(bs) <==> bs != [] && value == Encode64(bs)
  {
    SymbolsRead(Cut6(bs));
    GlueCut(bs);
  }

  /** With a required length `n`, exactly the encodings of `n` bytes decode: 16, 32 and 256 bytes take
      22, 43 and 342 characters. */
  lemma Decode64Length(value: string, n: nat)
    requires n > 0
    ensures Decode64(value, Some(n)).Ok? <==> exists bs: seq<Byte> :: |bs| == n && value == Encode64(bs)
    ensures Decode64(value, Some(n)).Ok? ==> |value| == (4 * n + 2) / 3
  {
    if Decode64(value, Some(n)).Ok? {
      var bs := Decode64(value, Some(n)).value;
      SymbolsRead(Cut6(bs));
      CutLength(bs);
      assert |bs| == n && value == Encode64(bs);
    }
    forall bs: seq<Byte> | |bs| == n && value == Encode64(bs) ensures Decode64(value, Some(n)).Ok? {
      Decode64Exact(value, bs);
    }
  }

  /** Encodings are made of symbols. */
  lemma {:induction false} SymbolsAlphabet(ds: seq<Six>)
    ensures forall c :: c in Symbols(ds) ==> SixOf(c).Some?
  {
    if ds != [] {
      SymbolsAlphabet(ds[1..]);
    }
  }

  lemma EncodedLength(bs: seq<Byte>)
    ensures |Encode64(bs)| == (4 * |bs| + 2) / 3
  {
    SymbolsRead(Cut6(bs));
    CutLength(bs);
  }

  // ----- canonical UUIDs and pairing tokens

  predicate IsLowerHex(c: char) { IsDigit(c) || 'a' <= c <= 'f' }

  predicate UuidChar(s: string, i: int)
    requires 0 <= i < |s|
  {
    if i == 8 || i == 13 || i == 18 || i == 23 then s[i] == '-' else IsLowerHex(s[i])
  }

  /** The text `str(UUID(_))` gives back unchanged for a version 4 UUID. */
  predicate IsUuid4(s: string) {
    && |s| == 36 && (forall i :: 0 <= i < 36 ==> UuidChar(s, i))
    && s[14] == '4' && (s[19] == '8' || s[19] == '9' || s[19] == 'a' || s[19] == 'b')
  }

  lemma UuidAlphabet(s: string)
    requires IsUuid4(s)
    ensures '.' !in s && '\n' !in s
  {
    forall i | 0 <= i < |s| ensures s[i] != '.' && s[i] != '\n' {
      assert UuidChar(s, i);
    }
  }

  /** The text handed to the installer. */
  function IssuePairingToken(tokenUuid: string, secret: seq<Byte>): string {
    tokenUuid + "." + Encode64(secret)
  }

  function ParsePairingToken(value: string): Result<(string, seq<Byte>)> {
    if Count(value, '.') != 1 then Err
    else
      CountNone(value, '.');
      var (tokenText, rest) := Cut(value, '.');
      CutRejoins(value, '.');
      var secretText := rest[1..];
      if !IsUuid4(tokenText) then Err
      else
        match Decode64(secretText, Some(32))
        case Err => Err
        case Ok(secret) => Ok((tokenText, secret))
  }

  lemma IssuedTokenParses(tokenUuid: string, secret: seq<Byte>)
    requires IsUuid4(tokenUuid) && |secret| == 32
    ensures ParsePairingToken(IssuePairingToken(tokenUuid, secret)) == Ok((tokenUuid, secret))
  {
    var encoded := Encode64(secret);
    SymbolsRead(Cut6(secret));
    Decode64Exact(encoded, secret);
    CountNone(encoded, '.');
    UuidAlphabet(tokenUuid);
    CutAt(tokenUuid, '.', encoded);
    CountAt(tokenUuid, '.', encoded);
    assert tokenUuid + "." + encoded == tokenUuid + ['.'] + encoded;
    assert (['.'] + encoded)[1..] == encoded;
  }

  lemma DecodedIsEncoding(value: string, length: Option<nat>, bs: seq<Byte>)
    requires Decode64(value, length) == Ok(bs)
    ensures value == Encode64(bs) && (length.Some? ==> |bs| == length.value)
  {
  }

  lemma ParsedTokenIsIssued(value: string)
    requires ParsePairingToken(value).Ok?
    ensures var (tokenUuid, secret) := ParsePairingToken(value).value;
            IsUuid4(tokenUuid) && |secret| == 32 && value == IssuePairingToken(tokenUuid, secret)
  {
    CountNone(value, '.');
    CutRejoins(value, '.');
    var (tokenText, rest) := Cut(value, '.');
    var (tokenUuid, secret) := ParsePairingToken(value).value;
    DecodedIsEncoding(rest[1..], Some(32), secret);
    assert value == tokenText + rest && rest == "." + rest[1..];
    assert tokenText + ("." + rest[1..]) == tokenText + "." + rest[1..];
  }

  /** A pairing token parses to a UUID and secret exactly when it is the token issued for them. */
  lemma PairingTokenExact(value: string, tokenUuid: string, secret: seq<Byte>)
    ensures ParsePairingToken(value) == Ok((tokenUuid, secret))
       <==> IsUuid4(tokenUuid) && |secret| == 32 && value == IssuePairingToken(tokenUuid, secret)
  {
    if IsUuid4(tokenUuid) && |secret| == 32 {
      IssuedTokenParses(tokenUuid, secret);
    }
    if ParsePairingToken(value).Ok? {
      ParsedTokenIsIssued(value);
    }
  }
}
