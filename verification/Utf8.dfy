/** UTF-8 as Python's strict codec reads and writes it. */
module Utf8 {
  import opened Wrappers

  type Byte = b: int | 0 <= b < 256

  function EncodeChar(c: char): (bs: seq<Byte>)
    ensures 1 <= |bs| <= 4
    ensures c as int >= 128 ==> forall i :: 0 <= i < |bs| ==> bs[i] >= 128
    ensures c as int < 128 ==> bs == [c as int]
  {
    var n := c as int;
    var n1 := n / 0x40;
    var n2 := n1 / 0x40;
    if n < 0x80 then [n]
    else if n < 0x800 then [0xC0 + n1, 0x80 + n % 0x40]
    else if n < 0x10000 then [0xE0 + n2, 0x80 + n1 % 0x40, 0x80 + n % 0x40]
    else [0xF0 + n2 / 0x40, 0x80 + n2 % 0x40, 0x80 + n1 % 0x40, 0x80 + n % 0x40]
  }

  function Encode(s: string): seq<Byte> {
    if s == "" then [] else EncodeChar(s[0]) + Encode(s[1..])
  }

  predicate IsScalar(n: int) { 0 <= n < 0xD800 || 0xE000 <= n < 0x11_0000 }

  predicate IsContinuation(b: Byte) { 0x80 <= b < 0xC0 }

  /** Six more bits, taken from a continuation byte. */
  function Shift(n: int, continuation: int): int { n * 0x40 + (continuation - 0x80) }

  function Scalar(n: int, least: int): Option<char> {
    if least <= n && IsScalar(n) then Some(n as char) else None
  }

  /** The first character of well-formed input; overlong forms and surrogates are malformed. */
  function DecodeHead(bs: seq<Byte>): (r: Option<char>) {
    if bs == [] then None
    else if bs[0] < 0x80 then Some(bs[0] as char)
    else if 0xC0 <= bs[0] < 0xE0 && |bs| >= 2 && IsContinuation(bs[1]) then
      Scalar(Shift(bs[0] - 0xC0, bs[1]), 0x80)
    else if 0xE0 <= bs[0] < 0xF0 && |bs| >= 3 && IsContinuation(bs[1]) && IsContinuation(bs[2]) then
      Scalar(Shift(Shift(bs[0] - 0xE0, bs[1]), bs[2]), 0x800)
    else if 0xF0 <= bs[0] && |bs| >= 4
            && IsContinuation(bs[1]) && IsContinuation(bs[2]) && IsContinuation(bs[3]) then
      Scalar(Shift(Shift(Shift(bs[0] - 0xF0, bs[1]), bs[2]), bs[3]), 0x10000)
    else None
  }

  function Decode(bs: seq<Byte>): (r: Option<string>)
    decreases |bs|
  {
    if bs == [] then Some("")
    else
      match DecodeHead(bs)
      case None => None
      case Some(c) =>
        EncodingOfHead(bs);
        match Decode(bs[|EncodeChar(c)|..])
        case None => None
        case Some(rest) => Some([c] + rest)
  }

  lemma HeadOfEncoding(c: char, rest: seq<Byte>)
    ensures DecodeHead(EncodeChar(c) + rest) == Some(c)
  {
    var e := EncodeChar(c);
    var bs := e + rest;
    assert forall i :: 0 <= i < |e| ==> bs[i] == e[i];
  }

  lemma ShiftInverts(n: int, b: int)
    requires 0x80 <= b < 0xC0
    ensures Shift(n, b) / 0x40 == n && 0x80 + Shift(n, b) % 0x40 == b
  {
  }

  lemma EncodingOfHead(bs: seq<Byte>)
    requires DecodeHead(bs).Some?
    ensures EncodeChar(DecodeHead(bs).value) <= bs
  {
    if 0xC0 <= bs[0] < 0xE0 {
      ShiftInverts(bs[0] - 0xC0, bs[1]);
    } else if 0xE0 <= bs[0] < 0xF0 {
      var n1 := Shift(bs[0] - 0xE0, bs[1]);
      ShiftInverts(bs[0] - 0xE0, bs[1]);
      ShiftInverts(n1, bs[2]);
    } else if 0xF0 <= bs[0] {
      var n2 := Shift(bs[0] - 0xF0, bs[1]);
      var n1 := Shift(n2, bs[2]);
      ShiftInverts(bs[0] - 0xF0, bs[1]);
      ShiftInverts(n2, bs[2]);
      ShiftInverts(n1, bs[3]);
    }
  }

  lemma {:induction false} DecodeEncode(s: string)
    ensures Decode(Encode(s)) == Some(s)
  {
    if s != "" {
      HeadOfEncoding(s[0], Encode(s[1..]));
      DecodeEncode(s[1..]);
      assert Encode(s)[|EncodeChar(s[0])|..] == Encode(s[1..]);
      assert s == [s[0]] + s[1..];
    }
  }

  lemma {:induction false} EncodeDecode(bs: seq<Byte>)
    requires Decode(bs).Some?
    ensures Encode(Decode(bs).value) == bs
    decreases |bs|
  {
    if bs != [] {
      var c := DecodeHead(bs).value;
      EncodingOfHead(bs);
      EncodeDecode(bs[|EncodeChar(c)|..]);
      var s := Decode(bs).value;
      assert s[1..] == Decode(bs[|EncodeChar(c)|..]).value;
    }
  }

  lemma EncodeInjective(a: string, b: string)
    requires Encode(a) == Encode(b)
    ensures a == b
  {
    DecodeEncode(a);
    DecodeEncode(b);
  }

  lemma {:induction false} EncodeConcat(a: string, b: string)
    ensures Encode(a + b) == Encode(a) + Encode(b)
  {
    if a == "" {
      assert a + b == b;
    } else {
      EncodeConcat(a[1..], b);
      assert (a + b)[1..] == a[1..] + b;
    }
  }
}
