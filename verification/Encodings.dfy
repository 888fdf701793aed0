/** The codes themselves: digits, base64url (table 2 of RFC 4648) and UTF-8 (section 3 of RFC 3629). */
module Encodings {
  import opened Wrappers
  import opened Numerals
  import opened Utf8
  import opened Base64Url

  lemma DigitsExactly(d: int)
    requires 0 <= d < 16
    ensures HexDigit(d) == "0123456789abcdef"[d] && (d < 10 ==> DigitChar(d) == "0123456789"[d])
    ensures HexValue(HexDigit(d)) == Some(d)
  {
  }

  /** The number a text of decimal digits denotes. */
  function Denoted(s: string): nat {
    if s == "" then 0
    else Denoted(s[..|s| - 1]) * 10 + (if '0' <= s[|s| - 1] <= '9' then s[|s| - 1] as int - 48 else 0)
  }

  /** A number is printed in decimal digits, without leading zeros. */
  lemma {:induction false} PrintedDenotes(n: nat)
    ensures Denoted(PrintNat(n)) == n && PrintNat(n) != "" && (PrintNat(n)[0] == '0' ==> PrintNat(n) == "0")
    ensures forall i :: 0 <= i < |PrintNat(n)| ==> '0' <= PrintNat(n)[i] <= '9'
  {
    var s := PrintNat(n);
    if n < 10 {
      assert s[..|s| - 1] == "";
    } else {
      PrintedDenotes(n / 10);
      assert s[..|s| - 1] == PrintNat(n / 10);
    }
  }

  const ALPHABET := "ABCDEFGHIJKLMNOP" + "QRSTUVWXYZabcdef" + "ghijklmnopqrstuv" + "wxyz0123456789-_"

  lemma SymbolExactly(d: Six)
    ensures |ALPHABET| == 64 && Symbol(d) == ALPHABET[d]
  {
    if d < 16 {
      assert Symbol(d) == "ABCDEFGHIJKLMNOP"[d];
    } else if d < 32 {
      assert Symbol(d) == "QRSTUVWXYZabcdef"[d - 16];
    } else if d < 48 {
      assert Symbol(d) == "ghijklmnopqrstuv"[d - 32];
    } else {
      assert Symbol(d) == "wxyz0123456789-_"[d - 48];
    }
  }

  /** The number with these digits to the base. */
  function Positional(digits: seq<int>, base: int): int {
    if digits == [] then 0 else Positional(digits[..|digits| - 1], base) * base + digits[|digits| - 1]
  }

  lemma Places(a: int, b: int, c: int, d: int, base: int)
    ensures Positional([a], base) == a
    ensures Positional([a, b], base) == a * base + b
    ensures Positional([a, b, c], base) == (a * base + b) * base + c
    ensures Positional([a, b, c, d], base) == ((a * base + b) * base + c) * base + d
  {
    assert [a][..0] == [] && [a, b][..1] == [a] && [a, b, c][..2] == [a, b] && [a, b, c, d][..3] == [a, b, c];
  }

  /** Three bytes and four groups of six bits are the same number; what is left over is filled with
      zero bits. */
  lemma GroupsExactly(bs: seq<Byte>)
    ensures bs == [] ==> Cut6(bs) == []
    ensures |bs| == 1 ==> |Cut6(bs)| == 2 && Positional(Cut6(bs), 64) == Positional(bs, 256) * 16
    ensures |bs| == 2 ==> |Cut6(bs)| == 3 && Positional(Cut6(bs), 64) == Positional(bs, 256) * 4
    ensures |bs| >= 3 ==>
              && |Cut6(bs)| >= 4 && Cut6(bs)[4..] == Cut6(bs[3..])
              && Positional(Cut6(bs)[..4], 64) == Positional(bs[..3], 256)
  {
    if |bs| == 1 {
      OneByteGrouped(bs);
    } else if |bs| == 2 {
      TwoBytesGrouped(bs);
    } else if |bs| >= 3 {
      ThreeBytesGrouped(bs);
    }
  }

  lemma OneByteGrouped(bs: seq<Byte>)
    requires |bs| == 1
    ensures |Cut6(bs)| == 2 && Positional(Cut6(bs), 64) == Positional(bs, 256) * 16
  {
    var x: int := bs[0];
    Places(x / 4, x % 4 * 16, 0, 0, 64);
    Places(x, 0, 0, 0, 256);
    assert Cut6(bs) == [x / 4, x % 4 * 16] && bs == [x];
  }

  lemma TwoBytesGrouped(bs: seq<Byte>)
    requires |bs| == 2
    ensures |Cut6(bs)| == 3 && Positional(Cut6(bs), 64) == Positional(bs, 256) * 4
  {
    var x: int, y: int := bs[0], bs[1];
    Places(x / 4, x % 4 * 16 + y / 16, y % 16 * 4, 0, 64);
    Places(x, y, 0, 0, 256);
    TwoBytesCut(bs);
    LastGroup(y);
    Regrouped(x / 4, x % 4, y / 16, y % 16);
    assert bs == [x, y];
  }

  lemma TwoBytesCut(bs: seq<Byte>)
    requires |bs| == 2
    ensures Cut6(bs) == [Six1(bs[0]), Six2(bs[0], bs[1]), Six3(bs[1], 0)]
  {
  }

  lemma LastGroup(y: int)
    requires 0 <= y < 256
    ensures Six3(y, 0) == y % 16 * 4
  {
  }

  lemma Regrouped(a: int, b: int, c: int, d: int)
    ensures (a * 64 + (b * 16 + c)) * 64 + d * 4 == ((4 * a + b) * 256 + (16 * c + d)) * 4
  {
  }

  lemma ThreeBytesGrouped(bs: seq<Byte>)
    requires |bs| >= 3
    ensures |Cut6(bs)| >= 4 && Cut6(bs)[4..] == Cut6(bs[3..])
    ensures Positional(Cut6(bs)[..4], 64) == Positional(bs[..3], 256)
  {
    var x: int, y: int, z: int := bs[0], bs[1], bs[2];
    Places(x / 4, x % 4 * 16 + y / 16, y % 16 * 4 + z / 64, z % 64, 64);
    Places(x, y, z, 0, 256);
    assert Cut6(bs)[..4] == [x / 4, x % 4 * 16 + y / 16, y % 16 * 4 + z / 64, z % 64] && bs[..3] == [x, y, z];
  }

  /** The bits of a code point in the leading byte and the continuation bytes, in the shortest form. */
  lemma Utf8Exactly(c: char)
    ensures var n, bs := c as int, EncodeChar(c);
            && (n < 0x80 ==> bs == [n])
            && (0x80 <= n < 0x800 ==>
                  |bs| == 2 && 0xC0 <= bs[0] < 0xE0 && IsTail(bs[1])
                  && Positional([bs[0] as int - 0xC0, bs[1] as int - 0x80], 64) == n)
            && (0x800 <= n < 0x1_0000 ==>
                  && |bs| == 3 && 0xE0 <= bs[0] < 0xF0 && IsTail(bs[1]) && IsTail(bs[2])
                  && Positional([bs[0] as int - 0xE0, bs[1] as int - 0x80, bs[2] as int - 0x80], 64) == n)
            && (0x1_0000 <= n ==>
                  && |bs| == 4 && 0xF0 <= bs[0] < 0xF8 && IsTail(bs[1]) && IsTail(bs[2]) && IsTail(bs[3])
                  && Positional([bs[0] as int - 0xF0, bs[1] as int - 0x80, bs[2] as int - 0x80, bs[3] as int - 0x80], 64)
                     == n)
  {
    var n, bs := c as int, EncodeChar(c);
    if 0x80 <= n < 0x800 {
      Places(bs[0] as int - 0xC0, bs[1] as int - 0x80, 0, 0, 64);
    } else if 0x800 <= n < 0x1_0000 {
      Places(bs[0] as int - 0xE0, bs[1] as int - 0x80, bs[2] as int - 0x80, 0, 64);
    } else if 0x1_0000 <= n {
      Places(bs[0] as int - 0xF0, bs[1] as int - 0x80, bs[2] as int - 0x80, bs[3] as int - 0x80, 64);
    }
  }

  predicate IsTail(b: Byte) { 0x80 <= b < 0xC0 }

  /** Bytes are read as text exactly when they are the encoding of one. */
  lemma DecodesExactly(bs: seq<Byte>, s: string)
    ensures Decode(bs) == Some(s) <==> bs == Encode(s)
  {
    DecodeEncode(s);
    if Decode(bs).Some? {
      EncodeDecode(bs);
    }
  }
}
