/** Canonical version 4 UUIDs (section 4 of RFC 9562): which texts `str(UUID(text))` gives back
    unchanged, with version 4 and the variant the library takes for granted. */
module CanonicalUuids {
  import opened Numerals
  import opened Utf8
  import opened Base64Url

  function HexPair(b: Byte): string { [HexDigit(b / 16), HexDigit(b % 16)] }

  function HexPairs(bs: seq<Byte>): string { if bs == [] then "" else HexPair(bs[0]) + HexPairs(bs[1..]) }

  /** The text of 16 bytes, in groups of 4, 2, 2, 2 and 6. */
  function UuidText(bs: seq<Byte>): string
    requires |bs| == 16
  {
    HexPairs(bs[..4]) + "-" + HexPairs(bs[4..6]) + "-" + HexPairs(bs[6..8]) + "-" + HexPairs(bs[8..10]) + "-"
    + HexPairs(bs[10..])
  }

  /** Version 4, and the variant of the RFC. */
  predicate IsVersion4(bs: seq<Byte>) { |bs| == 16 && bs[6] / 16 == 4 && bs[8] / 64 == 2 }

  lemma {:induction false} HexPairsAre(bs: seq<Byte>)
    ensures |HexPairs(bs)| == 2 * |bs|
    ensures forall i :: 0 <= i < |bs| ==>
              HexPairs(bs)[2 * i] == HexDigit(bs[i] / 16) && HexPairs(bs)[2 * i + 1] == HexDigit(bs[i] % 16)
  {
    if bs != [] {
      HexPairsAre(bs[1..]);
    }
  }

  /** Where the digits of byte `k` stand. */
  function At(k: int): int { 2 * k + (if k < 4 then 0 else if k < 6 then 1 else if k < 8 then 2 else if k < 10 then 3 else 4) }

  predicate IsDash(i: int) { i == 8 || i == 13 || i == 18 || i == 23 }

  lemma TextAt(bs: seq<Byte>)
    requires |bs| == 16
    ensures |UuidText(bs)| == 36
    ensures forall k :: 0 <= k < 16 ==>
              UuidText(bs)[At(k)] == HexDigit(bs[k] / 16) && UuidText(bs)[At(k) + 1] == HexDigit(bs[k] % 16)
    ensures forall i :: 0 <= i < 36 && IsDash(i) ==> UuidText(bs)[i] == '-'
  {
    HexPairsAre(bs[..4]);
    HexPairsAre(bs[4..6]);
    HexPairsAre(bs[6..8]);
    HexPairsAre(bs[8..10]);
    HexPairsAre(bs[10..]);
  }

  lemma LowerHexIsDigit(c: char)
    ensures IsLowerHex(c) <==> HexValue(c).Some? && HexDigit(HexValue(c).value) == c
  {
  }

  lemma Placed(i: int) returns (k: int)
    requires 0 <= i < 36 && !IsDash(i)
    ensures 0 <= k < 16 && (i == At(k) || i == At(k) + 1)
  {
    k := if i < 8 then i / 2 else if i < 13 then (i - 1) / 2 else if i < 18 then (i - 2) / 2
         else if i < 23 then (i - 3) / 2 else (i - 4) / 2;
  }

  lemma ByteOf(s: string, k: int)
    requires |s| == 36 && (forall i :: 0 <= i < 36 ==> UuidChar(s, i)) && 0 <= k < 16
    ensures IsLowerHex(s[At(k)]) && IsLowerHex(s[At(k) + 1])
  {
    assert UuidChar(s, At(k)) && UuidChar(s, At(k) + 1);
  }

  function BytesOf(s: string): seq<Byte>
    requires |s| == 36 && forall k :: 0 <= k < 16 ==> HexValue(s[At(k)]).Some? && HexValue(s[At(k) + 1]).Some?
  {
    seq(16, k requires 0 <= k < 16 => HexValue(s[At(k)]).value * 16 + HexValue(s[At(k) + 1]).value)
  }

  lemma DigitsAt(s: string, k: int)
    requires |s| == 36 && (forall i :: 0 <= i < 36 ==> UuidChar(s, i)) && 0 <= k < 16
    ensures HexValue(s[At(k)]).Some? && HexDigit(HexValue(s[At(k)]).value) == s[At(k)]
    ensures HexValue(s[At(k) + 1]).Some? && HexDigit(HexValue(s[At(k) + 1]).value) == s[At(k) + 1]
  {
    ByteOf(s, k);
    LowerHexIsDigit(s[At(k)]);
    LowerHexIsDigit(s[At(k) + 1]);
  }

  lemma Halves(high: int, low: int)
    requires 0 <= high < 16 && 0 <= low < 16
    ensures (high * 16 + low) / 16 == high && (high * 16 + low) % 16 == low
  {
  }

  lemma ByteSpells(s: string, bs: seq<Byte>, k: int)
    requires |s| == 36 && (forall i :: 0 <= i < 36 ==> UuidChar(s, i)) && 0 <= k < 16
    requires HexValue(s[At(k)]).Some? && HexValue(s[At(k) + 1]).Some? && |bs| == 16
    requires bs[k] == HexValue(s[At(k)]).value * 16 + HexValue(s[At(k) + 1]).value
    ensures HexDigit(bs[k] / 16) == s[At(k)] && HexDigit(bs[k] % 16) == s[At(k) + 1]
  {
    DigitsAt(s, k);
    Halves(HexValue(s[At(k)]).value, HexValue(s[At(k) + 1]).value);
  }

  lemma TextOfBytes(s: string) returns (bs: seq<Byte>)
    requires |s| == 36 && forall i :: 0 <= i < 36 ==> UuidChar(s, i)
    ensures |bs| == 16 && s == UuidText(bs)
  {
    forall k | 0 <= k < 16 ensures HexValue(s[At(k)]).Some? && HexValue(s[At(k) + 1]).Some? {
      DigitsAt(s, k);
    }
    bs := BytesOf(s);
    forall k | 0 <= k < 16
      ensures HexDigit(bs[k] / 16) == s[At(k)] && HexDigit(bs[k] % 16) == s[At(k) + 1]
    {
      ByteSpells(s, bs, k);
    }
    TextSpelled(s, bs);
  }

  lemma TextSpelled(s: string, bs: seq<Byte>)
    requires |s| == 36 && (forall i :: 0 <= i < 36 ==> UuidChar(s, i)) && |bs| == 16
    requires forall k :: 0 <= k < 16 ==> HexDigit(bs[k] / 16) == s[At(k)] && HexDigit(bs[k] % 16) == s[At(k) + 1]
    ensures s == UuidText(bs)
  {
    TextAt(bs);
    forall i | 0 <= i < 36 ensures s[i] == UuidText(bs)[i] {
      if IsDash(i) {
        assert UuidChar(s, i);
      } else {
        var k := Placed(i);
      }
    }
  }

  lemma TextIsCanonical(bs: seq<Byte>)
    requires |bs| == 16
    ensures forall i :: 0 <= i < 36 ==> |UuidText(bs)| == 36 && UuidChar(UuidText(bs), i)
  {
    TextAt(bs);
    forall i | 0 <= i < 36 ensures UuidChar(UuidText(bs), i) {
      if !IsDash(i) {
        var k := Placed(i);
        LowerHexIsDigit(HexDigit(bs[k] / 16));
        LowerHexIsDigit(HexDigit(bs[k] % 16));
      }
    }
  }

  lemma VersionDigits(bs: seq<Byte>)
    requires |bs| == 16
    ensures IsVersion4(bs) <==> HexDigit(bs[6] / 16) == '4' && HexDigit(bs[8] / 16) in "89ab"
  {
  }

  /** The accepted texts are those of version 4 UUIDs. */
  lemma Uuid4Exactly(s: string)
    ensures IsUuid4(s) <==> exists bs: seq<Byte> :: IsVersion4(bs) && s == UuidText(bs)
  {
    if IsUuid4(s) {
      var bs := TextOfBytes(s);
      TextAt(bs);
      VersionDigits(bs);
      assert At(6) == 14 && At(8) == 19;
      assert IsVersion4(bs);
    }
    if bs: seq<Byte> :| IsVersion4(bs) && s == UuidText(bs) {
      TextAt(bs);
      TextIsCanonical(bs);
      VersionDigits(bs);
      assert At(6) == 14 && At(8) == 19;
    }
  }
}
