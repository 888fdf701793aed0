/** Which of the texts that read as a value is printed: `json.dumps` without white space and with
    `ensure_ascii=False` (`backend/app/policy_contract.py`) escapes only what it must, each escape
    in its short form, and otherwise with lower-case digits. */
module ShortestJson {
  import opened Wrappers
  import opened Numerals
  import opened Utf8
  import opened CanonicalJson

  /** Equal but for hexadecimal letters, which `p` has in lower case. */
  ghost predicate SameUpToCase(t: string, p: string) {
    && |t| == |p|
    && forall i :: 0 <= i < |t| ==> t[i] == p[i] || ('A' <= t[i] <= 'F' && p[i] as int == t[i] as int + 32)
  }

  /** `t` is no shorter than `p`, in characters and in bytes, and the same up to case if it is as short. */
  ghost predicate Covers(t: string, p: string) {
    && |p| <= |t| && |Encode(p)| <= |Encode(t)|
    && (|Encode(p)| == |Encode(t)| ==> SameUpToCase(t, p))
  }

  lemma CoversAppend(t: string, p: string, u: string, q: string)
    requires Covers(t, p) && Covers(u, q)
    ensures Covers(t + u, p + q)
  {
    EncodeConcat(t, u);
    EncodeConcat(p, q);
  }

  lemma {:induction false} EncodeAscii(s: string)
    requires forall i :: 0 <= i < |s| ==> s[i] as int < 128
    ensures |Encode(s)| == |s|
  {
    if s != "" {
      EncodeAscii(s[1..]);
    }
  }

  /** What a reader that leaves `rest` has taken from `s` covers `p`. */
  ghost predicate Takes(s: string, rest: string, p: string) {
    exists t :: s == t + rest && Covers(t, p)
  }

  lemma TakesSame(t: string, rest: string)
    ensures Takes(t + rest, rest, t)
  {
    assert Covers(t, t);
  }

  lemma TakesAppend(s: string, middle: string, rest: string, p: string, q: string)
    requires Takes(s, middle, p) && Takes(middle, rest, q)
    ensures Takes(s, rest, p + q)
  {
    var t :| s == t + middle && Covers(t, p);
    var u :| middle == u + rest && Covers(u, q);
    CoversAppend(t, p, u, q);
    Rejoin(t, u, rest);
  }

  lemma TakesOne(s: string, c: char)
    requires s != "" && s[0] == c
    ensures Takes(s, s[1..], [c])
  {
    TakesSame([c], s[1..]);
    assert s == [c] + s[1..];
  }

  // ----- strings

  lemma HexDigitRead(c: char)
    requires HexValue(c).Some?
    ensures SameUpToCase([c], [HexDigit(HexValue(c).value)])
  {
  }

  lemma SixCovers(e: string)
    requires |e| >= 5 && e[0] == 'u' && Hex4(e[1..]).Some? && 0 <= Hex4(e[1..]).value < 0x20
    requires |Escape(Hex4(e[1..]).value as char)| == 6
    ensures Covers("\\" + e[..5], Escape(Hex4(e[1..]).value as char))
  {
    var s, n := e[1..], Hex4(e[1..]).value;
    var t, p := "\\" + e[..5], Escape(n as char);
    var a, b, c, d := HexValue(s[0]).value, HexValue(s[1]).value, HexValue(s[2]).value, HexValue(s[3]).value;
    assert a == 0 && b == 0 && n / 16 == c && n % 16 == d;
    HexDigitRead(s[2]);
    HexDigitRead(s[3]);
    assert p == ['\\', 'u', '0', '0', HexDigit(c), HexDigit(d)];
    assert t == ['\\', 'u', s[0], s[1], s[2], s[3]];
    EncodeAscii(t);
    EncodeAscii(p);
  }

  lemma LongCovers(t: string, p: string)
    requires |p| < |t| && |Encode(p)| < |Encode(t)|
    ensures Covers(t, p)
  {
  }

  lemma EncodeOne(c: char)
    ensures Encode([c]) == EncodeChar(c)
  {
    assert [c][1..] == "";
  }

  lemma EscapeSize(c: char)
    ensures |Encode(Escape(c))| <= 6 && (|Escape(c)| != 6 ==> |Escape(c)| <= 2 && |Encode(Escape(c))| <= 4)
    ensures |Escape(c)| == 1 ==> Escape(c) == [c]
    ensures |Escape(c)| == 6 ==> c as int < 0x20
  {
    if c as int < 0x80 {
      EncodeAscii(Escape(c));
    } else {
      EncodeOne(c);
    }
  }

  lemma EscapeCovers(e: string)
    requires ParseEscape(e).Some?
    ensures var (c, n) := ParseEscape(e).value; Covers("\\" + e[..n], Escape(c))
  {
    var (c, n) := ParseEscape(e).value;
    var t := "\\" + e[..n];
    EscapeSize(c);
    if e[0] == 'u' {
      assert |t| == 6;
      forall i | 0 <= i < |t| ensures t[i] as int < 128 {
        if i >= 2 {
          assert t[i] == e[1..][i - 2] && HexValue(e[1..][i - 2]).Some?;
        }
      }
      EncodeAscii(t);
      if |Escape(c)| == 6 {
        SixCovers(e);
      } else {
        LongCovers(t, Escape(c));
      }
    } else {
      assert t == ['\\', e[0]];
      EncodeAscii(t);
      if e[0] == '/' {
        EncodeAscii(Escape(c));
        LongCovers(t, Escape(c));
      } else {
        assert Escape(c) == t;
      }
    }
  }

  lemma {:induction false} CharsCover(s: string)
    requires ParseChars(s).Done?
    ensures Takes(s, ParseChars(s).rest, EscapeAll(ParseChars(s).value) + "\"")
    decreases |s|, 0
  {
    if s[0] == '"' {
      TakesOne(s, '"');
      assert EscapeAll("") + "\"" == "\"";
    } else if s[0] == '\\' {
      var (c, n) := ParseEscape(s[1..]).value;
      var t := "\\" + s[1..][..n];
      EscapeCovers(s[1..]);
      assert s == t + s[1 + n..];
      CharsStep(s, s[1 + n..], c);
    } else {
      EscapeSize(s[0]);
      TakesOne(s, s[0]);
      CharsStep(s, s[1..], s[0]);
    }
  }

  lemma {:induction false} CharsStep(s: string, middle: string, c: char)
    requires |middle| < |s| && ParseChars(middle).Done? && ParseChars(s) == Prepend(c, ParseChars(middle))
    requires Takes(s, middle, Escape(c))
    ensures Takes(s, ParseChars(s).rest, EscapeAll(ParseChars(s).value) + "\"")
    decreases |middle|, 1
  {
    var t, rest := ParseChars(middle).value, ParseChars(middle).rest;
    CharsCover(middle);
    TakesAppend(s, middle, rest, Escape(c), EscapeAll(t) + "\"");
    assert ([c] + t)[1..] == t;
    assert Escape(c) + (EscapeAll(t) + "\"") == EscapeAll([c] + t) + "\"";
  }

  lemma StringCovers(s: string)
    requires s != "" && s[0] == '"' && ParseChars(s[1..]).Done?
    ensures Takes(s, ParseChars(s[1..]).rest, PrintString(ParseChars(s[1..]).value))
  {
    var t := ParseChars(s[1..]).value;
    TakesOne(s, '"');
    CharsCover(s[1..]);
    TakesAppend(s, s[1..], ParseChars(s[1..]).rest, "\"", EscapeAll(t) + "\"");
    assert "\"" + (EscapeAll(t) + "\"") == PrintString(t);
  }

  // ----- numbers

  lemma {:induction false} DigitsText(s: string, acc: nat)
    requires acc > 0
    ensures ParseDigits(s, acc).value > 0
    ensures PrintNat(acc) + s == PrintNat(ParseDigits(s, acc).value) + ParseDigits(s, acc).rest
    decreases |s|
  {
    if s != "" && IsDigit(s[0]) {
      var d := s[0] as int - '0' as int;
      DigitsText(s[1..], acc * 10 + d);
      assert DigitChar(d) == s[0] && (acc * 10 + d) / 10 == acc && (acc * 10 + d) % 10 == d;
      assert PrintNat(acc * 10 + d) + s[1..] == PrintNat(acc) + s;
    }
  }

  lemma NatText(s: string)
    requires ParseNat(s).Done?
    ensures s == PrintNat(ParseNat(s).value) + ParseNat(s).rest
  {
    var d := s[0] as int - '0' as int;
    assert DigitChar(d) == s[0] && PrintNat(d) == [s[0]];
    if d > 0 {
      DigitsText(s[1..], d);
    }
    assert s == [s[0]] + s[1..];
  }

  lemma NumberCovers(s: string)
    requires s != "" && ParseValue(s).Done? && ParseValue(s).value.Int?
    ensures Takes(s, ParseValue(s).rest, PrintInt(ParseValue(s).value.n))
  {
    var rest := ParseValue(s).rest;
    if s[0] == '-' {
      NatText(s[1..]);
      assert s == ("-" + PrintNat(ParseNat(s[1..]).value)) + rest;
      NegativeCovers(s, rest, ParseNat(s[1..]).value);
    } else {
      NatText(s);
      TakesSame(PrintNat(ParseNat(s).value), rest);
    }
  }

  lemma NegativeCovers(s: string, rest: string, n: nat)
    requires s == ("-" + PrintNat(n)) + rest
    ensures Takes(s, rest, PrintInt(-(n as int)))
  {
    if n > 0 {
      TakesSame("-" + PrintNat(n), rest);
    } else {
      EncodeAscii("-0");
      EncodeAscii("0");
      LongCovers("-0", "0");
      assert s == "-0" + rest;
    }
  }

  // ----- values

  lemma WordCovers(s: string, word: string)
    requires word <= s
    ensures Takes(s, s[|word|..], word)
  {
    TakesSame(word, s[|word|..]);
    assert s == word + s[|word|..];
  }

  lemma {:induction false} ValueCovers(s: string)
    requires ParseValue(s).Done?
    ensures Takes(s, ParseValue(s).rest, Print(ParseValue(s).value))
    decreases |s|, 0
  {
    var v := ParseValue(s).value;
    match v {
      case Null => WordCovers(s, "null");
      case Bool(b) => WordCovers(s, if b then "true" else "false");
      case Int(_) => NumberCovers(s);
      case Str(_) => StringCovers(s);
      case List(items) =>
        if items != [] { ItemsCover(s[1..]); }
        ListCovers(s);
      case Dict(entries) =>
        if entries != [] { EntriesCover(s[1..]); }
        DictCovers(s);
    }
  }

  lemma ListRead(s: string)
    requires s != "" && ParseValue(s).Done? && ParseValue(s).value.List?
    ensures var items, rest := ParseValue(s).value.items, ParseValue(s).rest;
            if items == [] then "[]" <= s && rest == s[2..]
            else s[0] == '[' && ParseItems(s[1..]) == Done(items, rest)
  {
    ItemsNotEmpty(s[1..]);
  }

  lemma DictRead(s: string)
    requires s != "" && ParseValue(s).Done? && ParseValue(s).value.Dict?
    ensures var entries, rest := ParseValue(s).value.entries, ParseValue(s).rest;
            if entries == [] then "{}" <= s && rest == s[2..]
            else s[0] == '{' && ParseEntries(s[1..]) == Done(entries, rest)
  {
    ItemsNotEmpty(s[1..]);
  }

  lemma ListCovers(s: string)
    requires s != "" && ParseValue(s).Done? && ParseValue(s).value.List?
    requires ParseValue(s).value.items != [] ==>
               ParseItems(s[1..]).Done? && Takes(s[1..], ParseItems(s[1..]).rest, PrintItems(ParseItems(s[1..]).value) + "]")
    ensures Takes(s, ParseValue(s).rest, Print(ParseValue(s).value))
  {
    var items := ParseValue(s).value.items;
    ListRead(s);
    if items == [] {
      WordCovers(s, "[]");
    } else {
      PrefixCovers(s, '[', ParseValue(s).rest, PrintItems(items) + "]");
      assert "[" + (PrintItems(items) + "]") == Print(List(items));
    }
  }

  lemma PrefixCovers(s: string, c: char, rest: string, p: string)
    requires s != "" && s[0] == c && Takes(s[1..], rest, p)
    ensures Takes(s, rest, [c] + p)
  {
    TakesOne(s, c);
    TakesAppend(s, s[1..], rest, [c], p);
  }

  lemma DictCovers(s: string)
    requires s != "" && ParseValue(s).Done? && ParseValue(s).value.Dict?
    requires ParseValue(s).value.entries != [] ==>
               ParseEntries(s[1..]).Done?
               && Takes(s[1..], ParseEntries(s[1..]).rest, PrintEntries(ParseEntries(s[1..]).value) + "}")
    ensures Takes(s, ParseValue(s).rest, Print(ParseValue(s).value))
  {
    var entries := ParseValue(s).value.entries;
    DictRead(s);
    if entries == [] {
      WordCovers(s, "{}");
    } else {
      PrefixCovers(s, '{', ParseValue(s).rest, PrintEntries(entries) + "}");
      assert "{" + (PrintEntries(entries) + "}") == Print(Dict(entries));
    }
  }

  lemma {:induction false} ItemsCover(s: string)
    requires ParseItems(s).Done?
    ensures Takes(s, ParseItems(s).rest, PrintItems(ParseItems(s).value) + "]")
    decreases |s|, 1
  {
    var v, t := ParseValue(s).value, ParseValue(s).rest;
    ValueCovers(s);
    TakesOne(t, t[0]);
    if t[0] == ']' {
      TakesAppend(s, t, t[1..], Print(v), "]");
    } else {
      var vs, rest := ParseItems(t[1..]).value, ParseItems(t[1..]).rest;
      ItemsCover(t[1..]);
      TakesAppend(s, t, t[1..], Print(v), ",");
      TakesAppend(s, t[1..], rest, Print(v) + ",", PrintItems(vs) + "]");
      ItemsNotEmpty(t[1..]);
      assert ([v] + vs)[1..] == vs;
      Rejoin(Print(v) + ",", PrintItems(vs), "]");
    }
  }

  lemma ItemsNotEmpty(s: string)
    ensures ParseItems(s).Done? ==> ParseItems(s).value != []
    ensures ParseEntries(s).Done? ==> ParseEntries(s).value != []
  {
  }

  lemma Rejoin(a: string, b: string, c: string)
    ensures a + (b + c) == a + b + c
  {
  }

  lemma {:induction false} EntryCovers(s: string)
    requires ParseEntry(s).Done?
    ensures Takes(s, ParseEntry(s).rest, PrintEntry(ParseEntry(s).value))
    decreases |s|, 1
  {
    var key, t := ParseChars(s[1..]).value, ParseChars(s[1..]).rest;
    var v, rest := ParseValue(t[1..]).value, ParseValue(t[1..]).rest;
    StringCovers(s);
    TakesOne(t, ':');
    ValueCovers(t[1..]);
    TakesAppend(s, t, t[1..], PrintString(key), ":");
    TakesAppend(s, t[1..], rest, PrintString(key) + ":", Print(v));
  }

  lemma {:induction false} EntriesCover(s: string)
    requires ParseEntries(s).Done?
    ensures Takes(s, ParseEntries(s).rest, PrintEntries(ParseEntries(s).value) + "}")
    decreases |s|, 2
  {
    var e, t := ParseEntry(s).value, ParseEntry(s).rest;
    EntryCovers(s);
    TakesOne(t, t[0]);
    if t[0] == '}' {
      TakesAppend(s, t, t[1..], PrintEntry(e), "}");
    } else {
      var es, rest := ParseEntries(t[1..]).value, ParseEntries(t[1..]).rest;
      EntriesCover(t[1..]);
      TakesAppend(s, t, t[1..], PrintEntry(e), ",");
      TakesAppend(s, t[1..], rest, PrintEntry(e) + ",", PrintEntries(es) + "}");
      ItemsNotEmpty(t[1..]);
      assert ([e] + es)[1..] == es;
      Rejoin(PrintEntry(e) + ",", PrintEntries(es), "}");
    }
  }

  /** The printed text is the shortest that reads as the value, in characters and in bytes, and the
      only one of its size up to the case of hexadecimal letters, which it has in lower case. */
  lemma PrintedIsShortest(v: Value, s: string)
    requires ParseValue(s) == Done(v, "")
    ensures Covers(s, Print(v))
  {
    ValueCovers(s);
    var t :| s == t + "" && Covers(t, Print(v));
    assert t + "" == t;
  }

  /** So are the canonical bytes among all bytes that read as the normal form. */
  lemma CanonicalIsShortest(nfc: string -> string, v: Value, bs: seq<Byte>)
    requires Encodable(v) && Loads(bs) == Some(Normalize(nfc, v))
    ensures var code := CanonicalBytes(nfc, v).value;
            && |code| <= |bs|
            && (|code| == |bs| ==> exists s :: bs == Encode(s) && SameUpToCase(s, Print(Normalize(nfc, v))))
  {
    var s := Decode(bs).value;
    EncodeDecode(bs);
    PrintedIsShortest(Normalize(nfc, v), s);
  }
}
