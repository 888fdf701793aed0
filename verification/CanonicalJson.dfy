/** The canonical JSON code every hash and signature is taken over
    (`backend/app/policy_contract.py`), and an RFC 8259 reader for it.

    `nfc` stands for `unicodedata.normalize("NFC", _)`. */
module CanonicalJson {
  import opened Wrappers
  import opened Numerals
  import opened Ordering
  import opened Utf8

  /** A Python value. `Dict` lists the assignments that built the dictionary, in order;
      `Unsupported` is anything the encoder refuses (floats, tuples, non-string keys). */
  datatype Value =
    | Null
    | Bool(b: bool)
    | Int(n: int)
    | Str(s: string)
    | List(items: seq<Value>)
    | Dict(entries: seq<Entry>)
    | Unsupported

  datatype Entry = Entry(key: string, value: Value)

  predicate Encodable(v: Value) {
    match v
    case List(items) => forall i :: 0 <= i < |items| ==> Encodable(items[i])
    case Dict(entries) => forall i :: 0 <= i < |entries| ==> Encodable(entries[i].value)
    case Unsupported => false
    case _ => true
  }

  // ----- normalisation

  /** The normal form: strings in NFC, dictionaries as ascending entry lists, since
      `sort_keys` makes the order of assignment invisible. */
  function Normalize(nfc: string -> string, v: Value): Value
    decreases v, 0
  {
    match v
    case Str(s) => Str(nfc(s))
    case List(items) => List(NormalizeItems(nfc, items))
    case Dict(entries) => Dict(NormalizeEntries(nfc, entries))
    case _ => v
  }

  function NormalizeItems(nfc: string -> string, items: seq<Value>): seq<Value>
    decreases items, 1
  {
    if items == [] then []
    else [Normalize(nfc, items[0])] + NormalizeItems(nfc, items[1..])
  }

  /** Keys that become equal are merged and the last assignment wins. */
  function NormalizeEntries(nfc: string -> string, entries: seq<Entry>): seq<Entry>
    decreases entries, 1
  {
    if entries == [] then []
    else
      PutIfAbsent(Entry(nfc(entries[0].key), Normalize(nfc, entries[0].value)),
                  NormalizeEntries(nfc, entries[1..]))
  }

  function PutIfAbsent(e: Entry, sorted: seq<Entry>): seq<Entry> {
    if sorted == [] then [e]
    else if sorted[0].key == e.key then sorted
    else if LexLe(e.key, sorted[0].key) then [e] + sorted
    else [sorted[0]] + PutIfAbsent(e, sorted[1..])
  }

  ghost predicate Ascending(entries: seq<Entry>) {
    forall i, j :: 0 <= i < j < |entries| ==>
      LexLe(entries[i].key, entries[j].key) && entries[i].key != entries[j].key
  }

  /** What a dictionary means: the last assignment to a key. */
  function Lookup(entries: seq<Entry>, key: string): Option<Value> {
    if entries == [] then None
    else
      match Lookup(entries[1..], key)
      case Some(v) => Some(v)
      case None => if entries[0].key == key then Some(entries[0].value) else None
  }

  /** The value of the last assignment whose key normalises to `key`. */
  function LastAssignment(nfc: string -> string, entries: seq<Entry>, key: string): Option<Value> {
    if entries == [] then None
    else
      match LastAssignment(nfc, entries[1..], key)
      case Some(v) => Some(v)
      case None => if nfc(entries[0].key) == key then Some(entries[0].value) else None
  }

  ghost predicate Idempotent(nfc: string -> string) {
    forall s :: nfc(nfc(s)) == nfc(s)
  }

  lemma {:induction false} PutKeepsAscending(e: Entry, sorted: seq<Entry>)
    requires Ascending(sorted)
    ensures Ascending(PutIfAbsent(e, sorted))
    ensures forall x :: x in PutIfAbsent(e, sorted) ==> x == e || x in sorted
  {
    LexIsTotalOrder();
    if sorted == [] || sorted[0].key == e.key || LexLe(e.key, sorted[0].key) {
    } else {
      PutKeepsAscending(e, sorted[1..]);
      var r := PutIfAbsent(e, sorted[1..]);
      forall j | 0 <= j < |r|
        ensures LexLe(sorted[0].key, r[j].key) && sorted[0].key != r[j].key
      {
        assert r[j] in r;
      }
    }
  }

  lemma {:induction false} LookupMember(entries: seq<Entry>, key: string)
    ensures Lookup(entries, key).Some? <==> exists i :: 0 <= i < |entries| && entries[i].key == key
    ensures Lookup(entries, key).Some? ==> Entry(key, Lookup(entries, key).value) in entries
  {
    if entries != [] {
      LookupMember(entries[1..], key);
      assert forall i :: 0 < i < |entries| ==> entries[i] == entries[1..][i - 1];
    }
  }

  lemma {:induction false} LookupPut(e: Entry, sorted: seq<Entry>, key: string)
    requires Ascending(sorted)
    ensures Lookup(PutIfAbsent(e, sorted), key)
         == match Lookup(sorted, key) { case Some(v) => Some(v) case None => if e.key == key then Some(e.value) else None }
  {
    if sorted == [] {
    } else if sorted[0].key == e.key {
      LookupMember(sorted, key);
    } else if LexLe(e.key, sorted[0].key) {
      assert ([e] + sorted)[1..] == sorted;
    } else {
      LookupPut(e, sorted[1..], key);
      LookupMember(sorted[1..], key);
      assert PutIfAbsent(e, sorted)[1..] == PutIfAbsent(e, sorted[1..]);
    }
  }

  /** The merged dictionary holds, under each key, the normal form of the last assignment to it. */
  lemma {:induction false} NormalizedLookup(nfc: string -> string, entries: seq<Entry>, key: string)
    ensures Ascending(NormalizeEntries(nfc, entries))
    ensures Lookup(NormalizeEntries(nfc, entries), key)
         == match LastAssignment(nfc, entries, key) { case Some(v) => Some(Normalize(nfc, v)) case None => None }
  {
    if entries != [] {
      NormalizedLookup(nfc, entries[1..], key);
      var e := Entry(nfc(entries[0].key), Normalize(nfc, entries[0].value));
      PutKeepsAscending(e, NormalizeEntries(nfc, entries[1..]));
      LookupPut(e, NormalizeEntries(nfc, entries[1..]), key);
    }
  }

  lemma AscendingHead(xs: seq<Entry>, ys: seq<Entry>)
    requires Ascending(xs) && Ascending(ys) && xs != []
    requires forall key :: Lookup(xs, key) == Lookup(ys, key)
    ensures ys != [] && xs[0] == ys[0]
  {
    LexIsTotalOrder();
    var k := xs[0].key;
    LookupMember(xs, k);
    LookupMember(ys, k);
    var i :| 0 <= i < |ys| && ys[i].key == k;
    LookupMember(xs, ys[0].key);
    LookupMember(ys, ys[0].key);
    var j :| 0 <= j < |xs| && xs[j].key == ys[0].key;
    assert k == ys[0].key;
    assert forall m :: 0 < m < |xs| ==> xs[m].key != k;
    assert forall m :: 0 < m < |ys| ==> ys[m].key != k;
  }

  /** Ascending lists with the same meaning are the same list. */
  lemma {:induction false} AscendingUnique(xs: seq<Entry>, ys: seq<Entry>)
    requires Ascending(xs) && Ascending(ys)
    requires forall key :: Lookup(xs, key) == Lookup(ys, key)
    ensures xs == ys
  {
    if xs != [] {
      AscendingHead(xs, ys);
      forall key ensures Lookup(xs[1..], key) == Lookup(ys[1..], key) {
        LookupMember(xs[1..], key);
        LookupMember(ys[1..], key);
        assert Lookup(xs, key) == Lookup(ys, key);
      }
      AscendingUnique(xs[1..], ys[1..]);
      assert xs == [xs[0]] + xs[1..] && ys == [ys[0]] + ys[1..];
    } else if ys != [] {
      var absent := Lookup(xs, ys[0].key);
      LookupMember(ys, ys[0].key);
      assert false;
    }
  }

  ghost predicate SameAssignment(nfc: string -> string, xs: seq<Entry>, ys: seq<Entry>, key: string) {
    match (LastAssignment(nfc, xs, key), LastAssignment(nfc, ys, key))
    case (Some(a), Some(b)) => Normalize(nfc, a) == Normalize(nfc, b)
    case (None, None) => true
    case _ => false
  }

  lemma SameLookup(nfc: string -> string, xs: seq<Entry>, ys: seq<Entry>, key: string)
    ensures SameAssignment(nfc, xs, ys, key)
       <==> Lookup(NormalizeEntries(nfc, xs), key) == Lookup(NormalizeEntries(nfc, ys), key)
  {
    NormalizedLookup(nfc, xs, key);
    NormalizedLookup(nfc, ys, key);
  }

  /** Two dictionaries have the same normal form exactly when they assign, key by key,
      values of the same normal form: the order of assignment is invisible. */
  lemma DictNormalForms(nfc: string -> string, xs: seq<Entry>, ys: seq<Entry>)
    ensures Normalize(nfc, Dict(xs)) == Normalize(nfc, Dict(ys))
       <==> forall key :: SameAssignment(nfc, xs, ys, key)
  {
    forall key
      ensures SameAssignment(nfc, xs, ys, key)
         <==> Lookup(NormalizeEntries(nfc, xs), key) == Lookup(NormalizeEntries(nfc, ys), key)
    {
      SameLookup(nfc, xs, ys, key);
    }
    if forall key :: SameAssignment(nfc, xs, ys, key) {
      NormalizedLookup(nfc, xs, "");
      NormalizedLookup(nfc, ys, "");
      AscendingUnique(NormalizeEntries(nfc, xs), NormalizeEntries(nfc, ys));
    }
  }

  lemma {:induction false} NormalizeEncodable(nfc: string -> string, v: Value)
    ensures Encodable(Normalize(nfc, v)) <== Encodable(v)
    decreases v, 0
  {
    match v {
      case List(items) => NormalizeItemsEncodable(nfc, items);
      case Dict(entries) => NormalizeEntriesEncodable(nfc, entries);
      case _ =>
    }
  }

  lemma {:induction false} NormalizeItemsEncodable(nfc: string -> string, items: seq<Value>)
    ensures Encodable(List(items)) ==> Encodable(List(NormalizeItems(nfc, items)))
    decreases items, 1
  {
    if items != [] && Encodable(List(items)) {
      NormalizeEncodable(nfc, items[0]);
      NormalizeItemsEncodable(nfc, items[1..]);
    }
  }

  lemma {:induction false} NormalizeEntriesEncodable(nfc: string -> string, entries: seq<Entry>)
    ensures Encodable(Dict(entries)) ==> Encodable(Dict(NormalizeEntries(nfc, entries)))
    decreases entries, 1
  {
    if entries != [] && Encodable(Dict(entries)) {
      NormalizeEncodable(nfc, entries[0].value);
      NormalizeEntriesEncodable(nfc, entries[1..]);
      var e := Entry(nfc(entries[0].key), Normalize(nfc, entries[0].value));
      NormalizedLookup(nfc, entries[1..], "");
      PutKeepsAscending(e, NormalizeEntries(nfc, entries[1..]));
      var r := NormalizeEntries(nfc, entries);
      forall i | 0 <= i < |r| ensures Encodable(r[i].value) {
        assert r[i] in r;
      }
    }
  }

  lemma {:induction false} NormalizeIdempotent(nfc: string -> string, v: Value)
    requires Idempotent(nfc)
    ensures Normalize(nfc, Normalize(nfc, v)) == Normalize(nfc, v)
    decreases v, 0
  {
    match v {
      case List(items) => NormalizeItemsIdempotent(nfc, items);
      case Dict(entries) =>
        NormalizedLookup(nfc, entries, "");
        NormalizedEntriesFixed(nfc, entries);
        FixedEntries(nfc, NormalizeEntries(nfc, entries));
      case _ =>
    }
  }

  lemma {:induction false} NormalizeItemsIdempotent(nfc: string -> string, items: seq<Value>)
    requires Idempotent(nfc)
    ensures NormalizeItems(nfc, NormalizeItems(nfc, items)) == NormalizeItems(nfc, items)
    decreases items, 1
  {
    if items != [] {
      NormalizeIdempotent(nfc, items[0]);
      NormalizeItemsIdempotent(nfc, items[1..]);
    }
  }

  ghost predicate FixedEntry(nfc: string -> string, e: Entry) {
    nfc(e.key) == e.key && Normalize(nfc, e.value) == e.value
  }

  lemma {:induction false} NormalizedEntriesFixed(nfc: string -> string, entries: seq<Entry>)
    requires Idempotent(nfc)
    ensures forall e :: e in NormalizeEntries(nfc, entries) ==> FixedEntry(nfc, e)
    decreases entries, 1
  {
    if entries != [] {
      NormalizeIdempotent(nfc, entries[0].value);
      NormalizedEntriesFixed(nfc, entries[1..]);
      NormalizedLookup(nfc, entries[1..], "");
      PutKeepsAscending(Entry(nfc(entries[0].key), Normalize(nfc, entries[0].value)),
                        NormalizeEntries(nfc, entries[1..]));
    }
  }

  lemma {:induction false} FixedEntries(nfc: string -> string, entries: seq<Entry>)
    requires Ascending(entries) && forall e :: e in entries ==> FixedEntry(nfc, e)
    ensures NormalizeEntries(nfc, entries) == entries
  {
    if entries != [] {
      FixedEntries(nfc, entries[1..]);
      assert FixedEntry(nfc, entries[0]);
      assert entries == [entries[0]] + entries[1..];
    }
  }

  // ----- strings

  function Escape(c: char): string {
    if c == '"' then "\\\""
    else if c == '\\' then "\\\\"
    else if c == '\n' then "\\n"
    else if c == '\r' then "\\r"
    else if c == '\t' then "\\t"
    else if c as int == 8 then "\\b"
    else if c as int == 12 then "\\f"
    else if c as int < 0x20 then "\\u00" + [HexDigit(c as int / 16), HexDigit(c as int % 16)]
    else [c]
  }

  function EscapeAll(s: string): string {
    if s == "" then "" else Escape(s[0]) + EscapeAll(s[1..])
  }

  function PrintString(s: string): string { "\"" + EscapeAll(s) + "\"" }

  function Hex4(s: string): Option<int> {
    if |s| < 4 then None
    else
      match (HexValue(s[0]), HexValue(s[1]), HexValue(s[2]), HexValue(s[3]))
      case (Some(a), Some(b), Some(c), Some(d)) => Some(((a * 16 + b) * 16 + c) * 16 + d)
      case _ => None
  }

  /** The escape after a backslash and how many characters it takes. */
  function ParseEscape(s: string): (r: Option<(char, nat)>)
    ensures r.Some? ==> 1 <= r.value.1 <= |s|
  {
    if s == "" then None
    else if s[0] in "\"\\/" then Some((s[0], 1))
    else if s[0] == 'n' then Some(('\n', 1))
    else if s[0] == 'r' then Some(('\r', 1))
    else if s[0] == 't' then Some(('\t', 1))
    else if s[0] == 'b' then Some((8 as char, 1))
    else if s[0] == 'f' then Some((12 as char, 1))
    else if s[0] == 'u' then
      match Hex4(s[1..])
      case Some(n) => if IsScalar(n) then Some((n as char, 5)) else None
      case None => None
    else None
  }

  /** The characters of a string up to its closing quote. */
  function ParseChars(s: string): (r: Parsed<string>)
    ensures r.Done? ==> |r.rest| < |s|
    decreases |s|
  {
    if s == "" then Fail
    else if s[0] == '"' then Done("", s[1..])
    else if s[0] == '\\' then
      match ParseEscape(s[1..])
      case None => Fail
      case Some((c, n)) => Prepend(c, ParseChars(s[1 + n..]))
    else if s[0] < ' ' then Fail
    else Prepend(s[0], ParseChars(s[1..]))
  }

  function Prepend(c: char, r: Parsed<string>): Parsed<string> {
    match r
    case Fail => Fail
    case Done(t, rest) => Done([c] + t, rest)
  }

  lemma HexOfControl(c: char, u: string)
    requires c as int < 0x20 && |Escape(c)| == 6
    requires |u| >= 4 && u[..4] == Escape(c)[2..]
    ensures Hex4(u) == Some(c as int)
  {
    var e := Escape(c);
    assert u[0] == e[2] && u[1] == e[3] && u[2] == e[4] && u[3] == e[5] by {
      assert u[0] == u[..4][0] && u[1] == u[..4][1] && u[2] == u[..4][2] && u[3] == u[..4][3];
    }
  }

  /** The escapes of two characters and of six, told apart by `ParseEscape`. */
  lemma EscapeRead(c: char, t: string)
    requires |Escape(c)| > 1 && Escape(c)[1..] <= t
    ensures ParseEscape(t) == Some((c, |Escape(c)| - 1))
  {
    var e := Escape(c);
    assert t[0] == e[1..][0] == e[1];
    if |e| == 6 {
      assert t[1..][..4] == e[2..];
      HexOfControl(c, t[1..]);
    }
  }

  lemma ParseOneEscaped(c: char, tail: string)
    ensures ParseChars(Escape(c) + tail) == Prepend(c, ParseChars(tail))
  {
    var s := Escape(c) + tail;
    var n := |Escape(c)|;
    DropWhole(Escape(c), tail);
    if n > 1 {
      EscapeRead(c, s[1..]);
    }
  }

  lemma DropWhole(e: string, tail: string)
    requires e != ""
    ensures (e + tail)[|e|..] == tail && e[1..] <= (e + tail)[1..] && (e + tail)[0] == e[0]
  {
  }

  lemma {:induction false} ParsePrintString(s: string, rest: string)
    ensures ParseChars(EscapeAll(s) + "\"" + rest) == Done(s, rest)
  {
    if s == "" {
      assert EscapeAll(s) + "\"" + rest == ['"'] + rest;
    } else {
      var tail := EscapeAll(s[1..]) + "\"" + rest;
      assert EscapeAll(s) + "\"" + rest == Escape(s[0]) + tail;
      ParseOneEscaped(s[0], tail);
      ParsePrintString(s[1..], rest);
      assert s == [s[0]] + s[1..];
    }
  }

  // ----- values

  function Print(v: Value): string
    decreases v, 0
  {
    match v
    case Null => "null"
    case Bool(b) => if b then "true" else "false"
    case Int(n) => PrintInt(n)
    case Str(s) => PrintString(s)
    case List(items) => "[" + PrintItems(items) + "]"
    case Dict(entries) => "{" + PrintEntries(entries) + "}"
    case Unsupported => ""
  }

  function PrintItems(items: seq<Value>): string
    decreases items, 1
  {
    if items == [] then ""
    else if |items| == 1 then Print(items[0])
    else Print(items[0]) + "," + PrintItems(items[1..])
  }

  function PrintEntry(e: Entry): string
    decreases e, 0
  {
    PrintString(e.key) + ":" + Print(e.value)
  }

  function PrintEntries(entries: seq<Entry>): string
    decreases entries, 1
  {
    if entries == [] then ""
    else if |entries| == 1 then PrintEntry(entries[0])
    else PrintEntry(entries[0]) + "," + PrintEntries(entries[1..])
  }

  function ParseValue(s: string): (r: Parsed<Value>)
    ensures r.Done? ==> |r.rest| < |s|
    decreases |s|, 0
  {
    if s == "" then Fail
    else if s[0] == '"' then
      match ParseChars(s[1..]) case Fail => Fail case Done(t, rest) => Done(Str(t), rest)
    else if s[0] == '[' then
      if |s| > 1 && s[1] == ']' then Done(List([]), s[2..])
      else match ParseItems(s[1..]) case Fail => Fail case Done(vs, rest) => Done(List(vs), rest)
    else if s[0] == '{' then
      if |s| > 1 && s[1] == '}' then Done(Dict([]), s[2..])
      else match ParseEntries(s[1..]) case Fail => Fail case Done(es, rest) => Done(Dict(es), rest)
    else if "null" <= s then Done(Null, s[4..])
    else if "true" <= s then Done(Bool(true), s[4..])
    else if "false" <= s then Done(Bool(false), s[5..])
    else if s[0] == '-' then
      match ParseNat(s[1..]) case Fail => Fail case Done(n, rest) => Done(Int(-(n as int)), rest)
    else
      match ParseNat(s) case Fail => Fail case Done(n, rest) => Done(Int(n), rest)
  }

  function ParseItems(s: string): (r: Parsed<seq<Value>>)
    ensures r.Done? ==> |r.rest| < |s|
    decreases |s|, 1
  {
    match ParseValue(s)
    case Fail => Fail
    case Done(v, t) =>
      if t != "" && t[0] == ']' then Done([v], t[1..])
      else if t != "" && t[0] == ',' then
        match ParseItems(t[1..]) case Fail => Fail case Done(vs, rest) => Done([v] + vs, rest)
      else Fail
  }

  function ParseEntry(s: string): (r: Parsed<Entry>)
    ensures r.Done? ==> |r.rest| < |s|
    decreases |s|, 1
  {
    if s == "" || s[0] != '"' then Fail
    else
      match ParseChars(s[1..])
      case Fail => Fail
      case Done(key, t) =>
        if t == "" || t[0] != ':' then Fail
        else match ParseValue(t[1..]) case Fail => Fail case Done(v, rest) => Done(Entry(key, v), rest)
  }

  function ParseEntries(s: string): (r: Parsed<seq<Entry>>)
    ensures r.Done? ==> |r.rest| < |s|
    decreases |s|, 2
  {
    match ParseEntry(s)
    case Fail => Fail
    case Done(e, t) =>
      if t != "" && t[0] == '}' then Done([e], t[1..])
      else if t != "" && t[0] == ',' then
        match ParseEntries(t[1..]) case Fail => Fail case Done(es, rest) => Done([e] + es, rest)
      else Fail
  }

  lemma FirstCharacter(v: Value)
    requires Encodable(v)
    ensures Print(v) != "" && Print(v)[0] != ']'
  {
    if v.Int? {
      DigitsOfNat(if v.n < 0 then -v.n else v.n, "");
    }
  }

  lemma ParseWord(v: Value, rest: string)
    requires v.Null? || v.Bool?
    ensures ParseValue(Print(v) + rest) == Done(v, rest)
  {
    var s := Print(v) + rest;
    assert s[|Print(v)|..] == rest;
    assert s[0] == Print(v)[0] && s[1] == Print(v)[1];
  }

  lemma ParseNumber(n: int, rest: string)
    requires EndsNumber(rest)
    ensures ParseValue(PrintInt(n) + rest) == Done(Int(n), rest)
  {
    var s := PrintInt(n) + rest;
    var m: nat := if n < 0 then -n else n;
    DigitsOfNat(m, rest);
    ParsePrintNat(m, rest);
    assert s[0] == PrintInt(n)[0];
    if n < 0 {
      assert s[1..] == PrintNat(m) + rest;
    }
  }

  lemma ParseText(t: string, rest: string)
    ensures ParseValue(PrintString(t) + rest) == Done(Str(t), rest)
  {
    var s := PrintString(t) + rest;
    assert s[0] == '"' && s[1..] == EscapeAll(t) + "\"" + rest;
    ParsePrintString(t, rest);
  }

  lemma ParseBracketed(inner: string)
    ensures ParseValue("[]" + inner) == Done(List([]), inner)
    ensures ParseValue("{}" + inner) == Done(Dict([]), inner)
    ensures inner != "" && inner[0] != ']' && ParseItems(inner).Done? ==>
              ParseValue("[" + inner) == Done(List(ParseItems(inner).value), ParseItems(inner).rest)
    ensures inner != "" && inner[0] != '}' && ParseEntries(inner).Done? ==>
              ParseValue("{" + inner) == Done(Dict(ParseEntries(inner).value), ParseEntries(inner).rest)
  {
    assert ("[]" + inner)[2..] == inner && ("{}" + inner)[2..] == inner;
    assert ("[" + inner)[1..] == inner && ("{" + inner)[1..] == inner;
  }

  lemma {:induction false} ParsePrint(v: Value, rest: string)
    requires Encodable(v) && EndsNumber(rest)
    ensures ParseValue(Print(v) + rest) == Done(v, rest)
    decreases v, 0
  {
    match v {
      case Null => ParseWord(v, rest);
      case Bool(b) => ParseWord(v, rest);
      case Int(n) => ParseNumber(n, rest);
      case Str(t) => ParseText(t, rest);
      case List(items) =>
        if items != [] {
          ParsePrintItems(items, rest);
        }
        ParseListText(items, rest);
      case Dict(entries) =>
        if entries != [] {
          ParsePrintEntries(entries, rest);
        }
        ParseDictText(entries, rest);
    }
  }

  lemma ParseListText(items: seq<Value>, rest: string)
    requires Encodable(List(items))
    requires items != [] ==> ParseItems(PrintItems(items) + ("]" + rest)) == Done(items, rest)
    ensures ParseValue(Print(List(items)) + rest) == Done(List(items), rest)
  {
    var body := PrintItems(items);
    Brackets(body, rest);
    if items != [] {
      ItemsStart(items);
    }
    ParseBracketed(body + ("]" + rest));
    ParseBracketed(rest);
  }

  lemma ParseDictText(entries: seq<Entry>, rest: string)
    requires entries != [] ==> ParseEntries(PrintEntries(entries) + ("}" + rest)) == Done(entries, rest)
    ensures ParseValue(Print(Dict(entries)) + rest) == Done(Dict(entries), rest)
  {
    var body := PrintEntries(entries);
    Brackets(body, rest);
    if entries != [] {
      EntriesStart(entries);
    }
    ParseBracketed(body + ("}" + rest));
    ParseBracketed(rest);
  }

  lemma Brackets(body: string, rest: string)
    ensures "[" + body + "]" + rest == "[" + (body + ("]" + rest))
    ensures "{" + body + "}" + rest == "{" + (body + ("}" + rest))
    ensures body == "" ==> "[" + body + "]" + rest == "[]" + rest && "{" + body + "}" + rest == "{}" + rest
    ensures body != "" ==> (body + ("]" + rest))[0] == body[0] && (body + ("}" + rest))[0] == body[0]
  {
  }

  lemma ItemsStart(items: seq<Value>)
    requires items != [] && Encodable(List(items))
    ensures PrintItems(items) != "" && PrintItems(items)[0] != ']'
  {
    FirstCharacter(items[0]);
  }

  lemma EntriesStart(entries: seq<Entry>)
    requires entries != []
    ensures PrintEntries(entries) != "" && PrintEntries(entries)[0] == '"'
  {
    assert PrintEntry(entries[0])[0] == '"';
  }

  lemma ItemsStep(v: Value, inner: string, tail: string)
    requires ParseValue(inner) == Done(v, tail)
    ensures tail != "" && tail[0] == ']' ==> ParseItems(inner) == Done([v], tail[1..])
    ensures tail != "" && tail[0] == ',' && ParseItems(tail[1..]).Done? ==>
              ParseItems(inner) == Done([v] + ParseItems(tail[1..]).value, ParseItems(tail[1..]).rest)
  {
  }

  /** What follows the first item of a list. */
  function AfterItem(items: seq<Value>, rest: string): (tail: string)
    requires items != []
    ensures tail != "" && EndsNumber(tail)
  {
    if |items| == 1 then "]" + rest else "," + (PrintItems(items[1..]) + ("]" + rest))
  }

  /** Regrouping a joined text, whatever its pieces are. */
  lemma Regroup(a: string, b: string, c: string, d: string)
    ensures a + b + c + d == a + (b + (c + d)) == a + (b + c + d)
    ensures a + "," + b + (c + d) == a + ("," + (b + (c + d)))
    ensures ("," + a)[1..] == a && ("]" + a)[1..] == a && ("}" + a)[1..] == a && (":" + a)[1..] == a
  {
  }

  lemma ItemsText(items: seq<Value>, rest: string)
    requires items != []
    ensures PrintItems(items) + ("]" + rest) == Print(items[0]) + AfterItem(items, rest)
    ensures |items| == 1 ==> AfterItem(items, rest)[0] == ']' && AfterItem(items, rest)[1..] == rest
    ensures |items| > 1 ==>
              AfterItem(items, rest)[0] == ',' && AfterItem(items, rest)[1..] == PrintItems(items[1..]) + ("]" + rest)
  {
    Regroup(rest, "", "", "");
    if |items| > 1 {
      var more := PrintItems(items[1..]);
      Regroup(Print(items[0]), more, "]", rest);
      Regroup(more + ("]" + rest), "", "", "");
    }
  }

  lemma {:induction false} ParsePrintItems(items: seq<Value>, rest: string)
    requires items != [] && Encodable(List(items))
    ensures ParseItems(PrintItems(items) + ("]" + rest)) == Done(items, rest)
    decreases items, 1
  {
    var tail := AfterItem(items, rest);
    ItemsText(items, rest);
    ParsePrint(items[0], tail);
    ItemsStep(items[0], Print(items[0]) + tail, tail);
    if |items| == 1 {
      assert items == [items[0]];
    } else {
      ParsePrintItems(items[1..], rest);
      assert items == [items[0]] + items[1..];
    }
  }

  lemma EntryStep(key: string, v: Value, inner: string, tail: string, rest: string)
    requires inner != "" && inner[0] == '"' && ParseChars(inner[1..]) == Done(key, tail)
    requires tail != "" && tail[0] == ':' && ParseValue(tail[1..]) == Done(v, rest)
    ensures ParseEntry(inner) == Done(Entry(key, v), rest)
  {
  }

  lemma EntryPieces(key: string, value: string, rest: string)
    ensures var text := ("\"" + key + "\"") + ":" + value + rest;
            text[0] == '"' && text[1..] == key + "\"" + (":" + (value + rest))
    ensures (":" + (value + rest))[1..] == value + rest
  {
  }

  lemma EntryText(e: Entry, rest: string)
    ensures (PrintEntry(e) + rest)[0] == '"'
    ensures (PrintEntry(e) + rest)[1..] == EscapeAll(e.key) + "\"" + (":" + (Print(e.value) + rest))
    ensures (":" + (Print(e.value) + rest))[1..] == Print(e.value) + rest
  {
    EntryPieces(EscapeAll(e.key), Print(e.value), rest);
  }

  lemma {:induction false} ParsePrintEntry(e: Entry, rest: string)
    requires Encodable(e.value) && EndsNumber(rest)
    ensures ParseEntry(PrintEntry(e) + rest) == Done(e, rest)
    decreases e, 0
  {
    var tail := ":" + (Print(e.value) + rest);
    EntryText(e, rest);
    ParsePrintString(e.key, tail);
    ParsePrint(e.value, rest);
    EntryStep(e.key, e.value, PrintEntry(e) + rest, tail, rest);
  }

  lemma EntriesStep(e: Entry, inner: string, tail: string)
    requires ParseEntry(inner) == Done(e, tail)
    ensures tail != "" && tail[0] == '}' ==> ParseEntries(inner) == Done([e], tail[1..])
    ensures tail != "" && tail[0] == ',' && ParseEntries(tail[1..]).Done? ==>
              ParseEntries(inner) == Done([e] + ParseEntries(tail[1..]).value, ParseEntries(tail[1..]).rest)
  {
  }

  /** What follows the first entry of a dictionary. */
  function AfterEntry(entries: seq<Entry>, rest: string): (tail: string)
    requires entries != []
    ensures tail != "" && EndsNumber(tail)
  {
    if |entries| == 1 then "}" + rest else "," + (PrintEntries(entries[1..]) + ("}" + rest))
  }

  lemma EntriesText(entries: seq<Entry>, rest: string)
    requires entries != []
    ensures PrintEntries(entries) + ("}" + rest) == PrintEntry(entries[0]) + AfterEntry(entries, rest)
    ensures |entries| == 1 ==> AfterEntry(entries, rest)[0] == '}' && AfterEntry(entries, rest)[1..] == rest
    ensures |entries| > 1 ==>
              AfterEntry(entries, rest)[0] == ','
              && AfterEntry(entries, rest)[1..] == PrintEntries(entries[1..]) + ("}" + rest)
  {
    Regroup(rest, "", "", "");
    if |entries| > 1 {
      var more := PrintEntries(entries[1..]);
      Regroup(PrintEntry(entries[0]), more, "}", rest);
      Regroup(more + ("}" + rest), "", "", "");
    }
  }

  lemma {:induction false} ParsePrintEntries(entries: seq<Entry>, rest: string)
    requires entries != [] && Encodable(Dict(entries))
    ensures ParseEntries(PrintEntries(entries) + ("}" + rest)) == Done(entries, rest)
    decreases entries, 1
  {
    var tail := AfterEntry(entries, rest);
    EntriesText(entries, rest);
    ParsePrintEntry(entries[0], tail);
    EntriesStep(entries[0], PrintEntry(entries[0]) + tail, tail);
    if |entries| == 1 {
      assert entries == [entries[0]];
    } else {
      ParsePrintEntries(entries[1..], rest);
      assert entries == [entries[0]] + entries[1..];
    }
  }

  // ----- the code

  function CanonicalBytes(nfc: string -> string, v: Value): Result<seq<Byte>> {
    if Encodable(v) then Ok(Encode(Print(Normalize(nfc, v)))) else Err
  }

  /** `json.loads` on bytes: one value and nothing after it. */
  function Loads(bs: seq<Byte>): Option<Value> {
    match Decode(bs)
    case None => None
    case Some(s) =>
      match ParseValue(s)
      case Fail => None
      case Done(v, rest) => if rest == "" then Some(v) else None
  }

  /** Reading the canonical bytes of a value gives back its normal form. */
  lemma RoundTrip(nfc: string -> string, v: Value)
    requires Encodable(v)
    ensures Loads(CanonicalBytes(nfc, v).value) == Some(Normalize(nfc, v))
  {
    var n := Normalize(nfc, v);
    NormalizeEncodable(nfc, v);
    DecodeEncode(Print(n));
    assert Print(n) + "" == Print(n);
    ParsePrint(n, "");
  }

  /** Two encodable values have the same bytes exactly when they have the same normal form. */
  lemma Injective(nfc: string -> string, v: Value, w: Value)
    requires Encodable(v) && Encodable(w)
    ensures CanonicalBytes(nfc, v) == CanonicalBytes(nfc, w) <==> Normalize(nfc, v) == Normalize(nfc, w)
  {
    RoundTrip(nfc, v);
    RoundTrip(nfc, w);
  }

  /** Storing what was read back and encoding it again gives the same bytes. */
  lemma ReencodingIsStable(nfc: string -> string, v: Value)
    requires Idempotent(nfc) && Encodable(v)
    ensures Loads(CanonicalBytes(nfc, v).value).Some?
    ensures CanonicalBytes(nfc, Loads(CanonicalBytes(nfc, v).value).value) == CanonicalBytes(nfc, v)
  {
    RoundTrip(nfc, v);
    NormalizeEncodable(nfc, v);
    NormalizeIdempotent(nfc, v);
  }
}
