/** Exactly which request targets are accepted and how their canonical form is spelled
    (`backend/app/device_cryptography.py`, sections 2.1 to 2.3 of RFC 3986). */
module AcceptedTargets {
  import opened Wrappers
  import opened Numerals
  import opened Text
  import opened Utf8
  import opened RequestTarget

  // ----- spelling

  /** A character that stands for itself, or an escape of one byte. */
  datatype Piece = Plain(c: char) | Escaped(high: char, low: char)

  predicate PieceOk(p: Piece) {
    match p
    case Plain(c) => c != '%'
    case Escaped(high, low) => HexValue(high).Some? && HexValue(low).Some?
  }

  function TextOf(pieces: seq<Piece>): string {
    if pieces == [] then ""
    else (match pieces[0] case Plain(c) => [c] case Escaped(high, low) => ['%', high, low]) + TextOf(pieces[1..])
  }

  function BytesOf(pieces: seq<Piece>): seq<Byte>
    requires forall i :: 0 <= i < |pieces| ==> PieceOk(pieces[i])
  {
    if pieces == [] then [] else PieceBytes(pieces[0]) + BytesOf(pieces[1..])
  }

  function PieceBytes(p: Piece): seq<Byte>
    requires PieceOk(p)
  {
    match p
    case Plain(c) => Encode([c])
    case Escaped(high, low) => [HexValue(high).value * 16 + HexValue(low).value]
  }

  /** Piece by piece the text spells these bytes. */
  ghost predicate Spells(s: string, bs: seq<Byte>) {
    exists pieces: seq<Piece> ::
      (forall i :: 0 <= i < |pieces| ==> PieceOk(pieces[i])) && s == TextOf(pieces) && bs == BytesOf(pieces)
  }

  lemma {:induction false} PiecesAreDecoded(pieces: seq<Piece>)
    requires forall i :: 0 <= i < |pieces| ==> PieceOk(pieces[i])
    ensures RawDecode(TextOf(pieces)) == Ok(BytesOf(pieces))
  {
    if pieces != [] {
      var tail, s := TextOf(pieces[1..]), TextOf(pieces);
      PiecesAreDecoded(pieces[1..]);
      match pieces[0]
      case Plain(c) =>
        assert s[0] == c && s[1..] == tail;
        assert [c][1..] == "" && Encode([c]) == EncodeChar(c);
      case Escaped(high, low) =>
        assert s[0] == '%' && s[1] == high && s[2] == low && s[3..] == tail;
    }
  }

  lemma {:induction false} DecodedInPieces(s: string) returns (pieces: seq<Piece>)
    requires RawDecode(s).Ok?
    ensures forall i :: 0 <= i < |pieces| ==> PieceOk(pieces[i])
    ensures s == TextOf(pieces)
    decreases |s|
  {
    if s == "" {
      pieces := [];
    } else if s[0] == '%' {
      var rest := DecodedInPieces(s[3..]);
      pieces := [Escaped(s[1], s[2])] + rest;
      assert pieces[1..] == rest;
      assert s == ['%', s[1], s[2]] + s[3..];
    } else {
      var rest := DecodedInPieces(s[1..]);
      pieces := [Plain(s[0])] + rest;
      assert pieces[1..] == rest;
      assert s == [s[0]] + s[1..];
    }
  }

  lemma DecodingSpells(s: string, bs: seq<Byte>)
    ensures RawDecode(s) == Ok(bs) <==> Spells(s, bs)
  {
    if RawDecode(s) == Ok(bs) {
      var pieces := DecodedInPieces(s);
      PiecesAreDecoded(pieces);
    }
    if Spells(s, bs) {
      var pieces: seq<Piece> :|
        (forall i :: 0 <= i < |pieces| ==> PieceOk(pieces[i])) && s == TextOf(pieces) && bs == BytesOf(pieces);
      PiecesAreDecoded(pieces);
    }
  }

  /** No control character. */
  predicate Printed(text: string) { forall i :: 0 <= i < |text| ==> text[i] >= ' ' && text[i] as int != 127 }

  lemma {:induction false} ControlsOfText(text: string)
    ensures (forall i :: 0 <= i < |Encode(text)| ==> !IsControl(Encode(text)[i])) <==> Printed(text)
  {
    if text != "" {
      var head, tail := EncodeChar(text[0]), Encode(text[1..]);
      ControlsOfText(text[1..]);
      assert Encode(text) == head + tail;
      ControlsOfBoth(head, tail);
      HeadControls(text[0]);
      assert text == [text[0]] + text[1..];
    }
  }

  lemma ControlsOfBoth(a: seq<Byte>, b: seq<Byte>)
    ensures (forall i :: 0 <= i < |a + b| ==> !IsControl((a + b)[i]))
       <==> (forall i :: 0 <= i < |a| ==> !IsControl(a[i])) && (forall i :: 0 <= i < |b| ==> !IsControl(b[i]))
  {
    assert forall i :: 0 <= i < |a| ==> (a + b)[i] == a[i];
    assert forall i :: 0 <= i < |b| ==> (a + b)[|a| + i] == b[i];
  }

  lemma HeadControls(c: char)
    ensures (forall i :: 0 <= i < |EncodeChar(c)| ==> !IsControl(EncodeChar(c)[i])) <==> c >= ' ' && c as int != 127
  {
    if c as int < 128 {
      assert EncodeChar(c)[0] == c as int;
    }
  }

  /** The text without its escapes. */
  ghost predicate Denotes(s: string, text: string) { Spells(s, Encode(text)) && Printed(text) }

  lemma StrictDecodingDenotes(s: string, text: string)
    ensures StrictDecode(s) == Ok(Encode(text)) <==> Denotes(s, text)
  {
    DecodingSpells(s, Encode(text));
    DecodeEncode(text);
    ControlsOfText(text);
  }

  lemma StrictlyDecoded(s: string) returns (text: string)
    requires StrictDecode(s).Ok?
    ensures StrictDecode(s).value == Encode(text) && Decode(StrictDecode(s).value) == Some(text) && Denotes(s, text)
  {
    text := Decode(StrictDecode(s).value).value;
    EncodeDecode(StrictDecode(s).value);
    StrictDecodingDenotes(s, text);
  }

  // ----- paths and queries

  predicate Inner(segments: seq<string>, i: int) { 0 < i < |segments| - 1 }

  /** No backslash, no escaped slash or backslash, and no empty or dot segment inside. */
  ghost predicate PathDenotes(path: string, text: string) {
    && '\\' !in path && (forall i :: !EncodedSeparatorAt(path, i)) && Denotes(path, text)
    && forall i :: Inner(Split(text, '/'), i) ==>
         Split(text, '/')[i] != "" && Split(text, '/')[i] != "." && Split(text, '/')[i] != ".."
  }

  lemma PathAccepted(path: string, text: string)
    ensures DecodePath(path) == Ok(Encode(text)) <==> PathDenotes(path, text)
  {
    StrictDecodingDenotes(path, text);
    DecodeEncode(text);
    assert Unambiguous(Split(text, '/')) <==>
      forall i :: Inner(Split(text, '/'), i) ==>
        Split(text, '/')[i] != "" && Split(text, '/')[i] != "." && Split(text, '/')[i] != "..";
  }

  /** A component `name=value` with a name. */
  ghost predicate ComponentDenotes(component: string, name: string, value: string) {
    name != "" && exists n, v :: component == n + "=" + v && '=' !in n && Denotes(n, name) && Denotes(v, value)
  }

  lemma ComponentAccepted(component: string, name: string, value: string)
    ensures DecodeComponent(component) == Ok((Encode(name), Encode(value))) <==> ComponentDenotes(component, name, value)
  {
    EmptyEncoding(name);
    if DecodeComponent(component) == Ok((Encode(name), Encode(value))) {
      ComponentRead(component, name, value);
    }
    if ComponentDenotes(component, name, value) {
      var n, v :| component == n + "=" + v && '=' !in n && Denotes(n, name) && Denotes(v, value);
      ComponentDecoded(n, v, name, value);
    }
  }

  lemma ComponentDecoded(n: string, v: string, name: string, value: string)
    requires '=' !in n && Denotes(n, name) && Denotes(v, value) && Encode(name) != []
    ensures DecodeComponent(n + "=" + v) == Ok((Encode(name), Encode(value)))
  {
    RenderedCut(n, v);
    StrictDecodingDenotes(n, name);
    StrictDecodingDenotes(v, value);
  }

  lemma ComponentParts(component: string)
    requires Cut(component, '=').1 != ""
    ensures component == Cut(component, '=').0 + "=" + Cut(component, '=').1[1..] && '=' !in Cut(component, '=').0
  {
    var rest := Cut(component, '=').1;
    CutRejoins(component, '=');
    CutStart(component, '=');
    assert rest == "=" + rest[1..];
  }

  lemma ComponentRead(component: string, name: string, value: string)
    requires DecodeComponent(component) == Ok((Encode(name), Encode(value))) && name != ""
    ensures ComponentDenotes(component, name, value)
  {
    var n, v := Cut(component, '=').0, Cut(component, '=').1[1..];
    ComponentParts(component);
    assert Denotes(n, name) by { StrictDecodingDenotes(n, name); }
    assert Denotes(v, value) by { StrictDecodingDenotes(v, value); }
  }

  lemma {:induction false} CutStart(s: string, c: char)
    ensures Cut(s, c).1 != "" ==> Cut(s, c).1[0] == c
  {
    if s != "" && s[0] != c {
      CutStart(s[1..], c);
    }
  }

  lemma EmptyEncoding(text: string)
    ensures Encode(text) == [] <==> text == ""
  {
  }

  /** Component by component the query is this list of names and values, no name twice. */
  ghost predicate QueryDenotes(query: string, pairs: seq<(string, string)>) {
    && (if query == "" then pairs == []
        else |Split(query, '&')| == |pairs|
             && forall i :: 0 <= i < |pairs| ==> ComponentDenotes(Split(query, '&')[i], pairs[i].0, pairs[i].1))
    && NamesDiffer(pairs)
  }

  function Encoded(pairs: seq<(string, string)>): seq<Pair> {
    seq(|pairs|, i requires 0 <= i < |pairs| => (Encode(pairs[i].0), Encode(pairs[i].1)))
  }

  /** The components denote `pairs`, whose names are new and different. */
  ghost predicate ComponentsDenote(components: seq<string>, before: seq<Pair>, pairs: seq<(string, string)>) {
    AllDenote(components, pairs) && NamesDiffer(pairs) && NoneHas(before, pairs)
  }

  ghost predicate NamesDiffer(pairs: seq<(string, string)>) {
    forall i, j :: 0 <= i < j < |pairs| ==> pairs[i].0 != pairs[j].0
  }

  ghost predicate NoneHas(before: seq<Pair>, pairs: seq<(string, string)>) {
    forall i :: 0 <= i < |pairs| ==> !HasName(before, Encode(pairs[i].0))
  }

  ghost predicate AllDenote(components: seq<string>, pairs: seq<(string, string)>) {
    |components| == |pairs| && forall i :: 0 <= i < |pairs| ==> ComponentDenotes(components[i], pairs[i].0, pairs[i].1)
  }

  lemma DenoteRest(components: seq<string>, before: seq<Pair>, pairs: seq<(string, string)>)
    requires ComponentsDenote(components, before, pairs) && components != []
    ensures ComponentsDenote(components[1..], before + [(Encode(pairs[0].0), Encode(pairs[0].1))], pairs[1..])
  {
    RestIsNew(before, pairs);
  }

  lemma RestIsNew(before: seq<Pair>, pairs: seq<(string, string)>)
    requires pairs != [] && NamesDiffer(pairs) && NoneHas(before, pairs)
    ensures NamesDiffer(pairs[1..]) && NoneHas(before + [(Encode(pairs[0].0), Encode(pairs[0].1))], pairs[1..])
  {
    var p := (Encode(pairs[0].0), Encode(pairs[0].1));
    NamesAppend(before, p);
    forall i | 0 <= i < |pairs[1..]| ensures !HasName(before + [p], Encode(pairs[1..][i].0)) {
      assert pairs[1..][i] == pairs[i + 1] && !HasName(before, Encode(pairs[i + 1].0));
      if Encode(pairs[i + 1].0) == Encode(pairs[0].0) {
        EncodeInjective(pairs[i + 1].0, pairs[0].0);
      }
    }
  }

  lemma FirstAccepted(components: seq<string>, before: seq<Pair>, pairs: seq<(string, string)>)
    requires ComponentsDenote(components, before, pairs) && components != []
    ensures DecodeComponent(components[0]) == Ok((Encode(pairs[0].0), Encode(pairs[0].1)))
    ensures !HasName(before, Encode(pairs[0].0))
  {
    ComponentAccepted(components[0], pairs[0].0, pairs[0].1);
  }

  lemma DecodeStep(components: seq<string>, before: seq<Pair>, p: Pair)
    requires components != [] && DecodeComponent(components[0]) == Ok(p) && !HasName(before, p.0)
    ensures DecodeComponents(components, before) == DecodeComponents(components[1..], before + [p])
  {
  }

  lemma EncodedStep(before: seq<Pair>, pairs: seq<(string, string)>)
    requires pairs != []
    ensures before + [(Encode(pairs[0].0), Encode(pairs[0].1))] + Encoded(pairs[1..]) == before + Encoded(pairs)
  {
  }

  lemma {:induction false} ComponentsAccepted(components: seq<string>, before: seq<Pair>, pairs: seq<(string, string)>)
    requires ComponentsDenote(components, before, pairs)
    ensures DecodeComponents(components, before) == Ok(before + Encoded(pairs))
    decreases |components|
  {
    if components == [] {
      assert before + Encoded(pairs) == before;
    } else {
      var p := (Encode(pairs[0].0), Encode(pairs[0].1));
      FirstAccepted(components, before, pairs);
      DecodeStep(components, before, p);
      DenoteRest(components, before, pairs);
      ComponentsAccepted(components[1..], before + [p], pairs[1..]);
      EncodedStep(before, pairs);
    }
  }

  lemma FirstRead(component: string) returns (name: string, value: string)
    requires DecodeComponent(component).Ok?
    ensures DecodeComponent(component) == Ok((Encode(name), Encode(value))) && ComponentDenotes(component, name, value)
  {
    var (n, rest) := Cut(component, '=');
    name := StrictlyDecoded(n);
    value := StrictlyDecoded(rest[1..]);
    ComponentAccepted(component, name, value);
  }

  lemma OtherName(before: seq<Pair>, name: string, value: string, other: string)
    requires !HasName(before + [(Encode(name), Encode(value))], Encode(other))
    ensures !HasName(before, Encode(other)) && name != other
  {
    NamesAppend(before, (Encode(name), Encode(value)));
  }

  lemma DenoteMore(components: seq<string>, before: seq<Pair>, name: string, value: string, others: seq<(string, string)>)
    requires components != [] && ComponentDenotes(components[0], name, value) && !HasName(before, Encode(name))
    requires ComponentsDenote(components[1..], before + [(Encode(name), Encode(value))], others)
    ensures ComponentsDenote(components, before, [(name, value)] + others)
  {
    OthersAreNew(before, name, value, others);
    AllDenoteMore(components, name, value, others);
  }

  lemma OthersAreNew(before: seq<Pair>, name: string, value: string, others: seq<(string, string)>)
    requires NamesDiffer(others) && NoneHas(before + [(Encode(name), Encode(value))], others)
    requires !HasName(before, Encode(name))
    ensures NamesDiffer([(name, value)] + others) && NoneHas(before, [(name, value)] + others)
  {
    forall i | 0 <= i < |others| ensures !HasName(before, Encode(others[i].0)) && name != others[i].0 {
      OtherName(before, name, value, others[i].0);
    }
    MoreDiffer(name, value, others);
    MoreAreNew(before, name, value, others);
  }

  lemma MoreDiffer(name: string, value: string, others: seq<(string, string)>)
    requires NamesDiffer(others) && forall i :: 0 <= i < |others| ==> name != others[i].0
    ensures NamesDiffer([(name, value)] + others)
  {
  }

  lemma MoreAreNew(before: seq<Pair>, name: string, value: string, others: seq<(string, string)>)
    requires NoneHas(before, others) && !HasName(before, Encode(name))
    ensures NoneHas(before, [(name, value)] + others)
  {
    var pairs := [(name, value)] + others;
    forall i | 0 <= i < |pairs| ensures !HasName(before, Encode(pairs[i].0)) {
      if i > 0 {
        assert pairs[i] == others[i - 1];
      }
    }
  }

  lemma AllDenoteMore(components: seq<string>, name: string, value: string, others: seq<(string, string)>)
    requires components != [] && ComponentDenotes(components[0], name, value) && AllDenote(components[1..], others)
    ensures AllDenote(components, [(name, value)] + others)
  {
    var pairs := [(name, value)] + others;
    forall i | 0 <= i < |pairs| ensures ComponentDenotes(components[i], pairs[i].0, pairs[i].1) {
      if i > 0 {
        assert components[i] == components[1..][i - 1] && pairs[i] == others[i - 1];
      }
    }
  }

  lemma {:induction false} ComponentsRead(components: seq<string>, before: seq<Pair>) returns (pairs: seq<(string, string)>)
    requires DecodeComponents(components, before).Ok?
    ensures ComponentsDenote(components, before, pairs)
    decreases |components|
  {
    if components == [] {
      pairs := [];
    } else {
      var name, value := FirstRead(components[0]);
      var others := ComponentsRead(components[1..], before + [(Encode(name), Encode(value))]);
      DenoteMore(components, before, name, value, others);
      pairs := [(name, value)] + others;
    }
  }

  lemma QueryRead(query: string) returns (pairs: seq<(string, string)>)
    requires DecodeQuery(query).Ok?
    ensures QueryDenotes(query, pairs)
  {
    if query == "" {
      pairs := [];
    } else {
      pairs := ComponentsRead(Split(query, '&'), []);
    }
  }

  lemma QueryDecoded(query: string, pairs: seq<(string, string)>)
    requires QueryDenotes(query, pairs)
    ensures DecodeQuery(query) == Ok(Encoded(pairs))
  {
    if query == "" {
      assert Encoded(pairs) == [];
    } else {
      ComponentsAccepted(Split(query, '&'), [], pairs);
      assert [] + Encoded(pairs) == Encoded(pairs);
    }
  }

  /** The target is a path, or a path and a query, that denote this. */
  ghost predicate TargetDenotes(raw: string, path: string, query: string, text: string, pairs: seq<(string, string)>) {
    && (if query == "" then raw == path || raw == path + "?" else raw == path + "?" + query)
    && path != "" && path[0] == '/' && '?' !in path && '?' !in query && '#' !in raw
    && PathDenotes(path, text) && QueryDenotes(query, pairs)
  }

  lemma TargetCut(raw: string, path: string, query: string)
    requires if query == "" then raw == path || raw == path + "?" else raw == path + "?" + query
    requires '?' !in path
    ensures Cut(raw, '?').0 == path
    ensures (if Cut(raw, '?').1 == "" then "" else Cut(raw, '?').1[1..]) == query
  {
    if raw == path {
      CutMissing(raw, '?');
    } else {
      CutAt(path, '?', query);
      assert raw == path + ['?'] + query;
    }
  }

  lemma TargetRead(raw: string) returns (path: string, query: string, text: string, pairs: seq<(string, string)>)
    requires CanonicalTarget(raw).Ok?
    ensures TargetDenotes(raw, path, query, text, pairs)
  {
    var rest := Cut(raw, '?').1;
    path := Cut(raw, '?').0;
    query := if rest == "" then "" else rest[1..];
    CutRejoins(raw, '?');
    CutStart(raw, '?');
    text := StrictlyDecoded(path);
    PathAccepted(path, text);
    pairs := QueryRead(query);
    TargetPieces(raw, path, rest);
  }

  lemma TargetPieces(raw: string, path: string, rest: string)
    requires raw == path + rest && raw != "" && raw[0] == '/' && (rest != "" ==> rest[0] == '?')
    ensures path != "" && path[0] == '/'
    ensures rest != "" ==> raw == path + "?" + rest[1..]
    ensures rest == "" ==> raw == path
    ensures rest != "" && rest[1..] == "" ==> raw == path + "?"
  {
  }

  lemma TargetDecoded(raw: string, path: string, query: string, text: string, pairs: seq<(string, string)>)
    requires TargetDenotes(raw, path, query, text, pairs)
    ensures CanonicalTarget(raw) == Ok(Canonical(Quote(Encode(text), true), Render(Encoded(pairs))))
  {
    TargetCut(raw, path, query);
    PathAccepted(path, text);
    QueryDecoded(query, pairs);
    assert raw[0] == path[0];
  }

  /** A target is accepted exactly when it denotes a path and a list of named values, and its canonical
      pair is the quoted path and the rendered list. */
  lemma TargetAcceptedExactly(raw: string)
    ensures CanonicalTarget(raw).Ok? <==> exists path, query, text, pairs :: TargetDenotes(raw, path, query, text, pairs)
    ensures forall path, query, text, pairs :: TargetDenotes(raw, path, query, text, pairs) ==>
              CanonicalTarget(raw) == Ok(Canonical(Quote(Encode(text), true), Render(Encoded(pairs))))
  {
    if CanonicalTarget(raw).Ok? {
      var path, query, text, pairs := TargetRead(raw);
    }
    forall path, query, text, pairs | TargetDenotes(raw, path, query, text, pairs)
      ensures CanonicalTarget(raw) == Ok(Canonical(Quote(Encode(text), true), Render(Encoded(pairs))))
    {
      TargetDecoded(raw, path, query, text, pairs);
    }
  }

  // ----- the canonical spelling

  /** Letters, digits and four marks stand for themselves, and a slash where it may; any other byte is
      an escape in upper case. */
  ghost predicate CanonicallySpelled(b: Byte, slash: bool, s: string) {
    if ('A' as int <= b <= 'Z' as int) || ('a' as int <= b <= 'z' as int) || ('0' as int <= b <= '9' as int)
       || b in [0x2D, 0x2E, 0x5F, 0x7E] || (slash && b == 0x2F)
    then s == [b as char]
    else |s| == 3 && s[0] == '%' && IsUpperHex(s[1]) && IsUpperHex(s[2])
         && HexValue(s[1]) == Some(b / 16) && HexValue(s[2]) == Some(b % 16)
  }

  predicate IsUpperHex(c: char) { '0' <= c <= '9' || 'A' <= c <= 'F' }

  lemma ByteIsSpelled(b: Byte, slash: bool)
    ensures CanonicallySpelled(b, slash, QuoteByte(b, slash))
  {
  }

  /** The quoted text is made of the canonical spellings of its bytes. */
  lemma {:induction false} QuoteSpells(bs: seq<Byte>, slash: bool) returns (pieces: seq<string>)
    ensures |pieces| == |bs| && forall i :: 0 <= i < |bs| ==> CanonicallySpelled(bs[i], slash, pieces[i])
    ensures Quote(bs, slash) == Flat(pieces)
  {
    if bs == [] {
      pieces := [];
    } else {
      var rest := QuoteSpells(bs[1..], slash);
      ByteIsSpelled(bs[0], slash);
      pieces := [QuoteByte(bs[0], slash)] + rest;
      assert pieces[1..] == rest;
    }
  }

  function Flat(pieces: seq<string>): string { if pieces == [] then "" else pieces[0] + Flat(pieces[1..]) }
}
