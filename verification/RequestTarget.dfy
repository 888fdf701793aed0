/** Canonical request targets (`backend/app/device_cryptography.py`, sections 2.1, 2.3 and
    6.2.2 of RFC 3986). Every refusal is the one `DeviceCryptographyError`. */
module RequestTarget {
  import opened Wrappers
  import opened Numerals
  import opened Ordering
  import opened Text
  import opened Utf8

  // ----- strict percent-decoding

  predicate IsEscape(s: string) {
    |s| >= 3 && s[0] == '%' && HexValue(s[1]).Some? && HexValue(s[2]).Some?
  }

  /** The bytes a component spells, escape by escape. */
  function RawDecode(s: string): Result<seq<Byte>> {
    if s == "" then Ok([])
    else if s[0] == '%' then
      if !IsEscape(s) then Err
      else
        match RawDecode(s[3..])
        case Err => Err
        case Ok(bs) => Ok([HexValue(s[1]).value * 16 + HexValue(s[2]).value] + bs)
    else
      match RawDecode(s[1..])
      case Err => Err
      case Ok(bs) => Ok(EncodeChar(s[0]) + bs)
  }

  predicate IsControl(b: Byte) { b < 0x20 || b == 0x7F }

  /** Bytes that may appear in a decoded component. */
  predicate Clean(bs: seq<Byte>) {
    (forall i :: 0 <= i < |bs| ==> !IsControl(bs[i])) && Decode(bs).Some?
  }

  function StrictDecode(s: string): Result<seq<Byte>> {
    match RawDecode(s)
    case Err => Err
    case Ok(bs) => if Clean(bs) then Ok(bs) else Err
  }

  function After(before: seq<Byte>, r: Result<seq<Byte>>): Result<seq<Byte>> {
    match r case Err => Err case Ok(bs) => Ok(before + bs)
  }

  lemma AfterMore(before: seq<Byte>, next: seq<Byte>, r: Result<seq<Byte>>)
    ensures After(before, After(next, r)) == After(before + next, r)
    ensures After([], r) == r
  {
    if r.Ok? {
      assert before + (next + r.value) == (before + next) + r.value;
      assert [] + r.value == r.value;
    }
  }

  /** `_strict_percent_decode`: one pass over the text filling a buffer. */
  method StrictPercentDecode(value: string) returns (r: Result<seq<Byte>>)
    ensures r == StrictDecode(value)
  {
    var index := 0;
    var output: seq<Byte> := [];
    assert value[index..] == value;
    AfterMore([], [], RawDecode(value));
    while index < |value|
      invariant 0 <= index <= |value|
      invariant RawDecode(value) == After(output, RawDecode(value[index..]))
    {
      ghost var rest := value[index..];
      if value[index] == '%' {
        if !IsEscape(value[index..]) {
          return Err;
        }
        assert rest[3..] == value[index + 3..];
        var b: Byte := HexValue(value[index + 1]).value * 16 + HexValue(value[index + 2]).value;
        AfterMore(output, [b], RawDecode(value[index + 3..]));
        output := output + [b];
        index := index + 3;
      } else {
        assert rest[1..] == value[index + 1..];
        AfterMore(output, EncodeChar(value[index]), RawDecode(value[index + 1..]));
        output := output + EncodeChar(value[index]);
        index := index + 1;
      }
    }
    assert value[index..] == "" && output + [] == output;
    r := if Clean(output) then Ok(output) else Err;
  }

  // ----- percent-encoding

  predicate IsUnreserved(b: Byte) {
    || ('a' as int <= b <= 'z' as int) || ('A' as int <= b <= 'Z' as int) || ('0' as int <= b <= '9' as int)
    || b == '-' as int || b == '.' as int || b == '_' as int || b == '~' as int
  }

  function UpperHex(d: int): char
    requires 0 <= d < 16
  {
    if d < 10 then DigitChar(d) else ('A' as int + (d - 10)) as char
  }

  function QuoteByte(b: Byte, slash: bool): string {
    if IsUnreserved(b) || (slash && b == '/' as int) then [b as char]
    else ['%', UpperHex(b / 16), UpperHex(b % 16)]
  }

  /** `quote_from_bytes`; `slash` says whether "/" is left alone. */
  function Quote(bs: seq<Byte>, slash: bool): string {
    if bs == [] then "" else QuoteByte(bs[0], slash) + Quote(bs[1..], slash)
  }

  lemma QuotedByteDecodes(b: Byte, slash: bool, tail: string)
    ensures RawDecode(QuoteByte(b, slash) + tail)
         == match RawDecode(tail) { case Err => Err case Ok(bs) => Ok([b] + bs) }
  {
    var q := QuoteByte(b, slash);
    assert (q + tail)[|q|..] == tail;
  }

  lemma {:induction false} QuoteDecodes(bs: seq<Byte>, slash: bool)
    ensures RawDecode(Quote(bs, slash)) == Ok(bs)
  {
    if bs != [] {
      QuotedByteDecodes(bs[0], slash, Quote(bs[1..], slash));
      QuoteDecodes(bs[1..], slash);
      assert bs == [bs[0]] + bs[1..];
    }
  }

  /** Strict decoding reads the quoted form of exactly the byte strings that may appear. */
  lemma QuotedIsRead(bs: seq<Byte>, slash: bool)
    ensures StrictDecode(Quote(bs, slash)) == if Clean(bs) then Ok(bs) else Err
  {
    QuoteDecodes(bs, slash);
  }

  lemma QuoteInjective(a: seq<Byte>, b: seq<Byte>, slash: bool)
    requires Quote(a, slash) == Quote(b, slash)
    ensures a == b
  {
    QuoteDecodes(a, slash);
    QuoteDecodes(b, slash);
  }

  predicate IsQuotedChar(c: char) { c as int < 128 && (c == '%' || c == '/' || IsUnreserved(c as int)) }

  lemma {:induction false} QuoteAlphabet(bs: seq<Byte>, slash: bool)
    ensures forall c :: c in Quote(bs, slash) ==> IsQuotedChar(c) && (c == '/' ==> slash)
    ensures bs != [] ==> Quote(bs, slash) != ""
  {
    if bs != [] {
      QuoteAlphabet(bs[1..], slash);
    }
  }

  // ----- paths

  ghost predicate EncodedSeparatorAt(s: string, i: int) {
    && 0 <= i && i + 2 < |s| && s[i] == '%'
    && ((s[i + 1] == '2' && s[i + 2] in "fF") || (s[i + 1] == '5' && s[i + 2] in "cC"))
  }

  /** A search for `%2F` or `%5C` in either case. */
  predicate HasEncodedSeparator(s: string)
    ensures HasEncodedSeparator(s) <==> exists i :: EncodedSeparatorAt(s, i)
  {
    if |s| < 3 then false
    else
      var here := s[0] == '%' && ((s[1] == '2' && s[2] in "fF") || (s[1] == '5' && s[2] in "cC"));
      assert here <==> EncodedSeparatorAt(s, 0);
      assert forall i :: i != 0 ==> (EncodedSeparatorAt(s, i) <==> EncodedSeparatorAt(s[1..], i - 1));
      assert forall i :: EncodedSeparatorAt(s[1..], i) <==> i != -1 && EncodedSeparatorAt(s, i + 1);
      here || HasEncodedSeparator(s[1..])
  }

  /** No inner segment is empty or a dot segment. */
  predicate Unambiguous(segments: seq<string>) {
    forall i :: 0 < i < |segments| - 1 ==> segments[i] !in ["", ".", ".."]
  }

  function DecodePath(path: string): Result<seq<Byte>> {
    if HasEncodedSeparator(path) || '\\' in path then Err
    else
      match StrictDecode(path)
      case Err => Err
      case Ok(bs) => if Unambiguous(Split(Decode(bs).value, '/')) then Ok(bs) else Err
  }

  function CanonicalPath(path: string): Result<string> {
    match DecodePath(path)
    case Err => Err
    case Ok(bs) => Ok(Quote(bs, true))
  }

  lemma {:induction false} NoBackslash(s: string)
    requires !HasEncodedSeparator(s) && '\\' !in s && RawDecode(s).Ok?
    ensures 0x5C !in RawDecode(s).value
  {
    if s == "" {
    } else if s[0] == '%' {
      assert !EncodedSeparatorAt(s, 0);
      assert forall i :: EncodedSeparatorAt(s[3..], i) ==> EncodedSeparatorAt(s, i + 3);
      NoBackslash(s[3..]);
    } else {
      assert forall i :: EncodedSeparatorAt(s[1..], i) ==> EncodedSeparatorAt(s, i + 1);
      NoBackslash(s[1..]);
    }
  }

  lemma {:induction false} QuoteHidesNoSeparator(bs: seq<Byte>)
    requires 0x5C !in bs
    ensures !HasEncodedSeparator(Quote(bs, true))
  {
    if bs != [] {
      var q := QuoteByte(bs[0], true);
      var tail := Quote(bs[1..], true);
      QuoteHidesNoSeparator(bs[1..]);
      forall i | EncodedSeparatorAt(q + tail, i) ensures false {
        if i >= |q| {
          assert EncodedSeparatorAt(tail, i - |q|);
        }
      }
    }
  }

  /** A canonical path is its own canonical path, and spells the same bytes. */
  lemma CanonicalPathFixed(path: string)
    requires CanonicalPath(path).Ok?
    ensures DecodePath(CanonicalPath(path).value) == DecodePath(path)
    ensures CanonicalPath(CanonicalPath(path).value) == CanonicalPath(path)
  {
    var bs := DecodePath(path).value;
    NoBackslash(path);
    QuoteHidesNoSeparator(bs);
    QuoteAlphabet(bs, true);
    QuoteDecodes(bs, true);
  }

  // ----- queries

  type Pair = (seq<Byte>, seq<Byte>)

  function DecodeComponent(component: string): Result<Pair> {
    var (name, rest) := Cut(component, '=');
    if rest == "" then Err
    else
      match (StrictDecode(name), StrictDecode(rest[1..]))
      case (Ok(n), Ok(v)) => if n == [] then Err else Ok((n, v))
      case _ => Err
  }

  predicate HasName(pairs: seq<Pair>, name: seq<Byte>) {
    exists i :: 0 <= i < |pairs| && pairs[i].0 == name
  }

  /** The name-value pairs of a list of components; names must be new. */
  function DecodeComponents(components: seq<string>, before: seq<Pair>): Result<seq<Pair>> {
    if components == [] then Ok(before)
    else
      match DecodeComponent(components[0])
      case Err => Err
      case Ok(p) => if HasName(before, p.0) then Err else DecodeComponents(components[1..], before + [p])
  }

  function DecodeQuery(query: string): Result<seq<Pair>> {
    if query == "" then Ok([]) else DecodeComponents(Split(query, '&'), [])
  }

  /** What a query denotes. */
  function AsMap(pairs: seq<Pair>): map<seq<Byte>, seq<Byte>> {
    if pairs == [] then map[] else AsMap(pairs[1..])[pairs[0].0 := pairs[0].1]
  }

  function QuotePair(p: Pair): (string, string) { (Quote(p.0, false), Quote(p.1, false)) }

  predicate PairLe(p: (string, string), q: (string, string)) {
    if p.0 == q.0 then LexLe(p.1, q.1) else LexLe(p.0, q.0)
  }

  function QuotePairs(pairs: seq<Pair>): seq<(string, string)> {
    if pairs == [] then [] else [QuotePair(pairs[0])] + QuotePairs(pairs[1..])
  }

  function JoinPairs(pairs: seq<(string, string)>): string {
    if pairs == [] then ""
    else if |pairs| == 1 then pairs[0].0 + "=" + pairs[0].1
    else pairs[0].0 + "=" + pairs[0].1 + "&" + JoinPairs(pairs[1..])
  }

  function Render(pairs: seq<Pair>): string { JoinPairs(Sort(PairLe, QuotePairs(pairs))) }

  function CanonicalQuery(query: string): Result<string> {
    match DecodeQuery(query)
    case Err => Err
    case Ok(pairs) => Ok(Render(pairs))
  }

  // ----- reading a rendered query

  ghost predicate DistinctNames(pairs: seq<Pair>) {
    forall i, j :: 0 <= i < j < |pairs| ==> pairs[i].0 != pairs[j].0
  }

  ghost predicate CleanPair(p: Pair) { p.0 != [] && Clean(p.0) && Clean(p.1) }

  ghost predicate Accepted(pairs: seq<Pair>) {
    DistinctNames(pairs) && forall i :: 0 <= i < |pairs| ==> CleanPair(pairs[i])
  }

  lemma {:induction false} DecodedAccepted(components: seq<string>, before: seq<Pair>)
    requires Accepted(before) && DecodeComponents(components, before).Ok?
    ensures Accepted(DecodeComponents(components, before).value)
  {
    if components != [] {
      var p := DecodeComponent(components[0]).value;
      assert Accepted(before + [p]);
      DecodedAccepted(components[1..], before + [p]);
    }
  }

  lemma QueryAccepted(query: string)
    requires DecodeQuery(query).Ok?
    ensures Accepted(DecodeQuery(query).value)
  {
    if query != "" {
      DecodedAccepted(Split(query, '&'), []);
    }
  }

  function RenderPair(p: Pair): string { Quote(p.0, false) + "=" + Quote(p.1, false) }

  lemma RenderedCut(name: string, value: string)
    requires '=' !in name
    ensures Cut(name + "=" + value, '=') == (name, "=" + value) && ("=" + value)[1..] == value
  {
    CutAt(name, '=', value);
  }

  lemma RenderedPair(p: Pair)
    requires CleanPair(p)
    ensures '&' !in RenderPair(p)
    ensures DecodeComponent(RenderPair(p)) == Ok(p)
  {
    QuoteAlphabet(p.0, false);
    QuoteAlphabet(p.1, false);
    RenderedCut(Quote(p.0, false), Quote(p.1, false));
    QuotedIsRead(p.0, false);
    QuotedIsRead(p.1, false);
  }

  lemma JoinedText(pairs: seq<Pair>)
    requires pairs != []
    ensures JoinPairs(QuotePairs(pairs)) != ""
    ensures |pairs| == 1 ==> JoinPairs(QuotePairs(pairs)) == RenderPair(pairs[0])
    ensures |pairs| > 1 ==>
              JoinPairs(QuotePairs(pairs)) == RenderPair(pairs[0]) + ['&'] + JoinPairs(QuotePairs(pairs[1..]))
  {
    assert QuotePairs(pairs)[1..] == QuotePairs(pairs[1..]);
    if |pairs| == 1 {
      assert QuotePairs(pairs) == [QuotePair(pairs[0])];
    }
  }

  lemma AcceptedNext(pairs: seq<Pair>, before: seq<Pair>)
    requires pairs != [] && Accepted(before + pairs)
    ensures CleanPair(pairs[0]) && !HasName(before, pairs[0].0)
  {
    var all := before + pairs;
    assert all[|before|] == pairs[0];
    assert forall i :: 0 <= i < |before| ==> all[i] == before[i];
  }

  lemma {:induction false} RenderedPairs(pairs: seq<Pair>, before: seq<Pair>)
    requires pairs != [] && Accepted(before + pairs)
    ensures DecodeComponents(Split(JoinPairs(QuotePairs(pairs)), '&'), before) == Ok(before + pairs)
  {
    AcceptedNext(pairs, before);
    RenderedPair(pairs[0]);
    JoinedText(pairs);
    if |pairs| == 1 {
      SplitWhole(RenderPair(pairs[0]), '&');
      assert pairs == [pairs[0]];
    } else {
      SplitFirst(RenderPair(pairs[0]), '&', JoinPairs(QuotePairs(pairs[1..])));
      assert (before + [pairs[0]]) + pairs[1..] == before + pairs;
      RenderedPairs(pairs[1..], before + [pairs[0]]);
    }
  }

  // ----- sorting quoted pairs

  predicate QuotedLe(p: Pair, q: Pair) { PairLe(QuotePair(p), QuotePair(q)) }

  lemma QuotedOrder()
    ensures TotalOrder(QuotedLe)
  {
    LexIsTotalOrder();
    forall p: Pair, q: Pair | QuotedLe(p, q) && QuotedLe(q, p) ensures p == q {
      QuoteInjective(p.0, q.0, false);
      QuoteInjective(p.1, q.1, false);
    }
  }

  lemma {:induction false} InsertQuoted(p: Pair, sorted: seq<Pair>)
    ensures Insert(PairLe, QuotePair(p), QuotePairs(sorted)) == QuotePairs(Insert(QuotedLe, p, sorted))
  {
    if sorted != [] {
      assert QuotePairs(sorted)[1..] == QuotePairs(sorted[1..]);
      if QuotedLe(p, sorted[0]) {
        assert ([p] + sorted)[1..] == sorted;
      } else {
        InsertQuoted(p, sorted[1..]);
        var r := Insert(QuotedLe, p, sorted);
        assert r[1..] == Insert(QuotedLe, p, sorted[1..]);
      }
    }
  }

  lemma {:induction false} SortQuoted(pairs: seq<Pair>)
    ensures Sort(PairLe, QuotePairs(pairs)) == QuotePairs(Sort(QuotedLe, pairs))
  {
    if pairs != [] {
      SortQuoted(pairs[1..]);
      InsertQuoted(pairs[0], Sort(QuotedLe, pairs[1..]));
      assert QuotePairs(pairs)[1..] == QuotePairs(pairs[1..]);
    }
  }

  // ----- maps and pair lists

  lemma {:induction false} MapHolds(pairs: seq<Pair>, name: seq<Byte>)
    requires DistinctNames(pairs)
    ensures name in AsMap(pairs) <==> HasName(pairs, name)
    ensures name in AsMap(pairs) ==> (name, AsMap(pairs)[name]) in pairs
  {
    if pairs != [] {
      MapHolds(pairs[1..], name);
      assert forall i :: 0 < i < |pairs| ==> pairs[i] == pairs[1..][i - 1];
      if HasName(pairs[1..], name) {
        var i :| 0 <= i < |pairs[1..]| && pairs[1..][i].0 == name;
        assert pairs[i + 1].0 == name;
      }
    }
  }

  lemma MapDecidesMembers(pairs: seq<Pair>, p: Pair)
    requires DistinctNames(pairs)
    ensures p in pairs <==> p.0 in AsMap(pairs) && AsMap(pairs)[p.0] == p.1
  {
    MapHolds(pairs, p.0);
  }

  lemma {:induction false} DistinctMultiset(pairs: seq<Pair>)
    requires DistinctNames(pairs)
    ensures forall p :: multiset(pairs)[p] == if p in pairs then 1 else 0
  {
    if pairs != [] {
      DistinctMultiset(pairs[1..]);
      assert pairs == [pairs[0]] + pairs[1..];
    }
  }

  lemma SameMapSamePairs(a: seq<Pair>, b: seq<Pair>)
    requires DistinctNames(a) && DistinctNames(b)
    ensures AsMap(a) == AsMap(b) <==> multiset(a) == multiset(b)
  {
    DistinctMultiset(a);
    DistinctMultiset(b);
    forall p ensures p in a <==> p.0 in AsMap(a) && AsMap(a)[p.0] == p.1 {
      MapDecidesMembers(a, p);
    }
    forall p ensures p in b <==> p.0 in AsMap(b) && AsMap(b)[p.0] == p.1 {
      MapDecidesMembers(b, p);
    }
    if multiset(a) == multiset(b) {
      forall p ensures p in a <==> p in b {
        assert p in a <==> p in multiset(a);
      }
      forall name
        ensures name in AsMap(a) <==> name in AsMap(b)
        ensures name in AsMap(a) ==> AsMap(a)[name] == AsMap(b)[name]
      {
        if name in AsMap(a) { assert (name, AsMap(a)[name]) in b; }
        if name in AsMap(b) { assert (name, AsMap(b)[name]) in a; }
      }
    }
  }

  // ----- canonical queries

  /** Reading a canonical query gives the accepted pairs, sorted. */
  lemma CanonicalQueryDecodes(query: string)
    requires DecodeQuery(query).Ok?
    ensures DecodeQuery(CanonicalQuery(query).value) == Ok(Sort(QuotedLe, DecodeQuery(query).value))
    ensures Accepted(Sort(QuotedLe, DecodeQuery(query).value))
  {
    var pairs := DecodeQuery(query).value;
    var sorted := Sort(QuotedLe, pairs);
    QueryAccepted(query);
    QuotedOrder();
    SortSorts(QuotedLe, pairs);
    SortQuoted(pairs);
    SortedAccepted(pairs);
    if sorted != [] {
      assert [] + sorted == sorted;
      RenderedPairs(sorted, []);
      JoinedText(sorted);
    }
  }

  lemma Twice(pairs: seq<Pair>, i: nat, j: nat)
    requires i < j < |pairs| && pairs[i] == pairs[j]
    ensures multiset(pairs)[pairs[i]] >= 2
  {
    var rest := pairs[i + 1..];
    assert pairs == pairs[..i] + ([pairs[i]] + rest);
    assert rest[j - i - 1] == pairs[i] && multiset(rest)[pairs[i]] >= 1;
  }

  lemma SortedAccepted(pairs: seq<Pair>)
    requires Accepted(pairs)
    ensures Accepted(Sort(QuotedLe, pairs))
  {
    var sorted := Sort(QuotedLe, pairs);
    QuotedOrder();
    SortSorts(QuotedLe, pairs);
    DistinctMultiset(pairs);
    forall i, j | 0 <= i < j < |sorted| && sorted[i].0 == sorted[j].0 ensures false {
      MapDecidesMembers(pairs, sorted[i]);
      MapDecidesMembers(pairs, sorted[j]);
      assert sorted[i] in pairs && sorted[j] in pairs;
      Twice(sorted, i, j);
    }
    forall i | 0 <= i < |sorted| ensures CleanPair(sorted[i]) {
      assert sorted[i] in pairs;
    }
  }

  /** Two accepted queries have the same canonical form exactly when they denote the same map. */
  lemma QueriesDecideMeaning(q1: string, q2: string)
    requires DecodeQuery(q1).Ok? && DecodeQuery(q2).Ok?
    ensures CanonicalQuery(q1) == CanonicalQuery(q2)
       <==> AsMap(DecodeQuery(q1).value) == AsMap(DecodeQuery(q2).value)
  {
    var a, b := DecodeQuery(q1).value, DecodeQuery(q2).value;
    QueryAccepted(q1);
    QueryAccepted(q2);
    SameMapSamePairs(a, b);
    QuotedOrder();
    if multiset(a) == multiset(b) {
      SortIgnoresOrder(QuotedLe, a, b);
      SortQuoted(a);
      SortQuoted(b);
    }
    if CanonicalQuery(q1) == CanonicalQuery(q2) {
      CanonicalQueryDecodes(q1);
      CanonicalQueryDecodes(q2);
      SortSorts(QuotedLe, a);
      SortSorts(QuotedLe, b);
    }
  }

  lemma CanonicalQueryFixed(query: string)
    requires CanonicalQuery(query).Ok?
    ensures CanonicalQuery(CanonicalQuery(query).value) == CanonicalQuery(query)
  {
    var sorted := Sort(QuotedLe, DecodeQuery(query).value);
    CanonicalQueryDecodes(query);
    QuotedOrder();
    SortSorts(QuotedLe, DecodeQuery(query).value);
    SortOfSorted(QuotedLe, sorted);
    SortQuoted(sorted);
    SortQuoted(DecodeQuery(query).value);
  }

  /** `_canonicalize_query`: one pass over the components. */
  method CanonicalizeQuery(query: string) returns (r: Result<string>)
    ensures r == CanonicalQuery(query)
  {
    if query == "" {
      return Ok("");
    }
    var components := Split(query, '&');
    var pairs: seq<(string, string)> := [];
    var decodedNames: set<seq<Byte>> := {};
    ghost var decoded: seq<Pair> := [];
    var i := 0;
    while i < |components|
      invariant 0 <= i <= |components|
      invariant DecodeComponents(components, []) == DecodeComponents(components[i..], decoded)
      invariant pairs == QuotePairs(decoded)
      invariant forall n :: n in decodedNames <==> HasName(decoded, n)
    {
      var (name, rest) := Cut(components[i], '=');
      if rest == "" {
        return Err;
      }
      var decodedName := StrictPercentDecode(name);
      var decodedValue := StrictPercentDecode(rest[1..]);
      if decodedName.Err? || decodedValue.Err? || decodedName.value == [] || decodedName.value in decodedNames {
        return Err;
      }
      ghost var p: Pair := (decodedName.value, decodedValue.value);
      QuotePairsAppend(decoded, p);
      NamesAppend(decoded, p);
      assert components[i..][1..] == components[i + 1..];
      decodedNames := decodedNames + {decodedName.value};
      pairs := pairs + [(Quote(decodedName.value, false), Quote(decodedValue.value, false))];
      decoded := decoded + [p];
      i := i + 1;
    }
    r := Ok(JoinPairs(Sort(PairLe, pairs)));
  }

  lemma {:induction false} QuotePairsAppend(pairs: seq<Pair>, p: Pair)
    ensures QuotePairs(pairs + [p]) == QuotePairs(pairs) + [QuotePair(p)]
  {
    if pairs == [] {
      assert pairs + [p] == [p];
    } else {
      QuotePairsAppend(pairs[1..], p);
      assert (pairs + [p])[1..] == pairs[1..] + [p];
    }
  }

  lemma NamesAppend(pairs: seq<Pair>, p: Pair)
    ensures forall n :: HasName(pairs + [p], n) <==> HasName(pairs, n) || n == p.0
  {
    forall n ensures HasName(pairs + [p], n) <==> HasName(pairs, n) || n == p.0 {
      var all := pairs + [p];
      assert all[|pairs|] == p;
      assert forall i :: 0 <= i < |pairs| ==> all[i] == pairs[i];
    }
  }

  // ----- whole targets

  datatype Canonical = Canonical(path: string, query: string)

  function CanonicalTarget(raw: string): Result<Canonical> {
    if raw == "" || raw[0] != '/' || '#' in raw then Err
    else
      var (path, rest) := Cut(raw, '?');
      var query := if rest == "" then "" else rest[1..];
      if '?' in query then Err
      else
        match (CanonicalPath(path), CanonicalQuery(query))
        case (Ok(p), Ok(q)) => Ok(Canonical(p, q))
        case _ => Err
  }

  /** The bytes of the path and the finite map of the query. */
  datatype Meaning = Meaning(path: seq<Byte>, query: map<seq<Byte>, seq<Byte>>)

  function TargetMeaning(raw: string): Meaning
    requires CanonicalTarget(raw).Ok?
  {
    var (path, rest) := Cut(raw, '?');
    var query := if rest == "" then "" else rest[1..];
    Meaning(DecodePath(path).value, AsMap(DecodeQuery(query).value))
  }

  /** Accepted targets share a canonical pair exactly when they mean the same. */
  lemma CanonicalDecidesMeaning(t1: string, t2: string)
    requires CanonicalTarget(t1).Ok? && CanonicalTarget(t2).Ok?
    ensures CanonicalTarget(t1) == CanonicalTarget(t2) <==> TargetMeaning(t1) == TargetMeaning(t2)
  {
    var (p1, r1) := Cut(t1, '?');
    var (p2, r2) := Cut(t2, '?');
    var q1 := if r1 == "" then "" else r1[1..];
    var q2 := if r2 == "" then "" else r2[1..];
    QueriesDecideMeaning(q1, q2);
    QuoteDecodes(DecodePath(p1).value, true);
    QuoteDecodes(DecodePath(p2).value, true);
  }

  function PrintTarget(c: Canonical): string {
    if c.query == "" then c.path else c.path + "?" + c.query
  }

  lemma {:induction false} JoinedAlphabet(pairs: seq<Pair>)
    ensures forall c :: c in JoinPairs(QuotePairs(pairs)) ==> IsQuotedChar(c) || c == '=' || c == '&'
  {
    if pairs != [] {
      QuoteAlphabet(pairs[0].0, false);
      QuoteAlphabet(pairs[0].1, false);
      JoinedAlphabet(pairs[1..]);
      assert QuotePairs(pairs)[1..] == QuotePairs(pairs[1..]);
    }
  }

  lemma {:induction false} PathStart(path: string)
    requires path != "" && path[0] == '/' && RawDecode(path).Ok?
    ensures RawDecode(path).value != [] && RawDecode(path).value[0] == '/' as int
  {
  }

  lemma CanonicalPieces(raw: string)
    requires CanonicalTarget(raw).Ok?
    ensures var c := CanonicalTarget(raw).value;
            && CanonicalPath(c.path) == Ok(c.path) && CanonicalQuery(c.query) == Ok(c.query)
            && c.path != "" && c.path[0] == '/'
            && (forall x :: x in c.path ==> IsQuotedChar(x))
            && (forall x :: x in c.query ==> IsQuotedChar(x) || x == '=' || x == '&')
  {
    var (path, rest) := Cut(raw, '?');
    var query := if rest == "" then "" else rest[1..];
    PathStart(path);
    CanonicalPathFixed(path);
    QuoteAlphabet(DecodePath(path).value, true);
    CanonicalQueryFixed(query);
    SortQuoted(DecodeQuery(query).value);
    JoinedAlphabet(Sort(QuotedLe, DecodeQuery(query).value));
  }

  /** Canonicalising the printed result succeeds and changes nothing. */
  lemma CanonicalTargetFixed(raw: string)
    requires CanonicalTarget(raw).Ok?
    ensures CanonicalTarget(PrintTarget(CanonicalTarget(raw).value)) == CanonicalTarget(raw)
  {
    var c := CanonicalTarget(raw).value;
    CanonicalPieces(raw);
    assert '?' !in c.path && '?' !in c.query && '#' !in c.path && '#' !in c.query;
    PrintedCut(c);
  }

  lemma PrintedCut(c: Canonical)
    requires '?' !in c.path
    ensures Cut(PrintTarget(c), '?') == (c.path, if c.query == "" then "" else "?" + c.query)
    ensures ("?" + c.query)[1..] == c.query
  {
    if c.query == "" {
      CutMissing(c.path, '?');
    } else {
      CutAt(c.path, '?', c.query);
    }
  }

  /** The printed form is itself a target with this canonical pair and this meaning, and the
      accepted targets with this canonical pair are those that mean the same. */
  ghost predicate StandsFor(c: Canonical, raw: string)
    requires CanonicalTarget(raw).Ok?
  {
    && CanonicalTarget(PrintTarget(c)) == Ok(c) && TargetMeaning(PrintTarget(c)) == TargetMeaning(raw)
    && forall other :: CanonicalTarget(other).Ok? ==>
         (CanonicalTarget(other) == Ok(c) <==> TargetMeaning(other) == TargetMeaning(raw))
  }

  lemma CanonicalStandsFor(raw: string)
    requires CanonicalTarget(raw).Ok?
    ensures StandsFor(CanonicalTarget(raw).value, raw)
  {
    var c := CanonicalTarget(raw).value;
    CanonicalTargetFixed(raw);
    CanonicalDecidesMeaning(PrintTarget(c), raw);
    forall other | CanonicalTarget(other).Ok?
      ensures CanonicalTarget(other) == Ok(c) <==> TargetMeaning(other) == TargetMeaning(raw)
    {
      CanonicalDecidesMeaning(other, raw);
    }
  }

  /** `canonicalize_request_target`. */
  method CanonicalizeRequestTarget(raw: string) returns (r: Result<Canonical>)
    ensures r == CanonicalTarget(raw)
    ensures r.Ok? ==> StandsFor(r.value, raw)
  {
    if raw == "" || raw[0] != '/' || '#' in raw {
      return Err;
    }
    var (path, rest) := Cut(raw, '?');
    var query := if rest == "" then "" else rest[1..];
    if '?' in query {
      return Err;
    }
    var q := CanonicalizeQuery(query);
    r := match (CanonicalPath(path), q) { case (Ok(p), Ok(q)) => Ok(Canonical(p, q)) case _ => Err };
    if r.Ok? {
      CanonicalStandsFor(raw);
    }
  }
}
