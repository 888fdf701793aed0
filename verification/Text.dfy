/** Splitting and joining text, as `str.split`, `str.partition`, `str.count` and `str.join` do. */
module Text {
  function Split(s: string, separator: char): (parts: seq<string>)
    ensures parts != []
  {
    if s == "" then [""]
    else
      var rest := Split(s[1..], separator);
      if s[0] == separator then [""] + rest else [[s[0]] + rest[0]] + rest[1..]
  }

  /** The text before the first `c`, and the rest from that `c` on. */
  function Cut(s: string, c: char): (string, string) {
    if s == "" || s[0] == c then ("", s)
    else var (a, b) := Cut(s[1..], c); ([s[0]] + a, b)
  }

  function Count(s: string, c: char): nat {
    if s == "" then 0 else (if s[0] == c then 1 else 0) + Count(s[1..], c)
  }

  function Join(parts: seq<string>, separator: char): string {
    if parts == [] then ""
    else if |parts| == 1 then parts[0]
    else parts[0] + [separator] + Join(parts[1..], separator)
  }

  lemma {:induction false} SplitWhole(s: string, c: char)
    requires c !in s
    ensures Split(s, c) == [s]
  {
    if s != "" {
      SplitWhole(s[1..], c);
      assert s == [s[0]] + s[1..];
    }
  }

  lemma {:induction false} SplitFirst(s: string, c: char, rest: string)
    requires c !in s
    ensures Split(s + [c] + rest, c) == [s] + Split(rest, c)
  {
    if s == "" {
      assert s + [c] + rest == [c] + rest;
    } else {
      SplitFirst(s[1..], c, rest);
      assert s == [s[0]] + s[1..];
      assert (s + [c] + rest)[1..] == s[1..] + [c] + rest;
    }
  }

  lemma {:induction false} CutAt(a: string, c: char, b: string)
    requires c !in a
    ensures Cut(a + [c] + b, c) == (a, [c] + b)
  {
    if a == "" {
      assert a + [c] + b == [c] + b;
    } else {
      CutAt(a[1..], c, b);
      assert a == [a[0]] + a[1..];
      assert (a + [c] + b)[1..] == a[1..] + [c] + b;
    }
  }

  lemma {:induction false} CutMissing(s: string, c: char)
    requires c !in s
    ensures Cut(s, c) == (s, "")
  {
    if s != "" {
      CutMissing(s[1..], c);
      assert s == [s[0]] + s[1..];
    }
  }

  lemma {:induction false} CutRejoins(s: string, c: char)
    ensures s == Cut(s, c).0 + Cut(s, c).1 && c !in Cut(s, c).0
    ensures c in s ==> Cut(s, c).1 != "" && Cut(s, c).1[0] == c
  {
    if s != "" && s[0] != c {
      CutRejoins(s[1..], c);
      var front, back := Cut(s[1..], c).0, Cut(s[1..], c).1;
      assert s == [s[0]] + s[1..] == ([s[0]] + front) + back;
      assert Cut(s, c) == ([s[0]] + front, back);
    }
  }

  lemma {:induction false} CountNone(s: string, c: char)
    ensures Count(s, c) == 0 <==> c !in s
  {
    if s != "" {
      CountNone(s[1..], c);
      assert s == [s[0]] + s[1..];
    }
  }

  lemma {:induction false} CountAt(a: string, c: char, b: string)
    requires c !in a
    ensures Count(a + [c] + b, c) == 1 + Count(b, c)
  {
    if a == "" {
      assert (a + [c] + b)[1..] == b;
    } else {
      CountAt(a[1..], c, b);
      assert (a + [c] + b)[1..] == a[1..] + [c] + b;
      assert a == [a[0]] + a[1..];
    }
  }

  /** Splitting undoes joining when no part holds the separator. */
  lemma {:induction false} SplitJoin(parts: seq<string>, separator: char)
    requires parts != [] && forall i :: 0 <= i < |parts| ==> separator !in parts[i]
    ensures Split(Join(parts, separator), separator) == parts
  {
    if |parts| == 1 {
      SplitWhole(parts[0], separator);
    } else {
      SplitFirst(parts[0], separator, Join(parts[1..], separator));
      SplitJoin(parts[1..], separator);
    }
  }
}
