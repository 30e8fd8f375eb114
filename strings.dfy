/**
 * The parts of Go's `strings` and `sort` packages, and of `fmt` number formatting,
 * that the clustering and writing code relies on. Strings are sequences of Unicode
 * scalar values; comparing them code point by code point orders them exactly as Go
 * orders their UTF-8 bytes. Lengths and positions count characters where Go counts
 * bytes; the two agree on ASCII text.
 */
module Strings {

  /** `strings.Join`: the parts with `sep` between each two neighbours. */
  function Join(parts: seq<string>, sep: string): string
  {
    if parts == [] then ""
    else if |parts| == 1 then parts[0]
    else parts[0] + sep + Join(parts[1..], sep)
  }

  /** `strings.LastIndex` for one character: the last position of `c`, or -1. */
  function LastIndexOf(s: string, c: char): (i: int)
    ensures -1 <= i < |s|
    ensures i == -1 <==> c !in s
    ensures 0 <= i ==> i < |s| && s[i] == c && c !in s[i + 1..]
  {
    if s == [] then -1
    else if s[|s| - 1] == c then |s| - 1
    else
      var t := s[..|s| - 1];
      var i := LastIndexOf(t, c);
      assert s == t + [s[|s| - 1]];
      assert 0 <= i ==> s[i + 1..] == t[i + 1..] + [s[|s| - 1]];
      i
  }

  /**
   * `strings.Split` on a one-character separator. Like Go's, it always yields at
   * least one part, and the empty string splits into one empty part.
   */
  function Split(s: string, sep: char): (parts: seq<string>)
    ensures |parts| >= 1
    ensures forall k :: 0 <= k < |parts| ==> sep !in parts[k]
  {
    if s == [] then [""]
    else if s[0] == sep then [""] + Split(s[1..], sep)
    else [[s[0]] + Split(s[1..], sep)[0]] + Split(s[1..], sep)[1..]
  }

  /** Joining what `Split` cut gives back the original string. */
  lemma {:induction false} JoinSplit(s: string, sep: char)
    ensures Join(Split(s, sep), [sep]) == s
  {
    if s != [] {
      var rest := Split(s[1..], sep);
      JoinSplit(s[1..], sep);
      if s[0] == sep {
        JoinCons("", rest, [sep]);
      } else {
        JoinFirst([s[0]], rest, [sep]);
      }
      assert s == [s[0]] + s[1..];
    }
  }

  /** Joining a part in front of at least one more. */
  lemma JoinCons(head: string, rest: seq<string>, sep: string)
    requires rest != []
    ensures Join([head] + rest, sep) == head + sep + Join(rest, sep)
  {
    assert ([head] + rest)[1..] == rest;
  }

  /** Extending the first part extends the join at its front. */
  lemma JoinFirst(w: string, parts: seq<string>, sep: string)
    requires parts != []
    ensures Join([w + parts[0]] + parts[1..], sep) == w + Join(parts, sep)
  {
    if |parts| > 1 {
      JoinCons(w + parts[0], parts[1..], sep);
    }
  }

  /** Splitting `w + t` for a separator-free `w`: `w` lands at the front of the first part. */
  lemma {:induction false} SplitFront(w: string, t: string, sep: char)
    requires sep !in w
    ensures Split(w + t, sep) == [w + Split(t, sep)[0]] + Split(t, sep)[1..]
  {
    var q := Split(t, sep);
    if w == [] {
      assert w + t == t && w + q[0] == q[0];
      assert q == [q[0]] + q[1..];
    } else {
      var u := w[1..] + t;
      assert (w + t)[0] == w[0] && (w + t)[1..] == u;
      assert sep !in w[1..] by {
        assert forall k :: 0 <= k < |w[1..]| ==> w[1..][k] == w[k + 1];
      }
      SplitFront(w[1..], t, sep);
      var p := Split(u, sep);
      assert p[0] == w[1..] + q[0] && p[1..] == q[1..];
      assert [w[0]] + (w[1..] + q[0]) == w + q[0];
    }
  }

  /** Splitting a join of separator-free parts gives back the parts. */
  lemma {:induction false} SplitJoin(parts: seq<string>, sep: char)
    requires |parts| >= 1
    requires forall k :: 0 <= k < |parts| ==> sep !in parts[k]
    ensures Split(Join(parts, [sep]), sep) == parts
  {
    if |parts| == 1 {
      SplitFront(parts[0], [], sep);
      assert parts[0] + [] == parts[0] && parts[0] + "" == parts[0];
      assert Split([], sep) == [""];
      assert [parts[0] + ""] + [""][1..] == parts;
    } else {
      var rest := parts[1..];
      SplitJoin(rest, sep);
      JoinCons(parts[0], rest, [sep]);
      var t := Join(rest, [sep]);
      SplitFront(parts[0], [sep] + t, sep);
      assert ([sep] + t)[0] == sep && ([sep] + t)[1..] == t;
      var q := Split([sep] + t, sep);
      assert q == [""] + rest;
      assert q[0] == "" && q[1..] == rest && parts[0] + "" == parts[0];
      assert parts[0] + [sep] + t == parts[0] + ([sep] + t);
      assert parts == [parts[0]] + rest;
    }
  }

  /** Every character of `s`, with `from` replaced by `to` (`strings.ReplaceAll` for one character). */
  function ReplaceChar(s: string, from: char, to: char): (r: string)
    ensures |r| == |s|
    ensures forall k :: 0 <= k < |s| ==> r[k] == if s[k] == from then to else s[k]
  {
    if s == [] then [] else [if s[0] == from then to else s[0]] + ReplaceChar(s[1..], from, to)
  }

  /** No element occurs twice. */
  ghost predicate Distinct<T>(s: seq<T>)
  {
    forall i, j :: 0 <= i < j < |s| ==> s[i] != s[j]
  }

  /** Code-point lexicographic order: a prefix comes first, otherwise the first differing character decides. */
  predicate StrLe(a: string, b: string)
  {
    a == [] || (b != [] && (a[0] < b[0] || (a[0] == b[0] && StrLe(a[1..], b[1..]))))
  }

  lemma {:induction false} StrLeTotal(a: string, b: string)
    ensures StrLe(a, b) || StrLe(b, a)
  {
    if a != [] && b != [] && a[0] == b[0] {
      StrLeTotal(a[1..], b[1..]);
    }
  }

  lemma {:induction false} StrLeAntisymmetric(a: string, b: string)
    requires StrLe(a, b) && StrLe(b, a)
    ensures a == b
  {
    if a != [] && b != [] {
      StrLeAntisymmetric(a[1..], b[1..]);
      assert a == [a[0]] + a[1..] && b == [b[0]] + b[1..];
    }
  }

  lemma {:induction false} StrLeTransitive(a: string, b: string, c: string)
    requires StrLe(a, b) && StrLe(b, c)
    ensures StrLe(a, c)
  {
    if a != [] && b != [] && c != [] && a[0] == b[0] && b[0] == c[0] {
      StrLeTransitive(a[1..], b[1..], c[1..]);
    }
  }

  /** Ascending in code-point order. */
  ghost predicate Ascending(s: seq<string>)
  {
    forall i, j :: 0 <= i < j < |s| ==> StrLe(s[i], s[j])
  }

  /** Inserts `x` into an ascending sequence, before the first element above it. */
  function Insert(x: string, s: seq<string>): (r: seq<string>)
    requires Ascending(s)
    ensures Ascending(r)
    ensures multiset(r) == multiset(s) + multiset{x}
  {
    if s == [] then [x]
    else if StrLe(x, s[0]) then
      InsertFront(x, s);
      [x] + s
    else
      var rest := Insert(x, s[1..]);
      StrLeTotal(x, s[0]);
      InsertBehind(x, s, rest);
      [s[0]] + rest
  }

  lemma InsertFront(x: string, s: seq<string>)
    requires Ascending(s) && s != [] && StrLe(x, s[0])
    ensures Ascending([x] + s)
  {
    forall j | 0 < j < |s| ensures StrLe(x, s[j]) {
      StrLeTransitive(x, s[0], s[j]);
    }
  }

  lemma InsertBehind(x: string, s: seq<string>, rest: seq<string>)
    requires Ascending(s) && s != [] && StrLe(s[0], x)
    requires Ascending(rest) && multiset(rest) == multiset(s[1..]) + multiset{x}
    ensures Ascending([s[0]] + rest)
    ensures multiset([s[0]] + rest) == multiset(s) + multiset{x}
  {
    forall j | 0 <= j < |rest| ensures StrLe(s[0], rest[j]) {
      var y := rest[j];
      assert y in multiset(rest);
      if y != x {
        assert y in multiset(s[1..]);
        var k :| 0 <= k < |s[1..]| && s[1..][k] == y;
        assert s[k + 1] == y;
      }
    }
    assert s == [s[0]] + s[1..];
  }

  /** `sort.Strings`: the same names, ascending. */
  function SortStrings(s: seq<string>): (r: seq<string>)
    ensures Ascending(r)
    ensures multiset(r) == multiset(s)
  {
    if s == [] then []
    else
      assert s == [s[0]] + s[1..];
      Insert(s[0], SortStrings(s[1..]))
  }

  /** Decimal digits of a natural number, as `fmt`'s `%d` prints it. */
  function NatToString(n: nat): (r: string)
    ensures r != []
    ensures forall k :: 0 <= k < |r| ==> '0' <= r[k] <= '9'
  {
    var d := [('0' as int + n % 10) as char];
    if n < 10 then d else NatToString(n / 10) + d
  }

  /** The value of a string of decimal digits. */
  function DigitsValue(s: string): int
  {
    if s == [] then 0 else DigitsValue(s[..|s| - 1]) * 10 + (s[|s| - 1] as int - '0' as int)
  }

  lemma {:induction false} NatToStringValue(n: nat)
    ensures DigitsValue(NatToString(n)) == n
  {
    var r := NatToString(n);
    if n >= 10 {
      NatToStringValue(n / 10);
      assert r[..|r| - 1] == NatToString(n / 10);
    }
  }

  /** `%q` for strings without control characters: wrapped in quotes, with `"` and `\` escaped. */
  function Quote(s: string): string
  {
    "\"" + Escape(s) + "\""
  }

  function Escape(s: string): string
  {
    if s == [] then ""
    else (if s[0] == '"' || s[0] == '\\' then ['\\', s[0]] else [s[0]]) + Escape(s[1..])
  }
}
