/** Byte strings as the gateway compares them: SQLite's BINARY collation and Go's
    `<` on strings are both this lexicographic order. */
module Texts {

  datatype Option<+T> = None | Some(value: T)

  predicate Less(a: string, b: string) {
    if b == "" then false
    else if a == "" then true
    else a[0] < b[0] || (a[0] == b[0] && Less(a[1..], b[1..]))
  }

  predicate AtMost(a: string, b: string) { a == b || Less(a, b) }

  lemma {:induction false} LessIrreflexive(a: string)
    ensures !Less(a, a)
  {
    if a != "" { LessIrreflexive(a[1..]); }
  }

  lemma {:induction false} LessTotal(a: string, b: string)
    ensures Less(a, b) || a == b || Less(b, a)
  {
    if a != "" && b != "" && a[0] == b[0] {
      LessTotal(a[1..], b[1..]);
      assert a == [a[0]] + a[1..] && b == [b[0]] + b[1..];
    }
  }

  lemma {:induction false} LessTransitive(a: string, b: string, c: string)
    requires Less(a, b) && Less(b, c)
    ensures Less(a, c)
  {
    if a != "" && a[0] == b[0] && b[0] == c[0] {
      LessTransitive(a[1..], b[1..], c[1..]);
    }
  }

  lemma AtMostTransitive(a: string, b: string, c: string)
    ensures AtMost(a, b) && AtMost(b, c) ==> AtMost(a, c)
  {
    if Less(a, b) && Less(b, c) { LessTransitive(a, b, c); }
  }

  lemma LessAsymmetric(a: string, b: string)
    requires Less(a, b)
    ensures !Less(b, a) && a != b
  {
    LessIrreflexive(a);
    if Less(b, a) { LessTransitive(a, b, a); }
  }

  /** Texts built from fields of equal width compare field by field. */
  lemma {:induction false} LessByField(a: string, b: string, x: string, y: string)
    requires |a| == |b|
    ensures Less(a + x, b + y) <==> Less(a, b) || (a == b && Less(x, y))
  {
    if a == "" {
      assert a + x == x && b + y == y;
    } else {
      LessByField(a[1..], b[1..], x, y);
      assert (a + x)[1..] == a[1..] + x && (b + y)[1..] == b[1..] + y;
      assert a == [a[0]] + a[1..] && b == [b[0]] + b[1..];
    }
  }

  /** What stands before the first occurrence of a separator is determined. */
  lemma CutUnique<T>(a: seq<T>, b: seq<T>, sep: T, x: seq<T>, y: seq<T>)
    requires sep !in a && sep !in b
    requires a + [sep] + x == b + [sep] + y
    ensures a == b && x == y
  {
    var l, r := a + [sep] + x, b + [sep] + y;
    assert l[|a|] == sep && r[|b|] == sep;
    assert forall i :: 0 <= i < |a| ==> l[i] == a[i];
    assert forall i :: 0 <= i < |b| ==> r[i] == b[i];
    assert |a| == |b|;
    assert a == l[..|a|] && b == r[..|b|];
    assert x == l[|a| + 1..] && y == r[|b| + 1..];
  }

  lemma Associate<T>(a: seq<T>, b: seq<T>, c: seq<T>)
    ensures a + (b + c) == (a + b) + c
  {
  }

  // Lists in one text ------------------------------------------------------------

  /** strings.Split with a separator of one character. */
  function Split(s: string, sep: char): (parts: seq<string>)
    ensures |parts| > 0
  {
    if s == "" then [""]
    else if s[0] == sep then [""] + Split(s[1..], sep)
    else
      var rest := Split(s[1..], sep);
      [[s[0]] + rest[0]] + rest[1..]
  }

  /** strings.Join with a separator of one character. */
  function Join(parts: seq<string>, sep: char): string {
    if parts == [] then ""
    else if |parts| == 1 then parts[0]
    else parts[0] + [sep] + Join(parts[1..], sep)
  }

  /** Splitting undoes joining, if no part holds the separator. */
  lemma {:induction false} SplitOfJoin(parts: seq<string>, sep: char)
    requires parts != [] && forall p <- parts :: sep !in p
    ensures Split(Join(parts, sep), sep) == parts
    decreases parts
  {
    if |parts| == 1 {
      SplitFirst(parts[0], "", sep, false);
      assert parts[0] + "" == parts[0];
    } else {
      SplitOfJoin(parts[1..], sep);
      SplitFirst(parts[0], Join(parts[1..], sep), sep, true);
    }
  }

  lemma {:induction false} SplitFirst(part: string, rest: string, sep: char, more: bool)
    requires sep !in part
    ensures more ==> Split(part + [sep] + rest, sep) == [part] + Split(rest, sep)
    ensures !more ==> Split(part, sep) == [part]
    decreases |part|
  {
    if part == "" {
      assert ("" + [sep] + rest)[1..] == rest;
    } else {
      SplitFirst(part[1..], rest, sep, more);
      assert (part + [sep] + rest)[1..] == part[1..] + [sep] + rest;
      assert [part[0]] + part[1..] == part;
    }
  }

  lemma JoinLonger(x: string, rest: seq<string>, sep: char)
    requires rest != []
    ensures Join([x + rest[0]] + rest[1..], sep) == x + Join(rest, sep)
    ensures Join([""] + rest, sep) == [sep] + Join(rest, sep)
  {
    var longer := [x + rest[0]] + rest[1..];
    assert longer[1..] == rest[1..] && ([""] + rest)[1..] == rest;
    if |rest| > 1 {
      var tail := [sep] + Join(rest[1..], sep);
      assert (x + rest[0]) + [sep] + Join(rest[1..], sep) == (x + rest[0]) + tail;
      assert Join(longer, sep) == (x + rest[0]) + tail;
      assert Join(rest, sep) == rest[0] + tail;
      assert (x + rest[0]) + tail == x + (rest[0] + tail);
    }
  }

  /** Joining undoes splitting. */
  lemma {:induction false} JoinOfSplit(s: string, sep: char)
    ensures Join(Split(s, sep), sep) == s
    ensures forall p <- Split(s, sep) :: sep !in p
  {
    if s != "" {
      JoinOfSplit(s[1..], sep);
      hide Join;
      var rest := Split(s[1..], sep);
      JoinLonger([s[0]], rest, sep);
      assert s == [s[0]] + s[1..];
      assert rest[0] in rest;
      assert forall p <- rest[1..] :: p in rest;
    }
  }

  // White space -----------------------------------------------------------------

  /** The white space of Go's unicode.IsSpace that is a single byte. */
  predicate IsSpace(c: char) { c in {' ', '\t', '\n', '\r', '\U{b}', '\U{c}'} }

  /** The UTF-8 of U+0085 and U+00A0. */
  predicate TwoByteSpace(a: char, b: char) { a == '\U{c2}' && (b == '\U{85}' || b == '\U{a0}') }

  /** The UTF-8 of U+1680, U+2000 to U+200A, U+2028, U+2029, U+202F, U+205F and U+3000. */
  predicate ThreeByteSpace(a: char, b: char, c: char) {
    || (a == '\U{e1}' && b == '\U{9a}' && c == '\U{80}')
    || (a == '\U{e2}' && b == '\U{80}' && ('\U{80}' <= c <= '\U{8a}' || c in {'\U{a8}', '\U{a9}', '\U{af}'}))
    || (a == '\U{e2}' && b == '\U{81}' && c == '\U{9f}')
    || (a == '\U{e3}' && b == '\U{80}' && c == '\U{80}')
  }

  /** The length of the white space character a text starts with, or none. No such character
      starts inside another one, so going byte by byte finds the same as going rune by rune. */
  function SpaceAt(s: string): (n: nat)
    ensures n <= |s|
    ensures s != "" && IsSpace(s[0]) ==> n == 1
  {
    if s != "" && IsSpace(s[0]) then 1
    else if |s| >= 2 && TwoByteSpace(s[0], s[1]) then 2
    else if |s| >= 3 && ThreeByteSpace(s[0], s[1], s[2]) then 3
    else 0
  }

  /** The same at the end of a text. */
  function SpaceBefore(s: string): (n: nat)
    ensures n <= |s|
  {
    var e := |s|;
    if e >= 1 && IsSpace(s[e - 1]) then 1
    else if e >= 2 && TwoByteSpace(s[e - 2], s[e - 1]) then 2
    else if e >= 3 && ThreeByteSpace(s[e - 3], s[e - 2], s[e - 1]) then 3
    else 0
  }

  function TrimLeft(s: string): string {
    if SpaceAt(s) > 0 then TrimLeft(s[SpaceAt(s)..]) else s
  }

  function TrimRight(s: string): string {
    if SpaceBefore(s) > 0 then TrimRight(s[..|s| - SpaceBefore(s)]) else s
  }

  function Trim(s: string): string { TrimRight(TrimLeft(s)) }

  // Sorting -------------------------------------------------------------------

  ghost predicate Sorted(s: seq<string>) {
    forall i, j :: 0 <= i < j < |s| ==> AtMost(s[i], s[j])
  }

  ghost predicate StrictlySorted(s: seq<string>) {
    forall i, j :: 0 <= i < j < |s| ==> Less(s[i], s[j])
  }

  lemma StrictlySortedDistinct(s: seq<string>)
    requires StrictlySorted(s)
    ensures forall i, j :: 0 <= i < j < |s| ==> s[i] != s[j]
  {
    forall i, j | 0 <= i < j < |s| ensures s[i] != s[j] {
      LessIrreflexive(s[i]);
    }
  }

  lemma SortedDistinctStrict(s: seq<string>)
    requires Sorted(s) && forall i, j :: 0 <= i < j < |s| ==> s[i] != s[j]
    ensures StrictlySorted(s)
  {
    forall i, j | 0 <= i < j < |s| ensures Less(s[i], s[j]) {
      assert AtMost(s[i], s[j]);
    }
  }

  /** A strictly sorted list is determined by the set of its members. */
  lemma {:induction false} StrictlySortedUnique(a: seq<string>, b: seq<string>)
    requires StrictlySorted(a) && StrictlySorted(b)
    requires forall x :: x in a <==> x in b
    ensures a == b
  {
    assert a != [] ==> a[0] in b;
    assert b != [] ==> b[0] in a;
    if a != [] && b != [] {
      if a[0] != b[0] {
        var i :| 0 <= i < |b| && b[i] == a[0];
        var j :| 0 <= j < |a| && a[j] == b[0];
        assert Less(b[0], b[i]) && Less(a[0], a[j]);
        LessAsymmetric(a[0], b[0]);
      }
      forall x ensures x in a[1..] <==> x in b[1..] {
        LessIrreflexive(a[0]);
        assert a == [a[0]] + a[1..] && b == [b[0]] + b[1..];
        if x in a[1..] {
          var i :| 0 <= i < |a| - 1 && a[1..][i] == x;
          assert Less(a[0], a[i + 1]);
          assert x in b;
        }
        if x in b[1..] {
          var i :| 0 <= i < |b| - 1 && b[1..][i] == x;
          assert Less(b[0], b[i + 1]);
          assert x in a;
        }
      }
      StrictlySortedUnique(a[1..], b[1..]);
      assert a == [a[0]] + a[1..] && b == [b[0]] + b[1..];
    }
  }

  /** A sorted list is determined by how often each member occurs. */
  lemma {:induction false} SortedUnique(a: seq<string>, b: seq<string>)
    requires Sorted(a) && Sorted(b) && multiset(a) == multiset(b)
    ensures a == b
  {
    assert |multiset(a)| == |a| && |multiset(b)| == |b|;
    if a != [] {
      FirstOf(a);
      FirstOf(b);
      SameFirst(a, b);
      SortedUnique(a[1..], b[1..]);
    }
  }

  lemma FirstOf(a: seq<string>)
    requires a != []
    ensures a[0] in multiset(a) && multiset(a[1..]) == multiset(a) - multiset{a[0]}
    ensures a == [a[0]] + a[1..]
  {
    assert a == [a[0]] + a[1..];
  }

  lemma SameFirst(a: seq<string>, b: seq<string>)
    requires Sorted(a) && Sorted(b) && a != [] && b != [] && a[0] in b && b[0] in a
    ensures a[0] == b[0]
  {
    var i :| 0 <= i < |b| && b[i] == a[0];
    var j :| 0 <= j < |a| && a[j] == b[0];
    if a[0] != b[0] {
      assert AtMost(b[0], b[i]) && AtMost(a[0], a[j]);
      LessAsymmetric(a[0], b[0]);
    }
  }

  /** The library sort: any sort that returns an ordered rearrangement. */
  method Sort(items: seq<string>) returns (sorted: seq<string>)
    ensures Sorted(sorted)
    ensures multiset(sorted) == multiset(items)
  {
    sorted := [];
    for n := 0 to |items|
      invariant Sorted(sorted)
      invariant multiset(sorted) == multiset(items[..n])
    {
      sorted := Insert(sorted, items[n]);
      assert items[..n + 1] == items[..n] + [items[n]];
    }
    assert items[..|items|] == items;
  }

  method Insert(s: seq<string>, x: string) returns (r: seq<string>)
    requires Sorted(s)
    ensures Sorted(r) && multiset(r) == multiset(s) + multiset{x}
  {
    hide Less, Sorted;
    var k := 0;
    while k < |s| && Less(s[k], x)
      invariant 0 <= k <= |s|
      invariant forall i :: 0 <= i < k ==> Less(s[i], x)
    {
      k := k + 1;
    }
    r := s[..k] + [x] + s[k..];
    InsertedSame(s, k, x);
    InsertedSorted(s, k, x);
  }

  lemma InsertedSame(s: seq<string>, k: nat, x: string)
    requires k <= |s|
    ensures multiset(s[..k] + [x] + s[k..]) == multiset(s) + multiset{x}
  {
    assert s == s[..k] + s[k..];
  }

  lemma InsertedSorted(s: seq<string>, k: nat, x: string)
    requires Sorted(s) && k <= |s|
    requires forall i :: 0 <= i < k ==> Less(s[i], x)
    requires k < |s| ==> !Less(s[k], x)
    ensures Sorted(s[..k] + [x] + s[k..])
  {
    hide Less;
    var r := s[..k] + [x] + s[k..];
    forall j | k <= j < |s| ensures AtMost(x, s[j]) {
      LessTotal(s[k], x);
      assert j > k ==> AtMost(s[k], s[j]);
      AtMostTransitive(x, s[k], s[j]);
    }
    forall i, j | 0 <= i < j < |r| ensures AtMost(r[i], r[j]) {
      assert r[i] == if i < k then s[i] else if i == k then x else s[i - 1];
      assert r[j] == if j < k then s[j] else if j == k then x else s[j - 1];
    }
  }
}
