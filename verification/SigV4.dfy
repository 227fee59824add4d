/** AWS Signature Version 4: the canonical request, what it determines, and the signing of a
    request in place. */
module SigV4 {
  import opened Texts
  import opened UriPath
  import Rfc3339

  // Headers ----------------------------------------------------------------------------------

  type Header = map<string, seq<string>>

  function LowerChar(c: char): char { if 'A' <= c <= 'Z' then c + 32 as char else c }
  function UpperChar(c: char): char { if 'a' <= c <= 'z' then c - 32 as char else c }

  function Lower(s: string): string {
    if s == "" then "" else [LowerChar(s[0])] + Lower(s[1..])
  }

  predicate HasPrefix(s: string, prefix: string) { prefix <= s }

  /** The characters of a header field name. */
  predicate TokenChar(c: char) {
    'A' <= c <= 'Z' || 'a' <= c <= 'z' || '0' <= c <= '9' || c in "!#$%&'*+-.^_`|~"
  }

  function Cased(s: string, upper: bool): string
    decreases |s|
  {
    if s == "" then ""
    else [if upper then UpperChar(s[0]) else LowerChar(s[0])] + Cased(s[1..], s[0] == '-')
  }

  /** The key under which net/http looks a name up. */
  function CanonicalKey(name: string): string {
    if forall i :: 0 <= i < |name| ==> TokenChar(name[i]) then Cased(name, true) else name
  }

  /** Header.Get: the first value, or nothing. */
  function Get(header: Header, name: string): string {
    var key := CanonicalKey(name);
    if key in header && header[key] != [] then header[key][0] else ""
  }

  // Values -----------------------------------------------------------------------------------

  function WordEnd(s: string): (n: nat)
    ensures n <= |s| && forall i :: 0 <= i < n ==> !IsSpace(s[i])
    ensures s != "" && SpaceAt(s) == 0 ==> n > 0
  {
    if s == "" || SpaceAt(s) > 0 then 0 else 1 + WordEnd(s[1..])
  }

  /** strings.Fields. */
  function Fields(s: string): seq<string>
    decreases |s|
  {
    if s == "" then []
    else if SpaceAt(s) > 0 then Fields(s[SpaceAt(s)..])
    else [s[..WordEnd(s)]] + Fields(s[WordEnd(s)..])
  }

  function Collapse(s: string): string { Join(Fields(s), ' ') }

  lemma {:induction false} FieldsHaveNoSpace(s: string)
    ensures forall w <- Fields(s), c <- w :: !IsSpace(c)
    decreases |s|
  {
    hide SpaceAt;
    if s != "" {
      FieldsHaveNoSpace(if SpaceAt(s) > 0 then s[SpaceAt(s)..] else s[WordEnd(s)..]);
    }
  }

  lemma {:induction false} JoinCharacters(parts: seq<string>, sep: char, c: char)
    requires c != sep && forall p <- parts :: c !in p
    ensures c !in Join(parts, sep)
    decreases parts
  {
    if |parts| > 1 {
      JoinCharacters(parts[1..], sep, c);
      assert parts[0] in parts;
    }
  }

  lemma CollapsedIsOneLine(s: string)
    ensures '\n' !in Collapse(s)
  {
    FieldsHaveNoSpace(s);
    JoinCharacters(Fields(s), ' ', '\n');
  }

  lemma {:induction false} TrimRightKeeps(s: string, c: char)
    requires c !in s
    ensures c !in TrimRight(s)
    decreases |s|
  {
    hide SpaceBefore;
    if SpaceBefore(s) > 0 { TrimRightKeeps(s[..|s| - SpaceBefore(s)], c); }
  }

  lemma {:induction false} TrimLeftKeeps(s: string, c: char)
    requires c !in s
    ensures c !in TrimLeft(s)
    decreases |s|
  {
    hide SpaceAt;
    if SpaceAt(s) > 0 { TrimLeftKeeps(s[SpaceAt(s)..], c); }
  }

  // Signed names -------------------------------------------------------------------------------

  datatype Req = Req(method_: string, path: string, rawQuery: string, host: string, header: Header)

  const AMZ := "x-amz-"

  predicate IsAmz(key: string) { HasPrefix(Lower(key), AMZ) }

  function KeysNamed(keys: set<string>, name: string): set<string> {
    set k <- keys | IsAmz(k) && Lower(k) == name
  }

  /** How often a name is signed: once for the host, and once for every header of that name
      in lower case if it is an x-amz- header. */
  function Occurrences(keys: set<string>, name: string): nat {
    (if name == "host" then 1 else 0) + |KeysNamed(keys, name)|
  }

  ghost predicate IsSigned(names: seq<string>, keys: set<string>) {
    Sorted(names) && forall n :: multiset(names)[n] == Occurrences(keys, n)
  }

  /** The names are host and every x-amz- header, in lower case, and nothing else. */
  lemma SignedNamesAre(names: seq<string>, keys: set<string>)
    requires IsSigned(names, keys)
    ensures forall n :: n in names <==> n == "host" || exists k <- keys :: IsAmz(k) && Lower(k) == n
  {
    forall n ensures n in names <==> n == "host" || exists k <- keys :: IsAmz(k) && Lower(k) == n {
      assert n in names <==> multiset(names)[n] > 0;
      if k :| k in keys && IsAmz(k) && Lower(k) == n {
        assert k in KeysNamed(keys, n);
      }
      if KeysNamed(keys, n) != {} {
        var k :| k in KeysNamed(keys, n);
      }
    }
  }

  /** They are free of duplicates exactly if no two x-amz- headers differ in case alone. */
  lemma SignedNamesDistinct(names: seq<string>, keys: set<string>)
    requires IsSigned(names, keys)
    ensures (StrictlySorted(names) <==>
      forall j <- keys, k <- keys :: IsAmz(j) && IsAmz(k) && Lower(j) == Lower(k) ==> j == k)
  {
    hide Lower, Less, AtMost;
    forall j, k | j in keys && k in keys && IsAmz(j) && IsAmz(k) && Lower(j) == Lower(k) && j != k
      ensures !StrictlySorted(names)
    {
      var n := Lower(j);
      assert {j, k} <= KeysNamed(keys, n);
      TwoMembers(KeysNamed(keys, n), j, k);
      if StrictlySorted(names) { AtMostOneEach(names, n); }
    }
    if forall j <- keys, k <- keys :: IsAmz(j) && IsAmz(k) && Lower(j) == Lower(k) ==> j == k {
      forall a, b | 0 <= a < b < |names| ensures names[a] != names[b] {
        if names[a] == names[b] {
          CountTwo(names, a, b);
          AtMostOnce(keys, names[a]);
        }
      }
      SortedDistinctStrict(names);
    }
  }

  lemma TwoMembers(s: set<string>, j: string, k: string)
    requires j in s && k in s && j != k
    ensures |s| >= 2
  {
    assert s == {j} + (s - {j});
    assert k in s - {j};
  }

  lemma {:induction false} AtMostOneEach(names: seq<string>, n: string)
    requires StrictlySorted(names)
    ensures multiset(names)[n] <= 1
  {
    hide Less;
    if names != [] {
      var rest := names[1..];
      assert names == [names[0]] + rest;
      AtMostOneEach(rest, n);
      StrictlySortedDistinct(names);
      AgainLater(names);
    }
  }

  lemma AgainLater(names: seq<string>)
    requires names != []
    ensures names[0] in names[1..] ==> exists i :: 0 < i < |names| && names[i] == names[0]
  {
    assert forall i :: 0 <= i < |names| - 1 ==> names[1..][i] == names[i + 1];
  }

  lemma CountTwo(names: seq<string>, a: nat, b: nat)
    requires a < b < |names| && names[a] == names[b]
    ensures multiset(names)[names[a]] >= 2
  {
    var n := names[a];
    assert names == names[..a] + [n] + names[a + 1..b] + [n] + names[b + 1..];
  }

  /** No x-amz- header is called host. */
  lemma AtMostOnce(keys: set<string>, n: string)
    requires forall j <- keys, k <- keys :: IsAmz(j) && IsAmz(k) && Lower(j) == Lower(k) ==> j == k
    ensures Occurrences(keys, n) <= 1
  {
    var s := KeysNamed(keys, n);
    if s != {} {
      var k :| k in s;
      assert s == {k};
      assert n[0] == AMZ[0] && "host"[0] == 'h';
    }
  }

  /** The loop over the header, in whatever order the map gives, and the sort after it. */
  method SignedHeaderNames(header: Header) returns (names: seq<string>)
    ensures IsSigned(names, header.Keys)
  {
    names := ["host"];
    var left := header.Keys;
    while left != {}
      invariant left <= header.Keys
      invariant forall n :: multiset(names)[n] == Occurrences(header.Keys - left, n)
      decreases |left|
    {
      hide Lower;
      var name :| name in left;
      var lower := Lower(name);
      ghost var done := header.Keys - left;
      assert header.Keys - (left - {name}) == done + {name};
      OneMore(done, name);
      if HasPrefix(lower, AMZ) {
        names := names + [lower];
      }
      left := left - {name};
    }
    assert header.Keys - {} == header.Keys;
    names := Sort(names);
  }

  function Extra(name: string, n: string): nat { if IsAmz(name) && n == Lower(name) then 1 else 0 }

  lemma OneMore(done: set<string>, name: string)
    requires name !in done
    ensures forall n :: Occurrences(done + {name}, n) == Occurrences(done, n) + Extra(name, n)
  {
    forall n ensures Occurrences(done + {name}, n) == Occurrences(done, n) + Extra(name, n) {
      OneKeyMore(done, name, n);
    }
  }

  lemma OneKeyMore(done: set<string>, name: string, n: string)
    requires name !in done
    ensures |KeysNamed(done + {name}, n)| == |KeysNamed(done, n)| + Extra(name, n)
  {
    hide Lower;
    assert KeysNamed(done + {name}, n) == KeysNamed(done, n) + if IsAmz(name) && n == Lower(name) then {name} else {};
  }

  // The canonical request ------------------------------------------------------------------------

  function HeaderValue(r: Req, name: string): string {
    if name == "host" then Trim(r.host) else Collapse(Get(r.header, name))
  }

  /** One line for every name and its value. */
  function Block(entries: seq<(string, string)>): string {
    if entries == [] then ""
    else entries[0].0 + ":" + (entries[0].1 + "\n" + Block(entries[1..]))
  }

  function Entries(r: Req, names: seq<string>): (entries: seq<(string, string)>)
    ensures |entries| == |names|
    ensures forall i :: 0 <= i < |names| ==> entries[i] == (names[i], HeaderValue(r, names[i]))
  {
    if names == [] then [] else [(names[0], HeaderValue(r, names[0]))] + Entries(r, names[1..])
  }

  function Canonical(r: Req, names: seq<string>, payloadHash: string): string
    requires Octets(r.path)
  {
    Join([r.method_, CanonicalPath(r.path), r.rawQuery, Block(Entries(r, names)), Join(names, ';'), payloadHash], '\n')
  }

  method CanonicalHeaders(r: Req) returns (b: string, ghost names: seq<string>)
    ensures IsSigned(names, r.header.Keys) && b == Block(Entries(r, names))
    ensures forall ns :: IsSigned(ns, r.header.Keys) ==> b == Block(Entries(r, ns))
  {
    hide HeaderValue, IsSigned;
    var all := SignedHeaderNames(r.header);
    b := "";
    for i := 0 to |all|
      invariant b + Block(Entries(r, all[i..])) == Block(Entries(r, all))
    {
      var name := all[i];
      ghost var was, rest := b, Block(Entries(r, all[i + 1..]));
      assert all[i..][1..] == all[i + 1..];
      assert Block(Entries(r, all[i..])) == name + ":" + (HeaderValue(r, name) + "\n" + rest);
      b := b + name;
      b := b + ":";
      b := b + HeaderValue(r, name);
      b := b + "\n";
      assert b + rest == was + (name + ":" + (HeaderValue(r, name) + "\n" + rest));
    }
    names := all;
    forall ns | IsSigned(ns, r.header.Keys) ensures ns == names {
      SignedNamesUnique(ns, names, r.header.Keys);
    }
  }

  /** The names are worked out twice, for the lines and for the list; they are the same. */
  method CanonicalRequest(r: Req, payloadHash: string) returns (text: string, ghost names: seq<string>)
    requires Octets(r.path)
    ensures IsSigned(names, r.header.Keys) && text == Canonical(r, names, payloadHash)
    ensures forall ns :: IsSigned(ns, r.header.Keys) ==> text == Canonical(r, ns, payloadHash)
  {
    hide IsSigned;
    var uri := CanonicalURI(r.path);
    var headers: string;
    headers, names := CanonicalHeaders(r);
    var listed := SignedHeaderNames(r.header);
    SignedNamesUnique(names, listed, r.header.Keys);
    text := Join([r.method_, uri, r.rawQuery, headers, Join(listed, ';'), payloadHash], '\n');
    forall ns | IsSigned(ns, r.header.Keys) ensures ns == names {
      SignedNamesUnique(ns, names, r.header.Keys);
    }
  }

  lemma SignedNamesUnique(a: seq<string>, b: seq<string>, keys: set<string>)
    requires IsSigned(a, keys) && IsSigned(b, keys)
    ensures a == b
  {
    assert multiset(a) == multiset(b);
    SortedUnique(a, b);
  }

  // What the canonical request determines ----------------------------------------------------------

  /** No newline in method, query or host, and no colon in a signed name. */
  predicate Clean(r: Req) {
    && Octets(r.path)
    && '\n' !in r.method_ && '\n' !in r.rawQuery && '\n' !in r.host
    && forall k <- r.header.Keys :: IsAmz(k) ==> ':' !in Lower(k)
  }

  predicate CleanEntry(e: (string, string)) {
    e.0 != "" && e.0[0] != '\n' && ':' !in e.0 && '\n' !in e.1
  }

  predicate CleanEntries(entries: seq<(string, string)>) {
    forall i :: 0 <= i < |entries| ==> CleanEntry(entries[i])
  }

  lemma Cut(a: string, b: string, sep: char, x: string, y: string)
    requires sep !in a && sep !in b && a + [sep] + x == b + [sep] + y
    ensures a == b && x == y
  {
    CutUnique(a, b, sep, x, y);
  }

  lemma BlockCons(entries: seq<(string, string)>, end: string)
    requires entries != []
    ensures (Block(entries) + end ==
      entries[0].0 + ":" + (entries[0].1 + "\n" + (Block(entries[1..]) + end)))
  {
    var name, value, rest := entries[0].0, entries[0].1, Block(entries[1..]);
    Associate(name + ":", value + "\n" + rest, end);
    Associate(value + "\n", rest, end);
  }

  lemma BlockStarts(entries: seq<(string, string)>, x: string)
    requires CleanEntries(entries)
    ensures Block([]) + ("\n" + x) == "" + "\n" + x
    ensures (Block(entries) + ("\n" + x))[0] == '\n' <==> entries == []
  {
    if entries != [] {
      assert CleanEntry(entries[0]);
      BlockCons(entries, "\n" + x);
    }
  }

  /** Header lines can be read back, up to the empty line that ends them. */
  lemma {:induction false} BlockUnique(a: seq<(string, string)>, b: seq<(string, string)>, x: string, y: string)
    requires CleanEntries(a) && CleanEntries(b)
    requires Block(a) + ("\n" + x) == Block(b) + ("\n" + y)
    ensures a == b && x == y
  {
    hide Block;
    BlockStarts(a, x);
    BlockStarts(b, y);
    if a == [] {
      Cut("", "", '\n', x, y);
    } else {
      assert CleanEntry(a[0]) && CleanEntry(b[0]);
      BlockCons(a, "\n" + x);
      BlockCons(b, "\n" + y);
      var restA, restB := Block(a[1..]) + ("\n" + x), Block(b[1..]) + ("\n" + y);
      Cut(a[0].0, b[0].0, ':', a[0].1 + "\n" + restA, b[0].1 + "\n" + restB);
      Cut(a[0].1, b[0].1, '\n', restA, restB);
      BlockUnique(a[1..], b[1..], x, y);
      assert a == [a[0]] + a[1..] && b == [b[0]] + b[1..];
    }
  }

  lemma EntriesAreClean(r: Req, names: seq<string>)
    requires Clean(r) && IsSigned(names, r.header.Keys)
    ensures CleanEntries(Entries(r, names))
  {
    hide Collapse, Trim, Lower;
    SignedNamesAre(names, r.header.Keys);
    forall i | 0 <= i < |names| ensures CleanEntry(Entries(r, names)[i]) {
      var n := names[i];
      assert n in names;
      CollapsedIsOneLine(Get(r.header, n));
      TrimKeeps(r.host);
      assert AMZ[0] == 'x';
    }
  }

  lemma TrimKeeps(host: string)
    requires '\n' !in host
    ensures '\n' !in Trim(host)
  {
    TrimLeftKeeps(host, '\n');
    TrimRightKeeps(TrimLeft(host), '\n');
  }

  /** The six parts, one after the other. */
  lemma CanonicalOpens(r: Req, names: seq<string>, payloadHash: string)
    requires Octets(r.path)
    ensures (Canonical(r, names, payloadHash) == r.method_ + "\n" + (CanonicalPath(r.path) + "\n" + (r.rawQuery + "\n" +
      (Block(Entries(r, names)) + ("\n" + (Join(names, ';') + ("\n" + payloadHash)))))))
  {
    hide Block, CanonicalPath;
    var list := Join(names, ';');
    var parts := [r.method_, CanonicalPath(r.path), r.rawQuery, Block(Entries(r, names)), list, payloadHash];
    JoinTwo(parts);
    JoinTwo(parts[1..]);
    JoinTwo(parts[2..]);
    JoinTwo(parts[3..]);
    JoinTwo(parts[4..]);
    hide Join;
    assert parts[1..][1..] == parts[2..] && parts[2..][1..] == parts[3..] && parts[3..][1..] == parts[4..];
    assert parts[4..][1..] == parts[5..] == [payloadHash];
  }

  lemma JoinTwo(parts: seq<string>)
    requires |parts| >= 2
    ensures Join(parts, '\n') == parts[0] + "\n" + Join(parts[1..], '\n')
    ensures Join(parts, '\n') == parts[0] + ("\n" + Join(parts[1..], '\n'))
    ensures |parts| == 2 ==> Join(parts[1..], '\n') == parts[1]
  {
    var rest := Join(parts[1..], '\n');
    assert Join(parts, '\n') == parts[0] + "\n" + rest;
    assert |parts| == 2 ==> rest == parts[1];
    hide Join;
    assert (parts[0] + "\n") + rest == parts[0] + ("\n" + rest);
  }

  lemma PathIsOneLine(path: string)
    requires Octets(path)
    ensures '\n' !in CanonicalPath(path)
  {
    EscapedCharacters(path);
  }

  /** Two requests have the same canonical text exactly if they agree on the method, the
      path (empty and "/" being one), the raw query, the signed names in order, the value
      signed for each of them, the host's among them, and the payload hash. */
  lemma CanonicalDetermines(a: Req, b: Req, namesA: seq<string>, namesB: seq<string>, hashA: string, hashB: string)
    requires Clean(a) && Clean(b)
    requires IsSigned(namesA, a.header.Keys) && IsSigned(namesB, b.header.Keys)
    ensures Canonical(a, namesA, hashA) == Canonical(b, namesB, hashB) <==> Agree(a, b, namesA, namesB, hashA, hashB)
  {
    CanonicalPathDetermines(a.path, b.path);
    EntriesAgree(a, b, namesA, namesB);
    if Canonical(a, namesA, hashA) == Canonical(b, namesB, hashB) {
      CanonicalParts(a, b, namesA, namesB, hashA, hashB);
    }
    hide CanonicalPath, Block, Entries, Join, HeaderValue, Clean, IsSigned;
  }

  lemma CanonicalParts(a: Req, b: Req, namesA: seq<string>, namesB: seq<string>, hashA: string, hashB: string)
    requires Clean(a) && Clean(b)
    requires IsSigned(namesA, a.header.Keys) && IsSigned(namesB, b.header.Keys)
    requires Canonical(a, namesA, hashA) == Canonical(b, namesB, hashB)
    ensures a.method_ == b.method_ && CanonicalPath(a.path) == CanonicalPath(b.path) && a.rawQuery == b.rawQuery
    ensures Entries(a, namesA) == Entries(b, namesB) && hashA == hashB
  {
    hide Canonical, CanonicalPath, Block, Entries, Join, CleanEntries, HeaderValue, IsSigned, Octets;
    CanonicalOpens(a, namesA, hashA);
    CanonicalOpens(b, namesB, hashB);
    PathIsOneLine(a.path);
    PathIsOneLine(b.path);
    EntriesAreClean(a, namesA);
    EntriesAreClean(b, namesB);
    EntriesAgree(a, b, namesA, namesB);
    var listA, listB := Join(namesA, ';') + ("\n" + hashA), Join(namesB, ';') + ("\n" + hashB);
    var linesA, linesB := Block(Entries(a, namesA)) + ("\n" + listA), Block(Entries(b, namesB)) + ("\n" + listB);
    var queryA, queryB := a.rawQuery + "\n" + linesA, b.rawQuery + "\n" + linesB;
    Cut(a.method_, b.method_, '\n', CanonicalPath(a.path) + "\n" + queryA, CanonicalPath(b.path) + "\n" + queryB);
    Cut(CanonicalPath(a.path), CanonicalPath(b.path), '\n', queryA, queryB);
    Cut(a.rawQuery, b.rawQuery, '\n', linesA, linesB);
    BlockUnique(Entries(a, namesA), Entries(b, namesB), listA, listB);
    SameEnd(Join(namesA, ';'), hashA, hashB);
  }

  lemma SameEnd(list: string, x: string, y: string)
    ensures list + ("\n" + x) == list + ("\n" + y) ==> x == y
  {
    assert (list + ("\n" + x))[|list| + 1..] == x && (list + ("\n" + y))[|list| + 1..] == y;
  }

  predicate Agree(a: Req, b: Req, namesA: seq<string>, namesB: seq<string>, hashA: string, hashB: string) {
    && a.method_ == b.method_ && SamePath(a.path, b.path) && a.rawQuery == b.rawQuery
    && namesA == namesB && (forall i :: 0 <= i < |namesA| ==> HeaderValue(a, namesA[i]) == HeaderValue(b, namesA[i]))
    && hashA == hashB
  }

  predicate SamePath(p: string, q: string) { (if p == "" then "/" else p) == (if q == "" then "/" else q) }

  lemma EntriesAgree(a: Req, b: Req, namesA: seq<string>, namesB: seq<string>)
    ensures (Entries(a, namesA) == Entries(b, namesB) <==>
      namesA == namesB && forall i :: 0 <= i < |namesA| ==> HeaderValue(a, namesA[i]) == HeaderValue(b, namesA[i]))
  {
    hide HeaderValue;
    if Entries(a, namesA) == Entries(b, namesB) {
      assert |namesA| == |namesB|;
      forall i | 0 <= i < |namesA|
        ensures namesA[i] == namesB[i] && HeaderValue(a, namesA[i]) == HeaderValue(b, namesA[i])
      {
        assert Entries(a, namesA)[i] == Entries(b, namesB)[i];
      }
    }
  }

  function First(values: seq<string>): string { if values == [] then "" else values[0] }

  predicate HasAmz(r: Req, name: string) { exists k <- r.header.Keys :: IsAmz(k) && Lower(k) == name }

  /** What agreement comes to: one trimmed host, one set of x-amz- names, and for every such
      header set under its usual key on both sides, one value up to white space. */
  lemma AgreementMeans(a: Req, b: Req, namesA: seq<string>, namesB: seq<string>, hashA: string, hashB: string, key: string)
    requires IsSigned(namesA, a.header.Keys) && IsSigned(namesB, b.header.Keys)
    requires Agree(a, b, namesA, namesB, hashA, hashB)
    ensures Trim(a.host) == Trim(b.host)
    ensures forall n :: HasAmz(a, n) <==> HasAmz(b, n)
    ensures (key in a.header && key in b.header && IsAmz(key) && CanonicalKey(Lower(key)) == key ==>
      Collapse(First(a.header[key])) == Collapse(First(b.header[key])))
  {
    hide Lower, Trim, Collapse, CanonicalKey;
    SignedNamesAre(namesA, a.header.Keys);
    SignedNamesAre(namesB, b.header.Keys);
    assert "host" in namesA;
    forall n ensures HasAmz(a, n) <==> HasAmz(b, n) {
      NotHost(a, n);
      NotHost(b, n);
      assert n in namesA <==> n == "host" || HasAmz(a, n);
      assert n in namesB <==> n == "host" || HasAmz(b, n);
    }
    if key in a.header && key in b.header && IsAmz(key) && CanonicalKey(Lower(key)) == key {
      assert HasAmz(a, Lower(key)) && Lower(key) in namesA;
      NotHost(a, Lower(key));
    }
  }

  lemma NotHost(r: Req, n: string)
    ensures HasAmz(r, n) ==> n != "host"
  {
    assert AMZ[0] == 'x' && "host"[0] == 'h';
  }

  // Signing ------------------------------------------------------------------------------------

  const ALGORITHM := "AWS4-HMAC-SHA256"
  const SERVICE := "s3"
  const TERMINATOR := "aws4_request"
  const DATE := "X-Amz-Date"
  const CONTENT := "X-Amz-Content-Sha256"
  const AUTHORIZATION := "Authorization"

  datatype Credentials = Credentials(accessKey: string, secretKey: string, region: string)

  /** HMAC-SHA-256 (section 2 of RFC 2104) brings a key to the length of a block before it is
      used, which makes keys alike that differ in zero bytes at their end: `block` is that first
      step and `keyed` the rest. `hashHex` is SHA-256 in hex. */
  datatype Crypto = Crypto(block: string -> string, keyed: (string, string) -> string, hashHex: string -> string)

  function Mac(crypto: Crypto, key: string, message: string): string { crypto.keyed(crypto.block(key), message) }

  function DayText(t: Rfc3339.Instant): string
    requires 0 <= t
  {
    var d := Rfc3339.ClockOf(t).date;
    Rfc3339.YearText(d.year) + (Rfc3339.Pad(d.month, 2) + Rfc3339.Pad(d.day, 2))
  }

  /** The basic form of ISO 8601, to the second. */
  function StampText(t: Rfc3339.Instant): string
    requires 0 <= t
  {
    var c := Rfc3339.ClockOf(t);
    DayText(t) + ("T" + (Rfc3339.Pad(c.hour, 2) + (Rfc3339.Pad(c.minute, 2) + (Rfc3339.Pad(c.second, 2) + "Z"))))
  }

  function Scope(creds: Credentials, day: string): string { Join([day, creds.region, SERVICE, TERMINATOR], '/') }

  function ToSign(crypto: Crypto, creds: Credentials, t: Rfc3339.Instant, canonical: string): string
    requires 0 <= t
  {
    Join([ALGORITHM, StampText(t), Scope(creds, DayText(t)), crypto.hashHex(canonical)], '\n')
  }

  function SigningKey(crypto: Crypto, creds: Credentials, day: string): string {
    var key := Mac(crypto, "AWS4" + creds.secretKey, day);
    Mac(crypto, Mac(crypto, Mac(crypto, key, creds.region), SERVICE), TERMINATOR)
  }

  function HexDigit(d: nat): char
    requires d < 16
  {
    if d < 10 then '0' + d as char else 'a' + (d - 10) as char
  }

  /** hex.EncodeToString. */
  function HexText(s: string): string {
    if s == "" then ""
    else [HexDigit(s[0] as int / 16 % 16), HexDigit(s[0] as int % 16)] + HexText(s[1..])
  }

  function Signature(crypto: Crypto, creds: Credentials, t: Rfc3339.Instant, canonical: string): string
    requires 0 <= t
  {
    HexText(Mac(crypto, SigningKey(crypto, creds, DayText(t)), ToSign(crypto, creds, t, canonical)))
  }

  function AuthorizationText(creds: Credentials, t: Rfc3339.Instant, names: seq<string>, signature: string): string
    requires 0 <= t
  {
    ALGORITHM + " Credential=" + creds.accessKey + "/" + Scope(creds, DayText(t))
    + ", SignedHeaders=" + Join(names, ';') + ", Signature=" + signature
  }

  /** The Authorization header of a request whose signed names are these. */
  function SignedText(crypto: Crypto, creds: Credentials, t: Rfc3339.Instant, r: Req, names: seq<string>,
                      payloadHash: string): string
    requires 0 <= t && Octets(r.path)
  {
    AuthorizationText(creds, t, names, Signature(crypto, creds, t, Canonical(r, names, payloadHash)))
  }

  class Request {
    const method_: string
    const path: string
    const rawQuery: string
    const host: string
    var header: Header

    constructor (method_: string, path: string, rawQuery: string, host: string)
      ensures this.method_ == method_ && this.path == path && this.rawQuery == rawQuery && this.host == host
      ensures header == map[]
    {
      this.method_, this.path, this.rawQuery, this.host := method_, path, rawQuery, host;
      header := map[];
    }

    function Now(): Req
      reads this
    {
      Req(method_, path, rawQuery, host, header)
    }

    /** The request carries the signature that anyone gets who works it out from the request
        as it now is. */
    ghost predicate Carries(crypto: Crypto, creds: Credentials, payloadHash: string, at: Rfc3339.Instant,
                            names: seq<string>)
      requires Octets(path) && 0 <= at
      reads this
    {
      && IsSigned(names, header.Keys) && AUTHORIZATION in header
      && header[AUTHORIZATION] == [SignedText(crypto, creds, at, Now(), names, payloadHash)]
    }

    /** Sets three headers and no other. The signature is over the request as it is sent:
        whoever works it out again from the finished request gets the same one. */
    method Sign(crypto: Crypto, creds: Credentials, payloadHash: string, at: Rfc3339.Instant)
      requires Octets(path) && 0 <= at
      modifies `header
      ensures AUTHORIZATION in header
      ensures (header ==
        old(header)[DATE := [StampText(at)]][CONTENT := [payloadHash]][AUTHORIZATION := header[AUTHORIZATION]])
      ensures exists names :: Carries(crypto, creds, payloadHash, at, names)
      ensures forall names :: IsSigned(names, header.Keys) ==> Lower(DATE) in names && Lower(CONTENT) in names
    {
      header := header[DATE := [StampText(at)]];
      header := header[CONTENT := [payloadHash]];
      ghost var unsigned := Now();
      var canonical, names := CanonicalRequest(Now(), payloadHash);
      var listed := SignedHeaderNames(header);
      SignedNamesUnique(names, listed, header.Keys);
      var signature := Signature(crypto, creds, at, canonical);
      header := header[AUTHORIZATION := [AuthorizationText(creds, at, listed, signature)]];
      AuthorizationIsNotSigned(unsigned, names, payloadHash, header[AUTHORIZATION]);
      assert Now() == unsigned.(header := header);
      DatesAreSigned(header);
      assert Carries(crypto, creds, payloadHash, at, names);
    }
  }

  lemma AuthorizationIsNotAmz()
    ensures !IsAmz(AUTHORIZATION)
  {
    assert Lower(AUTHORIZATION)[0] == 'a' && AMZ[0] == 'x';
  }

  /** The header that carries the signature is not part of what is signed. */
  lemma AuthorizationIsNotSigned(r: Req, names: seq<string>, payloadHash: string, value: seq<string>)
    requires Octets(r.path) && IsSigned(names, r.header.Keys)
    ensures IsSigned(names, r.header[AUTHORIZATION := value].Keys)
    ensures (Canonical(r.(header := r.header[AUTHORIZATION := value]), names, payloadHash) ==
      Canonical(r, names, payloadHash))
  {
    hide Join, Block;
    AuthorizationIsNotAmz();
    var after := r.(header := r.header[AUTHORIZATION := value]);
    hide Lower;
    forall n ensures KeysNamed(after.header.Keys, n) == KeysNamed(r.header.Keys, n) {
    }
    SignedNamesAre(names, r.header.Keys);
    forall i | 0 <= i < |names| ensures HeaderValue(r, names[i]) == HeaderValue(after, names[i]) {
      assert names[i] in names;
      KeyIsNotAuthorization(names[i]);
    }
    EntriesAgree(r, after, names, names);
  }

  lemma KeyIsNotAuthorization(name: string)
    requires name != "" && (name[0] == 'x' || name[0] == 'h')
    ensures CanonicalKey(name) != AUTHORIZATION
  {
    assert Cased(name, true)[0] == UpperChar(name[0]);
    assert AUTHORIZATION[0] == 'A';
  }

  lemma DatesAreSigned(header: Header)
    requires DATE in header && CONTENT in header
    ensures forall names :: IsSigned(names, header.Keys) ==> Lower(DATE) in names && Lower(CONTENT) in names
  {
    AmzHeaders();
    hide Lower, IsAmz;
    forall names | IsSigned(names, header.Keys) ensures Lower(DATE) in names && Lower(CONTENT) in names {
      SignedNamesAre(names, header.Keys);
    }
  }

  lemma AmzHeaders()
    ensures IsAmz(DATE) && IsAmz(CONTENT)
  {
    LowerPrefix(DATE);
    LowerPrefix(CONTENT);
  }

  lemma LowerPrefix(s: string)
    requires |s| >= 6 && s[..6] == "X-Amz-"
    ensures IsAmz(s)
  {
    var p := s[..6];
    assert s[0] == p[0] && s[1] == p[1] && s[2] == p[2] && s[3] == p[3] && s[4] == p[4] && s[5] == p[5];
    var t := Lower(s);
    LowerAt(s);
    assert t[..6] == AMZ;
  }

  lemma {:induction false} LowerAt(s: string)
    ensures |Lower(s)| == |s| && forall i :: 0 <= i < |s| ==> Lower(s)[i] == LowerChar(s[i])
  {
    if s != "" { LowerAt(s[1..]); }
  }

  // What a signature covers ----------------------------------------------------------------------

  /** The hash tells messages apart, the MAC keys and messages, the MAC gives bytes, and what it
      gives fits a block. */
  ghost predicate CollisionFree(crypto: Crypto) {
    && (forall x, y :: crypto.hashHex(x) == crypto.hashHex(y) ==> x == y)
    && (forall k, l, x, y :: crypto.keyed(k, x) == crypto.keyed(l, y) ==> k == l && x == y)
    && (forall k, x :: Octets(crypto.keyed(k, x)))
    && (forall k, l, x, y :: crypto.block(crypto.keyed(k, x)) == crypto.block(crypto.keyed(l, y)) ==>
          crypto.keyed(k, x) == crypto.keyed(l, y))
  }

  function Ones(n: nat): (s: string)
    ensures |s| == n && forall c <- s :: c == '1'
  {
    seq(n, i => '1')
  }

  /** Every character as so many ones, with a zero after each. */
  function Tally(s: string): (t: string)
    ensures forall c <- t :: c == '0' || c == '1'
  {
    if s == "" then "" else Ones(s[0] as nat) + "0" + Tally(s[1..])
  }

  lemma {:induction false} TallyUnique(a: string, b: string)
    requires Tally(a) == Tally(b)
    ensures a == b
  {
    if a != "" && b != "" {
      Cut(Ones(a[0] as nat), Ones(b[0] as nat), '0', Tally(a[1..]), Tally(b[1..]));
      TallyUnique(a[1..], b[1..]);
      assert a == [a[0]] + a[1..] && b == [b[0]] + b[1..];
    }
  }

  function TallyPair(k: string, x: string): string { Tally(k) + "2" + Tally(x) }

  lemma TallyPairUnique(k: string, x: string, l: string, y: string)
    requires TallyPair(k, x) == TallyPair(l, y)
    ensures k == l && x == y
  {
    hide Tally;
    Cut(Tally(k), Tally(l), '2', Tally(x), Tally(y));
    TallyUnique(k, l);
    TallyUnique(x, y);
  }

  lemma TallyPairOctets(k: string, x: string)
    ensures Octets(TallyPair(k, x))
  {
    hide Tally;
    var t := TallyPair(k, x);
    assert forall i :: 0 <= i < |t| ==> t[i] in Tally(k) || t[i] == '2' || t[i] in Tally(x);
  }

  /** Nothing contradictory is asked of them. */
  lemma CollisionFreeExists()
    ensures exists crypto :: CollisionFree(crypto)
  {
    var crypto := Crypto(k => k, TallyPair, x => x);
    forall k, l, x, y | crypto.keyed(k, x) == crypto.keyed(l, y) ensures k == l && x == y {
      TallyPairUnique(k, x, l, y);
    }
    forall k, x ensures Octets(crypto.keyed(k, x)) {
      TallyPairOctets(k, x);
    }
    assert CollisionFree(crypto);
  }

  /** MACs under keys that are MACs themselves tell keys and messages apart. */
  lemma ChainUnique(crypto: Crypto, k: string, l: string, x: string, y: string, m: string, n: string)
    requires CollisionFree(crypto)
    requires Mac(crypto, Mac(crypto, k, m), x) == Mac(crypto, Mac(crypto, l, n), y)
    ensures Mac(crypto, k, m) == Mac(crypto, l, n) && x == y
  {
    hide Octets;
    var a, b := crypto.block(k), crypto.block(l);
    assert crypto.block(crypto.keyed(a, m)) == crypto.block(crypto.keyed(b, n));
  }

  lemma FirstUnique(crypto: Crypto, k: string, l: string, x: string, y: string)
    requires CollisionFree(crypto) && Mac(crypto, k, x) == Mac(crypto, l, y)
    ensures crypto.block(k) == crypto.block(l) && x == y
  {
    hide Octets;
  }

  /** The derived key and what was signed with it determine secret, day and region. */
  lemma KeyUnique(crypto: Crypto, a: Credentials, b: Credentials, dayA: string, dayB: string, x: string, y: string)
    requires CollisionFree(crypto)
    requires Mac(crypto, SigningKey(crypto, a, dayA), x) == Mac(crypto, SigningKey(crypto, b, dayB), y)
    ensures SameSecret(crypto, a, b) && a.region == b.region && dayA == dayB && x == y
  {
    hide CollisionFree, Mac;
    var firstA, firstB := Mac(crypto, "AWS4" + a.secretKey, dayA), Mac(crypto, "AWS4" + b.secretKey, dayB);
    var secondA, secondB := Mac(crypto, firstA, a.region), Mac(crypto, firstB, b.region);
    var thirdA, thirdB := Mac(crypto, secondA, SERVICE), Mac(crypto, secondB, SERVICE);
    ChainUnique(crypto, thirdA, thirdB, x, y, TERMINATOR, TERMINATOR);
    ChainUnique(crypto, secondA, secondB, TERMINATOR, TERMINATOR, SERVICE, SERVICE);
    ChainUnique(crypto, firstA, firstB, SERVICE, SERVICE, a.region, b.region);
    ChainUnique(crypto, "AWS4" + a.secretKey, "AWS4" + b.secretKey, a.region, b.region, dayA, dayB);
    FirstUnique(crypto, "AWS4" + a.secretKey, "AWS4" + b.secretKey, dayA, dayB);
  }

  /** One secret, as far as HMAC can tell. */
  predicate SameSecret(crypto: Crypto, a: Credentials, b: Credentials) {
    crypto.block("AWS4" + a.secretKey) == crypto.block("AWS4" + b.secretKey)
  }

  lemma {:induction false} HexUnique(a: string, b: string)
    requires Octets(a) && Octets(b) && HexText(a) == HexText(b)
    ensures a == b
  {
    if a != "" && b != "" {
      var l, r := HexText(a), HexText(b);
      assert l[0] == r[0] && l[1] == r[1] && l[2..] == r[2..];
      assert l[2..] == HexText(a[1..]) && r[2..] == HexText(b[1..]);
      HexOctet(a[0], b[0]);
      HexUnique(a[1..], b[1..]);
      assert a == [a[0]] + a[1..] && b == [b[0]] + b[1..];
    }
  }

  lemma HexOctet(a: char, b: char)
    requires a < 256 as char && b < 256 as char
    requires HexDigit(a as int / 16 % 16) == HexDigit(b as int / 16 % 16)
    requires HexDigit(a as int % 16) == HexDigit(b as int % 16)
    ensures a == b
  {
    assert a as int / 16 % 16 == b as int / 16 % 16;
    assert a as int % 16 == b as int % 16;
    assert a as int == a as int / 16 * 16 + a as int % 16;
    assert b as int == b as int / 16 * 16 + b as int % 16;
  }

  lemma StampIsOneLine(t: Rfc3339.Instant)
    requires 0 <= t
    ensures '\n' !in StampText(t)
  {
  }

  lemma SameStamp(a: Rfc3339.Instant, b: Rfc3339.Instant)
    requires Rfc3339.InRange(a) && Rfc3339.InRange(b) && StampText(a) == StampText(b)
    ensures Rfc3339.Seconds(a) == Rfc3339.Seconds(b)
  {
    var c, d := Rfc3339.ClockOf(a), Rfc3339.ClockOf(b);
    Rfc3339.InRangeYears(a);
    Rfc3339.InRangeYears(b);
    hide Rfc3339.InRange, Rfc3339.ClockOf, Rfc3339.SecondNumber, Rfc3339.ValidClock, Rfc3339.YearText, Rfc3339.Pad;
    SameClock(c, d, StampText(a));
  }

  lemma SameClock(c: Rfc3339.Clock, d: Rfc3339.Clock, s: string)
    requires Rfc3339.ValidClock(c) && Rfc3339.ValidClock(d) && c.date.year < 10000 && d.date.year < 10000
    requires s == ClockStamp(c) == ClockStamp(d)
    ensures c == d
  {
    Fixed(c);
    Fixed(d);
    Rfc3339.Powers();
    Rfc3339.PadOrder(c.date.year, d.date.year, 4);
    Rfc3339.PadOrder(c.date.month, d.date.month, 2);
    Rfc3339.PadOrder(c.date.day, d.date.day, 2);
    Rfc3339.PadOrder(c.hour, d.hour, 2);
    Rfc3339.PadOrder(c.minute, d.minute, 2);
    Rfc3339.PadOrder(c.second, d.second, 2);
  }

  function ClockStamp(c: Rfc3339.Clock): string {
    (Rfc3339.YearText(c.date.year) + (Rfc3339.Pad(c.date.month, 2) + Rfc3339.Pad(c.date.day, 2)))
    + ("T" + (Rfc3339.Pad(c.hour, 2) + (Rfc3339.Pad(c.minute, 2) + (Rfc3339.Pad(c.second, 2) + "Z"))))
  }

  /** The fields stand at fixed places. */
  lemma Fixed(c: Rfc3339.Clock)
    requires Rfc3339.ValidClock(c) && c.date.year < 10000
    ensures |ClockStamp(c)| == 16
    ensures ClockStamp(c)[..4] == Rfc3339.Pad(c.date.year, 4)
    ensures ClockStamp(c)[4..6] == Rfc3339.Pad(c.date.month, 2) && ClockStamp(c)[6..8] == Rfc3339.Pad(c.date.day, 2)
    ensures ClockStamp(c)[9..11] == Rfc3339.Pad(c.hour, 2) && ClockStamp(c)[11..13] == Rfc3339.Pad(c.minute, 2)
    ensures ClockStamp(c)[13..15] == Rfc3339.Pad(c.second, 2)
  {
  }

  lemma ToSignOpens(crypto: Crypto, creds: Credentials, t: Rfc3339.Instant, canonical: string)
    requires 0 <= t
    ensures (ToSign(crypto, creds, t, canonical) ==
      ALGORITHM + "\n" + (StampText(t) + "\n" + (Scope(creds, DayText(t)) + ("\n" + crypto.hashHex(canonical)))))
  {
    hide StampText, Scope;
    var parts := [ALGORITHM, StampText(t), Scope(creds, DayText(t)), crypto.hashHex(canonical)];
    JoinTwo(parts);
    JoinTwo(parts[1..]);
    JoinTwo(parts[2..]);
    assert parts[1..][1..] == parts[2..] && parts[2..][1..] == [crypto.hashHex(canonical)];
  }

  /** Changing anything changes the signature: two signatures are equal exactly if secret, region
      and second are the same and the requests agree in everything the canonical text holds,
      payload hash included. */
  lemma SignatureCovers(crypto: Crypto, credsA: Credentials, credsB: Credentials, a: Req, b: Req,
                        namesA: seq<string>, namesB: seq<string>, hashA: string, hashB: string,
                        s: Rfc3339.Instant, t: Rfc3339.Instant)
    requires CollisionFree(crypto) && Clean(a) && Clean(b)
    requires IsSigned(namesA, a.header.Keys) && IsSigned(namesB, b.header.Keys)
    requires Rfc3339.InRange(s) && Rfc3339.InRange(t)
    ensures var textA, textB := Canonical(a, namesA, hashA), Canonical(b, namesB, hashB);
      (Signature(crypto, credsA, s, textA) == Signature(crypto, credsB, t, textB)
       <==> SameSecret(crypto, credsA, credsB) && credsA.region == credsB.region
            && Rfc3339.Seconds(s) == Rfc3339.Seconds(t) && Agree(a, b, namesA, namesB, hashA, hashB))
  {
    hide CollisionFree, Canonical, IsSigned, Agree, Octets, Signature, SameSecret, StampText, Rfc3339.Seconds;
    var textA, textB := Canonical(a, namesA, hashA), Canonical(b, namesB, hashB);
    hide Clean;
    CanonicalDetermines(a, b, namesA, namesB, hashA, hashB);
    if Signature(crypto, credsA, s, textA) == Signature(crypto, credsB, t, textB) {
      SameSigned(crypto, credsA, credsB, s, t, textA, textB);
      SameStamp(s, t);
    }
    if SameSecret(crypto, credsA, credsB) && credsA.region == credsB.region
       && Rfc3339.Seconds(s) == Rfc3339.Seconds(t) && textA == textB {
      SameSignature(crypto, credsA, credsB, s, t, textA);
    }
  }

  lemma SameSecond(s: Rfc3339.Instant, t: Rfc3339.Instant)
    requires 0 <= s && 0 <= t && Rfc3339.Seconds(s) == Rfc3339.Seconds(t)
    ensures StampText(s) == StampText(t) && DayText(s) == DayText(t)
  {
  }

  lemma SameSignature(crypto: Crypto, a: Credentials, b: Credentials, s: Rfc3339.Instant, t: Rfc3339.Instant, text: string)
    requires SameSecret(crypto, a, b) && a.region == b.region
    requires 0 <= s && 0 <= t && Rfc3339.Seconds(s) == Rfc3339.Seconds(t)
    ensures Signature(crypto, a, s, text) == Signature(crypto, b, t, text)
  {
    hide StampText, DayText, Rfc3339.Seconds, HexText, Join;
    SameSecond(s, t);
    assert SigningKey(crypto, a, DayText(s)) == SigningKey(crypto, b, DayText(t));
    assert ToSign(crypto, a, s, text) == ToSign(crypto, b, t, text);
  }

  lemma MacIsOctets(crypto: Crypto, key: string, message: string)
    requires CollisionFree(crypto)
    ensures Octets(Mac(crypto, key, message))
  {
  }

  lemma SameSigned(crypto: Crypto, a: Credentials, b: Credentials, s: Rfc3339.Instant, t: Rfc3339.Instant,
                   textA: string, textB: string)
    requires CollisionFree(crypto) && 0 <= s && 0 <= t
    requires Signature(crypto, a, s, textA) == Signature(crypto, b, t, textB)
    ensures SameSecret(crypto, a, b) && a.region == b.region
    ensures StampText(s) == StampText(t) && textA == textB
  {
    hide CollisionFree, Octets, HexText, StampText, SigningKey, ToSign, DayText, SameSecret, Mac, Join;
    var keyA, keyB := SigningKey(crypto, a, DayText(s)), SigningKey(crypto, b, DayText(t));
    var x, y := ToSign(crypto, a, s, textA), ToSign(crypto, b, t, textB);
    MacIsOctets(crypto, keyA, x);
    MacIsOctets(crypto, keyB, y);
    HexUnique(Mac(crypto, keyA, x), Mac(crypto, keyB, y));
    KeyUnique(crypto, a, b, DayText(s), DayText(t), x, y);
    ToSignOpens(crypto, a, s, textA);
    ToSignOpens(crypto, b, t, textB);
    ToSignUnique(crypto, Scope(a, DayText(s)), Scope(b, DayText(t)), s, t, textA, textB);
    HashUnique(crypto, textA, textB);
  }

  lemma HashUnique(crypto: Crypto, x: string, y: string)
    requires CollisionFree(crypto) && crypto.hashHex(x) == crypto.hashHex(y)
    ensures x == y
  {
  }

  lemma ToSignUnique(crypto: Crypto, scopeA: string, scopeB: string, s: Rfc3339.Instant, t: Rfc3339.Instant,
                     textA: string, textB: string)
    requires 0 <= s && 0 <= t
    requires (ALGORITHM + "\n" + (StampText(s) + "\n" + (scopeA + ("\n" + crypto.hashHex(textA)))) ==
      ALGORITHM + "\n" + (StampText(t) + "\n" + (scopeB + ("\n" + crypto.hashHex(textB)))))
    requires scopeA == scopeB
    ensures StampText(s) == StampText(t) && crypto.hashHex(textA) == crypto.hashHex(textB)
  {
    StampIsOneLine(s);
    StampIsOneLine(t);
    hide StampText;
    var endA, endB := scopeA + ("\n" + crypto.hashHex(textA)), scopeB + ("\n" + crypto.hashHex(textB));
    Cut(ALGORITHM, ALGORITHM, '\n', StampText(s) + "\n" + endA, StampText(t) + "\n" + endB);
    Cut(StampText(s), StampText(t), '\n', endA, endB);
    SameEnd(scopeA, crypto.hashHex(textA), crypto.hashHex(textB));
  }
}
