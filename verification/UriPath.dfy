/** Paths in URIs: percent-encoding as sections 2.1 and 2.3 of RFC 3986 describe it. */
module UriPath {
  import opened Texts

  /** Go strings are sequences of bytes. */
  predicate Octets(s: string) { forall i :: 0 <= i < |s| ==> s[i] < 256 as char }

  predicate Unreserved(c: char) {
    'A' <= c <= 'Z' || 'a' <= c <= 'z' || '0' <= c <= '9' || c == '-' || c == '_' || c == '.' || c == '~'
  }

  function UpperHex(d: nat): char
    requires d < 16
  {
    if d < 10 then '0' + d as char else 'A' + (d - 10) as char
  }

  function HexValue(c: char): int {
    if '0' <= c <= '9' then (c - '0') as int
    else if 'A' <= c <= 'F' then (c - 'A') as int + 10
    else if 'a' <= c <= 'f' then (c - 'a') as int + 10
    else -1
  }

  function EscapeOctet(c: char): string
    requires c < 256 as char
  {
    if Unreserved(c) then [c] else ['%', UpperHex(c as int / 16), UpperHex(c as int % 16)]
  }

  function EscapeSegment(s: string): string
    requires Octets(s)
  {
    if s == "" then "" else EscapeOctet(s[0]) + EscapeSegment(s[1..])
  }

  /** Everything but unreserved characters and slashes is percent-encoded. */
  function EscapePath(s: string): string
    requires Octets(s)
  {
    if s == "" then ""
    else (if s[0] == '/' then "/" else EscapeOctet(s[0])) + EscapePath(s[1..])
  }

  function CanonicalPath(path: string): string
    requires Octets(path)
  {
    if path == "" then "/" else EscapePath(path)
  }

  predicate IsEncoded(s: string) {
    |s| >= 3 && s[0] == '%' && HexValue(s[1]) >= 0 && HexValue(s[2]) >= 0
  }

  /** Percent-decoding. */
  function Decode(s: string): string {
    if s == "" then ""
    else if IsEncoded(s) then [(HexValue(s[1]) * 16 + HexValue(s[2])) as char] + Decode(s[3..])
    else [s[0]] + Decode(s[1..])
  }

  lemma DecodeOctet(c: char, rest: string)
    requires c < 256 as char
    ensures Decode(EscapeOctet(c) + rest) == [c] + Decode(rest)
  {
    var s := EscapeOctet(c) + rest;
    if Unreserved(c) {
      assert s[0] == c && s[1..] == rest;
    } else {
      assert HexValue(UpperHex(c as int / 16)) == c as int / 16;
      assert HexValue(UpperHex(c as int % 16)) == c as int % 16;
      assert s[3..] == rest;
    }
  }

  /** Percent-decoding gives the path back. */
  lemma {:induction false} DecodeOfEscape(path: string)
    requires Octets(path)
    ensures Decode(EscapePath(path)) == path
  {
    hide Decode, EscapeOctet;
    if path == "" {
      DecodeNothing();
    } else {
      DecodeOfEscape(path[1..]);
      var rest := EscapePath(path[1..]);
      if path[0] == '/' {
        DecodeSlash(rest);
      } else {
        DecodeOctet(path[0], rest);
      }
      assert path == [path[0]] + path[1..];
    }
  }

  lemma DecodeNothing()
    ensures Decode("") == ""
  {
  }

  lemma DecodeSlash(rest: string)
    ensures Decode("/" + rest) == "/" + Decode(rest)
  {
    assert ("/" + rest)[1..] == rest;
  }

  /** Two paths have the same canonical form only if they are equal, or empty and "/". */
  lemma CanonicalPathDetermines(p: string, q: string)
    requires Octets(p) && Octets(q)
    ensures CanonicalPath(p) == CanonicalPath(q) <==> (if p == "" then "/" else p) == (if q == "" then "/" else q)
  {
    DecodeOfEscape(p);
    DecodeOfEscape(q);
    assert EscapePath("/") == "/" + EscapePath("");
    hide Decode, EscapePath;
    assert Decode("/") == "/" by { DecodeSlash(""); DecodeNothing(); assert "/" + "" == "/"; }
    assert CanonicalPath(p) == EscapePath(if p == "" then "/" else p);
  }

  /** The canonical form is made of unreserved characters, slashes and percent signs. */
  lemma {:induction false} EscapedCharacters(path: string)
    requires Octets(path)
    ensures forall c <- EscapePath(path) :: Unreserved(c) || c == '/' || c == '%'
  {
    if path != "" { EscapedCharacters(path[1..]); }
  }

  // The loops ------------------------------------------------------------------------------

  method EscapePathSegment(segment: string) returns (b: string)
    requires Octets(segment)
    ensures b == EscapeSegment(segment)
  {
    hide EscapeSegment;
    b := "";
    for i := 0 to |segment|
      invariant b + EscapeSegment(segment[i..]) == EscapeSegment(segment)
    {
      var c := segment[i];
      SegmentStep(segment[i..]);
      assert segment[i..][1..] == segment[i + 1..];
      ghost var was, rest := b, EscapeSegment(segment[i + 1..]);
      if Unreserved(c) {
        b := b + [c];
        assert was + (EscapeOctet(c) + rest) == b + rest;
        continue;
      }
      b := b + ['%'];
      b := b + [UpperHex(c as int / 16), UpperHex(c as int % 16)];
      assert b == was + EscapeOctet(c);
      assert was + (EscapeOctet(c) + rest) == b + rest;
    }
    SegmentStep(segment[|segment|..]);
  }

  lemma SegmentStep(s: string)
    requires Octets(s)
    ensures s == "" ==> EscapeSegment(s) == ""
    ensures s != "" ==> EscapeSegment(s) == EscapeOctet(s[0]) + EscapeSegment(s[1..])
  {
  }

  predicate AllOctets(segments: seq<string>) { forall i :: 0 <= i < |segments| ==> Octets(segments[i]) }

  function EscapeEach(segments: seq<string>): (escaped: seq<string>)
    requires AllOctets(segments)
    ensures |escaped| == |segments|
    ensures forall i :: 0 <= i < |segments| ==> escaped[i] == EscapeSegment(segments[i])
  {
    if segments == [] then [] else [EscapeSegment(segments[0])] + EscapeEach(segments[1..])
  }

  /** Splits at the slashes, escapes every segment in place and joins them again. */
  method CanonicalURI(path: string) returns (uri: string)
    requires Octets(path)
    ensures uri == CanonicalPath(path)
  {
    if path == "" {
      return "/";
    }
    var segments := Split(path, '/');
    SplitOctets(path);
    ghost var split := segments;
    for i := 0 to |segments|
      invariant |segments| == |split|
      invariant forall j :: 0 <= j < i ==> segments[j] == EscapeEach(split)[j]
      invariant forall j :: i <= j < |segments| ==> segments[j] == split[j]
    {
      var escaped := EscapePathSegment(segments[i]);
      segments := segments[i := escaped];
    }
    assert segments == EscapeEach(split);
    SegmentsOfPath(path);
    uri := Join(segments, '/');
  }

  lemma {:induction false} SplitOctets(path: string)
    requires Octets(path)
    ensures AllOctets(Split(path, '/'))
  {
    if path != "" {
      SplitOctets(path[1..]);
      assert Octets(Split(path[1..], '/')[0]);
    }
  }

  lemma {:induction false} SegmentsOfPath(path: string)
    requires Octets(path)
    ensures AllOctets(Split(path, '/'))
    ensures Join(EscapeEach(Split(path, '/')), '/') == EscapePath(path)
  {
    hide Join, EscapeOctet;
    SplitOctets(path);
    if path == "" {
      assert EscapeEach([""]) == [""];
      assert Join([""], '/') == "" by { JoinOfSplit("", '/'); }
    } else {
      SegmentsOfPath(path[1..]);
      FirstSegment(path);
      var first := if path[0] == '/' then "" else EscapeOctet(path[0]);
      JoinLonger(first, EscapeEach(Split(path[1..], '/')), '/');
    }
  }

  lemma FirstSegment(path: string)
    requires Octets(path) && path != ""
    requires AllOctets(Split(path, '/')) && AllOctets(Split(path[1..], '/'))
    ensures var escaped, rest := EscapeEach(Split(path, '/')), EscapeEach(Split(path[1..], '/'));
      escaped == if path[0] == '/' then [""] + rest else [EscapeOctet(path[0]) + rest[0]] + rest[1..]
  {
    var all, rest := Split(path, '/'), Split(path[1..], '/');
    assert all == if path[0] == '/' then [""] + rest else [[path[0]] + rest[0]] + rest[1..];
    SegmentStep(all[0]);
    assert path[0] != '/' ==> all[0][1..] == rest[0];
    hide EscapeOctet, EscapeSegment, EscapeEach, Split, AllOctets, Octets;
    var escaped, escapedRest := EscapeEach(all), EscapeEach(rest);
    if path[0] == '/' {
      assert forall i :: 0 <= i < |rest| ==> all[i + 1] == rest[i];
    } else {
      assert escaped[0] == EscapeOctet(path[0]) + escapedRest[0];
    }
  }
}
