/** Files of one JSON record a line, where a write may fail and leave part of its line: what a
    reader that takes line by line gets back. */
module JsonLines {
  import opened Binary
  import opened Texts
  import Json

  const NEWLINE: Byte := 10
  const RETURN: Byte := 13

  // Lines -------------------------------------------------------------------------------------

  /** The index of the first newline, or the length. */
  function LineEnd(s: Bytes): (n: nat)
    ensures n <= |s|
    ensures forall i :: 0 <= i < n ==> s[i] != NEWLINE
    ensures n < |s| ==> s[n] == NEWLINE
  {
    if s == [] || s[0] == NEWLINE then 0 else 1 + LineEnd(s[1..])
  }

  /** The lines of a text; a last line needs no newline, and an empty one is not reported. */
  function Lines(s: Bytes): seq<Bytes>
    decreases |s|
  {
    if s == [] then []
    else
      var n := LineEnd(s);
      [s[..n]] + if n < |s| then Lines(s[n + 1..]) else []
  }

  /** The scanner drops one carriage return at the end of a line. */
  function DropReturn(line: Bytes): Bytes {
    if line != [] && line[|line| - 1] == RETURN then line[..|line| - 1] else line
  }

  lemma LinesOfLine(line: Bytes, rest: Bytes)
    requires NEWLINE !in line
    ensures Lines(line + [NEWLINE] + rest) == [line] + Lines(rest)
  {
    var s := line + [NEWLINE] + rest;
    var n := LineEnd(s);
    assert s[|line|] == NEWLINE;
    assert forall i :: 0 <= i < |line| ==> s[i] == line[i];
    assert n == |line|;
    assert s[..n] == line && s[n + 1..] == rest;
  }

  lemma LastLine(line: Bytes)
    requires NEWLINE !in line && line != []
    ensures Lines(line) == [line]
  {
    assert LineEnd(line) == |line|;
    assert line[..|line|] == line;
  }

  // What decodes --------------------------------------------------------------------------------

  type Decoder<T> = Bytes -> Option<T>

  /** What is on a line, if it decodes. */
  function Here<T>(line: Bytes, decode: Decoder<T>): seq<T> {
    var read := decode(DropReturn(line));
    if read.Some? then [read.value] else []
  }

  function Found<T>(lines: seq<Bytes>, decode: Decoder<T>): seq<T> {
    if lines == [] then [] else Here(lines[0], decode) + Found(lines[1..], decode)
  }

  lemma {:induction false} FoundConcat<T>(a: seq<Bytes>, b: seq<Bytes>, decode: Decoder<T>)
    ensures Found(a + b, decode) == Found(a, decode) + Found(b, decode)
  {
    if a == [] {
      assert a + b == b;
    } else {
      FoundConcat(a[1..], b, decode);
      assert (a + b)[1..] == a[1..] + b && (a + b)[0] == a[0];
      hide Here, Found;
      FoundCons(a, decode);
      FoundCons(a + b, decode);
      Associate(Here(a[0], decode), Found(a[1..], decode), Found(b, decode));
    }
  }

  lemma FoundCons<T>(lines: seq<Bytes>, decode: Decoder<T>)
    requires lines != []
    ensures Found(lines, decode) == Here(lines[0], decode) + Found(lines[1..], decode)
  {
  }

  lemma FoundFront<T>(line: Bytes, lines: seq<Bytes>, decode: Decoder<T>)
    ensures Found([line] + lines, decode) == Here(line, decode) + Found(lines, decode)
  {
    hide Here;
    assert ([line] + lines)[1..] == lines;
  }

  /** The decoder takes nothing that is not JSON. */
  ghost predicate JsonOnly<T(!new)>(decode: Decoder<T>) {
    forall s :: decode(s).Some? ==> Json.IsJson(s)
  }

  // Writes ----------------------------------------------------------------------------------------

  /** One write of a line: all of it, or, when it failed, the first `kept` bytes. */
  datatype Piece = Whole(text: Bytes) | Torn(text: Bytes, kept: nat)

  ghost predicate PieceOk(p: Piece) {
    Json.IsRecord(p.text) && Json.Printable(p.text) && (p.Torn? ==> 0 < p.kept <= |p.text|)
  }

  ghost predicate PiecesOk(pieces: seq<Piece>) { forall p <- pieces :: PieceOk(p) }

  function PieceText(p: Piece): Bytes {
    match p
    case Whole(text) => text + [NEWLINE]
    case Torn(text, kept) => if kept <= |text| then text[..kept] else text
  }

  /** What a failed write of a line leaves; a write that stored all of it did not fail. */
  function Left(text: Bytes, kept: nat): Bytes { if kept <= |text| then text[..kept] else [] }

  function Content(pieces: seq<Piece>): Bytes {
    if pieces == [] then [] else PieceText(pieces[0]) + Content(pieces[1..])
  }

  lemma {:induction false} ContentConcat(a: seq<Piece>, b: seq<Piece>)
    ensures Content(a + b) == Content(a) + Content(b)
  {
    hide PieceText;
    if a == [] {
      assert a + b == b;
    } else {
      ContentConcat(a[1..], b);
      assert (a + b)[1..] == a[1..] + b && (a + b)[0] == a[0];
      hide Content;
      assert PieceText(a[0]) + (Content(a[1..]) + Content(b)) == (PieceText(a[0]) + Content(a[1..])) + Content(b);
      ContentFront(a);
      ContentFront(a + b);
    }
  }

  lemma ContentFront(pieces: seq<Piece>)
    requires pieces != []
    ensures Content(pieces) == PieceText(pieces[0]) + Content(pieces[1..])
  {
  }

  /** The records a reader can get back. A record written after a torn one, on what is then the
      same line, is lost with it; a torn one is there only if it stands alone at the very end
      and nothing but its newline is missing. `clean` says that no torn write stands before. */
  function Legible(pieces: seq<Piece>, clean: bool): seq<Bytes> {
    if pieces == [] then []
    else
      var rest := pieces[1..];
      match pieces[0]
      case Whole(text) => (if clean then [text] else []) + Legible(rest, true)
      case Torn(text, kept) =>
        (if clean && rest == [] && kept == |text| then [text] else []) + Legible(rest, false)
  }

  lemma RecordLine(s: Bytes)
    requires Json.IsRecord(s) && Json.Printable(s)
    ensures NEWLINE !in s && s != [] && DropReturn(s) == s
  {
    Json.RecordText(s);
  }

  lemma JammedLine<T(!new)>(f: Bytes, decode: Decoder<T>)
    requires Json.Jammed(f) && Json.Printable(f) && JsonOnly(decode)
    ensures NEWLINE !in f && f != [] && Here(f, decode) == []
  {
    hide Json.IsJson;
    Json.JammedIsNotJson(f);
    assert DropReturn(f) == f;
  }

  lemma PrefixIsPrintable(f: Bytes, s: Bytes, k: nat)
    requires Json.Printable(f) && Json.Printable(s) && k <= |s|
    ensures Json.Printable(f + s[..k])
  {
  }

  lemma FirstPiece(f: Bytes, pieces: seq<Piece>)
    requires pieces != [] && PieceOk(pieces[0])
    ensures (f + Content(pieces) == match pieces[0]
      case Whole(text) => f + text + [NEWLINE] + Content(pieces[1..])
      case Torn(text, kept) => f + text[..kept] + Content(pieces[1..]))
  {
    hide Json.IsRecord;
    var rest := Content(pieces[1..]);
    assert Content(pieces) == PieceText(pieces[0]) + rest;
    hide Content;
    match pieces[0]
    case Whole(text) => assert f + ((text + [NEWLINE]) + rest) == f + text + [NEWLINE] + rest;
    case Torn(text, kept) => assert f + (text[..kept] + rest) == f + text[..kept] + rest;
  }

  lemma OkParts(pieces: seq<Piece>)
    requires PiecesOk(pieces) && pieces != []
    ensures PieceOk(pieces[0]) && PiecesOk(pieces[1..])
  {
    hide PieceOk;
    assert pieces[0] in pieces;
  }

  lemma {:induction false} FoundWhenJammed<T(!new)>(f: Bytes, pieces: seq<Piece>, decode: Decoder<T>)
    requires Json.Jammed(f) && Json.Printable(f) && PiecesOk(pieces) && JsonOnly(decode)
    ensures Found(Lines(f + Content(pieces)), decode) == Found(Legible(pieces, false), decode)
    decreases pieces, 0
  {
    hide Json.Jammed, Json.IsRecord, Json.IsJson, Lines, Here, Json.Printable, PiecesOk;
    if pieces == [] {
      assert f + Content([]) == f;
      JammedLine(f, decode);
      LastLine(f);
      FoundFront(f, [], decode);
      assert [f] + [] == [f];
    } else {
      OkParts(pieces);
      FirstPiece(f, pieces);
      hide Content;
      match pieces[0]
      case Whole(text) =>
        assert text[..|text|] == text;
        RecordLine(text);
        Json.JammedGrows(f, text, |text|);
        PrefixIsPrintable(f, text, |text|);
        LostLine(f + text, pieces[1..], decode);
        assert [] + Legible(pieces[1..], true) == Legible(pieces[1..], true);
      case Torn(text, kept) =>
        Json.JammedGrows(f, text, kept);
        PrefixIsPrintable(f, text, kept);
        FoundWhenJammed(f + text[..kept], pieces[1..], decode);
        assert [] + Legible(pieces[1..], false) == Legible(pieces[1..], false);
    }
  }

  lemma {:induction false} LostLine<T(!new)>(f: Bytes, rest: seq<Piece>, decode: Decoder<T>)
    requires Json.Jammed(f) && Json.Printable(f) && PiecesOk(rest) && JsonOnly(decode)
    ensures Found(Lines(f + [NEWLINE] + Content(rest)), decode) == Found(Legible(rest, true), decode)
    decreases rest, 2
  {
    hide Json.Jammed, Json.IsJson, Lines, Here, Json.Printable, PiecesOk, Content, Legible;
    JammedLine(f, decode);
    LinesOfLine(f, Content(rest));
    FoundFront(f, Lines(Content(rest)), decode);
    FoundInContent(rest, decode);
  }

  lemma {:induction false} FoundAfterTorn<T(!new)>(r: Bytes, i: nat, pieces: seq<Piece>, decode: Decoder<T>)
    requires Json.IsRecord(r) && Json.Printable(r) && 0 < i <= |r| && PiecesOk(pieces) && JsonOnly(decode)
    ensures (Found(Lines(r[..i] + Content(pieces)), decode) ==
      Found((if pieces == [] && i == |r| then [r] else []) + Legible(pieces, false), decode))
    decreases pieces, 0
  {
    hide Json.Jammed, Json.IsRecord, Json.IsJson, Lines, Here, Json.Printable, PiecesOk;
    var f := r[..i];
    if pieces == [] {
      assert f + Content([]) == f && [r] + [] == [r];
      TornAtEnd(r, i, decode);
    } else {
      OkParts(pieces);
      FirstPiece(f, pieces);
      hide Content;
      assert [] + Legible(pieces, false) == Legible(pieces, false);
      match pieces[0]
      case Whole(text) =>
        assert text[..|text|] == text;
        RecordLine(text);
        Json.GluedIsJammed(r, i, text, |text|);
        PrintableStart(r, i);
        PrefixIsPrintable(f, text, |text|);
        LostLine(f + text, pieces[1..], decode);
        assert [] + Legible(pieces[1..], true) == Legible(pieces[1..], true);
      case Torn(text, kept) =>
        Json.GluedIsJammed(r, i, text, kept);
        PrintableStart(r, i);
        PrefixIsPrintable(f, text, kept);
        FoundWhenJammed(f + text[..kept], pieces[1..], decode);
        assert [] + Legible(pieces[1..], false) == Legible(pieces[1..], false);
    }
  }

  lemma PrintableStart(r: Bytes, i: nat)
    requires Json.Printable(r) && i <= |r|
    ensures Json.Printable(r[..i])
  {
  }

  lemma TornAtEnd<T(!new)>(r: Bytes, i: nat, decode: Decoder<T>)
    requires Json.IsRecord(r) && Json.Printable(r) && 0 < i <= |r| && JsonOnly(decode)
    ensures Found(Lines(r[..i]), decode) == Found(if i == |r| then [r] else [], decode)
  {
    hide Json.IsJson, Json.IsRecord, Lines;
    PrintableStart(r, i);
    LastLine(r[..i]);
    if i == |r| {
      assert r[..i] == r;
    } else {
      CutRecord(r, i);
      assert DropReturn(r[..i]) == r[..i];
      FoundFront(r[..i], [], decode);
      assert [r[..i]] + [] == [r[..i]];
    }
  }

  lemma CutRecord(r: Bytes, i: nat)
    requires Json.IsRecord(r) && i < |r|
    ensures !Json.IsJson(r[..i])
  {
    var v :| Json.WellFormed(v) && Json.IsContainer(v) && Json.Text(v) == r;
    Json.NoPrefixIsJson(v, i);
  }

  /** Whatever writes failed, and wherever, a reader of the file finds what decodes of the
      legible records, in order, and nothing else. */
  lemma {:induction false} FoundInContent<T(!new)>(pieces: seq<Piece>, decode: Decoder<T>)
    requires PiecesOk(pieces) && JsonOnly(decode)
    ensures Found(Lines(Content(pieces)), decode) == Found(Legible(pieces, true), decode)
    decreases pieces, 1
  {
    hide Json.Jammed, Json.IsRecord, Json.IsJson, Lines, Here, Json.Printable, PiecesOk;
    if pieces == [] {
      NoLines();
    } else {
      OkParts(pieces);
      FirstPiece([], pieces);
      assert [] + Content(pieces) == Content(pieces);
      var rest := pieces[1..];
      match pieces[0]
      case Whole(text) =>
        assert [] + text == text;
        hide Content;
        RecordLine(text);
        LinesOfLine(text, Content(rest));
        FoundFront(text, Lines(Content(rest)), decode);
        FoundInContent(rest, decode);
        FoundFront(text, Legible(rest, true), decode);
      case Torn(text, kept) =>
        assert [] + text[..kept] == text[..kept];
        FoundAfterTorn(text, kept, rest, decode);
    }
  }

  lemma NoLines()
    ensures Lines([]) == []
  {
  }

  // Complete lines ----------------------------------------------------------------------------------

  /** A text up to and with its last newline. */
  function Complete(s: Bytes): Bytes {
    if s == [] || s[|s| - 1] == NEWLINE then s else Complete(s[..|s| - 1])
  }

  lemma {:induction false} CompleteDrops(s: Bytes, f: Bytes)
    requires NEWLINE !in f
    ensures Complete(s + f) == Complete(s)
    decreases |f|
  {
    if f == [] {
      assert s + f == s;
    } else {
      var n := |f| - 1;
      assert (s + f)[..|s + f| - 1] == s + f[..n];
      CompleteDrops(s, f[..n]);
    }
  }

  lemma {:induction false} CompleteAfter(s: Bytes, t: Bytes)
    requires s != [] && s[|s| - 1] == NEWLINE
    ensures Complete(s + t) == s + Complete(t)
    decreases |t|
  {
    if t == [] {
      assert s + t == s;
    } else if t[|t| - 1] != NEWLINE {
      assert (s + t)[..|s + t| - 1] == s + t[..|t| - 1];
      CompleteAfter(s, t[..|t| - 1]);
    }
  }

  /** The pieces up to the last whole one. */
  function Settled(pieces: seq<Piece>): seq<Piece> {
    if pieces == [] || pieces[|pieces| - 1].Whole? then pieces else Settled(pieces[..|pieces| - 1])
  }

  lemma ContentLast(pieces: seq<Piece>, p: Piece)
    ensures Content(pieces + [p]) == Content(pieces) + PieceText(p)
  {
    ContentConcat(pieces, [p]);
    hide PieceText;
    assert [p][1..] == [];
    assert Content([p]) == PieceText(p) + Content([]);
  }

  lemma NewlineLast(s: Bytes, text: Bytes)
    ensures Complete(s + (text + [NEWLINE])) == s + (text + [NEWLINE])
  {
  }

  lemma LastOk(pieces: seq<Piece>, p: Piece)
    requires PiecesOk(pieces + [p])
    ensures PieceOk(p) && PiecesOk(pieces)
  {
    hide PieceOk;
    var all := pieces + [p];
    assert all[|pieces|] == p && forall q <- pieces :: q in all;
  }

  lemma {:induction false} CompleteContent(pieces: seq<Piece>)
    requires PiecesOk(pieces)
    ensures Complete(Content(pieces)) == Content(Settled(pieces)) && PiecesOk(Settled(pieces))
  {
    hide Json.IsRecord, PiecesOk, Content, Complete;
    if pieces == [] {
      NothingComplete();
    } else {
      var most, p := pieces[..|pieces| - 1], pieces[|pieces| - 1];
      assert pieces == most + [p];
      LastOk(most, p);
      ContentLast(most, p);
      match p
      case Whole(text) =>
        NewlineLast(Content(most), text);
      case Torn(text, kept) =>
        CompleteDrops(Content(most), text[..kept]);
        CompleteContent(most);
    }
  }

  lemma NothingComplete()
    ensures Content([]) == [] && Complete([]) == []
  {
  }

  /** The records on complete lines that a reader can get back: those not behind a torn one. */
  function Readable(pieces: seq<Piece>, clean: bool): seq<Bytes> {
    if pieces == [] then []
    else
      match pieces[0]
      case Whole(text) => (if clean then [text] else []) + Readable(pieces[1..], true)
      case Torn(_, _) => Readable(pieces[1..], false)
  }

  /** One more piece is readable if it is whole and follows a whole one. */
  lemma {:induction false} ReadableLast(pieces: seq<Piece>, p: Piece, clean: bool)
    ensures (Readable(pieces + [p], clean) == Readable(pieces, clean) +
      if p.Whole? && (if pieces == [] then clean else pieces[|pieces| - 1].Whole?) then [p.text] else [])
    decreases pieces
  {
    var all := pieces + [p];
    if pieces == [] {
      assert all == [p] && [p][1..] == [];
    } else {
      assert all[1..] == pieces[1..] + [p];
      ReadableLast(pieces[1..], p, pieces[0].Whole?);
    }
  }

  lemma {:induction false} SettledReadable(pieces: seq<Piece>, clean: bool)
    ensures Readable(Settled(pieces), clean) == Readable(pieces, clean)
    decreases pieces
  {
    if pieces != [] && pieces[|pieces| - 1].Torn? {
      SettledReadable(pieces[..|pieces| - 1], clean);
      TornLast(pieces, clean);
    }
  }

  lemma {:induction false} TornLast(pieces: seq<Piece>, clean: bool)
    requires pieces != [] && pieces[|pieces| - 1].Torn?
    ensures Readable(pieces, clean) == Readable(pieces[..|pieces| - 1], clean)
  {
    var most := pieces[..|pieces| - 1];
    if |pieces| > 1 {
      assert most[1..] == pieces[1..][..|pieces| - 2];
      TornLast(pieces[1..], if pieces[0].Whole? then true else false);
    }
  }

  lemma {:induction false} LegibleIsReadable(pieces: seq<Piece>, clean: bool)
    requires pieces == [] || pieces[|pieces| - 1].Whole?
    ensures Legible(pieces, clean) == Readable(pieces, clean)
  {
    if pieces != [] {
      LegibleIsReadable(pieces[1..], pieces[0].Whole?);
    }
  }

  lemma {:induction false} SettledEndsWhole(pieces: seq<Piece>)
    ensures Settled(pieces) == [] || Settled(pieces)[|Settled(pieces)| - 1].Whole?
  {
    if pieces != [] && pieces[|pieces| - 1].Torn? { SettledEndsWhole(pieces[..|pieces| - 1]); }
  }

  /** A reader of complete lines finds what decodes of the readable records. */
  lemma FoundInComplete<T(!new)>(pieces: seq<Piece>, decode: Decoder<T>)
    requires PiecesOk(pieces) && JsonOnly(decode)
    ensures Found(Lines(Complete(Content(pieces))), decode) == Found(Readable(pieces, true), decode)
  {
    hide *;
    CompleteContent(pieces);
    FoundInContent(Settled(pieces), decode);
    SettledEndsWhole(pieces);
    LegibleIsReadable(Settled(pieces), true);
    SettledReadable(pieces, true);
  }
}
