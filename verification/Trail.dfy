/** The audit trail on disk: the sink that appends events to a file, one JSON object a line,
    and the tail that reads the newest of them back through a window at the end of the file. */
module Trail {
  import opened Audit
  import opened Binary
  import opened Encoding
  import Json
  import opened JsonLines
  import opened Texts

  const MAX_TAIL := 500
  const WINDOW := 0x10_0000
  const LINE_CAP := 0x1_0000

  function Line(e: Event): Bytes { Encode(e) + [NEWLINE] }

  function Written(events: seq<Event>): Bytes {
    if events == [] then [] else Line(events[0]) + Written(events[1..])
  }

  lemma {:induction false} WrittenConcat(a: seq<Event>, b: seq<Event>)
    ensures Written(a + b) == Written(a) + Written(b)
  {
    hide Line, Written;
    if a == [] {
      assert a + b == b;
      WrittenNothing();
      assert [] + Written(b) == Written(b);
    } else {
      WrittenConcat(a[1..], b);
      assert (a + b)[1..] == a[1..] + b && (a + b)[0] == a[0];
      WrittenCons(a);
      WrittenCons(a + b);
      Associate(Line(a[0]), Written(a[1..]), Written(b));
    }
  }

  lemma WrittenNothing()
    ensures Written([]) == []
  {
  }

  lemma WrittenCons(events: seq<Event>)
    requires events != []
    ensures Written(events) == Line(events[0]) + Written(events[1..])
  {
  }

  // The sink ----------------------------------------------------------------------------------

  /** One write of an event: all of its line, or, when it failed, the first `kept` bytes. */
  datatype Attempt = Complete(event: Event) | Partial(event: Event, kept: nat)

  ghost predicate AttemptOk(a: Attempt) {
    Encodable(a.event) && (a.Partial? ==> 0 < a.kept <= |Encode(a.event)|)
  }

  ghost predicate AttemptsOk(log: seq<Attempt>) { forall i :: 0 <= i < |log| ==> AttemptOk(log[i]) }

  function PieceOf(a: Attempt): Piece {
    match a
    case Complete(e) => Whole(Encode(e))
    case Partial(e, kept) => Torn(Encode(e), kept)
  }

  function PiecesOf(log: seq<Attempt>): seq<Piece> {
    if log == [] then [] else [PieceOf(log[0])] + PiecesOf(log[1..])
  }

  function AllComplete(events: seq<Event>): seq<Attempt> {
    seq(|events|, i requires 0 <= i < |events| => Complete(events[i]))
  }

  function LeftBy(e: Event, kept: nat): seq<Attempt> {
    if 0 < kept <= |Encode(e)| then [Partial(e, kept)] else []
  }

  lemma {:induction false} PiecesConcat(a: seq<Attempt>, b: seq<Attempt>)
    ensures PiecesOf(a + b) == PiecesOf(a) + PiecesOf(b)
  {
    hide PieceOf;
    if a == [] {
      assert a + b == b;
    } else {
      PiecesConcat(a[1..], b);
      assert (a + b)[1..] == a[1..] + b && (a + b)[0] == a[0];
    }
  }

  lemma LoggedOnce(log: seq<Attempt>, a: Attempt)
    ensures Content(PiecesOf(log + [a])) == Content(PiecesOf(log)) + PieceText(PieceOf(a))
  {
    PiecesConcat(log, [a]);
    ContentConcat(PiecesOf(log), PiecesOf([a]));
    hide PieceOf, PieceText;
    assert [a][1..] == [];
    assert PiecesOf([a]) == [PieceOf(a)];
    assert [PieceOf(a)][1..] == [];
    assert Content([PieceOf(a)]) == PieceText(PieceOf(a)) + Content([]);
  }

  /** What a write that succeeds, and one that fails, does to file and log. */
  lemma Logged(log: seq<Attempt>, e: Event, kept: nat)
    requires AttemptsOk(log) && Encodable(e)
    ensures AttemptsOk(log + [Complete(e)])
    ensures Content(PiecesOf(log + [Complete(e)])) == Content(PiecesOf(log)) + Line(e)
    ensures AttemptsOk(log + LeftBy(e, kept))
    ensures Content(PiecesOf(log + LeftBy(e, kept))) == Content(PiecesOf(log)) + Left(Encode(e), kept)
  {
    hide Encode, Encodable, PiecesOf, Content;
    LoggedOnce(log, Complete(e));
    if 0 < kept <= |Encode(e)| {
      LoggedOnce(log, Partial(e, kept));
    } else {
      assert log + [] == log && Content(PiecesOf(log)) + [] == Content(PiecesOf(log));
    }
  }

  class FileSink {
    var file: Bytes
    ghost var log: seq<Attempt>

    /** The file is what all the writes so far have left. */
    ghost predicate Valid()
      reads this
    {
      AttemptsOk(log) && file == Content(PiecesOf(log))
    }

    constructor ()
      ensures Valid() && file == [] && log == []
    {
      file, log := [], [];
    }

    /** Writes each event in turn and gives up at the first that has no encoding or whose
        write fails. `failing` is the write that fails, if it is reached, and `kept` how much
        of its line is in the file all the same. */
    method Append(events: seq<Event>, failing: nat, kept: nat, synced: bool) returns (ok: bool, done: nat)
      requires Valid()
      modifies this
      ensures Valid()
      ensures done <= |events| && done <= failing
      ensures forall i :: 0 <= i < done ==> Encodable(events[i])
      ensures done < |events| ==> done == failing || !Encodable(events[done])
      ensures (file == old(file) + Written(events[..done])
        + if done < |events| && Encodable(events[done]) then Left(Encode(events[done]), kept) else [])
      ensures (log == old(log) + AllComplete(events[..done])
        + if done < |events| && Encodable(events[done]) then LeftBy(events[done], kept) else [])
      ensures ok <==> done == |events| && synced
    {
      hide Encode, Encodable, PiecesOf, Content, AttemptsOk, Left, LeftBy, AllComplete, Written, Line;
      done := 0;
      NothingWritten(events);
      while done < |events|
        invariant done <= |events| && done <= failing && Valid()
        invariant forall i :: 0 <= i < done ==> Encodable(events[i])
        invariant file == old(file) + Written(events[..done])
        invariant log == old(log) + AllComplete(events[..done])
      {
        var e := events[done];
        if !Encodable(e) {
          return false, done;
        }
        Logged(log, e, kept);
        if done == failing {
          file := file + Left(Encode(e), kept);
          log := log + LeftBy(e, kept);
          return false, done;
        }
        OneWritten(events, done);
        file := file + Line(e);
        log := log + [Complete(e)];
        done := done + 1;
      }
      assert events[..done] == events;
      ok := synced;
    }
  }

  lemma NothingWritten(events: seq<Event>)
    ensures Written(events[..0]) == [] && AllComplete(events[..0]) == []
  {
  }

  lemma OneWritten(events: seq<Event>, n: nat)
    requires n < |events|
    ensures Written(events[..n + 1]) == Written(events[..n]) + Line(events[n])
    ensures AllComplete(events[..n + 1]) == AllComplete(events[..n]) + [Complete(events[n])]
  {
    hide Line;
    assert events[..n + 1] == events[..n] + [events[n]];
    WrittenConcat(events[..n], [events[n]]);
    assert Written([events[n]]) == Line(events[n]) + Written([]);
  }

  // The scanner -------------------------------------------------------------------------------

  predicate TooLong(lines: seq<Bytes>) { exists i :: 0 <= i < |lines| && |lines[i]| >= LINE_CAP }

  // The tail ------------------------------------------------------------------------------------

  datatype Result = Ok(events: seq<Event>) | LineTooLong

  function Reversed(s: seq<Event>): seq<Event> {
    seq(|s|, i requires 0 <= i < |s| => s[|s| - 1 - i])
  }

  function Clamp(limit: int): nat { if limit <= 0 then 0 else if limit > MAX_TAIL then MAX_TAIL else limit }

  function LastOf(s: seq<Event>, k: nat): seq<Event> { if |s| > k then s[|s| - k..] else s }

  function InWindow(content: Bytes): Bytes {
    if |content| > WINDOW then content[|content| - WINDOW..] else content
  }

  /** What the tail is for: the newest events found in the window, newest first. */
  function Newest(content: Bytes, limit: int, decode: Decoder<Event>): Result {
    if limit <= 0 then Ok([])
    else if TooLong(Lines(InWindow(content))) then LineTooLong
    else Ok(Reversed(LastOf(Found(Lines(InWindow(content)), decode), Clamp(limit))))
  }

  /** A missing file has no events. */
  method Tail(file: Option<Bytes>, limit: int, decode: Decoder<Event>) returns (r: Result)
    ensures r == if file.Some? then Newest(file.value, limit, decode) else Ok([])
  {
    hide Lines, Found, TooLong, Reversed;
    if limit <= 0 {
      return Ok([]);
    }
    var most := if limit > MAX_TAIL then MAX_TAIL else limit;
    if file.None? {
      return Ok([]);
    }
    var found: seq<Event>;
    found, r := Scan(InWindow(file.value), decode);
    if r.LineTooLong? {
      return;
    }
    if |found| > most {
      found := found[|found| - most..];
    }
    found := NewestFirst(found);
    r := Ok(found);
  }

  method NewestFirst(found: seq<Event>) returns (newestFirst: seq<Event>)
    ensures newestFirst == Reversed(found)
  {
    newestFirst := found;
    for i := 0 to |found|
      invariant |newestFirst| == |found|
      invariant forall k :: |found| - i <= k < |found| ==> newestFirst[k] == found[|found| - 1 - k]
    {
      newestFirst := newestFirst[|found| - 1 - i := found[i]];
    }
  }

  /** The scanning loop: every line that decodes is kept, and a line that fills the buffer
      ends the scan with an error. */
  method Scan(content: Bytes, decode: Decoder<Event>) returns (found: seq<Event>, r: Result)
    ensures r == if TooLong(Lines(content)) then LineTooLong else Ok(found)
    ensures r.Ok? ==> found == Found(Lines(content), decode)
  {
    hide Lines, Found, TooLong, LineEnd, DropReturn;
    found := [];
    var rest := content;
    ghost var read: seq<Bytes> := [];
    ScanStarts(decode);
    assert [] + Lines(rest) == Lines(rest);
    while rest != []
      invariant Lines(content) == read + Lines(rest)
      invariant !TooLong(read) && found == Found(read, decode)
      decreases |rest|
    {
      var n := LineEnd(rest);
      var line, next := rest[..n], if n < |rest| then rest[n + 1..] else [];
      ReadOne(rest);
      assert |next| < |rest|;
      assert Lines(content) == (read + [line]) + Lines(next);
      ReadOn(read, line, decode);
      if n >= LINE_CAP {
        StillTooLong(read + [line], Lines(next));
        return found, LineTooLong;
      }
      var here := decode(DropReturn(line));
      if here.Some? {
        found := found + [here.value];
      }
      rest, read := next, read + [line];
    }
    ScanStarts(decode);
    assert Lines(content) == read;
    r := Ok(found);
  }

  lemma ScanStarts(decode: Decoder<Event>)
    ensures Lines([]) == [] && Found([], decode) == [] && !TooLong([])
  {
  }

  lemma ReadOne(s: Bytes)
    requires s != []
    ensures s[0] != NEWLINE ==> LineEnd(s) > 0
    ensures Lines(s) == [s[..LineEnd(s)]] + Lines(if LineEnd(s) < |s| then s[LineEnd(s) + 1..] else [])
  {
  }

  lemma ReadOn(read: seq<Bytes>, line: Bytes, decode: Decoder<Event>)
    ensures Found(read + [line], decode) == Found(read, decode) + Here(line, decode)
    ensures TooLong(read + [line]) <==> TooLong(read) || |line| >= LINE_CAP
  {
    FoundConcat(read, [line], decode);
    assert [line][1..] == [];
    var all := read + [line];
    assert all[|read|] == line;
    assert forall i :: 0 <= i < |read| ==> read[i] == all[i];
  }

  lemma StillTooLong(read: seq<Bytes>, rest: seq<Bytes>)
    requires TooLong(read)
    ensures TooLong(read + rest)
  {
    var i :| 0 <= i < |read| && |read[i]| >= LINE_CAP;
    assert (read + rest)[i] == read[i];
  }

  // What a trail gives back --------------------------------------------------------------------

  /** The decoder reads every encoded event and nothing that is not JSON. */
  ghost predicate Reads(decode: Decoder<Event>, events: seq<Event>) {
    && (forall e <- events :: decode(Encode(e)).Some?)
    && (forall s :: decode(s).Some? ==> Json.IsJson(s))
  }

  function Decoded(events: seq<Event>, decode: Decoder<Event>): seq<Event>
    requires forall e <- events :: decode(Encode(e)).Some?
  {
    seq(|events|, i requires 0 <= i < |events| => assert events[i] in events; decode(Encode(events[i])).value)
  }

  lemma EncodedLine(e: Event)
    requires Encodable(e)
    ensures Json.WellFormed(EventValue(e)) && EventValue(e).Obj?
    ensures |Encode(e)| >= 2 && Encode(e)[|Encode(e)| - 1] == Json.RBRACE
    ensures NEWLINE !in Encode(e) && RETURN !in Encode(e)
  {
    EventIsCompact(e);
    CompactIsWellFormed(EventValue(e));
    Json.ContainerText(EventValue(e));
    CompactIsPrintable(EventValue(e));
  }

  lemma TooLongCons(line: Bytes, lines: seq<Bytes>)
    ensures TooLong([line] + lines) <==> |line| >= LINE_CAP || TooLong(lines)
  {
    var all := [line] + lines;
    assert all[0] == line;
    assert forall i :: 0 <= i < |lines| ==> lines[i] == all[i + 1];
  }

  lemma {:induction false} FoundAfter(events: seq<Event>, rest: Bytes, decode: Decoder<Event>)
    requires Reads(decode, events) && forall e <- events :: Encodable(e)
    ensures Found(Lines(Written(events) + rest), decode) == Decoded(events, decode) + Found(Lines(rest), decode)
  {
    if events == [] {
      assert Written(events) + rest == rest;
    } else {
      ReadsFewer(decode, events);
      FoundAfter(events[1..], rest, decode);
      FoundFirst(events, rest, decode);
      hide *;
      Associate(Decoded(events[..1], decode), Decoded(events[1..], decode), Found(Lines(rest), decode));
    }
  }

  lemma ReadsFewer(decode: Decoder<Event>, events: seq<Event>)
    requires Reads(decode, events) && events != []
    ensures Reads(decode, events[..1]) && Reads(decode, events[1..])
    ensures Decoded(events, decode) == Decoded(events[..1], decode) + Decoded(events[1..], decode)
  {
    hide Json.IsJson, Encode;
  }

  lemma FoundFirst(events: seq<Event>, rest: Bytes, decode: Decoder<Event>)
    requires events != [] && Encodable(events[0]) && Reads(decode, events)
    ensures (Found(Lines(Written(events) + rest), decode)
      == Decoded(events[..1], decode) + Found(Lines(Written(events[1..]) + rest), decode))
  {
    hide Encode, Encodable, Json.IsJson, Lines, Found, Written;
    var e, later := events[0], Written(events[1..]) + rest;
    WrittenFront(events, rest);
    EncodedLine(e);
    FoundLine(e, later, decode);
    assert Here(Encode(e), decode) == Decoded(events[..1], decode);
  }

  lemma WrittenFront(events: seq<Event>, rest: Bytes)
    requires events != []
    ensures Written(events) + rest == Encode(events[0]) + [NEWLINE] + (Written(events[1..]) + rest)
  {
    hide Encode;
    var later := Written(events[1..]);
    WrittenCons(events);
    hide Written;
    assert (Encode(events[0]) + [NEWLINE] + later) + rest == Encode(events[0]) + [NEWLINE] + (later + rest);
  }

  lemma FoundLine(e: Event, later: Bytes, decode: Decoder<Event>)
    requires Encodable(e)
    ensures DropReturn(Encode(e)) == Encode(e)
    ensures Found(Lines(Encode(e) + [NEWLINE] + later), decode) == Here(Encode(e), decode) + Found(Lines(later), decode)
  {
    hide Encode, Encodable, Lines, Found, Here;
    EncodedLine(e);
    LinesOfLine(Encode(e), later);
    var all := [Encode(e)] + Lines(later);
    FoundCons(all, decode);
    assert all[1..] == Lines(later) && all[0] == Encode(e);
  }

  lemma FoundWritten(events: seq<Event>, decode: Decoder<Event>)
    requires Reads(decode, events) && forall e <- events :: Encodable(e)
    ensures Found(Lines(Written(events)), decode) == Decoded(events, decode)
    ensures TooLong(Lines(Written(events))) <==> exists e <- events :: |Encode(e)| >= LINE_CAP
  {
    hide Encodable, Encode, Lines, Json.IsJson, Found, Written, TooLong;
    FoundAfter(events, [], decode);
    ScanStarts(decode);
    assert Written(events) + [] == Written(events);
    TooLongWritten(events);
  }

  lemma {:induction false} TooLongWritten(events: seq<Event>)
    requires forall e <- events :: Encodable(e)
    ensures TooLong(Lines(Written(events))) <==> exists e <- events :: |Encode(e)| >= LINE_CAP
  {
    hide Encodable, Encode, Lines;
    if events == [] {
      ScanStarts(s => None);
    } else {
      var e, rest := events[0], Written(events[1..]);
      EncodedLine(e);
      TooLongWritten(events[1..]);
      LinesOfLine(Encode(e), rest);
      assert Written(events) == Encode(e) + [NEWLINE] + rest;
      hide Written, TooLong;
      TooLongCons(Encode(e), Lines(rest));
      assert events == [e] + events[1..];
    }
  }

  lemma CutIsNotJson(e: Event, k: nat)
    requires Encodable(e) && 0 < k <= |Encode(e)|
    ensures !Json.IsJson(Encode(e)[k..])
  {
    EncodedLine(e);
    Json.NoSuffixIsJson(EventValue(e), k);
  }

  /** A line whose front is cut off at the start of the window gives back no event. */
  lemma FoundAfterCut(e: Event, k: nat, events: seq<Event>, decode: Decoder<Event>)
    requires Encodable(e) && 0 < k <= |Line(e)|
    requires Reads(decode, events)
    ensures Found(Lines(Line(e)[k..] + Written(events)), decode) == Found(Lines(Written(events)), decode)
    ensures (TooLong(Lines(Line(e)[k..] + Written(events))) <==>
      |Line(e)| - k > LINE_CAP || TooLong(Lines(Written(events))))
  {
    hide Encodable, Encode, Lines, Json.IsJson, TooLong, Written;
    var rest := Written(events);
    if k == |Line(e)| {
      assert Line(e)[k..] + rest == rest;
    } else {
      var line := Encode(e)[k..];
      assert Line(e)[k..] == line + [NEWLINE];
      EncodedLine(e);
      assert Encode(e) == Encode(e)[..k] + line;
      LinesOfLine(line, rest);
      TooLongCons(line, Lines(rest));
      CutIsNotJson(e, k);
      assert DropReturn(line) == line;
      assert ([line] + Lines(rest))[1..] == Lines(rest);
    }
  }

  /** The events from number i on are the longest run at the end that fits in the window. */
  ghost predicate IsKept(events: seq<Event>, i: nat) {
    && i <= |events| && |Written(events[i..])| <= WINDOW
    && (i > 0 ==> |Written(events[i - 1..])| > WINDOW)
  }

  lemma WrittenLonger(events: seq<Event>, i: nat)
    requires i < |events|
    ensures Written(events[i..]) == Line(events[i]) + Written(events[i + 1..])
  {
    assert events[i..][1..] == events[i + 1..];
  }

  lemma {:induction false} KeptExists(events: seq<Event>, j: nat) returns (i: nat)
    requires j <= |events| && |Written(events[j..])| <= WINDOW
    ensures IsKept(events, i)
    decreases j
  {
    if j == 0 || |Written(events[j - 1..])| > WINDOW {
      i := j;
    } else {
      i := KeptExists(events, j - 1);
    }
  }

  /** One of the events from number i on, or what the window shows of the line before them,
      fills the line buffer. */
  ghost predicate Overlong(events: seq<Event>, i: nat)
    requires i <= |events|
  {
    || (exists e <- events[i..] :: |Encode(e)| >= LINE_CAP)
    || (i > 0 && WINDOW - |Written(events[i..])| > LINE_CAP)
  }

  lemma WindowShows(events: seq<Event>, i: nat, decode: Decoder<Event>)
    requires Reads(decode, events) && (forall e <- events :: Encodable(e)) && IsKept(events, i)
    ensures Reads(decode, events[i..])
    ensures Found(Lines(InWindow(Written(events))), decode) == Decoded(events[i..], decode)
    ensures TooLong(Lines(InWindow(Written(events)))) <==> Overlong(events, i)
  {
    hide *;
    ReadsKept(events, i, decode);
    OverlongParts(events, i);
    FoundWritten(events[i..], decode);
    if i == 0 {
      ShowsAll(events);
    } else {
      var e := events[i - 1];
      WindowCutsLine(events, i);
      FoundAfterCut(e, |Line(e)| + |Written(events[i..])| - WINDOW, events[i..], decode);
    }
  }

  lemma ReadsKept(events: seq<Event>, i: nat, decode: Decoder<Event>)
    requires Reads(decode, events) && (forall e <- events :: Encodable(e)) && IsKept(events, i)
    ensures i <= |events| && Reads(decode, events[i..]) && forall e <- events[i..] :: Encodable(e)
  {
    hide Encodable, Encode, Json.IsJson, Written;
  }

  lemma OverlongParts(events: seq<Event>, i: nat)
    requires IsKept(events, i)
    ensures i == 0 ==> (Overlong(events, i) <==> exists e <- events[i..] :: |Encode(e)| >= LINE_CAP)
    ensures (i > 0 && WINDOW - |Written(events[i..])| <= LINE_CAP ==>
      (Overlong(events, i) <==> exists e <- events[i..] :: |Encode(e)| >= LINE_CAP))
    ensures i > 0 && WINDOW - |Written(events[i..])| > LINE_CAP ==> Overlong(events, i)
  {
    hide Encode, Written;
  }

  lemma ShowsAll(events: seq<Event>)
    requires IsKept(events, 0)
    ensures InWindow(Written(events)) == Written(events[0..])
  {
    assert events[0..] == events;
  }

  /** Whatever was appended, the tail returns, newest first, the last of exactly those events
      whose lines lie wholly in the window. It fails exactly if one of those lines, or what
      the window shows of the line before them, is 64 KiB long. */
  lemma TailOfTrail(events: seq<Event>, i: nat, limit: int, decode: Decoder<Event>)
    requires Reads(decode, events) && forall e <- events :: Encodable(e)
    requires IsKept(events, i) && limit > 0
    ensures Newest(Written(events), limit, decode).LineTooLong? <==> Overlong(events, i)
    ensures Reads(decode, events[i..])
    ensures (Newest(Written(events), limit, decode).Ok? ==>
      Newest(Written(events), limit, decode).events == Reversed(LastOf(Decoded(events[i..], decode), Clamp(limit))))
  {
    hide Encodable, Encode, Lines, Found, Json.IsJson, TooLong, Line, Written, Decoded, Reversed, Reads, Overlong, InWindow;
    WindowShows(events, i, decode);
  }

  /** Where the window opens, if it does not show the whole trail. */
  lemma WindowCutsLine(events: seq<Event>, i: nat)
    requires IsKept(events, i) && i > 0
    ensures 0 < |Line(events[i - 1])| + |Written(events[i..])| - WINDOW <= |Line(events[i - 1])|
    ensures (InWindow(Written(events))
      == Line(events[i - 1])[|Line(events[i - 1])| + |Written(events[i..])| - WINDOW..] + Written(events[i..]))
  {
    hide Line;
    var e, kept := events[i - 1], events[i..];
    WrittenLonger(events, i - 1);
    WrittenConcat(events[..i - 1], events[i - 1..]);
    assert events == events[..i - 1] + events[i - 1..];
    hide Written;
    var front, k := Written(events[..i - 1]), |Line(e)| + |Written(kept)| - WINDOW;
    assert front + (Line(e) + Written(kept)) == (front + Line(e)[..k]) + (Line(e)[k..] + Written(kept));
  }

  /** Lines under 64 KiB never make the tail fail. */
  lemma ShortLinesFit(events: seq<Event>, i: nat)
    requires IsKept(events, i) && forall e <- events :: |Encode(e)| < LINE_CAP
    ensures !Overlong(events, i)
  {
    hide Encode;
    if i > 0 { WindowCutsLine(events, i); }
  }

  lemma KeptBound(events: seq<Event>, i: nat)
    requires IsKept(events, i)
    ensures i <= |events|
  {
  }

  /** With every line under 64 KiB the tail never fails: number j of its answer is number j
      of the trail counted from the end, for as many as the limit allows, at most 500, and as
      there are wholly in the window. */
  lemma TailReturnsNewest(events: seq<Event>, i: nat, limit: int, decode: Decoder<Event>)
    requires Reads(decode, events) && forall e <- events :: Encodable(e) && |Encode(e)| < LINE_CAP
    requires IsKept(events, i) && limit > 0
    ensures Newest(Written(events), limit, decode).Ok?
    ensures (IsNewest(Newest(Written(events), limit, decode).events, events,
      Min(|events| - i, Min(limit, MAX_TAIL)), decode))
  {
    hide *;
    KeptBound(events, i);
    TailOfTrail(events, i, limit, decode);
    ShortLinesFit(events, i);
    NewestDecoded(events, i, limit, decode);
  }

  function FromEnd(events: seq<Event>, j: nat): Event
    requires j < |events|
  {
    events[|events| - 1 - j]
  }

  /** The answer holds the last n events of the trail, as they are read back, newest first. */
  ghost predicate IsNewest(answer: seq<Event>, events: seq<Event>, n: int, decode: Decoder<Event>) {
    && |answer| == n <= |events|
    && forall j :: 0 <= j < n ==> decode(Encode(FromEnd(events, j))) == Some(answer[j])
  }

  lemma NewestDecoded(events: seq<Event>, i: nat, limit: int, decode: Decoder<Event>)
    requires i <= |events| && limit > 0 && Reads(decode, events[i..])
    ensures (IsNewest(Reversed(LastOf(Decoded(events[i..], decode), Clamp(limit))), events,
      Min(|events| - i, Min(limit, MAX_TAIL)), decode))
  {
    hide Encode, Json.IsJson;
    var n := Min(|events| - i, Min(limit, MAX_TAIL));
    var kept := Decoded(events[i..], decode);
    var answer := Reversed(LastOf(kept, Clamp(limit)));
    assert |answer| == n;
    forall j | 0 <= j < n ensures decode(Encode(FromEnd(events, j))) == Some(answer[j]) {
      assert answer[j] == kept[|kept| - 1 - j];
      assert events[i..][|kept| - 1 - j] == FromEnd(events, j);
    }
  }

  function Min(a: int, b: int): int { if a < b then a else b }

  /** The decoder that undoes the encoder: what a text was encoded from, if from anything. */
  ghost function Inverse(s: Bytes): Option<Event> {
    if exists e :: Encodable(e) && Encode(e) == s then
      var e :| Encodable(e) && Encode(e) == s;
      Some(CanonEvent(e))
    else None
  }

  /** Such a decoder exists: it reads every event back, with stray bytes replaced. */
  lemma InverseReads(events: seq<Event>)
    requires forall e <- events :: Encodable(e)
    ensures Reads(Inverse, events)
    ensures Decoded(events, Inverse) == seq(|events|, i requires 0 <= i < |events| => CanonEvent(events[i]))
  {
    hide Encode, Encodable, CanonEvent;
    forall e | Encodable(e)
      ensures Inverse(Encode(e)) == Some(CanonEvent(e)) && Json.IsJson(Encode(e))
    {
      forall f | Encodable(f) && Encode(f) == Encode(e) ensures CanonEvent(f) == CanonEvent(e) {
        EncodeDetermines(e, f);
      }
      EncodedIsJson(e);
    }
    assert forall e <- events :: Inverse(Encode(e)) == Some(CanonEvent(e));
  }

  /** Events of valid UTF-8 come back exactly as they were. */
  lemma InverseReadsBack(events: seq<Event>)
    requires forall e <- events :: Encodable(e) && ValidEvent(e)
    ensures Reads(Inverse, events) && Decoded(events, Inverse) == events
  {
    hide Inverse, CanonEvent, ValidEvent, Encodable, Encode, Json.IsJson;
    InverseReads(events);
    forall i | 0 <= i < |events| ensures CanonEvent(events[i]) == events[i] {
      CanonOfValidEvent(events[i]);
    }
  }

  lemma EncodedIsJson(e: Event)
    requires Encodable(e)
    ensures Json.IsJson(Encode(e))
  {
    EncodedLine(e);
  }

  // Torn writes ---------------------------------------------------------------------------------

  /** The events a reader of the file can get back, whatever writes failed: those whose line is
      whole and not behind a torn one, and a torn one at the very end, behind a whole line,
      that lacks nothing but its newline. */
  function Surviving(log: seq<Attempt>, clean: bool): seq<Event> {
    if log == [] then []
    else
      var rest := log[1..];
      match log[0]
      case Complete(e) => (if clean then [e] else []) + Surviving(rest, true)
      case Partial(e, kept) =>
        (if clean && rest == [] && kept == |Encode(e)| then [e] else []) + Surviving(rest, false)
  }

  function Records(events: seq<Event>): seq<Bytes> {
    if events == [] then [] else [Encode(events[0])] + Records(events[1..])
  }

  lemma {:induction false} RecordsConcat(a: seq<Event>, b: seq<Event>)
    ensures Records(a + b) == Records(a) + Records(b)
  {
    hide Encode;
    if a == [] {
      assert a + b == b;
    } else {
      RecordsConcat(a[1..], b);
      assert (a + b)[1..] == a[1..] + b && (a + b)[0] == a[0];
    }
  }

  lemma {:induction false} SurvivingAreLegible(log: seq<Attempt>, clean: bool)
    ensures Legible(PiecesOf(log), clean) == Records(Surviving(log, clean))
  {
    hide Encode;
    if log != [] {
      var rest := log[1..];
      assert PiecesOf(log)[1..] == PiecesOf(rest) && PiecesOf(log)[0] == PieceOf(log[0]);
      assert PiecesOf(rest) == [] <==> rest == [];
      match log[0]
      case Complete(e) =>
        SurvivingAreLegible(rest, true);
        RecordsConcat(if clean then [e] else [], Surviving(rest, true));
        assert [e][1..] == [];
      case Partial(e, kept) =>
        SurvivingAreLegible(rest, false);
        RecordsConcat(if clean && rest == [] && kept == |Encode(e)| then [e] else [], Surviving(rest, false));
        assert [e][1..] == [];
    }
  }

  lemma {:induction false} PiecesAreOk(log: seq<Attempt>)
    requires AttemptsOk(log)
    ensures PiecesOk(PiecesOf(log))
  {
    hide Encode, Encodable, Json.IsRecord, Json.Printable;
    if log != [] {
      assert AttemptOk(log[0]);
      PiecesAreOk(log[1..]);
      EventIsRecord(log[0].event);
    }
  }

  lemma {:induction false} FoundRecords(events: seq<Event>, decode: Decoder<Event>)
    requires Reads(decode, events) && forall e <- events :: Encodable(e)
    ensures Found(Records(events), decode) == Decoded(events, decode)
  {
    hide Encode, Encodable, Json.IsJson, Found;
    if events == [] {
      ScanStarts(decode);
    } else {
      ReadsFewer(decode, events);
      FoundRecords(events[1..], decode);
      EncodedLine(events[0]);
      FoundFront(Encode(events[0]), Records(events[1..]), decode);
      assert DropReturn(Encode(events[0])) == Encode(events[0]);
      assert Here(Encode(events[0]), decode) == Decoded(events[..1], decode);
    }
  }

  /** However many writes failed, and wherever each of them stopped, exactly the surviving events
      are read back, in order, and none is made up. */
  lemma TornWrites(log: seq<Attempt>, decode: Decoder<Event>)
    requires AttemptsOk(log) && Reads(decode, Surviving(log, true))
    ensures Found(Lines(Content(PiecesOf(log))), decode) == Decoded(Surviving(log, true), decode)
  {
    hide AttemptsOk, PiecesOf, Surviving, Encodable, Encode, PiecesOk, Lines, Found;
    PiecesAreOk(log);
    SurvivingAreWritten(log, true);
    FoundInContent(PiecesOf(log), decode);
    SurvivingAreLegible(log, true);
    FoundRecords(Surviving(log, true), decode);
  }

  /** What survives was written. */
  lemma {:induction false} SurvivingAreWritten(log: seq<Attempt>, clean: bool)
    requires AttemptsOk(log)
    ensures forall e <- Surviving(log, clean) :: Encodable(e) && exists i :: 0 <= i < |log| && log[i].event == e
  {
    hide Encodable, Encode;
    if log != [] {
      assert AttemptOk(log[0]);
      SurvivingAreWritten(log[1..], log[0].Complete?);
      forall e <- Surviving(log, clean) ensures Encodable(e) && exists i :: 0 <= i < |log| && log[i].event == e {
        if e in Surviving(log[1..], log[0].Complete?) {
          var i :| 0 <= i < |log| - 1 && log[1..][i].event == e;
          assert log[i + 1].event == e;
        } else {
          assert log[0].event == e;
        }
      }
    }
  }
}
