/** Session recordings: the bytes of the file, the recorder under its mutex, and the two copiers
    that write every chunk to the client and then to the recorder while a third party may
    close it. */
module Recording {
  import opened Binary
  import opened Texts
  import Encoding
  import Json
  import opened JsonLines
  import Payload

  type Chunk = Bytes

  /** Both streams are recorded alike; the model remembers which one an entry came from. */
  datatype Stream = Stdout | Stderr

  // The text of the file ---------------------------------------------------------------------

  /** The code "o", for output. */
  const OUTPUT: Bytes := [111]

  /** The text of a JSON number. */
  predicate IsNumber(t: Bytes) {
    t != [] && forall i :: 0 <= i < |t| ==> 48 <= t[i] < 58 || t[i] == 43 || t[i] == 45 || t[i] == 46 || t[i] == 101
  }

  /** A chunk is written as a JSON string, so bytes that are not UTF-8 are replaced. */
  function EventValue(time: Bytes, data: Chunk): Json.Value {
    Json.Arr([], [Json.Word(time), Json.Str(OUTPUT), Json.Str(Encoding.Escape(data))])
  }

  function EventText(time: Bytes, data: Chunk): Bytes { Json.Text(EventValue(time, data)) }

  function Digits(n: nat): (t: Bytes)
    ensures t != [] && forall i :: 0 <= i < |t| ==> 48 <= t[i] < 58
  {
    if n < 10 then [48 + n] else Digits(n / 10) + [48 + n % 10]
  }

  function Decimal(n: int): (t: Bytes)
    ensures IsNumber(t)
  {
    if n < 0 then [45] + Digits(-n) else Digits(n)
  }

  function NumberField(name: string, n: int): Json.Member {
    Encoding.Field(Encoding.Ascii(name), Json.Word(Decimal(n)))
  }

  function EnvMember(term: Bytes): Json.Member {
    Encoding.Field(Encoding.Ascii("env"), Json.Obj([], [Encoding.TextMember(Encoding.Ascii("TERM"), term)]))
  }

  function HeaderMembers(pty: Payload.Pty, unix: int): seq<Json.Member> {
    [NumberField("version", 2), NumberField("width", pty.cols), NumberField("height", pty.rows),
     NumberField("timestamp", unix), EnvMember(pty.term)]
  }

  function HeaderText(pty: Payload.Pty, unix: int): Bytes { Json.Text(Json.Obj([], HeaderMembers(pty, unix))) }

  /** The layout of an event line. */
  lemma EventOpens(time: Bytes, data: Chunk)
    ensures (EventText(time, data) ==
      [Json.LBRACKET] + (time + ([Json.COMMA, Json.QUOTE, 111, Json.QUOTE, Json.COMMA, Json.QUOTE]
        + (Encoding.Escape(data) + [Json.QUOTE, Json.RBRACKET]))))
  {
    hide Encoding.Escape;
    var content := Encoding.Escape(data);
    var items := EventValue(time, data).items;
    assert items[1..] == [Json.Str(OUTPUT), Json.Str(content)] && items[1..][1..] == [Json.Str(content)];
    assert Json.ItemsText(items[1..][1..]) == Json.Quoted(content);
    assert Json.ItemsText(items[1..]) == Json.Quoted(OUTPUT) + ([Json.COMMA] + Json.Quoted(content));
    assert Json.ItemsText(items) == time + ([Json.COMMA] + Json.ItemsText(items[1..]));
    hide Json.ItemsText;
    assert Json.Quoted(OUTPUT) == [Json.QUOTE, 111, Json.QUOTE];
    assert Json.Quoted(content) == [Json.QUOTE] + content + [Json.QUOTE];
  }

  lemma EventIsRecord(time: Bytes, data: Chunk)
    requires IsNumber(time)
    ensures Json.IsRecord(EventText(time, data)) && Json.Printable(EventText(time, data))
  {
    EventIsOk(time, data);
    EventOpens(time, data);
    hide Encoding.Escape, Json.RestartsAt, Json.WellFormed, Json.Unspaced;
    Json.UnspacedIsPrintable(EventValue(time, data));
    hide Json.Text;
    EventRestarts(time, Encoding.Escape(data) + [Json.QUOTE, Json.RBRACKET]);
  }

  lemma EventIsOk(time: Bytes, data: Chunk)
    requires IsNumber(time)
    ensures Json.WellFormed(EventValue(time, data)) && Json.Unspaced(EventValue(time, data))
  {
    hide Encoding.Escape, Json.StringOk;
    Encoding.EscapeIsOk(data);
    Encoding.PlainIsOk(OUTPUT);
    assert Json.IsWord(time);
  }

  lemma EventRestarts(time: Bytes, rest: Bytes)
    requires IsNumber(time)
    ensures (Json.RestartsAt(
      [Json.LBRACKET] + (time + ([Json.COMMA, Json.QUOTE, 111, Json.QUOTE, Json.COMMA, Json.QUOTE] + rest)), |time| + 2))
  {
    var tail := [Json.COMMA, Json.QUOTE, 111, Json.QUOTE, Json.COMMA, Json.QUOTE] + rest;
    var t := [Json.LBRACKET] + (time + tail);
    assert t[1..][|time|..] == tail;
    assert tail[0] == t[|time| + 1] && tail[1] == t[|time| + 2] && tail[2] == t[|time| + 3];
    assert forall i :: 1 <= i < |time| + 1 ==> t[i] == time[i - 1];
  }

  lemma HeaderIsRecord(pty: Payload.Pty, unix: int)
    ensures Json.IsRecord(HeaderText(pty, unix)) && Json.Printable(HeaderText(pty, unix))
  {
    var ms, t := HeaderMembers(pty, unix), HeaderText(pty, unix);
    HeaderIsOk(pty, unix);
    Json.UnspacedIsPrintable(Json.Obj([], ms));
    var key := Encoding.Ascii("version");
    assert ms[0].key == key && |key| == 7 && key[0] == 118;
    HeaderStarts(ms);
    assert Json.RestartsAt(t, 1);
  }

  lemma HeaderIsOk(pty: Payload.Pty, unix: int)
    ensures Json.WellFormed(Json.Obj([], HeaderMembers(pty, unix))) && Json.Unspaced(Json.Obj([], HeaderMembers(pty, unix)))
  {
    hide NumberField, EnvMember, Json.MemberOk, Json.UnspacedMember, Json.WellFormed, Json.Unspaced;
    NumberIsOk("version", 2);
    NumberIsOk("width", pty.cols);
    NumberIsOk("height", pty.rows);
    NumberIsOk("timestamp", unix);
    EnvIsOk(pty.term);
    ObjectIsOk(NumberField("version", 2), NumberField("width", pty.cols), NumberField("height", pty.rows),
               NumberField("timestamp", unix), EnvMember(pty.term));
  }

  lemma ObjectIsOk(a: Json.Member, b: Json.Member, c: Json.Member, d: Json.Member, e: Json.Member)
    requires forall m <- [a, b, c, d, e] :: Json.MemberOk(m) && Json.UnspacedMember(m)
    ensures Json.WellFormed(Json.Obj([], [a, b, c, d, e])) && Json.Unspaced(Json.Obj([], [a, b, c, d, e]))
  {
    hide Json.MemberOk, Json.UnspacedMember;
    var ms := [a, b, c, d, e];
    assert forall i :: 0 <= i < |ms| ==> ms[i] in ms;
  }

  lemma NumberIsOk(name: string, n: int)
    requires forall i :: 0 <= i < |name| ==> name[i] == '_' || 'a' <= name[i] <= 'z'
    ensures Json.MemberOk(NumberField(name, n)) && Json.UnspacedMember(NumberField(name, n))
  {
    hide Json.StringOk, Encoding.Ascii, Decimal;
    Encoding.KeyIsOk(name);
  }

  lemma TermIsOk()
    ensures Json.StringOk(Encoding.Ascii("TERM"))
  {
    Encoding.PlainIsOk(Encoding.Ascii("TERM"));
  }

  lemma EnvIsOk(term: Bytes)
    ensures Json.MemberOk(EnvMember(term)) && Json.UnspacedMember(EnvMember(term))
  {
    TermIsOk();
    hide Json.StringOk, Encoding.Ascii, Encoding.Escape;
    Encoding.KeyIsOk("env");
    Encoding.EscapeIsOk(term);
    var m := Encoding.TextMember(Encoding.Ascii("TERM"), term);
    assert Json.MemberOk(m) && Json.UnspacedMember(m);
    hide Encoding.TextMember;
    assert Json.WellFormed(Json.Obj([], [m])) && Json.Unspaced(Json.Obj([], [m]));
  }

  lemma HeaderStarts(ms: seq<Json.Member>)
    requires ms != [] && ms[0].before == [] && ms[0].after == [] && ms[0].key != []
    ensures var t := Json.Text(Json.Obj([], ms));
      |t| >= 3 && t[0] == Json.LBRACE && t[1] == Json.QUOTE && t[2] == ms[0].key[0]
  {
    Encoding.MembersOpen(ms, []);
    hide Json.MembersText, Encoding.Rest;
    var body, t, key := Json.MembersText(ms), Json.Text(Json.Obj([], ms)), ms[0].key;
    assert t == [Json.LBRACE] + ([] + body) + [Json.RBRACE];
    hide Json.Text;
    assert t == [Json.LBRACE] + (body + ([Json.RBRACE] + []));
    var rest := [Json.COLON] + (Json.Text(ms[0].value) + Encoding.Rest(ms, []));
    assert t == [Json.LBRACE] + ([Json.QUOTE] + (key + [Json.QUOTE] + rest));
    var inner := key + [Json.QUOTE] + rest;
    assert inner[0] == key[0];
    hide *;
    assert t[0] == Json.LBRACE && t[1..] == [Json.QUOTE] + inner;
    assert t[1..][0] == Json.QUOTE && t[1..][1] == inner[0];
  }

  /** An event line determines the time and, up to stray bytes, the chunk. */
  lemma EventDetermines(time: Bytes, data: Chunk, time': Bytes, data': Chunk)
    requires IsNumber(time) && IsNumber(time') && EventText(time, data) == EventText(time', data')
    ensures time == time' && Encoding.Canon(data) == Encoding.Canon(data')
  {
    EventOpens(time, data);
    EventOpens(time', data');
    hide EventText, Encoding.Escape, Encoding.Canon;
    var mid := [Json.QUOTE, 111, Json.QUOTE, Json.COMMA, Json.QUOTE];
    var end := [Json.QUOTE, Json.RBRACKET];
    var c, c' := Encoding.Escape(data), Encoding.Escape(data');
    assert [Json.COMMA, Json.QUOTE, 111, Json.QUOTE, Json.COMMA, Json.QUOTE] == [Json.COMMA] + mid;
    TimeEnds(time, mid, c + end);
    TimeEnds(time', mid, c' + end);
    Encoding.ConsEqual(Json.LBRACKET, Json.LBRACKET, time + (([Json.COMMA] + mid) + (c + end)),
                       time' + (([Json.COMMA] + mid) + (c' + end)));
    CutUnique(time, time', Json.COMMA, mid + (c + end), mid + (c' + end));
    SameMiddle(mid, c, c', end);
    Encoding.EscapeDetermines(data, data');
  }

  lemma TimeEnds(time: Bytes, mid: Bytes, rest: Bytes)
    ensures time + (([Json.COMMA] + mid) + rest) == time + [Json.COMMA] + (mid + rest)
  {
    Associate([Json.COMMA], mid, rest);
    Associate(time, [Json.COMMA], mid + rest);
  }

  lemma SameMiddle(front: Bytes, c: Bytes, d: Bytes, end: Bytes)
    requires front + (c + end) == front + (d + end)
    ensures c == d
  {
    assert (front + (c + end))[|front|..] == c + end && (front + (d + end))[|front|..] == d + end;
    assert (c + end)[..|c|] == c && (d + end)[..|d|] == d;
  }

  // The recorder ---------------------------------------------------------------------------------

  /** What was tried, in order: a line written, or one of which a failed write left the first
      `kept` bytes. */
  datatype Entry =
    | Recorded(elapsed: int, time: Bytes, stream: Stream, data: Chunk)
    | Cut(elapsed: int, time: Bytes, stream: Stream, data: Chunk, kept: nat)

  ghost predicate EntryOk(e: Entry) {
    IsNumber(e.time) && (e.Cut? ==> 0 < e.kept <= |EventText(e.time, e.data)|)
  }

  ghost predicate LogOk(log: seq<Entry>) { forall i :: 0 <= i < |log| ==> EntryOk(log[i]) }

  function PieceOf(e: Entry): Piece {
    match e
    case Recorded(_, time, _, data) => Whole(EventText(time, data))
    case Cut(_, time, _, data, kept) => Torn(EventText(time, data), kept)
  }

  function PiecesOf(log: seq<Entry>): seq<Piece> {
    seq(|log|, i requires 0 <= i < |log| => PieceOf(log[i]))
  }

  /** The file: the header line, then what every write left. */
  function FileOf(header: Bytes, log: seq<Entry>): Bytes { header + [NEWLINE] + Content(PiecesOf(log)) }

  /** The file, its byte counter and the closed flag, as the mutex guards them, and what was
      tried so far. */
  datatype Tape = Tape(header: Bytes, start: int, file: Bytes, written: nat, closed: bool, log: seq<Entry>)

  datatype Disk = Accepts | Fails(kept: nat)

  /** Total payload of the lines that were written. */
  function PayloadOf(log: seq<Entry>): nat {
    if log == [] then 0
    else
      var last := log[|log| - 1];
      PayloadOf(log[..|log| - 1]) + (if last.Recorded? then |last.data| else 0)
  }

  /** The chunks of one stream, in file order. */
  function ChunksOf(log: seq<Entry>, s: Stream): seq<Chunk> {
    if log == [] then []
    else
      var last := log[|log| - 1];
      ChunksOf(log[..|log| - 1], s) + (if last.Recorded? && last.stream == s then [last.data] else [])
  }

  function LeftBy(elapsed: int, time: Bytes, s: Stream, data: Chunk, kept: nat): seq<Entry> {
    if 0 < kept <= |EventText(time, data)| then [Cut(elapsed, time, s, data, kept)] else []
  }

  /** One write under the mutex. The clock is read inside it, and `time` is the JSON text of the
      seconds since the start. */
  function AfterWrite(t: Tape, s: Stream, data: Chunk, now: int, time: Bytes, disk: Disk): Tape {
    if t.closed then t
    else
      match disk
      case Accepts =>
        t.(file := t.file + (EventText(time, data) + [NEWLINE]), written := t.written + |data|,
           log := t.log + [Recorded(now - t.start, time, s, data)])
      case Fails(kept) =>
        t.(file := t.file + Left(EventText(time, data), kept),
           log := t.log + LeftBy(now - t.start, time, s, data, kept))
  }

  ghost predicate FileOk(t: Tape) {
    && Json.IsRecord(t.header) && Json.Printable(t.header)
    && LogOk(t.log) && t.file == FileOf(t.header, t.log) && t.written == PayloadOf(t.log)
  }

  function NewTape(pty: Payload.Pty, now: int, unix: int): Tape {
    Tape(HeaderText(pty, unix), now, HeaderText(pty, unix) + [NEWLINE], 0, false, [])
  }

  class Recorder {
    const header: Bytes
    const start: int
    var file: Bytes
    var written: nat
    var closed: bool
    ghost var log: seq<Entry>

    ghost function Contents(): Tape
      reads this
    {
      Tape(header, start, file, written, closed, log)
    }

    /** The header line is written first. */
    constructor (pty: Payload.Pty, now: int, unix: int)
      ensures Contents() == NewTape(pty, now, unix)
    {
      header, start, written, closed, log := HeaderText(pty, unix), now, 0, false, [];
      file := HeaderText(pty, unix) + [NEWLINE];
    }

    method Write(s: Stream, data: Chunk, now: int, time: Bytes, disk: Disk) returns (ok: bool)
      modifies this
      ensures ok == (!old(closed) && disk == Accepts)
      ensures Contents() == AfterWrite(old(Contents()), s, data, now, time, disk)
    {
      hide EventText;
      if closed {
        return false;
      }
      var event := EventText(time, data);
      match disk {
        case Fails(kept) =>
          file := file + Left(event, kept);
          log := log + LeftBy(now - start, time, s, data, kept);
          return false;
        case Accepts =>
          file := file + (event + [NEWLINE]);
          log := log + [Entry.Recorded(now - start, time, s, data)];
          written := written + |data|;
          return true;
      }
    }

    method Close()
      modifies this
      ensures Contents() == old(Contents()).(closed := true)
    {
      closed := true;
    }

    method Recorded() returns (n: nat)
      ensures n == written
    {
      n := written;
    }
  }

  lemma FileLast(header: Bytes, log: seq<Entry>, e: Entry)
    ensures FileOf(header, log + [e]) == FileOf(header, log) + PieceText(PieceOf(e))
    ensures PayloadOf(log + [e]) == PayloadOf(log) + (if e.Recorded? then |e.data| else 0)
  {
    hide PieceOf, Content, PieceText;
    assert (log + [e])[..|log|] == log;
    hide PayloadOf;
    assert PiecesOf(log + [e]) == PiecesOf(log) + [PieceOf(e)];
    ContentLast(PiecesOf(log), PieceOf(e));
  }

  /** A write keeps the file, the log and the counter in step. */
  lemma WriteKeepsFile(t: Tape, s: Stream, data: Chunk, now: int, time: Bytes, disk: Disk)
    requires FileOk(t) && IsNumber(time)
    ensures FileOk(AfterWrite(t, s, data, now, time, disk))
  {
    hide Json.IsRecord, EventText, FileOf, PayloadOf, IsNumber;
    var event := EventText(time, data);
    match disk {
      case Accepts =>
        var e := Recorded(now - t.start, time, s, data);
        FileLast(t.header, t.log, e);
      case Fails(kept) =>
        if 0 < kept <= |event| {
          var e := Cut(now - t.start, time, s, data, kept);
          FileLast(t.header, t.log, e);
        } else {
          assert t.log + [] == t.log && t.file + [] == t.file;
        }
    }
  }

  // Reading a recording back -------------------------------------------------------------------

  /** A line of the file as a player takes it: the time and the text. */
  type Line = (Bytes, Bytes)

  /** The decoder takes nothing but JSON and reads every event. */
  ghost predicate ReadsEvents(decode: Decoder<Line>) {
    && JsonOnly(decode)
    && forall time, data :: IsNumber(time) ==> decode(EventText(time, data)) == Some((time, Encoding.Canon(data)))
  }

  /** The decoder that undoes the encoder. */
  ghost function Inverse(s: Bytes): Option<Line> {
    if exists time, data :: IsNumber(time) && EventText(time, data) == s then
      var time, data :| IsNumber(time) && EventText(time, data) == s;
      Some((time, Encoding.Canon(data)))
    else None
  }

  /** Such a decoder exists. */
  lemma InverseReadsEvents()
    ensures ReadsEvents(Inverse)
  {
    hide EventText, IsNumber, Encoding.Canon, Json.IsRecord;
    forall time, data | IsNumber(time)
      ensures Inverse(EventText(time, data)) == Some((time, Encoding.Canon(data))) && Json.IsJson(EventText(time, data))
    {
      EventIsRecord(time, data);
      Json.RecordText(EventText(time, data));
      forall time', data' | IsNumber(time') && EventText(time', data') == EventText(time, data)
        ensures time' == time && Encoding.Canon(data') == Encoding.Canon(data)
      {
        EventDetermines(time, data, time', data');
      }
    }
  }

  /** What a player shows of a file: the complete lines after the header that decode. */
  function Played(file: Bytes, decode: Decoder<Line>): seq<Line> {
    var lines := Lines(Complete(file));
    if lines == [] then [] else Found(lines[1..], decode)
  }

  function TextsOf(played: seq<Line>): seq<Bytes> {
    seq(|played|, i requires 0 <= i < |played| => played[i].1)
  }

  /** The recorded lines. */
  function Recordings(log: seq<Entry>): seq<Entry> {
    if log == [] then []
    else
      var most, last := log[..|log| - 1], log[|log| - 1];
      Recordings(most) + (if last.Recorded? then [last] else [])
  }

  predicate AfterCut(log: seq<Entry>) { log != [] && log[|log| - 1].Cut? }

  /** Those not glued to what a failed write left. */
  function Kept(log: seq<Entry>): seq<Entry> {
    if log == [] then []
    else
      var most, last := log[..|log| - 1], log[|log| - 1];
      Kept(most) + (if last.Recorded? && !AfterCut(most) then [last] else [])
  }

  function Shown(log: seq<Entry>): seq<Line> {
    seq(|log|, i requires 0 <= i < |log| => (log[i].time, Encoding.Canon(log[i].data)))
  }

  function DataOf(log: seq<Entry>): seq<Chunk> {
    seq(|log|, i requires 0 <= i < |log| => log[i].data)
  }

  function Total(chunks: seq<Bytes>): nat {
    if chunks == [] then 0 else Total(chunks[..|chunks| - 1]) + |chunks[|chunks| - 1]|
  }

  function TextsIn(log: seq<Entry>): seq<Bytes> {
    seq(|log|, i requires 0 <= i < |log| => EventText(log[i].time, log[i].data))
  }

  lemma {:induction false} KeptAreReadable(log: seq<Entry>)
    ensures Readable(PiecesOf(log), true) == TextsIn(Kept(log))
  {
    hide EventText;
    if log != [] {
      var most, last := log[..|log| - 1], log[|log| - 1];
      KeptAreReadable(most);
      assert PiecesOf(log) == PiecesOf(most) + [PieceOf(last)];
      ReadableLast(PiecesOf(most), PieceOf(last), true);
      hide Readable, PieceOf;
      assert Kept(log) == Kept(most) + (if last.Recorded? && !AfterCut(most) then [last] else []);
      assert last.Recorded? <==> PieceOf(last).Whole? by { PieceKinds(last); }
      if most != [] { PieceKinds(most[|most| - 1]); }
      PieceKinds(last);
    }
  }

  lemma PieceKinds(e: Entry)
    ensures PieceOf(e).Whole? <==> e.Recorded?
    ensures PieceOf(e).text == EventText(e.time, e.data)
  {
  }

  lemma {:induction false} FoundShown(log: seq<Entry>, decode: Decoder<Line>)
    requires ReadsEvents(decode) && forall i :: 0 <= i < |log| ==> IsNumber(log[i].time)
    ensures Found(TextsIn(log), decode) == Shown(log)
  {
    hide EventText, IsNumber, Encoding.Canon, JsonOnly, Found;
    if log == [] {
      NothingFound(decode);
    } else {
      var e, rest := log[0], log[1..];
      FoundShown(rest, decode);
      assert TextsIn(log) == [EventText(e.time, e.data)] + TextsIn(rest);
      FoundFront(EventText(e.time, e.data), TextsIn(rest), decode);
      EventLine(e.time, e.data);
      assert Shown(log) == [(e.time, Encoding.Canon(e.data))] + Shown(rest);
    }
  }

  lemma NothingFound(decode: Decoder<Line>)
    ensures Found([], decode) == []
  {
  }

  lemma EventLine(time: Bytes, data: Chunk)
    requires IsNumber(time)
    ensures DropReturn(EventText(time, data)) == EventText(time, data)
  {
    hide EventText, IsNumber, Json.IsRecord, Json.Printable;
    EventIsRecord(time, data);
    RecordLine(EventText(time, data));
  }

  lemma {:induction false} KeptAreNumbered(log: seq<Entry>)
    requires LogOk(log)
    ensures forall i :: 0 <= i < |Kept(log)| ==> IsNumber(Kept(log)[i].time)
  {
    hide IsNumber, EventText;
    if log != [] {
      assert EntryOk(log[|log| - 1]);
      KeptAreNumbered(log[..|log| - 1]);
    }
  }

  lemma PiecesAreOk(log: seq<Entry>)
    requires LogOk(log)
    ensures PiecesOk(PiecesOf(log))
  {
    hide IsNumber, EventText, Json.IsRecord, Json.Printable;
    forall i | 0 <= i < |log| ensures PieceOk(PiecesOf(log)[i]) {
      assert EntryOk(log[i]);
      EventIsRecord(log[i].time, log[i].data);
    }
  }

  /** Whatever writes failed, a player shows exactly the kept lines, with stray bytes replaced. */
  lemma PlayedIsKept(t: Tape, decode: Decoder<Line>)
    requires FileOk(t) && ReadsEvents(decode)
    ensures Played(t.file, decode) == Shown(Kept(t.log))
  {
    hide LogOk, Json.IsRecord, Json.Printable, PiecesOf, Content, Lines, Complete, Found, Kept, EventText, Readable,
      TextsIn, Shown;
    var body := Content(PiecesOf(t.log));
    CompleteAfter(t.header + [NEWLINE], body);
    RecordLine(t.header);
    LinesOfLine(t.header, Complete(body));
    assert ([t.header] + Lines(Complete(body)))[1..] == Lines(Complete(body));
    PiecesAreOk(t.log);
    FoundInComplete(PiecesOf(t.log), decode);
    KeptAreReadable(t.log);
    KeptAreNumbered(t.log);
    FoundShown(Kept(t.log), decode);
  }

  /** No recorded line follows a write that left part of one. */
  ghost predicate NoneGlued(log: seq<Entry>) {
    forall i :: 0 < i < |log| && log[i].Recorded? ==> log[i - 1].Recorded?
  }

  /** Every recorded chunk is UTF-8. */
  ghost predicate AllUtf8(log: seq<Entry>) {
    forall i :: 0 <= i < |log| && log[i].Recorded? ==> Encoding.ValidUtf8(log[i].data)
  }

  lemma {:induction false} KeptIsAll(log: seq<Entry>)
    ensures |Kept(log)| <= |Recordings(log)|
    ensures NoneGlued(log) ==> Kept(log) == Recordings(log)
    ensures |Kept(log)| == |Recordings(log)| ==> NoneGlued(log)
  {
    if log != [] {
      var most := log[..|log| - 1];
      KeptIsAll(most);
      assert forall i :: 0 <= i < |most| ==> most[i] == log[i];
      assert NoneGlued(log) ==> NoneGlued(most);
    }
  }

  lemma {:induction false} RecordingsOf(log: seq<Entry>)
    ensures forall i :: 0 <= i < |log| && log[i].Recorded? ==> log[i] in Recordings(log)
    ensures forall e <- Recordings(log) :: e.Recorded? && e in log
  {
    if log != [] {
      var most := log[..|log| - 1];
      RecordingsOf(most);
      assert forall i :: 0 <= i < |most| ==> log[i] == most[i];
    }
  }

  lemma {:induction false} PayloadIsTotal(log: seq<Entry>)
    ensures Total(DataOf(Recordings(log))) == PayloadOf(log)
  {
    if log != [] {
      var most, last := log[..|log| - 1], log[|log| - 1];
      PayloadIsTotal(most);
      if last.Recorded? {
        var all := DataOf(Recordings(log));
        assert all[..|all| - 1] == DataOf(Recordings(most));
      } else {
        assert Recordings(log) == Recordings(most);
      }
    }
  }

  lemma AllUtf8Recordings(log: seq<Entry>)
    ensures AllUtf8(log) <==> forall e <- Recordings(log) :: Encoding.ValidUtf8(e.data)
  {
    hide Recordings, Encoding.ValidUtf8;
    RecordingsOf(log);
  }

  lemma CanonIsAll(log: seq<Entry>)
    ensures TextsOf(Shown(log)) == DataOf(log) <==> forall e <- log :: Encoding.ValidUtf8(e.data)
  {
    hide Encoding.Canon, Encoding.ValidUtf8;
    forall i | 0 <= i < |log|
      ensures TextsOf(Shown(log))[i] == DataOf(log)[i] <==> Encoding.ValidUtf8(log[i].data)
    {
      Encoding.CanonIffValid(log[i].data);
    }
    if TextsOf(Shown(log)) == DataOf(log) {
      forall i | 0 <= i < |log| ensures Encoding.ValidUtf8(log[i].data) {
        assert TextsOf(Shown(log))[i] == DataOf(log)[i];
      }
    }
  }

  /** A player shows the recorded chunks as they were, and as many bytes as the counter says,
      exactly if they are all UTF-8 and none of them follows a write that left part of its line. */
  lemma PlayedIsRecorded(t: Tape, decode: Decoder<Line>)
    requires FileOk(t) && ReadsEvents(decode)
    ensures (TextsOf(Played(t.file, decode)) == DataOf(Recordings(t.log)) && Total(TextsOf(Played(t.file, decode))) == t.written
      <==> AllUtf8(t.log) && NoneGlued(t.log))
  {
    hide FileOf, Played, Encoding.ValidUtf8, Encoding.Canon, Kept, Recordings, LogOk, Json.IsRecord, ReadsEvents,
      PayloadOf, NoneGlued, AllUtf8, Total;
    PlayedIsKept(t, decode);
    KeptIsAll(t.log);
    PayloadIsTotal(t.log);
    AllUtf8Recordings(t.log);
    CanonIsAll(Recordings(t.log));
    var texts := TextsOf(Played(t.file, decode));
    assert |texts| == |Kept(t.log)| && |DataOf(Recordings(t.log))| == |Recordings(t.log)|;
  }

  lemma NewTapeOk(pty: Payload.Pty, now: int, unix: int)
    ensures FileOk(NewTape(pty, now, unix))
  {
    hide HeaderText, Json.IsRecord, Json.Printable;
    HeaderIsRecord(pty, unix);
    assert PiecesOf([]) == [];
  }

  lemma PlayedOne(t: Tape, e: Entry, decode: Decoder<Line>)
    requires FileOk(t) && ReadsEvents(decode) && t.log == [e] && e.Recorded?
    ensures TextsOf(Played(t.file, decode)) == [Encoding.Canon(e.data)]
  {
    hide FileOk, Played, Encoding.Canon, ReadsEvents;
    PlayedIsKept(t, decode);
    assert Kept([]) == [] && [e][..0] == [];
    assert Kept([e]) == [e];
  }

  /** A byte that is not UTF-8, say of binary output: one byte by the counter, three in the file. */
  lemma StrayByte(pty: Payload.Pty, now: int, unix: int, time: Bytes, decode: Decoder<Line>)
    requires IsNumber(time) && ReadsEvents(decode)
    ensures var t := AfterWrite(NewTape(pty, now, unix), Stdout, [0xFF], now, time, Accepts);
      t.written == 1 && TextsOf(Played(t.file, decode)) == [[0xEF, 0xBF, 0xBD]]
  {
    hide Played, ReadsEvents, HeaderText, FileOk, EventText;
    NewTapeOk(pty, now, unix);
    WriteKeepsFile(NewTape(pty, now, unix), Stdout, [0xFF], now, time, Accepts);
    var t := AfterWrite(NewTape(pty, now, unix), Stdout, [0xFF], now, time, Accepts);
    PlayedOne(t, Recorded(0, time, Stdout, [0xFF]), decode);
    StrayCanon(0xFF);
  }

  lemma StrayCanon(b: Byte)
    requires Encoding.RuneLength([b]) == 0
    ensures Encoding.Canon([b]) == [0xEF, 0xBF, 0xBD]
  {
    assert Encoding.Canon([b]) == Encoding.REPLACEMENT + Encoding.Canon([b][1..]);
    assert [b][1..] == [];
  }

  lemma PlayedTwo(t: Tape, a: Entry, b: Entry, decode: Decoder<Line>)
    requires FileOk(t) && ReadsEvents(decode) && t.log == [a, b] && a.Recorded? && b.Recorded?
    ensures TextsOf(Played(t.file, decode)) == [Encoding.Canon(a.data), Encoding.Canon(b.data)]
  {
    hide FileOk, Played, Encoding.Canon, ReadsEvents;
    PlayedIsKept(t, decode);
    assert Kept([]) == [] && [a, b][..1] == [a] && [a][..0] == [];
    assert Kept([a]) == [a];
    assert Kept([a, b]) == [a, b];
  }

  /** Nor does text survive that is UTF-8 as a whole: the three bytes of a euro sign, split over
      two reads. */
  lemma SplitRune(pty: Payload.Pty, now: int, unix: int, time: Bytes, decode: Decoder<Line>)
    requires IsNumber(time) && ReadsEvents(decode)
    ensures Encoding.ValidUtf8([0xE2, 0x82] + [0xAC])
    ensures var t := AfterWrite(NewTape(pty, now, unix), Stdout, [0xE2, 0x82], now, time, Accepts);
      var u := AfterWrite(t, Stdout, [0xAC], now, time, Accepts);
      u.written == 3 && TextsOf(Played(u.file, decode)) == [[0xEF, 0xBF, 0xBD, 0xEF, 0xBF, 0xBD], [0xEF, 0xBF, 0xBD]]
  {
    hide Played, ReadsEvents, HeaderText, FileOk, EventText;
    NewTapeOk(pty, now, unix);
    WriteKeepsFile(NewTape(pty, now, unix), Stdout, [0xE2, 0x82], now, time, Accepts);
    var t := AfterWrite(NewTape(pty, now, unix), Stdout, [0xE2, 0x82], now, time, Accepts);
    WriteKeepsFile(t, Stdout, [0xAC], now, time, Accepts);
    var u := AfterWrite(t, Stdout, [0xAC], now, time, Accepts);
    PlayedTwo(u, Recorded(0, time, Stdout, [0xE2, 0x82]), Recorded(0, time, Stdout, [0xAC]), decode);
    SplitCanon();
  }

  lemma SplitCanon()
    ensures Encoding.ValidUtf8([0xE2, 0x82] + [0xAC])
    ensures Encoding.Canon([0xE2, 0x82]) == [0xEF, 0xBF, 0xBD, 0xEF, 0xBF, 0xBD]
    ensures Encoding.Canon([0xAC]) == [0xEF, 0xBF, 0xBD]
  {
    assert ([0xE2, 0x82] + [0xAC])[3..] == [];
    assert Encoding.RuneLength([0xE2, 0x82] + [0xAC]) == 3;
    StrayCanon(0x82);
    StrayCanon(0xAC);
    var two: Bytes := [0xE2, 0x82];
    assert two[1..] == [0x82];
    assert Encoding.Canon(two) == Encoding.REPLACEMENT + Encoding.Canon(two[1..]);
  }

  /** After a write that left part of its line, the next one is counted and not seen again. */
  lemma GluedIsLost(t: Tape, s: Stream, data: Chunk, now: int, time: Bytes, kept: nat,
                    s': Stream, data': Chunk, now': int, time': Bytes, decode: Decoder<Line>)
    requires FileOk(t) && !t.closed && IsNumber(time) && IsNumber(time') && ReadsEvents(decode)
    requires 0 < kept <= |EventText(time, data)|
    ensures var u := AfterWrite(AfterWrite(t, s, data, now, time, Fails(kept)), s', data', now', time', Accepts);
      Played(u.file, decode) == Played(t.file, decode) && u.written == t.written + |data'|
  {
    hide Played, ReadsEvents, FileOk, EventText, IsNumber;
    WriteKeepsFile(t, s, data, now, time, Fails(kept));
    var m := AfterWrite(t, s, data, now, time, Fails(kept));
    WriteKeepsFile(m, s', data', now', time', Accepts);
    var u := AfterWrite(m, s', data', now', time', Accepts);
    PlayedIsKept(t, decode);
    PlayedIsKept(u, decode);
    var a, b := Cut(now - t.start, time, s, data, kept), Recorded(now' - t.start, time', s', data');
    assert m.log == t.log + [a] && u.log == t.log + [a] + [b];
    assert u.log[..|u.log| - 1] == m.log && m.log[..|m.log| - 1] == t.log;
    assert Kept(m.log) == Kept(t.log) && Kept(u.log) == Kept(m.log);
  }

  // Two copiers and a closer -------------------------------------------------------------------

  /** Between chunks; a chunk sent to the client and not yet recorded; returned. */
  datatype Pc = Idle | Sent(chunk: Chunk) | Stopped

  datatype Copier = Copier(pc: Pc, client: seq<Chunk>)

  /** `reported` is the count `finish` stores once the recorder is closed. */
  datatype Sys = Sys(tape: Tape, out: Copier, err: Copier, clock: int, reported: Option<nat>)

  function CopierOf(s: Sys, k: Stream): Copier { if k == Stdout then s.out else s.err }

  function WithCopier(s: Sys, k: Stream, c: Copier): Sys {
    if k == Stdout then s.(out := c) else s.(err := c)
  }

  datatype Event =
    | Tick(now: int)
    | Send(k: Stream, chunk: Chunk)
    | SendFails(k: Stream, part: Chunk)
    | Record(k: Stream, time: Bytes, disk: Disk)
    | EndOfStream(k: Stream)
    | Close
    | Report

  ghost predicate Init(s: Sys) {
    && (exists pty, unix :: s.tape == NewTape(pty, s.clock, unix))
    && s.out == Copier(Idle, []) && s.err == Copier(Idle, []) && s.reported == None
  }

  ghost predicate Step(s: Sys, e: Event, t: Sys) {
    match e
    case Tick(now) => s.clock <= now && t == s.(clock := now)
    case Send(k, chunk) =>
      CopierOf(s, k).pc.Idle? && t == WithCopier(s, k, Copier(Sent(chunk), CopierOf(s, k).client + [chunk]))
    case SendFails(k, part) =>
      (CopierOf(s, k).pc.Idle?
       && t == WithCopier(s, k, Copier(Stopped, CopierOf(s, k).client + (if part == [] then [] else [part]))))
    case Record(k, time, disk) =>
      (&& CopierOf(s, k).pc.Sent? && IsNumber(time)
       && var ok := !s.tape.closed && disk == Accepts;
          t == WithCopier(s, k, CopierOf(s, k).(pc := if ok then Idle else Stopped))
               .(tape := AfterWrite(s.tape, k, CopierOf(s, k).pc.chunk, s.clock, time, disk)))
    case EndOfStream(k) => CopierOf(s, k).pc.Idle? && t == WithCopier(s, k, CopierOf(s, k).(pc := Stopped))
    case Close => t == s.(tape := s.tape.(closed := true))
    case Report => s.tape.closed && t == s.(reported := Some(s.tape.written))
  }

  /** Times never go back. */
  ghost predicate TimesOk(t: Tape, clock: int) {
    && t.start <= clock
    && (forall i :: 0 <= i < |t.log| ==> 0 <= t.log[i].elapsed <= clock - t.start)
    && (forall i, j :: 0 <= i < j < |t.log| ==> t.log[i].elapsed <= t.log[j].elapsed)
  }

  /** The recorded chunks of a stream are a prefix of what its client was sent, and behind
      by at most one chunk; between chunks of a live copier they are equal. */
  ghost predicate CopierOk(t: Tape, k: Stream, c: Copier) {
    var recorded := ChunksOf(t.log, k);
    && recorded <= c.client && |c.client| <= |recorded| + 1
    && (c.pc.Idle? ==> c.client == recorded)
    && (c.pc.Sent? ==> c.client == recorded + [c.pc.chunk])
  }

  ghost predicate Inv(s: Sys) {
    && FileOk(s.tape) && TimesOk(s.tape, s.clock)
    && CopierOk(s.tape, Stdout, s.out) && CopierOk(s.tape, Stderr, s.err)
    && (s.reported.Some? ==> s.tape.closed && s.reported.value == s.tape.written)
  }

  lemma AppendChunks(log: seq<Entry>, e: Entry, k: Stream)
    ensures ChunksOf(log + [e], k) == ChunksOf(log, k) + (if e.Recorded? && e.stream == k then [e.data] else [])
  {
    assert (log + [e])[..|log|] == log;
  }

  lemma ChunksAfterWrite(t: Tape, k: Stream, data: Chunk, now: int, time: Bytes, disk: Disk, j: Stream)
    ensures (ChunksOf(AfterWrite(t, k, data, now, time, disk).log, j) ==
      ChunksOf(t.log, j) + (if !t.closed && disk == Accepts && j == k then [data] else []))
  {
    hide ChunksOf, EventText;
    AppendChunks(t.log, Recorded(now - t.start, time, k, data), j);
    if disk.Fails? {
      AppendChunks(t.log, Cut(now - t.start, time, k, data, disk.kept), j);
      assert t.log + [] == t.log;
    }
  }

  function Other(k: Stream): Stream { if k == Stdout then Stderr else Stdout }

  lemma WriteKeepsCopiers(t: Tape, k: Stream, c: Copier, other: Copier, now: int, time: Bytes, disk: Disk)
    requires c.pc.Sent? && CopierOk(t, k, c) && CopierOk(t, Other(k), other)
    ensures var u := AfterWrite(t, k, c.pc.chunk, now, time, disk);
      && CopierOk(u, k, c.(pc := if !t.closed && disk == Accepts then Idle else Stopped))
      && CopierOk(u, Other(k), other)
  {
    hide ChunksOf, AfterWrite;
    ChunksAfterWrite(t, k, c.pc.chunk, now, time, disk, k);
    ChunksAfterWrite(t, k, c.pc.chunk, now, time, disk, Other(k));
  }

  lemma WriteKeepsTimes(t: Tape, s: Stream, data: Chunk, now: int, time: Bytes, disk: Disk)
    requires TimesOk(t, now)
    ensures TimesOk(AfterWrite(t, s, data, now, time, disk), now)
    ensures AfterWrite(t, s, data, now, time, disk).closed == t.closed
    ensures t.closed ==> AfterWrite(t, s, data, now, time, disk) == t
  {
    hide EventText;
  }

  lemma StepKeeps(s: Sys, e: Event, t: Sys)
    requires Inv(s) && Step(s, e, t)
    ensures Inv(t)
    ensures s.tape.closed ==> t.tape == s.tape
  {
    hide ChunksOf, PayloadOf, AfterWrite, FileOf, LogOk, Json.IsRecord, Json.Printable, IsNumber;
    if e.Record? {
      hide FileOk;
      var k := e.k;
      var chunk := CopierOf(s, k).pc.chunk;
      WriteKeepsFile(s.tape, k, chunk, s.clock, e.time, e.disk);
      WriteKeepsTimes(s.tape, k, chunk, s.clock, e.time, e.disk);
      WriteKeepsCopiers(s.tape, k, CopierOf(s, k), CopierOf(s, Other(k)), s.clock, e.time, e.disk);
    }
  }

  ghost predicate Run(states: seq<Sys>, events: seq<Event>) {
    && |states| == |events| + 1 && Init(states[0])
    && forall i :: 0 <= i < |events| ==> Step(states[i], events[i], states[i + 1])
  }

  lemma InitOk(s: Sys)
    requires Init(s)
    ensures Inv(s)
  {
    var pty, unix :| s.tape == NewTape(pty, s.clock, unix);
    NewTapeOk(pty, s.clock, unix);
  }

  /** Over every interleaving of the copiers and the closer, and wherever a disk gives out: the
      file is what the writes left, times do not go back, the counter is the payload written,
      each stream is written up to at most its last chunk, and the byte count that is reported
      is that of the closed recorder. */
  lemma {:induction false} RunKeeps(states: seq<Sys>, events: seq<Event>, n: nat)
    requires Run(states, events) && n <= |events|
    ensures Inv(states[n])
  {
    hide Step, Inv, Init;
    if n == 0 {
      InitOk(states[0]);
    } else {
      RunKeeps(states, events, n - 1);
      StepKeeps(states[n - 1], events[n - 1], states[n]);
    }
  }

  /** In every reachable state a player of the file shows what was recorded, and as much as the
      counter says, exactly if it is all UTF-8 and nothing follows a write that left part of its
      line; and it always shows each kept line, with its stray bytes replaced, and nothing else. */
  lemma RunPlays(states: seq<Sys>, events: seq<Event>, n: nat, decode: Decoder<Line>)
    requires Run(states, events) && n <= |events| && ReadsEvents(decode)
    ensures Played(states[n].tape.file, decode) == Shown(Kept(states[n].tape.log))
    ensures (TextsOf(Played(states[n].tape.file, decode)) == DataOf(Recordings(states[n].tape.log))
      && Total(TextsOf(Played(states[n].tape.file, decode))) == states[n].tape.written
      <==> AllUtf8(states[n].tape.log) && NoneGlued(states[n].tape.log))
  {
    RunKeeps(states, events, n);
    hide FileOk, Run, ReadsEvents, Played, AllUtf8, NoneGlued, Shown, Kept, TextsOf, DataOf, Recordings, Total;
    PlayedIsKept(states[n].tape, decode);
    PlayedIsRecorded(states[n].tape, decode);
  }

  /** Closing freezes the recording: whatever the copiers still do, file and counter stay,
      so a count reported after the close is the final one. */
  lemma {:induction false} FrozenOnceClosed(states: seq<Sys>, events: seq<Event>, i: nat, j: nat)
    requires Run(states, events) && i <= j <= |events| && states[i].tape.closed
    ensures states[j].tape == states[i].tape
    ensures (states[i].reported.Some? ==>
      states[i].reported.value == states[j].tape.written == PayloadOf(states[j].tape.log))
    decreases j
  {
    hide Step, Init, FileOf, LogOk, Json.IsRecord, Json.Printable, PayloadOf, CopierOk, TimesOk;
    RunKeeps(states, events, i);
    if i < j {
      FrozenOnceClosed(states, events, i, j - 1);
      RunKeeps(states, events, j - 1);
      StepKeeps(states[j - 1], events[j - 1], states[j]);
    }
  }
}
