/** SSH channel request payloads: strings as in section 5 of RFC 4251, requests as in
    sections 6.2, 6.5 and 6.7 of RFC 4254. */
module Payload {
  import opened Binary

  type Uint32 = n: int | 0 <= n < 0x1_0000_0000

  const MAX_TERM_LEN: Uint32 := 64
  const MAX_COMMAND_LEN: Uint32 := 4096
  const MAX_DIMENSION := 1000
  const DEFAULT_COLS := 80
  const DEFAULT_ROWS := 24

  /** "xterm-256color" */
  const DEFAULT_TERM: Bytes := [120, 116, 101, 114, 109, 45, 50, 53, 54, 99, 111, 108, 111, 114]

  datatype Pty = Pty(requested: bool, term: Bytes, cols: int, rows: int)

  datatype ReadResult = Read(text: Bytes, rest: Bytes) | Malformed

  /** binary.BigEndian.Uint32 */
  function Uint32At(p: Bytes): Uint32
    requires |p| == 4
  {
    var b0: int, b1: int, b2: int, b3: int := p[0], p[1], p[2], p[3];
    ((b0 * 256 + b1) * 256 + b2) * 256 + b3
  }

  function Uint32Bytes(n: Uint32): (p: Bytes)
    ensures |p| == 4
  {
    [n / 0x100_0000, n / 0x1_0000 % 256, n / 0x100 % 256, n % 256]
  }

  lemma Uint32RoundTrip(n: Uint32, p: Bytes)
    requires |p| == 4
    ensures Uint32At(Uint32Bytes(n)) == n
    ensures Uint32Bytes(Uint32At(p)) == p
  {
    assert n / 0x100 == n / 0x1_0000 * 256 + n / 0x100 % 256;
    assert n / 0x1_0000 == n / 0x100_0000 * 256 + n / 0x1_0000 % 256;
    BigEndianDigits(p[0], p[1], p[2], p[3]);
  }

  lemma BigEndianDigits(b0: int, b1: int, b2: int, b3: int)
    requires 0 <= b0 < 256 && 0 <= b1 < 256 && 0 <= b2 < 256 && 0 <= b3 < 256
    ensures var n := ((b0 * 256 + b1) * 256 + b2) * 256 + b3;
      n / 0x100_0000 == b0 && n / 0x1_0000 % 256 == b1 && n / 0x100 % 256 == b2 && n % 256 == b3
  {
    var a := b0 * 256 + b1;
    var b := a * 256 + b2;
    var n := b * 256 + b3;
    assert n / 0x100 == b && n / 0x1_0000 == b / 256 == a && n / 0x100_0000 == a / 256;
  }

  /** Addition of Go uint32 values. */
  function Add32(a: Uint32, b: Uint32): Uint32 { (a + b) % 0x1_0000_0000 }

  /** The slice bounds are computed in uint32; a limit of 2^32 - 4 or more would let
      them wrap. The callers pass 64 and 4096. */
  function ReadString(payload: Bytes, limit: Uint32): ReadResult
    requires limit < 0xFFFF_FFFC
  {
    if |payload| < 4 then Malformed
    else
      var length := Uint32At(payload[0..4]);
      if length > limit || length + 4 > |payload| then Malformed
      else Read(payload[4..Add32(4, length)], payload[Add32(4, length)..])
  }

  /** A string on the wire: its length in four bytes, then its bytes. */
  function Wire(s: Bytes): Bytes
    requires |s| < 0x1_0000_0000
  {
    Uint32Bytes(|s|) + s
  }

  lemma ReadOfWire(text: Bytes, rest: Bytes, limit: Uint32)
    requires |text| <= limit < 0xFFFF_FFFC
    ensures ReadString(Wire(text) + rest, limit) == Read(text, rest)
  {
    var payload := Wire(text) + rest;
    assert payload[0..4] == Uint32Bytes(|text|);
    Uint32RoundTrip(|text|, payload[0..4]);
    assert payload[4..4 + |text|] == text && payload[4 + |text|..] == rest;
  }

  lemma WireOfRead(payload: Bytes, limit: Uint32)
    requires limit < 0xFFFF_FFFC && ReadString(payload, limit).Read?
    ensures var r := ReadString(payload, limit); |r.text| <= limit && payload == Wire(r.text) + r.rest
  {
    hide Uint32At, Uint32Bytes;
    var r := ReadString(payload, limit);
    Uint32RoundTrip(0, payload[0..4]);
    assert payload == payload[0..4] + payload[4..];
    assert payload[4..] == r.text + r.rest;
  }

  /** A payload is read exactly when it is a wire string within the limit followed by
      the rest that is returned. */
  lemma ReadStringExact(payload: Bytes, limit: Uint32, text: Bytes, rest: Bytes)
    requires limit < 0xFFFF_FFFC
    ensures ReadString(payload, limit) == Read(text, rest) <==>
            |text| <= limit && payload == Wire(text) + rest
  {
    if ReadString(payload, limit) == Read(text, rest) { WireOfRead(payload, limit); }
    if |text| <= limit && payload == Wire(text) + rest { ReadOfWire(text, rest, limit); }
  }

  /** The wire form is prefix-free. */
  lemma WireUnique(a: Bytes, x: Bytes, b: Bytes, y: Bytes)
    requires |a| < 0xFFFF_FFFC && |b| < 0xFFFF_FFFC
    requires Wire(a) + x == Wire(b) + y
    ensures a == b && x == y
  {
    var limit: Uint32 := 0xFFFF_FFFB;
    ReadStringExact(Wire(a) + x, limit, a, x);
    ReadStringExact(Wire(a) + x, limit, b, y);
  }

  function BoundedDimension(value: Uint32, fallback: int): (r: int)
    ensures 1 <= fallback <= MAX_DIMENSION ==> 1 <= r <= MAX_DIMENSION
  {
    if value == 0 || value > MAX_DIMENSION then fallback else value
  }

  function ParsePtyDimensions(payload: Bytes): (p: Pty)
    ensures 1 <= p.cols <= MAX_DIMENSION && 1 <= p.rows <= MAX_DIMENSION
  {
    if |payload| < 8 then Pty(false, [], DEFAULT_COLS, DEFAULT_ROWS)
    else Pty(false, [], BoundedDimension(Uint32At(payload[0..4]), DEFAULT_COLS),
                        BoundedDimension(Uint32At(payload[4..8]), DEFAULT_ROWS))
  }

  function ParsePtyRequest(payload: Bytes): (p: Pty)
    ensures p.requested && p.term != []
    ensures 1 <= p.cols <= MAX_DIMENSION && 1 <= p.rows <= MAX_DIMENSION
  {
    match ReadString(payload, MAX_TERM_LEN)
    case Malformed => Pty(true, DEFAULT_TERM, DEFAULT_COLS, DEFAULT_ROWS)
    case Read(term, rest) =>
      var d := ParsePtyDimensions(rest);
      Pty(true, if term != [] then term else DEFAULT_TERM, d.cols, d.rows)
  }

  function ParseExecRequest(payload: Bytes): Bytes {
    match ReadString(payload, MAX_COMMAND_LEN)
    case Malformed => []
    case Read(command, _) => command
  }

  predicate InField(n: int) { 1 <= n <= MAX_DIMENSION }

  /** Section 6.7 of RFC 4254: columns, rows, then pixel sizes that are ignored. */
  lemma WindowChangeRoundTrip(cols: Uint32, rows: Uint32, pixels: Bytes)
    ensures var p := ParsePtyDimensions(Uint32Bytes(cols) + Uint32Bytes(rows) + pixels);
      && p.cols == (if InField(cols) then cols else DEFAULT_COLS)
      && p.rows == (if InField(rows) then rows else DEFAULT_ROWS)
  {
    var payload := Uint32Bytes(cols) + Uint32Bytes(rows) + pixels;
    assert payload[0..4] == Uint32Bytes(cols) && payload[4..8] == Uint32Bytes(rows);
    Uint32RoundTrip(cols, payload[0..4]);
    Uint32RoundTrip(rows, payload[4..8]);
  }

  /** Section 6.2 of RFC 4254: what a client encodes is what the recorder is told. */
  lemma PtyRequestRoundTrip(term: Bytes, cols: Uint32, rows: Uint32, more: Bytes)
    requires |term| < 0x1_0000_0000
    ensures var p := ParsePtyRequest(Wire(term) + (Uint32Bytes(cols) + Uint32Bytes(rows) + more));
      if |term| <= MAX_TERM_LEN then
        && p.term == (if term == [] then DEFAULT_TERM else term)
        && p.cols == (if InField(cols) then cols else DEFAULT_COLS)
        && p.rows == (if InField(rows) then rows else DEFAULT_ROWS)
      else p == Pty(true, DEFAULT_TERM, DEFAULT_COLS, DEFAULT_ROWS)
  {
    var rest := Uint32Bytes(cols) + Uint32Bytes(rows) + more;
    var payload := Wire(term) + rest;
    if |term| <= MAX_TERM_LEN {
      ReadStringExact(payload, MAX_TERM_LEN, term, rest);
      WindowChangeRoundTrip(cols, rows, more);
    } else {
      TooLong(term, rest, MAX_TERM_LEN);
    }
  }

  lemma TooLong(text: Bytes, rest: Bytes, limit: Uint32)
    requires limit < 0xFFFF_FFFC && limit < |text| < 0x1_0000_0000
    ensures ReadString(Wire(text) + rest, limit) == Malformed
  {
    var payload := Wire(text) + rest;
    assert payload[0..4] == Uint32Bytes(|text|);
    Uint32RoundTrip(|text|, payload[0..4]);
  }

  /** Section 6.5 of RFC 4254; a command over the limit is read as no command. */
  lemma ExecRequestRoundTrip(command: Bytes, more: Bytes)
    requires |command| < 0x1_0000_0000
    ensures ParseExecRequest(Wire(command) + more) == if |command| <= MAX_COMMAND_LEN then command else []
  {
    if |command| <= MAX_COMMAND_LEN {
      ReadStringExact(Wire(command) + more, MAX_COMMAND_LEN, command, more);
    } else {
      TooLong(command, more, MAX_COMMAND_LEN);
    }
  }
}
