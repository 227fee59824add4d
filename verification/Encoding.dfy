/** How Go's encoding/json writes an audit event: the escaping of strings, the order of the
    members, and the members left out when empty. */
module Encoding {
  import opened Audit
  import opened Binary
  import opened Json

  // UTF-8 ------------------------------------------------------------------------------------

  predicate Within(s: Bytes, i: nat, low: int, high: int) { i < |s| && low <= s[i] <= high }

  /** The length of the UTF-8 sequence at the head, 0 if the head is not one. */
  function RuneLength(s: Bytes): (n: nat)
    requires s != []
    ensures n <= |s| && n <= 4
  {
    var b := s[0];
    if b < 0x80 then 1
    else if 0xC2 <= b <= 0xDF then (if Within(s, 1, 0x80, 0xBF) then 2 else 0)
    else if 0xE0 <= b <= 0xEF then
      (if Within(s, 1, if b == 0xE0 then 0xA0 else 0x80, if b == 0xED then 0x9F else 0xBF) && Within(s, 2, 0x80, 0xBF)
       then 3 else 0)
    else if 0xF0 <= b <= 0xF4 then
      (if && Within(s, 1, if b == 0xF0 then 0x90 else 0x80, if b == 0xF4 then 0x8F else 0xBF)
          && Within(s, 2, 0x80, 0xBF) && Within(s, 3, 0x80, 0xBF)
       then 4 else 0)
    else 0
  }

  /** How much of the input one step of the encoder takes: a rune, or one stray byte. */
  function Width(s: Bytes): (n: nat)
    requires s != []
    ensures 1 <= n <= |s|
  {
    if RuneLength(s) == 0 then 1 else RuneLength(s)
  }

  /** The replacement character, U+FFFD. */
  const REPLACEMENT: Bytes := [0xEF, 0xBF, 0xBD]

  function CanonRune(s: Bytes): Bytes
    requires s != []
  {
    if RuneLength(s) == 0 then REPLACEMENT else s[..RuneLength(s)]
  }

  /** The text as a reader gets it back: stray bytes become replacement characters. */
  function Canon(s: Bytes): Bytes {
    if s == [] then [] else CanonRune(s) + Canon(s[Width(s)..])
  }

  ghost predicate ValidUtf8(s: Bytes) {
    s == [] || (RuneLength(s) > 0 && ValidUtf8(s[RuneLength(s)..]))
  }

  lemma {:induction false} CanonOfValid(s: Bytes)
    requires ValidUtf8(s)
    ensures Canon(s) == s
  {
    if s != [] { CanonOfValid(s[RuneLength(s)..]); }
  }

  /** Replacing stray bytes makes a text longer, so only valid UTF-8 stays as it is. */
  lemma {:induction false} CanonLength(s: Bytes)
    ensures |Canon(s)| >= |s|
    ensures !ValidUtf8(s) ==> |Canon(s)| > |s|
    decreases |s|
  {
    if s != [] { CanonLength(s[Width(s)..]); }
  }

  lemma CanonIffValid(s: Bytes)
    ensures Canon(s) == s <==> ValidUtf8(s)
  {
    CanonLength(s);
    if ValidUtf8(s) { CanonOfValid(s); }
  }

  // Escaping ---------------------------------------------------------------------------------

  function Hex(d: nat): Byte
    requires d < 16
  {
    if d < 10 then 48 + d else 87 + d
  }

  /** Printable ASCII except the quote, the backslash and the three characters of HTML. */
  predicate HtmlSafe(b: Byte) {
    32 <= b < 128 && b != QUOTE && b != BACKSLASH && b != 38 && b != 60 && b != 62
  }

  function EscapeAscii(b: Byte): Bytes
    requires b < 128
  {
    if HtmlSafe(b) then [b]
    else if b == QUOTE || b == BACKSLASH then [BACKSLASH, b]
    else if b == 8 then [BACKSLASH, 98]
    else if b == 12 then [BACKSLASH, 102]
    else if b == 10 then [BACKSLASH, 110]
    else if b == 13 then [BACKSLASH, 114]
    else if b == 9 then [BACKSLASH, 116]
    else [BACKSLASH, 117, 48, 48, Hex(b / 16), Hex(b % 16)]
  }

  /** U+2028 and U+2029, which end lines in JavaScript. */
  predicate IsLineSeparator(s: Bytes) {
    |s| >= 3 && s[0] == 0xE2 && s[1] == 0x80 && (s[2] == 0xA8 || s[2] == 0xA9)
  }

  function EscapeRune(s: Bytes): Bytes
    requires s != []
  {
    if s[0] < 128 then EscapeAscii(s[0])
    else if RuneLength(s) == 0 then [BACKSLASH, 117, 102, 102, 102, 100]
    else if IsLineSeparator(s) then [BACKSLASH, 117, 50, 48, 50, s[2] - 0xA8 + 56]
    else s[..RuneLength(s)]
  }

  function Escape(s: Bytes): Bytes {
    if s == [] then [] else EscapeRune(s) + Escape(s[Width(s)..])
  }

  function HexValue(b: Byte): int {
    if 48 <= b < 58 then b - 48 else if 97 <= b < 103 then b - 87 else -1
  }

  /** What the escape sequence or rune at the head of a string's contents stands for, and
      how long it is; of the \u forms, those for ASCII and for the encoder's own three. */
  function ReadRune(t: Bytes): (r: (Bytes, nat))
    requires t != []
    ensures r.1 <= |t|
  {
    if t[0] != BACKSLASH then (t[..Width(t)], Width(t))
    else if |t| < 2 then ([], 0)
    else if t[1] == QUOTE || t[1] == BACKSLASH then ([t[1]], 2)
    else if t[1] == 98 then ([8], 2)
    else if t[1] == 102 then ([12], 2)
    else if t[1] == 110 then ([10], 2)
    else if t[1] == 114 then ([13], 2)
    else if t[1] == 116 then ([9], 2)
    else if t[1] != 117 || |t| < 6 then ([], 0)
    else if t[2..6] == [102, 102, 102, 100] then (REPLACEMENT, 6)
    else if t[2..5] == [50, 48, 50] && (t[5] == 56 || t[5] == 57) then ([0xE2, 0x80, t[5] - 56 + 0xA8], 6)
    else if t[2..4] == [48, 48] && 0 <= HexValue(t[4]) < 8 && 0 <= HexValue(t[5]) then
      ([HexValue(t[4]) * 16 + HexValue(t[5])], 6)
    else ([], 0)
  }

  function Unescape(t: Bytes): Bytes {
    if t == [] || ReadRune(t).1 == 0 then [] else ReadRune(t).0 + Unescape(t[ReadRune(t).1..])
  }

  lemma ReadAscii(b: Byte, rest: Bytes)
    requires b < 128
    ensures ReadRune(EscapeAscii(b) + rest) == ([b], |EscapeAscii(b)|)
  {
    var t := EscapeAscii(b) + rest;
    if !HtmlSafe(b) && t[1] == 117 {
      assert t[2..6] == [48, 48, Hex(b / 16), Hex(b % 16)];
      assert t[2..5] == [48, 48, Hex(b / 16)] && t[2..4] == [48, 48];
      assert t[2..6][0] == 48 && t[2..5][0] == 48;
      assert [102, 102, 102, 100][0] == 102 && [50, 48, 50][0] == 50;
      assert HexValue(Hex(b / 16)) == b / 16 && HexValue(Hex(b % 16)) == b % 16;
    }
  }

  lemma ReadEscaped(s: Bytes, rest: Bytes)
    requires s != []
    ensures ReadRune(EscapeRune(s) + rest) == (CanonRune(s), |EscapeRune(s)|)
  {
    var t := EscapeRune(s) + rest;
    if s[0] < 128 {
      ReadAscii(s[0], rest);
      assert s[..1] == [s[0]];
    } else if RuneLength(s) == 0 {
      assert t[1] == 117 && |t| >= 6;
      assert t[2..6] == [102, 102, 102, 100];
    } else if IsLineSeparator(s) {
      assert t[2..6][0] == 50 && [102, 102, 102, 100][0] == 102;
      assert t[2..5] == [50, 48, 50];
      assert s[..3] == [s[0], s[1], s[2]];
    } else {
      var n := RuneLength(s);
      assert forall i :: 0 <= i < n ==> t[i] == s[i];
      assert RuneLength(t) == n;
      assert t[..n] == s[..n];
    }
  }

  /** Reading undoes escaping, for every byte string, up to stray bytes. */
  lemma {:induction false} UnescapeOfEscape(s: Bytes)
    ensures Unescape(Escape(s)) == Canon(s)
    decreases |s|
  {
    hide EscapeRune, ReadRune, CanonRune, RuneLength, Width;
    if s != [] {
      var rest := Escape(s[Width(s)..]);
      ReadEscaped(s, rest);
      EscapedWidth(s);
      assert Escape(s)[|EscapeRune(s)|..] == rest;
      UnescapeOfEscape(s[Width(s)..]);
    }
  }

  lemma EscapedWidth(s: Bytes)
    requires s != []
    ensures EscapeRune(s) != []
  {
  }

  lemma {:induction false} StringOkConcat(a: Bytes, b: Bytes)
    requires StringOk(a) && StringOk(b)
    ensures StringOk(a + b)
    decreases |a|
  {
    if a == [] {
      assert a + b == b;
    } else {
      var n := if a[0] == BACKSLASH then 2 else 1;
      StringOkConcat(a[n..], b);
      StringStep(a, b, n);
    }
  }

  lemma StringStep(a: Bytes, b: Bytes, n: nat)
    requires a != [] && StringOk(a) && n == if a[0] == BACKSLASH then 2 else 1
    requires StringOk(a[n..] + b)
    ensures StringOk(a + b)
  {
    var s := a + b;
    assert s[n..] == a[n..] + b && s[0] == a[0];
    assert n == 2 ==> s[1] == a[1];
  }

  lemma {:induction false} PlainIsOk(s: Bytes)
    requires forall i :: 0 <= i < |s| ==> s[i] >= 32 && s[i] != QUOTE && s[i] != BACKSLASH
    ensures StringOk(s)
  {
    if s != [] { PlainIsOk(s[1..]); }
  }

  lemma EscapedRuneIsOk(s: Bytes)
    requires s != []
    ensures StringOk(EscapeRune(s))
  {
    var t := EscapeRune(s);
    if t[0] != BACKSLASH {
      PlainIsOk(t);
    } else {
      PlainIsOk(t[2..]);
    }
  }

  lemma {:induction false} EscapeIsOk(s: Bytes)
    ensures StringOk(Escape(s))
    decreases |s|
  {
    hide EscapeRune, StringOk;
    if s == [] {
      PlainIsOk([]);
    } else {
      EscapedRuneIsOk(s);
      EscapeIsOk(s[Width(s)..]);
      StringOkConcat(EscapeRune(s), Escape(s[Width(s)..]));
    }
  }

  // Events -------------------------------------------------------------------------------------

  function AsciiByte(c: char): Byte { if c < 128 as char then c as int else 63 }

  function Ascii(s: string): Bytes {
    seq<Byte>(|s|, i requires 0 <= i < |s| => AsciiByte(s[i]))
  }

  const AT := Ascii("at")
  const ACTION := Ascii("action")
  const OUTCOME := Ascii("outcome")
  const ACTOR_ID := Ascii("actor_id")
  const ACTOR_NAME := Ascii("actor_name")
  const OBJECT := Ascii("object")
  const REASON := Ascii("reason")
  const FIELDS := Ascii("fields")

  function Field(key: Bytes, value: Value): Member { Member([], key, [], value) }

  function TextMember(key: Bytes, text: Bytes): Member { Field(key, Str(Escape(text))) }

  /** A member left out when its text is empty. */
  function Optional(key: Bytes, text: Bytes): seq<Member> {
    if text == [] then [] else [TextMember(key, text)]
  }

  function FieldMembers(fields: seq<(Bytes, Bytes)>): seq<Member> {
    seq(|fields|, i requires 0 <= i < |fields| => TextMember(Escape(fields[i].0), fields[i].1))
  }

  function FieldsMember(fields: seq<(Bytes, Bytes)>): seq<Member> {
    if fields == [] then [] else [Field(FIELDS, Obj([], FieldMembers(fields)))]
  }

  /** The members from the reason on, from the object on, and from the actor's name on. */
  function Reasoned(e: Event): seq<Member> { Optional(REASON, e.reason) + FieldsMember(e.fields) }
  function Objected(e: Event): seq<Member> { Optional(OBJECT, e.object_) + Reasoned(e) }
  function Named(e: Event): seq<Member> { Optional(ACTOR_NAME, e.actorName) + Objected(e) }

  function EventMembers(e: Event): seq<Member> {
    [Field(AT, Str(e.at)), TextMember(ACTION, e.action), TextMember(OUTCOME, e.outcome)]
    + (Optional(ACTOR_ID, e.actorID) + Named(e))
  }

  function EventValue(e: Event): Value { Obj([], EventMembers(e)) }

  /** Digits, and the punctuation of RFC 3339. */
  predicate StampByte(b: Byte) { 48 <= b <= 58 || b == 43 || b == 45 || b == 46 || b == 84 || b == 90 }

  /** Encoding fails only for a time without a JSON form. */
  predicate Encodable(e: Event) {
    e.at != [] && forall i :: 0 <= i < |e.at| ==> StampByte(e.at[i])
  }

  function Encode(e: Event): Bytes { Text(EventValue(e)) }

  /** Values written without white space, made of strings and objects alone. */
  predicate Compact(v: Value) {
    match v
    case Str(content) => StringOk(content)
    case Obj(pad, members) => pad == [] && forall i :: 0 <= i < |members| ==> CompactMember(members[i])
    case _ => false
  }

  predicate CompactMember(m: Member) {
    m.before == [] && m.after == [] && StringOk(m.key) && Compact(m.value)
  }

  lemma {:induction false} CompactIsWellFormed(v: Value)
    requires Compact(v)
    ensures WellFormed(v)
  {
    if v.Obj? {
      forall i | 0 <= i < |v.members| ensures MemberOk(v.members[i]) {
        CompactIsWellFormed(v.members[i].value);
      }
    }
  }

  lemma TextMemberIsCompact(key: Bytes, text: Bytes)
    requires StringOk(key)
    ensures CompactMember(TextMember(key, text))
  {
    EscapeIsOk(text);
  }

  lemma KeyIsOk(name: string)
    requires forall i :: 0 <= i < |name| ==> name[i] == '_' || 'a' <= name[i] <= 'z'
    ensures StringOk(Ascii(name))
  {
    PlainIsOk(Ascii(name));
  }

  lemma KeysAreOk()
    ensures StringOk(AT) && StringOk(ACTION) && StringOk(OUTCOME) && StringOk(ACTOR_ID)
    ensures StringOk(ACTOR_NAME) && StringOk(OBJECT) && StringOk(REASON) && StringOk(FIELDS)
  {
    hide StringOk, Ascii;
    KeyIsOk("at");
    KeyIsOk("action");
    KeyIsOk("outcome");
    KeyIsOk("actor_id");
    KeyIsOk("actor_name");
    KeyIsOk("object");
    KeyIsOk("reason");
    KeyIsOk("fields");
  }

  predicate AllCompact(ms: seq<Member>) { forall i :: 0 <= i < |ms| ==> CompactMember(ms[i]) }

  lemma AllCompactConcat(a: seq<Member>, b: seq<Member>)
    requires AllCompact(a) && AllCompact(b)
    ensures AllCompact(a + b)
  {
    hide CompactMember;
  }

  lemma EventIsCompact(e: Event)
    requires Encodable(e)
    ensures Compact(EventValue(e))
  {
    hide StringOk, Escape, Ascii, Optional, FieldMembers, AllCompact, TextMember;
    KeysAreOk();
    PlainIsOk(e.at);
    TextMemberIsCompact(ACTION, e.action);
    TextMemberIsCompact(OUTCOME, e.outcome);
    var head := [Field(AT, Str(e.at)), TextMember(ACTION, e.action), TextMember(OUTCOME, e.outcome)];
    HeadIsCompact(Field(AT, Str(e.at)), TextMember(ACTION, e.action), TextMember(OUTCOME, e.outcome));
    OptionalIsCompact(ACTOR_ID, e.actorID);
    OptionalIsCompact(ACTOR_NAME, e.actorName);
    OptionalIsCompact(OBJECT, e.object_);
    OptionalIsCompact(REASON, e.reason);
    FieldsAreCompact(e.fields);
    AllCompactConcat(Optional(REASON, e.reason), FieldsMember(e.fields));
    AllCompactConcat(Optional(OBJECT, e.object_), Reasoned(e));
    AllCompactConcat(Optional(ACTOR_NAME, e.actorName), Objected(e));
    AllCompactConcat(Optional(ACTOR_ID, e.actorID), Named(e));
    AllCompactConcat(head, Optional(ACTOR_ID, e.actorID) + Named(e));
    CompactObject(EventMembers(e));
  }

  lemma HeadIsCompact(a: Member, b: Member, c: Member)
    requires CompactMember(a) && CompactMember(b) && CompactMember(c)
    ensures AllCompact([a, b, c])
  {
  }

  lemma CompactObject(ms: seq<Member>)
    requires AllCompact(ms)
    ensures Compact(Obj([], ms))
  {
  }

  lemma OptionalIsCompact(key: Bytes, text: Bytes)
    requires StringOk(key)
    ensures AllCompact(Optional(key, text))
  {
    TextMemberIsCompact(key, text);
  }

  lemma FieldsAreCompact(fields: seq<(Bytes, Bytes)>)
    ensures AllCompact(FieldsMember(fields))
  {
    KeysAreOk();
    var members := FieldMembers(fields);
    forall i | 0 <= i < |members| ensures CompactMember(members[i]) {
      EscapeIsOk(fields[i].0);
      TextMemberIsCompact(Escape(fields[i].0), fields[i].1);
    }
  }

  /** No byte of a compact text is a control character; in particular there is no newline. */
  lemma CompactIsPrintable(v: Value)
    requires Compact(v)
    ensures Printable(Text(v))
  {
    CompactIsWellFormed(v);
    CompactIsUnspaced(v);
    UnspacedIsPrintable(v);
  }

  lemma {:induction false} CompactIsUnspaced(v: Value)
    requires Compact(v)
    ensures Unspaced(v)
  {
    if v.Obj? {
      forall i | 0 <= i < |v.members| ensures Unspaced(v.members[i].value) {
        CompactIsUnspaced(v.members[i].value);
      }
    }
  }

  // What a text determines --------------------------------------------------------------------

  lemma {:induction false} QuotedUnique(a: Bytes, b: Bytes, x: Bytes, y: Bytes)
    requires StringOk(a) && StringOk(b)
    requires a + [QUOTE] + x == b + [QUOTE] + y
    ensures a == b && x == y
    decreases |a|
  {
    var l, r := a + [QUOTE] + x, b + [QUOTE] + y;
    if a == [] || b == [] {
      assert l[0] == r[0];
      assert l[1..] == r[1..];
      assert a == [] ==> l[1..] == x;
      assert b == [] ==> r[1..] == y;
    } else {
      assert l[0] == a[0] && r[0] == b[0];
      var n := if a[0] == BACKSLASH then 2 else 1;
      assert l[n..] == a[n..] + [QUOTE] + x && r[n..] == b[n..] + [QUOTE] + y;
      QuotedUnique(a[n..], b[n..], x, y);
      assert l[..n] == a[..n] && r[..n] == b[..n];
      assert a == a[..n] + a[n..] && b == b[..n] + b[n..];
    }
  }

  lemma ConsEqual(c: Byte, d: Byte, s: Bytes, t: Bytes)
    requires [c] + s == [d] + t
    ensures c == d && s == t
  {
    var l, r := [c] + s, [d] + t;
    assert l[0] == c && r[0] == d && l[1..] == s && r[1..] == t;
  }

  lemma Regroup(key: Bytes, value: Bytes, tail: Bytes, x: Bytes)
    ensures ([] + Quoted(key) + [] + [COLON] + value + tail) + x
      == [QUOTE] + (key + [QUOTE] + ([COLON] + (value + (tail + x))))
  {
    assert [] + Quoted(key) + [] == [QUOTE] + (key + [QUOTE]);
    var a, b, c := [QUOTE] + (key + [QUOTE]), [COLON] + value, tail + x;
    assert (a + [COLON] + value + tail) + x == a + (b + c);
    assert b + c == [COLON] + (value + c);
    assert a + (b + c) == [QUOTE] + (key + [QUOTE] + (b + c));
  }

  /** What follows the first member, up to and with the closing brace. */
  function Rest(members: seq<Member>, x: Bytes): Bytes
    requires members != []
  {
    if |members| == 1 then [RBRACE] + x else [COMMA] + (MembersText(members[1..]) + ([RBRACE] + x))
  }

  lemma MembersOpen(a: seq<Member>, x: Bytes)
    requires a != [] && a[0].before == [] && a[0].after == []
    ensures MembersText(a) + ([RBRACE] + x)
      == [QUOTE] + (a[0].key + [QUOTE] + ([COLON] + (Text(a[0].value) + Rest(a, x))))
  {
    hide Text, Quoted;
    var tail := if |a| == 1 then [] else [COMMA] + MembersText(a[1..]);
    assert MembersText(a) == [] + Quoted(a[0].key) + [] + [COLON] + Text(a[0].value) + tail;
    hide MembersText;
    Regroup(a[0].key, Text(a[0].value), tail, [RBRACE] + x);
    assert tail + ([RBRACE] + x) == Rest(a, x);
  }

  /** Compact values can be read back from their text, whatever follows it. */
  lemma {:induction false} TextUnique(v: Value, w: Value, x: Bytes, y: Bytes)
    requires Compact(v) && Compact(w) && Text(v) + x == Text(w) + y
    ensures v == w && x == y
    decreases v
  {
    TextOpens(v, x);
    TextOpens(w, y);
    var l, r := Text(v) + x, Text(w) + y;
    assert l[0] == r[0] && l[1..] == r[1..];
    hide Text;
    match v {
      case Str(content) =>
        QuotedUnique(content, w.content, x, y);
      case Obj(pad, members) =>
        MembersUnique(members, w.members, x, y);
    }
  }

  lemma TextOpens(v: Value, x: Bytes)
    requires Compact(v)
    ensures v.Str? ==> (Text(v) + x)[0] == QUOTE && (Text(v) + x)[1..] == v.content + [QUOTE] + x
    ensures v.Obj? ==> (Text(v) + x)[0] == LBRACE && (Text(v) + x)[1..] == MembersText(v.members) + ([RBRACE] + x)
  {
    hide MembersText, StringOk;
    match v {
      case Str(content) => Delimited(QUOTE, content, QUOTE, x);
      case Obj(pad, members) =>
        Delimited(LBRACE, MembersText(members), RBRACE, x);
        assert [] + MembersText(members) == MembersText(members);
    }
  }

  lemma Delimited(first: Byte, inner: Bytes, last: Byte, x: Bytes)
    ensures var t := ([first] + inner + [last]) + x;
      t[0] == first && t[1..] == inner + [last] + x && t[1..] == inner + ([last] + x)
  {
  }

  lemma {:induction false} MembersUnique(a: seq<Member>, b: seq<Member>, x: Bytes, y: Bytes)
    requires AllCompact(a) && AllCompact(b)
    requires MembersText(a) + ([RBRACE] + x) == MembersText(b) + ([RBRACE] + y)
    ensures a == b && x == y
    decreases a
  {
    FirstByte(a, x);
    FirstByte(b, y);
    hide StringOk, Compact, Text, MembersText, Rest;
    if a == [] {
      assert MembersText([]) + ([RBRACE] + x) == [RBRACE] + x && MembersText([]) + ([RBRACE] + y) == [RBRACE] + y;
      ConsEqual(RBRACE, RBRACE, x, y);
    } else {
      MembersOpen(a, x);
      MembersOpen(b, y);
      var valueA, valueB := Text(a[0].value) + Rest(a, x), Text(b[0].value) + Rest(b, y);
      ConsEqual(QUOTE, QUOTE, a[0].key + [QUOTE] + ([COLON] + valueA), b[0].key + [QUOTE] + ([COLON] + valueB));
      QuotedUnique(a[0].key, b[0].key, [COLON] + valueA, [COLON] + valueB);
      ConsEqual(COLON, COLON, valueA, valueB);
      TextUnique(a[0].value, b[0].value, Rest(a, x), Rest(b, y));
      assert a == [a[0]] + a[1..] && b == [b[0]] + b[1..];
      RestsAgree(a, b, x, y);
      if |a| > 1 {
        MembersUnique(a[1..], b[1..], x, y);
      }
    }
  }

  lemma FirstByte(a: seq<Member>, x: Bytes)
    requires AllCompact(a)
    ensures MembersText([]) == []
    ensures (MembersText(a) + ([RBRACE] + x))[0] == if a == [] then RBRACE else QUOTE
  {
    if a != [] { MembersOpen(a, x); }
  }

  lemma RestsAgree(a: seq<Member>, b: seq<Member>, x: Bytes, y: Bytes)
    requires a != [] && b != [] && Rest(a, x) == Rest(b, y)
    ensures |a| == 1 <==> |b| == 1
    ensures |a| == 1 ==> x == y
    ensures |a| > 1 ==> MembersText(a[1..]) + ([RBRACE] + x) == MembersText(b[1..]) + ([RBRACE] + y)
  {
    hide MembersText;
    var restA, restB := Rest(a, x), Rest(b, y);
    assert restA[0] == (if |a| == 1 then RBRACE else COMMA) && restB[0] == (if |b| == 1 then RBRACE else COMMA);
    if |a| == 1 {
      ConsEqual(RBRACE, RBRACE, x, y);
    } else {
      ConsEqual(COMMA, COMMA, MembersText(a[1..]) + ([RBRACE] + x), MembersText(b[1..]) + ([RBRACE] + y));
    }
  }

  /** An encoded event is fit to be a line of its own: it starts with a brace, a quote and a
      letter. */
  lemma EventIsRecord(e: Event)
    requires Encodable(e)
    ensures IsRecord(Encode(e)) && Printable(Encode(e))
  {
    hide StringOk, Escape, Named, WellFormed;
    EventIsCompact(e);
    CompactIsWellFormed(EventValue(e));
    CompactIsPrintable(EventValue(e));
    var ms, t := EventMembers(e), Encode(e);
    assert ms[0] == Field(AT, Str(e.at));
    MembersOpen(ms, []);
    TextOpens(EventValue(e), []);
    assert t + [] == t && MembersText(ms) + ([RBRACE] + []) == t[1..];
    assert AT[0] == 97;
    assert t[1..][0] == QUOTE && t[1..][1] == 97;
    assert RestartsAt(t, 1);
  }

  /** The event as a reader of its text can know it. */
  function CanonEvent(e: Event): Event {
    Event(e.at, Canon(e.action), Canon(e.outcome), Canon(e.actorID), Canon(e.actorName),
          Canon(e.object_), Canon(e.reason), CanonFields(e.fields))
  }

  function CanonFields(fields: seq<(Bytes, Bytes)>): seq<(Bytes, Bytes)> {
    seq(|fields|, i requires 0 <= i < |fields| => (Canon(fields[i].0), Canon(fields[i].1)))
  }

  /** Every string of the event is valid UTF-8. */
  ghost predicate ValidEvent(e: Event) {
    && ValidUtf8(e.action) && ValidUtf8(e.outcome) && ValidUtf8(e.actorID) && ValidUtf8(e.actorName)
    && ValidUtf8(e.object_) && ValidUtf8(e.reason)
    && forall i :: 0 <= i < |e.fields| ==> ValidUtf8(e.fields[i].0) && ValidUtf8(e.fields[i].1)
  }

  /** Such an event loses nothing in its text. */
  lemma CanonOfValidEvent(e: Event)
    requires ValidEvent(e)
    ensures CanonEvent(e) == e
  {
    hide Canon, ValidUtf8;
    CanonOfValid(e.action);
    CanonOfValid(e.outcome);
    CanonOfValid(e.actorID);
    CanonOfValid(e.actorName);
    CanonOfValid(e.object_);
    CanonOfValid(e.reason);
    forall i | 0 <= i < |e.fields| ensures CanonFields(e.fields)[i] == e.fields[i] {
      CanonOfValid(e.fields[i].0);
      CanonOfValid(e.fields[i].1);
    }
  }

  predicate LacksKey(ms: seq<Member>, key: Bytes) { forall i :: 0 <= i < |ms| ==> ms[i].key != key }

  lemma EscapeDetermines(a: Bytes, b: Bytes)
    requires Escape(a) == Escape(b)
    ensures Canon(a) == Canon(b)
  {
    UnescapeOfEscape(a);
    UnescapeOfEscape(b);
  }

  lemma OptionalUnique(key: Bytes, a: Bytes, b: Bytes, r: seq<Member>, s: seq<Member>)
    requires LacksKey(r, key) && LacksKey(s, key)
    requires Optional(key, a) + r == Optional(key, b) + s
    ensures Canon(a) == Canon(b) && r == s
  {
    hide Escape, Canon;
    var l := Optional(key, a) + r;
    assert a != [] ==> l[0] == TextMember(key, a) && l[1..] == r;
    assert b != [] ==> l[0] == TextMember(key, b) && l[1..] == s;
    assert a == [] ==> l == r;
    assert b == [] ==> l == s;
    assert a != [] && b != [] ==> Escape(a) == Escape(b);
    if a != [] && b != [] { EscapeDetermines(a, b); }
  }

  lemma FieldsUnique(a: seq<(Bytes, Bytes)>, b: seq<(Bytes, Bytes)>)
    requires FieldsMember(a) == FieldsMember(b)
    ensures CanonFields(a) == CanonFields(b)
  {
    if a != [] {
      assert FieldsMember(a)[0].value.members == FieldMembers(a);
      assert FieldsMember(b)[0].value.members == FieldMembers(b);
      assert |a| == |FieldMembers(a)| == |FieldMembers(b)| == |b|;
      forall i | 0 <= i < |a| ensures CanonFields(a)[i] == CanonFields(b)[i] {
        assert FieldMembers(a)[i] == FieldMembers(b)[i];
        EscapeDetermines(a[i].0, b[i].0);
        EscapeDetermines(a[i].1, b[i].1);
      }
    }
  }

  lemma KeysDiffer()
    ensures |AT| == 2 && |ACTION| == 6 && |OUTCOME| == 7 && |ACTOR_ID| == 8 && |ACTOR_NAME| == 10
    ensures |OBJECT| == 6 && |REASON| == 6 && |FIELDS| == 6
    ensures ACTION !in [OBJECT, REASON, FIELDS]
    ensures ACTOR_NAME != ACTOR_ID && OBJECT !in [ACTOR_ID, ACTOR_NAME] && REASON !in [ACTOR_ID, ACTOR_NAME, OBJECT]
    ensures FIELDS !in [ACTOR_ID, ACTOR_NAME, OBJECT, REASON]
  {
    assert |ACTOR_ID| == 8 && |ACTOR_NAME| == 10 && |OBJECT| == 6 && |REASON| == 6 && |FIELDS| == 6;
    assert ACTION[0] == 97 && OBJECT[0] == 111 && REASON[0] == 114 && FIELDS[0] == 102;
  }

  /** What a reader finds under a key. */
  function ValueAt(ms: seq<Member>, key: Bytes): (v: seq<Value>)
    ensures LacksKey(ms, key) ==> v == []
  {
    if ms == [] then []
    else if ms[0].key == key then [ms[0].value]
    else ValueAt(ms[1..], key)
  }

  lemma {:induction false} ValueAtConcat(a: seq<Member>, b: seq<Member>, key: Bytes)
    ensures ValueAt(a + b, key) == if LacksKey(a, key) then ValueAt(b, key) else ValueAt(a, key)
    decreases |a|
  {
    if a == [] {
      assert a + b == b;
    } else {
      ValueAtConcat(a[1..], b, key);
      assert (a + b)[1..] == a[1..] + b;
    }
  }

  function OptionalValue(text: Bytes): seq<Value> { if text == [] then [] else [Str(Escape(text))] }

  /** Each member is found under its own key, and the empty optional ones are not there. */
  lemma FoundByKey(e: Event)
    ensures ValueAt(EventMembers(e), AT) == [Str(e.at)]
    ensures ValueAt(EventMembers(e), ACTION) == [Str(Escape(e.action))]
    ensures ValueAt(EventMembers(e), OUTCOME) == [Str(Escape(e.outcome))]
    ensures ValueAt(EventMembers(e), ACTOR_ID) == OptionalValue(e.actorID)
    ensures ValueAt(EventMembers(e), ACTOR_NAME) == OptionalValue(e.actorName)
    ensures ValueAt(EventMembers(e), OBJECT) == OptionalValue(e.object_)
    ensures ValueAt(EventMembers(e), REASON) == OptionalValue(e.reason)
    ensures (ValueAt(EventMembers(e), FIELDS) ==
      if e.fields == [] then [] else [Obj([], FieldMembers(e.fields))])
  {
    KeysDiffer();
    hide Ascii, Escape, FieldMembers, ValueAt, Named, Optional;
    var a, b, c := Field(AT, Str(e.at)), TextMember(ACTION, e.action), TextMember(OUTCOME, e.outcome);
    var tail := Optional(ACTOR_ID, e.actorID) + Named(e);
    assert EventMembers(e) == [a, b, c] + tail;
    forall key
      ensures ValueAt(EventMembers(e), key) ==
              if key == AT then [a.value] else if key == ACTION then [b.value]
              else if key == OUTCOME then [c.value] else TailValue(e, key)
    {
      ValueAtConcat([a, b, c], tail, key);
      ValueAtThree(a, b, c, key);
      TailValueIs(e, key);
    }
  }

  lemma ValueAtThree(a: Member, b: Member, c: Member, key: Bytes)
    ensures LacksKey([a, b, c], key) <==> key != a.key && key != b.key && key != c.key
    ensures a.key == key ==> ValueAt([a, b, c], key) == [a.value]
    ensures a.key != key && b.key == key ==> ValueAt([a, b, c], key) == [b.value]
    ensures a.key != key && b.key != key && c.key == key ==> ValueAt([a, b, c], key) == [c.value]
  {
    var all := [a, b, c];
    assert all[1..] == [b, c] && [b, c][1..] == [c];
    assert ValueAt([c], key) == if c.key == key then [c.value] else ValueAt([c][1..], key);
    assert ValueAt([b, c], key) == if b.key == key then [b.value] else ValueAt([c], key);
    assert all[0].key == a.key && all[1].key == b.key && all[2].key == c.key;
  }

  function TailValue(e: Event, key: Bytes): seq<Value> {
    if key == ACTOR_ID then OptionalValue(e.actorID)
    else if key == ACTOR_NAME then OptionalValue(e.actorName)
    else if key == OBJECT then OptionalValue(e.object_)
    else if key == REASON then OptionalValue(e.reason)
    else if key == FIELDS && e.fields != [] then [Obj([], FieldMembers(e.fields))]
    else []
  }

  lemma TailValueIs(e: Event, key: Bytes)
    ensures ValueAt(Optional(ACTOR_ID, e.actorID) + Named(e), key) == TailValue(e, key)
  {
    KeysDiffer();
    OptionalValueAt(ACTOR_ID, e.actorID, key);
    OptionalValueAt(ACTOR_NAME, e.actorName, key);
    OptionalValueAt(OBJECT, e.object_, key);
    OptionalValueAt(REASON, e.reason, key);
    FieldsValueAt(e.fields, key);
    hide Ascii, Escape, FieldMembers, FieldsMember, Optional, ValueAt, LacksKey;
    ValueAtConcat(Optional(REASON, e.reason), FieldsMember(e.fields), key);
    ValueAtConcat(Optional(OBJECT, e.object_), Reasoned(e), key);
    ValueAtConcat(Optional(ACTOR_NAME, e.actorName), Objected(e), key);
    ValueAtConcat(Optional(ACTOR_ID, e.actorID), Named(e), key);
  }

  lemma OptionalValueAt(key: Bytes, text: Bytes, other: Bytes)
    ensures LacksKey(Optional(key, text), other) <==> text == [] || other != key
    ensures other == key ==> ValueAt(Optional(key, text), other) == OptionalValue(text)
  {
    hide Escape;
    if text != [] { assert Optional(key, text)[0].key == key; }
  }

  lemma FieldsValueAt(fields: seq<(Bytes, Bytes)>, key: Bytes)
    ensures (ValueAt(FieldsMember(fields), key) ==
      if key == FIELDS && fields != [] then [Obj([], FieldMembers(fields))] else [])
  {
    hide FieldMembers;
  }

  /** An encoded event determines the event, up to stray bytes in its strings. */
  lemma EncodeDetermines(a: Event, b: Event)
    requires Encodable(a) && Encodable(b) && Encode(a) == Encode(b)
    ensures CanonEvent(a) == CanonEvent(b)
  {
    hide Ascii, Escape, Canon, Compact, Text, CanonFields, Optional, FieldsMember;
    EventIsCompact(a);
    EventIsCompact(b);
    TextUnique(EventValue(a), EventValue(b), [], []);
    KeysDiffer();
    var l, r := EventMembers(a), EventMembers(b);
    assert l[0] == r[0] && l[1] == r[1] && l[2] == r[2] && l[3..] == r[3..];
    EscapeDetermines(a.action, b.action);
    EscapeDetermines(a.outcome, b.outcome);
    OptionalsLackKeys(a);
    OptionalsLackKeys(b);
    OptionalUnique(ACTOR_ID, a.actorID, b.actorID, Named(a), Named(b));
    OptionalUnique(ACTOR_NAME, a.actorName, b.actorName, Objected(a), Objected(b));
    OptionalUnique(OBJECT, a.object_, b.object_, Reasoned(a), Reasoned(b));
    OptionalUnique(REASON, a.reason, b.reason, FieldsMember(a.fields), FieldsMember(b.fields));
    FieldsUnique(a.fields, b.fields);
  }

  lemma OptionalsLackKeys(e: Event)
    ensures LacksKey(FieldsMember(e.fields), REASON)
    ensures LacksKey(Reasoned(e), OBJECT)
    ensures LacksKey(Objected(e), ACTOR_NAME)
    ensures LacksKey(Named(e), ACTOR_ID)
  {
    KeysDiffer();
    hide Ascii, Escape;
  }
}
