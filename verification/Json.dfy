/** JSON texts (RFC 8259) as byte strings: why no piece of an object or array that starts after
    its first byte is a JSON text, and why pieces glued together never are. */
module Json {
  import opened Binary

  const QUOTE: Byte := 34
  const BACKSLASH: Byte := 92
  const LBRACE: Byte := 123
  const RBRACE: Byte := 125
  const LBRACKET: Byte := 91
  const RBRACKET: Byte := 93
  const COMMA: Byte := 44
  const COLON: Byte := 58

  // Lexing -----------------------------------------------------------------------------------

  /** Outside strings; outside, just after one; inside one; just after a backslash inside one;
      or beyond repair. */
  datatype Lex = Out | After | In | Esc | Bad

  predicate Opens(b: Byte) { b == LBRACE || b == LBRACKET }

  predicate Closes(b: Byte) { b == RBRACE || b == RBRACKET }

  predicate IsWhite(b: Byte) { b == 32 || b == 9 || b == 10 || b == 13 }

  /** What may stand after a value, white space aside. */
  predicate Delimits(b: Byte) { b == COMMA || b == COLON || Closes(b) }

  /** The characters that may follow a backslash: " \ / b f n r t u (section 7). */
  predicate Escapable(b: Byte) {
    b == QUOTE || b == BACKSLASH || b == 47 || b == 98 || b == 102 || b == 110 || b == 114 || b == 116 || b == 117
  }

  function Next(l: Lex, b: Byte): Lex {
    match l
    case Out => if b == QUOTE then In else if b == BACKSLASH then Bad else Out
    case After => if IsWhite(b) then After else if Delimits(b) then Out else Bad
    case In => if b == QUOTE then After else if b == BACKSLASH then Esc else if b < 32 then Bad else In
    case Esc => if Escapable(b) then In else Bad
    case Bad => Bad
  }

  function Run(l: Lex, s: Bytes): Lex
    decreases |s|
  {
    if s == [] then l else Run(Next(l, s[0]), s[1..])
  }

  predicate Outside(l: Lex) { l.Out? || l.After? }

  function LevelOf(l: Lex, b: Byte): int {
    if l.Out? && Opens(b) then 1 else if Outside(l) && Closes(b) then -1 else 0
  }

  /** Opening minus closing braces and brackets, counted outside strings. */
  function Level(l: Lex, s: Bytes): int
    decreases |s|
  {
    if s == [] then 0 else LevelOf(l, s[0]) + Level(Next(l, s[0]), s[1..])
  }

  lemma {:induction false} RunConcat(l: Lex, a: Bytes, b: Bytes)
    ensures Run(l, a + b) == Run(Run(l, a), b)
    ensures Level(l, a + b) == Level(l, a) + Level(Run(l, a), b)
    decreases |a|
  {
    if a == [] {
      assert a + b == b;
    } else {
      RunConcat(Next(l, a[0]), a[1..], b);
      assert (a + b)[0] == a[0] && (a + b)[1..] == a[1..] + b;
    }
  }

  lemma {:induction false} BadStays(s: Bytes)
    ensures Run(Bad, s) == Bad
  {
    if s != [] { BadStays(s[1..]); }
  }

  /** Reading the same bytes from the wrong side of a quote never ends outside a string. */
  lemma {:induction false} Flipped(s: Bytes)
    ensures Outside(Run(In, s)) ==> !Outside(Run(Out, s)) && !Outside(Run(After, s))
    ensures Outside(Run(Out, s)) ==> !Outside(Run(In, s))
    ensures Outside(Run(After, s)) ==> !Outside(Run(In, s))
  {
    if s != [] {
      BadStays(s[1..]);
      Flipped(s[1..]);
    }
  }

  /** Just after a string fewer texts can be read, and those alike. */
  lemma {:induction false} AfterAgrees(s: Bytes)
    ensures Run(After, s) != Bad ==> Level(After, s) == Level(Out, s)
    ensures Run(After, s) != Bad ==> Run(Out, s) == Run(After, s) || (Run(Out, s) == Out && Run(After, s) == After)
  {
    if s != [] {
      BadStays(s[1..]);
      AfterAgrees(s[1..]);
    }
  }

  /** No control character, so no newline and no carriage return. */
  predicate Printable(s: Bytes) { forall i :: 0 <= i < |s| ==> s[i] >= 32 }

  // Neat texts -----------------------------------------------------------------------------------

  /** Strings closed, braces and brackets balanced, and never closed before they are opened. */
  ghost predicate Neat(s: Bytes) {
    && Outside(Run(Out, s)) && Level(Out, s) == 0
    && forall k :: 0 <= k <= |s| ==> Level(Out, s[..k]) >= 0
  }

  predicate White(s: Bytes) { forall i :: 0 <= i < |s| ==> IsWhite(s[i]) }

  /** What may follow a string directly. */
  predicate Mild(s: Bytes) { White(s) || (s != [] && Delimits(s[0])) }

  lemma {:induction false} WhiteRun(s: Bytes)
    requires White(s)
    ensures Run(Out, s) == Out && Run(After, s) == After && Level(Out, s) == 0 && Level(After, s) == 0
  {
    if s != [] { WhiteRun(s[1..]); }
  }

  lemma MildRun(s: Bytes)
    requires Mild(s) && Neat(s)
    ensures Outside(Run(After, s)) && Level(After, s) == 0
    ensures forall k :: 0 <= k <= |s| ==> Level(After, s[..k]) >= 0
  {
    if White(s) {
      WhiteRun(s);
      forall k | 0 <= k <= |s| ensures Level(After, s[..k]) >= 0 { WhiteRun(s[..k]); }
    } else {
      assert Run(After, s) == Run(Out, s) && Level(After, s) == Level(Out, s);
      forall k | 0 <= k <= |s| ensures Level(After, s[..k]) >= 0 {
        assert Level(After, s[..k]) == Level(Out, s[..k]);
      }
    }
  }

  lemma NeatConcat(a: Bytes, b: Bytes)
    requires Neat(a) && Neat(b) && (Run(Out, a) == Out || Mild(b))
    ensures Neat(a + b)
  {
    hide Mild;
    if Mild(b) { MildRun(b); }
    hide Run, Level;
    RunConcat(Out, a, b);
    forall k | 0 <= k <= |a + b| ensures Level(Out, (a + b)[..k]) >= 0 {
      if k <= |a| {
        assert (a + b)[..k] == a[..k];
      } else {
        assert (a + b)[..k] == a + b[..k - |a|];
        RunConcat(Out, a, b[..k - |a|]);
      }
    }
  }

  /** Bytes that open or close nothing. */
  predicate Flat(s: Bytes) {
    forall i :: 0 <= i < |s| ==> s[i] != QUOTE && s[i] != BACKSLASH && !Opens(s[i]) && !Closes(s[i])
  }

  lemma {:induction false} FlatRun(s: Bytes)
    requires Flat(s)
    ensures Run(Out, s) == Out && Level(Out, s) == 0
  {
    if s != [] { FlatRun(s[1..]); }
  }

  lemma FlatIsNeat(s: Bytes)
    requires Flat(s)
    ensures Neat(s) && Run(Out, s) == Out
  {
    hide Run, Level;
    FlatRun(s);
    forall k | 0 <= k <= |s| ensures Level(Out, s[..k]) >= 0 {
      FlatRun(s[..k]);
    }
  }

  /** What may stand between the quotes of a string: no raw quote, no control character,
      and every backslash escapes something. */
  predicate StringOk(content: Bytes) {
    if content == [] then true
    else if content[0] == BACKSLASH then |content| >= 2 && Escapable(content[1]) && StringOk(content[2..])
    else content[0] != QUOTE && content[0] >= 32 && StringOk(content[1..])
  }

  function Quoted(content: Bytes): Bytes { [QUOTE] + content + [QUOTE] }

  lemma {:induction false} InsideString(s: Bytes)
    requires StringOk(s)
    ensures Run(In, s) == In && Level(In, s) == 0
  {
    if s != [] {
      if s[0] == BACKSLASH {
        InsideString(s[2..]);
        assert s[1..][1..] == s[2..];
      } else {
        InsideString(s[1..]);
      }
    }
  }

  lemma {:induction false} InsideStringPrefix(s: Bytes, k: nat)
    requires StringOk(s) && k <= |s|
    ensures Level(In, s[..k]) == 0
  {
    if k == 1 {
      assert s[..k][1..] == [];
    } else if k > 1 {
      var t := s[..k];
      if s[0] == BACKSLASH {
        InsideStringPrefix(s[2..], k - 2);
        assert t[1..][1..] == s[2..][..k - 2];
        assert t[1..][0] == s[1];
      } else {
        InsideStringPrefix(s[1..], k - 1);
        assert t[1..] == s[1..][..k - 1];
      }
    }
  }

  lemma QuotedIsNeat(content: Bytes)
    requires StringOk(content)
    ensures Neat(Quoted(content))
  {
    var q := Quoted(content);
    InsideString(content);
    RunConcat(In, content, [QUOTE]);
    assert q[1..] == content + [QUOTE];
    forall k | 0 <= k <= |q| ensures Level(Out, q[..k]) >= 0 {
      if k == |q| {
        assert q[..k] == q;
      } else if k > 0 {
        InsideStringPrefix(content, k - 1);
        assert q[..k][1..] == content[..k - 1];
      }
    }
  }

  /** The first byte opens a brace or bracket that only the last byte closes. */
  ghost predicate StaysOpen(s: Bytes) {
    forall k :: 0 < k < |s| ==> Level(Out, s[..k]) >= 1
  }

  /** A neat body between braces or brackets is neat, and inside it the outer one stays open. */
  lemma EnclosedIsNeat(open: Byte, body: Bytes, close: Byte)
    requires Opens(open) && Closes(close) && Neat(body)
    ensures Neat([open] + body + [close])
    ensures StaysOpen([open] + body + [close])
  {
    var s := [open] + body + [close];
    assert s[1..] == body + [close];
    RunConcat(Out, body, [close]);
    EndsLevel(Run(Out, body), close);
    forall k | 0 < k < |s| ensures Level(Out, s[..k]) >= 1 {
      assert s[..k][1..] == body[..k - 1];
    }
    hide Run;
    assert s[..|s|] == s;
  }

  lemma EndsLevel(l: Lex, close: Byte)
    requires Outside(l) && Closes(close)
    ensures Run(l, [close]) == Out && Level(l, [close]) == -1
  {
    assert [close][1..] == [];
  }

  // Values -----------------------------------------------------------------------------------------

  /** A JSON value as it is written, with its white space. `Word` stands for numbers and the
      three literals, and is wider than they are. */
  datatype Value =
    | Padded(before: Bytes, inner: Value, after: Bytes)
    | Word(text: Bytes)
    | Str(content: Bytes)
    | Arr(pad: Bytes, items: seq<Value>)
    | Obj(pad: Bytes, members: seq<Member>)

  datatype Member = Member(before: Bytes, key: Bytes, after: Bytes, value: Value)

  /** Letters, digits, plus, minus and dot. */
  predicate WordByte(b: Byte) {
    b == 43 || b == 45 || b == 46 || 48 <= b < 58 || 65 <= b < 91 || 97 <= b < 123
  }

  predicate IsWord(text: Bytes) { text != [] && forall i :: 0 <= i < |text| ==> WordByte(text[i]) }

  predicate WellFormed(v: Value) {
    match v
    case Padded(before, inner, after) => White(before) && White(after) && WellFormed(inner)
    case Word(text) => IsWord(text)
    case Str(content) => StringOk(content)
    case Arr(pad, items) => White(pad) && forall i :: 0 <= i < |items| ==> WellFormed(items[i])
    case Obj(pad, members) => White(pad) && forall i :: 0 <= i < |members| ==> MemberOk(members[i])
  }

  predicate MemberOk(m: Member) {
    White(m.before) && StringOk(m.key) && White(m.after) && WellFormed(m.value)
  }

  function Text(v: Value): Bytes {
    match v
    case Padded(before, inner, after) => before + Text(inner) + after
    case Word(text) => text
    case Str(content) => Quoted(content)
    case Arr(pad, items) => [LBRACKET] + (pad + ItemsText(items)) + [RBRACKET]
    case Obj(pad, members) => [LBRACE] + (pad + MembersText(members)) + [RBRACE]
  }

  function ItemsText(items: seq<Value>): Bytes {
    if items == [] then []
    else Text(items[0]) + (if |items| == 1 then [] else [COMMA] + ItemsText(items[1..]))
  }

  function MembersText(members: seq<Member>): Bytes {
    if members == [] then []
    else MemberText(members[0]) + (if |members| == 1 then [] else [COMMA] + MembersText(members[1..]))
  }

  function MemberText(m: Member): Bytes {
    m.before + Quoted(m.key) + m.after + [COLON] + Text(m.value)
  }

  ghost predicate IsJson(s: Bytes) {
    exists v :: WellFormed(v) && Text(v) == s
  }

  lemma WhiteIsNeat(s: Bytes)
    requires White(s)
    ensures Neat(s) && Run(Out, s) == Out && Mild(s)
  {
    FlatIsNeat(s);
  }

  lemma WordIsNeat(text: Bytes)
    requires IsWord(text)
    ensures Neat(text)
  {
    FlatIsNeat(text);
  }

  /** A comma or colon in front. */
  lemma DelimitedIsNeat(b: Byte, s: Bytes)
    requires (b == COMMA || b == COLON) && Neat(s)
    ensures Neat([b] + s) && Mild([b] + s)
  {
    FlatIsNeat([b]);
    NeatConcat([b], s);
  }

  lemma {:induction false} TextIsNeat(v: Value)
    requires WellFormed(v)
    ensures Neat(Text(v))
    decreases v
  {
    hide Neat, Mild, Run;
    match v {
      case Padded(before, inner, after) =>
        TextIsNeat(inner);
        WhiteIsNeat(before);
        WhiteIsNeat(after);
        NeatConcat(before, Text(inner));
        NeatConcat(before + Text(inner), after);
      case Word(text) =>
        WordIsNeat(text);
      case Str(content) =>
        QuotedIsNeat(content);
      case Arr(pad, items) =>
        ItemsAreNeat(items);
        WhiteIsNeat(pad);
        NeatConcat(pad, ItemsText(items));
        EnclosedIsNeat(LBRACKET, pad + ItemsText(items), RBRACKET);
      case Obj(pad, members) =>
        MembersAreNeat(members);
        WhiteIsNeat(pad);
        NeatConcat(pad, MembersText(members));
        EnclosedIsNeat(LBRACE, pad + MembersText(members), RBRACE);
    }
  }

  lemma {:induction false} ItemsAreNeat(items: seq<Value>)
    requires forall i :: 0 <= i < |items| ==> WellFormed(items[i])
    ensures Neat(ItemsText(items))
    decreases items
  {
    hide Neat, Mild;
    if items == [] {
      FlatIsNeat([]);
    } else {
      TextIsNeat(items[0]);
      if |items| > 1 {
        ItemsAreNeat(items[1..]);
        DelimitedIsNeat(COMMA, ItemsText(items[1..]));
        NeatConcat(Text(items[0]), [COMMA] + ItemsText(items[1..]));
      } else {
        assert ItemsText(items) == Text(items[0]);
      }
    }
  }

  lemma {:induction false} MembersAreNeat(members: seq<Member>)
    requires forall i :: 0 <= i < |members| ==> MemberOk(members[i])
    ensures Neat(MembersText(members))
    decreases members
  {
    hide Neat, Mild;
    if members == [] {
      FlatIsNeat([]);
    } else {
      MemberIsNeat(members[0]);
      if |members| > 1 {
        MembersAreNeat(members[1..]);
        DelimitedIsNeat(COMMA, MembersText(members[1..]));
        NeatConcat(MemberText(members[0]), [COMMA] + MembersText(members[1..]));
      } else {
        assert MembersText(members) == MemberText(members[0]);
      }
    }
  }

  lemma {:induction false} MemberIsNeat(m: Member)
    requires MemberOk(m)
    ensures Neat(MemberText(m))
    decreases m
  {
    hide Neat, Mild, Run;
    TextIsNeat(m.value);
    WhiteIsNeat(m.before);
    WhiteIsNeat(m.after);
    QuotedIsNeat(m.key);
    DelimitedIsNeat(COLON, Text(m.value));
    NeatConcat(m.before, Quoted(m.key));
    NeatConcat(m.before + Quoted(m.key), m.after);
    NeatConcat(m.before + Quoted(m.key) + m.after, [COLON] + Text(m.value));
    assert m.before + Quoted(m.key) + m.after + ([COLON] + Text(m.value)) == MemberText(m);
  }

  // Texts without control characters --------------------------------------------------------------

  lemma {:induction false} StringBytes(s: Bytes)
    requires StringOk(s)
    ensures Printable(s)
    decreases |s|
  {
    if s != [] {
      var n := if s[0] == BACKSLASH then 2 else 1;
      StringBytes(s[n..]);
      assert forall i :: n <= i < |s| ==> s[i] == s[n..][i - n];
    }
  }

  /** Written without white space. */
  predicate Unspaced(v: Value) {
    match v
    case Padded(_, _, _) => false
    case Word(_) => true
    case Str(_) => true
    case Arr(pad, items) => pad == [] && forall i :: 0 <= i < |items| ==> Unspaced(items[i])
    case Obj(pad, members) => pad == [] && forall i :: 0 <= i < |members| ==> UnspacedMember(members[i])
  }

  predicate UnspacedMember(m: Member) { m.before == [] && m.after == [] && Unspaced(m.value) }

  lemma {:induction false} UnspacedIsPrintable(v: Value)
    requires WellFormed(v) && Unspaced(v)
    ensures Printable(Text(v))
    decreases v
  {
    match v {
      case Word(text) =>
      case Str(content) => StringBytes(content);
      case Arr(pad, items) => ItemsArePrintable(items);
      case Obj(pad, members) => MembersArePrintable(members);
    }
  }

  lemma {:induction false} ItemsArePrintable(items: seq<Value>)
    requires forall i :: 0 <= i < |items| ==> WellFormed(items[i]) && Unspaced(items[i])
    ensures Printable(ItemsText(items))
    decreases items
  {
    if items != [] {
      UnspacedIsPrintable(items[0]);
      ItemsArePrintable(items[1..]);
    }
  }

  lemma {:induction false} MembersArePrintable(members: seq<Member>)
    requires forall i :: 0 <= i < |members| ==> MemberOk(members[i]) && UnspacedMember(members[i])
    ensures Printable(MembersText(members))
    decreases members
  {
    if members != [] {
      StringBytes(members[0].key);
      UnspacedIsPrintable(members[0].value);
      MembersArePrintable(members[1..]);
    }
  }

  // Ends of texts ---------------------------------------------------------------------------------

  lemma {:induction false} TextIsNotEmpty(v: Value)
    requires WellFormed(v)
    ensures Text(v) != []
  {
    if v.Padded? { TextIsNotEmpty(v.inner); }
  }

  /** White space, then an opening brace or bracket. */
  ghost predicate OpensFirst(s: Bytes) {
    exists n :: 0 <= n < |s| && White(s[..n]) && Opens(s[n])
  }

  /** What the first byte opened stays open up to byte e; after that there is only white space. */
  ghost predicate ClosesAt(s: Bytes, e: nat) {
    && 0 < e <= |s| && White(s[e..])
    && forall k :: 0 < k < e ==> Level(Out, s[..k]) >= 1
  }

  ghost predicate ClosesOnce(s: Bytes) { exists e :: ClosesAt(s, e) }

  lemma OpensHere(s: Bytes)
    requires s != [] && Opens(s[0])
    ensures OpensFirst(s)
  {
    assert s[..0] == [];
  }

  lemma WholeCloses(s: Bytes)
    requires s != [] && StaysOpen(s)
    ensures ClosesOnce(s)
  {
    assert ClosesAt(s, |s|);
  }

  lemma LastOf(a: Bytes, b: Bytes)
    ensures b != [] ==> (a + b)[|a + b| - 1] == b[|b| - 1]
  {
  }

  lemma HeadOf(a: Bytes, b: Bytes)
    ensures a != [] ==> (a + b)[0] == a[0]
  {
  }

  lemma PaddedEnds(before: Bytes, t: Bytes, after: Bytes)
    requires White(after) && t != []
    requires Closes((before + t + after)[|before + t + after| - 1])
    ensures after == [] && before + t + after == before + t && t[|t| - 1] == (before + t + after)[|before + t + after| - 1]
  {
    LastOf(before + t, after);
  }

  lemma PaddedOpens(before: Bytes, t: Bytes)
    requires White(before) && OpensFirst(t)
    ensures OpensFirst(before + t)
  {
    var s := before + t;
    var n :| 0 <= n < |t| && White(t[..n]) && Opens(t[n]);
    assert s[..|before| + n] == before + t[..n];
    assert Opens(s[|before| + n]);
  }

  lemma PaddedCloses(before: Bytes, t: Bytes, after: Bytes)
    requires White(before) && White(after) && t != [] && Opens((before + t + after)[0])
    ensures Opens(t[0])
    ensures ClosesOnce(t) ==> ClosesOnce(before + t + after)
  {
    var s := before + t + after;
    assert s == before + (t + after);
    HeadOf(before, t + after);
    assert before == [];
    if ClosesOnce(t) {
      var e: nat :| ClosesAt(t, e);
      assert s[e..] == t[e..] + after;
      forall k | 0 < k < e ensures Level(Out, s[..k]) >= 1 {
        assert s[..k] == t[..k];
      }
      assert ClosesAt(s, e);
    }
  }

  /** A text that ends in a closing byte opens first, and one that opens with its first byte
      closes what it opened only at its end. */
  lemma {:induction false} EndsMatch(v: Value)
    requires WellFormed(v) && Text(v) != []
    ensures Closes(Text(v)[|Text(v)| - 1]) ==> OpensFirst(Text(v))
    ensures Opens(Text(v)[0]) ==> ClosesOnce(Text(v))
  {
    hide Run, Level, Neat, MembersText, ItemsText, StaysOpen, OpensFirst, ClosesOnce;
    match v {
      case Padded(before, inner, after) =>
        TextIsNotEmpty(inner);
        EndsMatch(inner);
        hide Text, WellFormed;
        var t := Text(inner);
        if Closes((before + t + after)[|before + t + after| - 1]) {
          PaddedEnds(before, t, after);
          PaddedOpens(before, t);
        }
        if Opens((before + t + after)[0]) {
          PaddedCloses(before, t, after);
        }
      case Word(text) =>
      case Str(content) =>
      case Arr(pad, items) =>
        OpensHere(Text(v));
        ItemsAreNeat(items);
        WhiteIsNeat(pad);
        NeatConcat(pad, ItemsText(items));
        EnclosedIsNeat(LBRACKET, pad + ItemsText(items), RBRACKET);
        WholeCloses(Text(v));
      case Obj(pad, members) =>
        OpensHere(Text(v));
        MembersAreNeat(members);
        WhiteIsNeat(pad);
        NeatConcat(pad, MembersText(members));
        EnclosedIsNeat(LBRACE, pad + MembersText(members), RBRACE);
        WholeCloses(Text(v));
    }
  }

  predicate IsContainer(v: Value) { v.Obj? || v.Arr? }

  lemma ContainerText(v: Value)
    requires WellFormed(v) && IsContainer(v)
    ensures |Text(v)| >= 2 && Opens(Text(v)[0]) && Closes(Text(v)[|Text(v)| - 1])
    ensures Neat(Text(v)) && StaysOpen(Text(v))
  {
    hide Run, Level, Neat, StaysOpen, MembersText, ItemsText;
    TextIsNeat(v);
    match v {
      case Arr(pad, items) =>
        ItemsAreNeat(items);
        WhiteIsNeat(pad);
        NeatConcat(pad, ItemsText(items));
        EnclosedIsNeat(LBRACKET, pad + ItemsText(items), RBRACKET);
      case Obj(pad, members) =>
        MembersAreNeat(members);
        WhiteIsNeat(pad);
        NeatConcat(pad, MembersText(members));
        EnclosedIsNeat(LBRACE, pad + MembersText(members), RBRACE);
    }
  }

  lemma EmptyIsNotJson()
    ensures !IsJson([])
  {
    forall v | WellFormed(v) ensures Text(v) != [] { TextIsNotEmpty(v); }
  }

  lemma JsonIsNeat(s: Bytes)
    requires IsJson(s)
    ensures s != [] && Neat(s)
    ensures Closes(s[|s| - 1]) ==> OpensFirst(s)
    ensures Opens(s[0]) ==> ClosesOnce(s)
  {
    hide Run, Level, Neat, OpensFirst, ClosesOnce;
    var v :| WellFormed(v) && Text(v) == s;
    TextIsNotEmpty(v);
    TextIsNeat(v);
    EndsMatch(v);
  }

  // Pieces of a text ----------------------------------------------------------------------------------

  lemma CutFront(front: Bytes, rest: Bytes)
    requires Neat(front + rest) && StaysOpen(front + rest)
    requires front != [] && rest != []
    ensures !(Neat(rest) && OpensFirst(rest))
  {
    var s := front + rest;
    assert s[..|front|] == front;
    RunConcat(Out, front, rest);
    match Run(Out, front) {
      case Out =>
        hide Level;
        assert Level(Out, rest) < 0;
      case After =>
        AfterAgrees(rest);
        hide Level;
        assert Level(Out, rest) < 0;
      case In => Flipped(rest);
      case Esc =>
        BadStays(rest[1..]);
        assert Escapable(rest[0]);
        assert forall n :: 0 < n < |rest| ==> rest[..n][0] == rest[0];
      case Bad => BadStays(rest);
    }
  }

  /** Whatever is cut off the front of the text of an object or array, the rest is not JSON. */
  lemma NoSuffixIsJson(v: Value, k: nat)
    requires WellFormed(v) && IsContainer(v) && 0 < k <= |Text(v)|
    ensures !IsJson(Text(v)[k..])
  {
    hide Neat, StaysOpen, OpensFirst, WellFormed, Text, ClosesOnce;
    ContainerText(v);
    var front, rest := Text(v)[..k], Text(v)[k..];
    assert Text(v) == front + rest;
    if rest == [] {
      EmptyIsNotJson();
    } else {
      CutFront(front, rest);
      assert rest[|rest| - 1] == Text(v)[|Text(v)| - 1];
      if IsJson(rest) { JsonIsNeat(rest); }
    }
  }

  /** Nor is what remains when the end is missing. */
  lemma NoPrefixIsJson(v: Value, k: nat)
    requires WellFormed(v) && IsContainer(v) && k < |Text(v)|
    ensures !IsJson(Text(v)[..k])
  {
    hide Level, Run, WellFormed, Text, OpensFirst, ClosesOnce;
    ContainerText(v);
    if k == 0 {
      EmptyIsNotJson();
      assert Text(v)[..0] == [];
    } else if IsJson(Text(v)[..k]) {
      JsonIsNeat(Text(v)[..k]);
    }
  }

  // Pieces glued together -------------------------------------------------------------------------------

  /** A text whose first string does not look like the end of another one: read from inside a
      string it goes wrong just after its first quote. */
  ghost predicate Restarts(s: Bytes) {
    exists j :: RestartsAt(s, j)
  }

  predicate RestartsAt(s: Bytes, j: nat) {
    && j + 1 < |s| && s[j] == QUOTE && !IsWhite(s[j + 1]) && !Delimits(s[j + 1])
    && forall i :: 0 <= i < j ==> s[i] >= 32 && s[i] != QUOTE && s[i] != BACKSLASH
  }

  lemma {:induction false} FirstQuote(s: Bytes, j: nat, k: nat)
    requires RestartsAt(s, j) && k <= |s|
    ensures Level(In, s[..k]) == 0
    ensures Run(In, s[..k]) == if k <= j then In else if k == j + 1 then After else Bad
    decreases j
  {
    var t := s[..k];
    if k == 0 {
    } else if j == 0 {
      assert t[1..] == s[1..k];
      if k > 1 {
        assert t[1..][1..] == s[2..k];
        BadStays(s[2..k]);
        BadLevel(s[2..k]);
      }
    } else {
      assert t[1..] == s[1..][..k - 1];
      FirstQuote(s[1..], j - 1, k - 1);
    }
  }

  lemma {:induction false} BadLevel(s: Bytes)
    ensures Level(Bad, s) == 0
  {
    if s != [] { BadLevel(s[1..]); }
  }

  /** The text of an object or array fit to be a line of its own. */
  ghost predicate IsRecord(s: Bytes) {
    Restarts(s) && exists v :: WellFormed(v) && IsContainer(v) && Text(v) == s
  }

  lemma RecordText(s: Bytes)
    requires IsRecord(s)
    ensures |s| >= 2 && Opens(s[0]) && Closes(s[|s| - 1]) && Neat(s) && StaysOpen(s) && IsJson(s)
  {
    hide Neat, StaysOpen, WellFormed, Text;
    var v :| WellFormed(v) && IsContainer(v) && Text(v) == s;
    ContainerText(v);
  }

  /** Beyond repair, or with something left open. */
  ghost predicate Stuck(f: Bytes) { Run(Out, f) == Bad || Level(Out, f) >= 1 }

  /** Something was closed before the end, and something else begun. */
  ghost predicate Broken(f: Bytes) {
    exists k :: 0 < k < |f| && Level(Out, f[..k]) <= 0 && !IsWhite(f[k])
  }

  /** Glued pieces that no further piece can mend. */
  ghost predicate Jammed(f: Bytes) {
    f != [] && Opens(f[0]) && (Stuck(f) || Broken(f))
  }

  lemma ClosedIsNotBroken(f: Bytes)
    requires ClosesOnce(f)
    ensures !Broken(f)
  {
    var e: nat :| ClosesAt(f, e);
    forall k | 0 < k < |f| && Level(Out, f[..k]) <= 0 ensures IsWhite(f[k]) {
      assert f[e..][k - e] == f[k];
    }
  }

  lemma JammedIsNotJson(f: Bytes)
    requires Jammed(f)
    ensures !IsJson(f)
  {
    hide IsJson, Broken, ClosesOnce;
    if IsJson(f) {
      JsonIsNeat(f);
      ClosedIsNotBroken(f);
    }
  }

  lemma StuckGrows(f: Bytes, s: Bytes, k: nat)
    requires Stuck(f) && IsRecord(s) && 0 < k <= |s|
    ensures Stuck(f + s[..k])
  {
    hide IsRecord, Run, Level;
    var g := s[..k];
    RecordFront(s, k);
    RunConcat(Out, f, g);
    StuckInside(Run(Out, f), s, k);
  }

  lemma RecordFront(s: Bytes, k: nat)
    requires IsRecord(s) && 0 < k <= |s|
    ensures Opens(s[0]) && Level(Out, s[..k]) >= 0
  {
    hide IsRecord, Run, Level;
    RecordText(s);
  }

  /** Read from anywhere but the outside, the start of a record goes wrong or opens nothing. */
  lemma StuckInside(l: Lex, s: Bytes, k: nat)
    requires IsRecord(s) && Opens(s[0]) && 0 < k <= |s|
    ensures l.Out? || Run(l, s[..k]) == Bad || Level(l, s[..k]) == 0
    ensures l.Bad? ==> Run(l, s[..k]) == Bad
  {
    var g := s[..k];
    match l {
      case Out =>
      case Bad => BadStays(g);
      case After => BadStays(g[1..]);
      case Esc => BadStays(g[1..]);
      case In =>
        hide Run, Level;
        var j :| RestartsAt(s, j);
        FirstQuote(s, j, k);
    }
  }

  lemma BrokenGrows(f: Bytes, g: Bytes)
    requires Broken(f)
    ensures Broken(f + g)
  {
    var k :| 0 < k < |f| && Level(Out, f[..k]) <= 0 && !IsWhite(f[k]);
    assert (f + g)[..k] == f[..k] && (f + g)[k] == f[k];
  }

  lemma JammedGrows(f: Bytes, s: Bytes, k: nat)
    requires Jammed(f) && IsRecord(s) && 0 < k <= |s|
    ensures Jammed(f + s[..k])
  {
    hide Stuck, Broken, IsRecord;
    if Stuck(f) { StuckGrows(f, s, k); } else { BrokenGrows(f, s[..k]); }
  }

  /** One record, whole or cut short, and another one after it. */
  lemma GluedIsJammed(r: Bytes, i: nat, s: Bytes, k: nat)
    requires IsRecord(r) && IsRecord(s) && 0 < i <= |r| && 0 < k <= |s|
    ensures Jammed(r[..i] + s[..k])
  {
    RecordText(r);
    RecordText(s);
    if i < |r| {
      hide IsRecord;
      assert Stuck(r[..i]);
      hide Stuck, Broken;
      StuckGrows(r[..i], s, k);
    } else {
      hide IsRecord, Stuck;
      var f := r[..i] + s[..k];
      assert r[..i] == r && f[..i] == r && f[i] == s[0];
      assert Level(Out, f[..i]) <= 0 && !IsWhite(f[i]);
    }
  }
}
