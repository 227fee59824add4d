/** Timestamps as they are stored: UTC text in the form of section 5.6 of RFC 3339,
    cut to whole seconds. An instant is a number of nanoseconds counted from
    0000-01-01T00:00:00Z in the proleptic Gregorian calendar. */
module Rfc3339 {
  import opened Texts

  type Instant = int

  const SECOND := 1_000_000_000
  const DAY_SECONDS := 86400
  const HOUR := 3600 * SECOND

  /** The zero value of a Go time.Time: 0001-01-01T00:00:00Z (year 0 is a leap year). */
  const ZERO_TIME: Instant := 366 * DAY_SECONDS * SECOND

  // Calendar -------------------------------------------------------------------

  predicate Leap(y: nat) { y % 4 == 0 && (y % 100 != 0 || y % 400 == 0) }

  function YearDays(y: nat): nat { if Leap(y) then 366 else 365 }

  /** Days from 0000-01-01 to the first day of year y. */
  function YearStart(y: nat): nat {
    if y == 0 then 0 else YearStart(y - 1) + YearDays(y - 1)
  }

  /** Days of year y before month m; month 13 stands for the end of the year. */
  function MonthStart(y: nat, m: nat): nat
    requires 1 <= m <= 13
  {
    var leap := if Leap(y) then 1 else 0;
    if m == 1 then 0 else if m == 2 then 31
    else leap + (if m == 3 then 59 else if m == 4 then 90 else if m == 5 then 120
                 else if m == 6 then 151 else if m == 7 then 181 else if m == 8 then 212
                 else if m == 9 then 243 else if m == 10 then 273 else if m == 11 then 304
                 else if m == 12 then 334 else 365)
  }

  function MonthDays(y: nat, m: nat): nat
    requires 1 <= m <= 12
  {
    MonthStart(y, m + 1) - MonthStart(y, m)
  }

  datatype Date = Date(year: nat, month: nat, day: nat)

  predicate ValidDate(d: Date) {
    1 <= d.month <= 12 && 1 <= d.day <= MonthDays(d.year, d.month)
  }

  function DayNumber(d: Date): nat
    requires ValidDate(d)
  {
    YearStart(d.year) + MonthStart(d.year, d.month) + d.day - 1
  }

  /** The year holding the day that lies `days` after the start of year y. */
  function YearFrom(y: nat, days: nat): (r: nat)
    ensures y <= r
    ensures YearStart(r) <= YearStart(y) + days < YearStart(r + 1)
    decreases days
  {
    if days < YearDays(y) then y else YearFrom(y + 1, days - YearDays(y))
  }

  function MonthOf(y: nat, d: nat): (m: nat)
    requires d < YearDays(y)
    ensures 1 <= m <= 12 && MonthStart(y, m) <= d < MonthStart(y, m + 1)
  {
    if d < MonthStart(y, 2) then 1 else if d < MonthStart(y, 3) then 2
    else if d < MonthStart(y, 4) then 3 else if d < MonthStart(y, 5) then 4
    else if d < MonthStart(y, 6) then 5 else if d < MonthStart(y, 7) then 6
    else if d < MonthStart(y, 8) then 7 else if d < MonthStart(y, 9) then 8
    else if d < MonthStart(y, 10) then 9 else if d < MonthStart(y, 11) then 10
    else if d < MonthStart(y, 12) then 11 else 12
  }

  function DateOf(day: nat): (d: Date)
    ensures ValidDate(d) && DayNumber(d) == day
  {
    var y := YearFrom(0, day);
    var rest := day - YearStart(y);
    var m := MonthOf(y, rest);
    Date(y, m, rest - MonthStart(y, m) + 1)
  }

  lemma {:induction false} YearStartMonotone(a: nat, b: nat)
    requires a <= b
    ensures YearStart(a) <= YearStart(b)
    decreases b
  {
    if a < b { YearStartMonotone(a, b - 1); }
  }

  ghost predicate Earlier(a: Date, b: Date) {
    a.year < b.year || (a.year == b.year && (a.month < b.month ||
                        (a.month == b.month && a.day < b.day)))
  }

  /** The calendar is strictly increasing, so it is one-to-one on valid dates. */
  lemma DayNumberMonotone(a: Date, b: Date)
    requires ValidDate(a) && ValidDate(b)
    ensures Earlier(a, b) <==> DayNumber(a) < DayNumber(b)
    ensures a == b <==> DayNumber(a) == DayNumber(b)
  {
    if Earlier(a, b) { EarlierDayNumber(a, b); }
    if Earlier(b, a) { EarlierDayNumber(b, a); }
  }

  lemma EarlierDayNumber(a: Date, b: Date)
    requires ValidDate(a) && ValidDate(b) && Earlier(a, b)
    ensures DayNumber(a) < DayNumber(b)
  {
    if a.year < b.year {
      InYear(a);
      InYear(b);
      YearStartMonotone(a.year + 1, b.year);
    } else if a.month < b.month {
      LaterMonth(a.year, a.month, b.month);
    }
  }

  lemma LaterMonth(y: nat, m: nat, n: nat)
    requires 1 <= m < n <= 12
    ensures MonthStart(y, m + 1) <= MonthStart(y, n)
  {
  }

  // Digits ---------------------------------------------------------------------

  function Digit(n: nat): (c: char)
    requires n < 10
  {
    '0' + n as char
  }

  function Value(c: char): nat
    requires IsDigit(c)
  {
    (c - '0') as nat
  }

  predicate IsDigit(c: char) { '0' <= c <= '9' }

  function Power10(w: nat): nat { if w == 0 then 1 else 10 * Power10(w - 1) }

  /** The last w decimal digits of n, zero-padded. */
  function Pad(n: nat, w: nat): (s: string)
    ensures |s| == w
    ensures forall i :: 0 <= i < w ==> IsDigit(s[i])
  {
    if w == 0 then "" else Pad(n / 10, w - 1) + [Digit(n % 10)]
  }

  function Number(s: string): nat
    requires forall i :: 0 <= i < |s| ==> IsDigit(s[i])
  {
    if s == "" then 0 else 10 * Number(s[..|s| - 1]) + Value(s[|s| - 1])
  }

  lemma {:induction false} NumberOfPad(n: nat, w: nat)
    requires n < Power10(w)
    ensures Number(Pad(n, w)) == n
  {
    if w > 0 {
      NumberOfPad(n / 10, w - 1);
      assert Pad(n, w)[..w - 1] == Pad(n / 10, w - 1);
    }
  }

  lemma ByTens(a: nat, b: nat)
    ensures a < b <==> a / 10 < b / 10 || (a / 10 == b / 10 && a % 10 < b % 10)
  {
  }

  lemma OneChar(x: char, y: char)
    ensures Less([x], [y]) <==> x < y
  {
  }

  /** Padded numbers sort as the numbers do. */
  lemma {:induction false} PadOrder(a: nat, b: nat, w: nat)
    requires a < Power10(w) && b < Power10(w)
    ensures Less(Pad(a, w), Pad(b, w)) <==> a < b
    ensures Pad(a, w) == Pad(b, w) <==> a == b
  {
    hide Less;
    if w == 0 {
      LessIrreflexive("");
    } else {
      ByTens(a, b);
      PadOrder(a / 10, b / 10, w - 1);
      LessByField(Pad(a / 10, w - 1), Pad(b / 10, w - 1), [Digit(a % 10)], [Digit(b % 10)]);
      OneChar(Digit(a % 10), Digit(b % 10));
      var p, q := Pad(a / 10, w - 1), Pad(b / 10, w - 1);
      assert Pad(a, w) == p + [Digit(a % 10)] && Pad(b, w) == q + [Digit(b % 10)];
      assert Pad(a, w)[..w - 1] == p && Pad(b, w)[..w - 1] == q;
    }
  }

  lemma Powers()
    ensures Power10(2) == 100 && Power10(4) == 10000
  {
    assert Power10(1) == 10 && Power10(2) == 100 && Power10(3) == 1000;
  }

  /** Years are written with at least four digits. */
  function YearText(y: nat): (s: string)
    ensures forall i :: 0 <= i < |s| ==> IsDigit(s[i])
    ensures if y < 10000 then |s| == 4 else |s| > 4
  {
    if y < 10000 then Pad(y, 4) else YearText(y / 10) + [Digit(y % 10)]
  }

  // Text -----------------------------------------------------------------------

  /** An instant cut to whole seconds. */
  function Seconds(t: Instant): int { t / SECOND }
  function Floor(t: Instant): Instant { Seconds(t) * SECOND }

  datatype Clock = Clock(date: Date, hour: nat, minute: nat, second: nat)

  ghost predicate ValidClock(c: Clock) {
    ValidDate(c.date) && c.hour < 24 && c.minute < 60 && c.second < 60
  }

  function ClockOf(t: Instant): (c: Clock)
    requires 0 <= t
    ensures ValidClock(c) && SecondNumber(c) == Seconds(t)
  {
    var s := Seconds(t);
    var r := s % DAY_SECONDS;
    TimeOfDay(r);
    Clock(DateOf(s / DAY_SECONDS), r / 3600, r / 60 % 60, r % 60)
  }

  lemma TimeOfDay(r: nat)
    requires r < DAY_SECONDS
    ensures r / 3600 < 24
    ensures r == r / 3600 * 3600 + r / 60 % 60 * 60 + r % 60
  {
    assert r / 3600 == r / 60 / 60;
  }

  function SecondNumber(c: Clock): nat
    requires ValidDate(c.date)
  {
    DayNumber(c.date) * DAY_SECONDS + c.hour * 3600 + c.minute * 60 + c.second
  }

  function FieldText(sep: char, n: nat, rest: string): (s: string)
    ensures |s| == 3 + |rest|
  {
    [sep] + Pad(n, 2) + rest
  }

  function TimeText(c: Clock): (s: string)
    ensures |s| == 10
  {
    FieldText('T', c.hour, FieldText(':', c.minute, FieldText(':', c.second, "Z")))
  }

  function ClockText(c: Clock): string {
    YearText(c.date.year) + FieldText('-', c.date.month, FieldText('-', c.date.day, TimeText(c)))
  }

  /** t.UTC().Format(time.RFC3339) for instants from year 0 on. */
  function Format(t: Instant): string
    requires 0 <= t
  {
    ClockText(ClockOf(t))
  }

  /** The start of year 10000. */
  const END_OF_RANGE: Instant := 3_652_425 * DAY_SECONDS * SECOND

  /** Years 0 to 9999, the range of section 1 of RFC 3339. */
  predicate InRange(t: Instant) { 0 <= t < END_OF_RANGE }

  lemma DivideBy4(x: nat)
    ensures (x + 4) / 4 == (x + 3) / 4 + if x % 4 == 0 then 1 else 0
  {
  }

  lemma DivideBy100(x: nat)
    ensures (x + 100) / 100 == (x + 99) / 100 + if x % 100 == 0 then 1 else 0
  {
  }

  lemma DivideBy400(x: nat)
    ensures (x + 400) / 400 == (x + 399) / 400 + if x % 400 == 0 then 1 else 0
  {
  }

  lemma {:induction false} HundredsAreFours(x: nat)
    requires x % 100 == 0
    ensures x % 4 == 0
  {
    if x >= 100 { HundredsAreFours(x - 100); }
  }

  lemma {:induction false} FourHundredsAreHundreds(x: nat)
    requires x % 400 == 0
    ensures x % 100 == 0
  {
    if x >= 400 { FourHundredsAreHundreds(x - 400); }
  }

  lemma Multiples(x: nat)
    ensures x % 400 == 0 ==> x % 100 == 0
    ensures x % 100 == 0 ==> x % 4 == 0
  {
    if x % 400 == 0 { FourHundredsAreHundreds(x); }
    if x % 100 == 0 { HundredsAreFours(x); }
  }

  lemma {:induction false} YearStartInClosedForm(y: nat)
    ensures YearStart(y) == 365 * y + (y + 3) / 4 - (y + 99) / 100 + (y + 399) / 400
  {
    if y > 0 {
      YearStartInClosedForm(y - 1);
      DivideBy4(y - 1);
      DivideBy100(y - 1);
      DivideBy400(y - 1);
      Multiples(y - 1);
    }
  }

  lemma TenThousandYears()
    ensures YearStart(10000) == 3_652_425
  {
    YearStartInClosedForm(10000);
  }

  lemma InRangeYears(t: Instant)
    requires 0 <= t
    ensures InRange(t) <==> ClockOf(t).date.year < 10000
  {
    var d := ClockOf(t).date;
    assert DayNumber(d) == Seconds(t) / DAY_SECONDS;
    InYear(d);
    TenThousandYears();
    hide MonthStart, YearStart, DayNumber, ValidDate;
    if d.year < 10000 {
      YearStartMonotone(d.year + 1, 10000);
    } else {
      YearStartMonotone(10000, d.year);
    }
  }

  lemma InYear(d: Date)
    requires ValidDate(d)
    ensures YearStart(d.year) <= DayNumber(d) < YearStart(d.year + 1)
  {
    assert MonthStart(d.year, d.month + 1) <= YearDays(d.year);
  }

  ghost predicate ClockBefore(a: Clock, b: Clock) {
    Earlier(a.date, b.date) || (a.date == b.date && (a.hour < b.hour ||
    (a.hour == b.hour && (a.minute < b.minute ||
    (a.minute == b.minute && a.second < b.second)))))
  }

  lemma ClockMonotone(a: Clock, b: Clock)
    requires ValidClock(a) && ValidClock(b)
    ensures ClockBefore(a, b) <==> SecondNumber(a) < SecondNumber(b)
    ensures a == b <==> SecondNumber(a) == SecondNumber(b)
  {
    DayNumberMonotone(a.date, b.date);
  }

  lemma FieldOrder(sep: char, m: nat, n: nat, x: string, y: string)
    requires m < 100 && n < 100
    ensures Less(FieldText(sep, m, x), FieldText(sep, n, y)) <==> m < n || (m == n && Less(x, y))
    ensures FieldText(sep, m, x) == FieldText(sep, n, y) <==> m == n && x == y
  {
    Powers();
    PadOrder(m, n, 2);
    LessByField([sep], [sep], Pad(m, 2), Pad(n, 2));
    LessByField([sep] + Pad(m, 2), [sep] + Pad(n, 2), x, y);
    assert FieldText(sep, m, x)[1..3] == Pad(m, 2) && FieldText(sep, n, y)[1..3] == Pad(n, 2);
    assert FieldText(sep, m, x)[3..] == x && FieldText(sep, n, y)[3..] == y;
  }

  lemma TimeTextOrder(a: Clock, b: Clock)
    requires ValidClock(a) && ValidClock(b)
    ensures Less(TimeText(a), TimeText(b)) <==>
            a.hour < b.hour || (a.hour == b.hour && (a.minute < b.minute ||
            (a.minute == b.minute && a.second < b.second)))
    ensures TimeText(a) == TimeText(b) <==>
            a.hour == b.hour && a.minute == b.minute && a.second == b.second
  {
    LessIrreflexive("Z");
    var a1, b1 := FieldText(':', a.second, "Z"), FieldText(':', b.second, "Z");
    FieldOrder(':', a.second, b.second, "Z", "Z");
    FieldOrder(':', a.minute, b.minute, a1, b1);
    FieldOrder('T', a.hour, b.hour, FieldText(':', a.minute, a1), FieldText(':', b.minute, b1));
  }

  lemma ClockTextOrder(a: Clock, b: Clock)
    requires ValidClock(a) && ValidClock(b) && a.date.year < 10000 && b.date.year < 10000
    ensures Less(ClockText(a), ClockText(b)) <==> ClockBefore(a, b)
  {
    hide Less, FieldText, TimeText;
    var a1, b1 := FieldText('-', a.date.day, TimeText(a)), FieldText('-', b.date.day, TimeText(b));
    var a2, b2 := FieldText('-', a.date.month, a1), FieldText('-', b.date.month, b1);
    TimeTextOrder(a, b);
    FieldOrder('-', a.date.day, b.date.day, TimeText(a), TimeText(b));
    FieldOrder('-', a.date.month, b.date.month, a1, b1);
    Powers();
    PadOrder(a.date.year, b.date.year, 4);
    LessByField(YearText(a.date.year), YearText(b.date.year), a2, b2);
  }

  /** Section 5.1 of RFC 3339: UTC texts of years 0 to 9999 sort as time does, at the
      resolution of one second. */
  lemma FormatSortsAsTime(a: Instant, b: Instant)
    requires InRange(a) && InRange(b)
    ensures Less(Format(a), Format(b)) <==> Seconds(a) < Seconds(b)
    ensures Format(a) == Format(b) <==> Seconds(a) == Seconds(b)
  {
    var x, y := ClockOf(a), ClockOf(b);
    InRangeYears(a);
    InRangeYears(b);
    hide InRange;
    ClockTextOrder(x, y);
    ClockTextOrder(y, x);
    ClockMonotone(x, y);
    ClockMonotone(y, x);
    LessTotal(Format(a), Format(b));
    LessIrreflexive(Format(a));
  }

  // Parsing --------------------------------------------------------------------

  predicate Digits(s: string, from: nat, n: nat) {
    from + n <= |s| && forall i :: from <= i < from + n ==> IsDigit(s[i])
  }

  function Field(s: string, from: nat, n: nat): nat
    requires Digits(s, from, n)
  {
    Number(s[from..from + n])
  }

  /** The local date and time that opens a text, if it is well formed and in range. */
  function ClockIn(s: string): (r: Option<Clock>)
    ensures r.Some? ==> ValidClock(r.value) && |s| >= 20
  {
    if !(|s| >= 20
         && Digits(s, 0, 4) && s[4] == '-' && Digits(s, 5, 2) && s[7] == '-' && Digits(s, 8, 2)
         && s[10] == 'T' && Digits(s, 11, 2) && s[13] == ':' && Digits(s, 14, 2) && s[16] == ':'
         && Digits(s, 17, 2)) then None
    else
      var c := Clock(Date(Field(s, 0, 4), Field(s, 5, 2), Field(s, 8, 2)),
                     Field(s, 11, 2), Field(s, 14, 2), Field(s, 17, 2));
      if ValidDate(c.date) && c.hour < 24 && c.minute < 60 && c.second < 60 then Some(c) else None
  }

  /** time.Parse(time.RFC3339, s): a full date and time with either Z or a numeric offset. */
  function Parse(s: string): Option<Instant> {
    match ClockIn(s)
    case None => None
    case Some(c) =>
      match Offset(s[19..])
      case None => None
      case Some(o) => Some((SecondNumber(c) - o) * SECOND)
  }

  function Offset(z: string): Option<int> {
    if z == "Z" then Some(0)
    else if |z| == 6 && z[0] in {'+', '-'} && Digits(z, 1, 2) && z[3] == ':' && Digits(z, 4, 2)
            && Field(z, 1, 2) < 24 && Field(z, 4, 2) < 60 then
      var o := (Field(z, 1, 2) * 60 + Field(z, 4, 2)) * 60;
      Some(if z[0] == '-' then -o else o)
    else None
  }

  lemma ClockTextLayout(c: Clock)
    requires c.date.year < 10000
    ensures var s := ClockText(c);
      && |s| == 20 && s[4] == '-' && s[7] == '-' && s[10] == 'T' && s[13] == ':' && s[16] == ':'
      && s[19..] == "Z"
      && s[0..4] == Pad(c.date.year, 4) && s[5..7] == Pad(c.date.month, 2)
      && s[8..10] == Pad(c.date.day, 2) && s[11..13] == Pad(c.hour, 2)
      && s[14..16] == Pad(c.minute, 2) && s[17..19] == Pad(c.second, 2)
  {
  }

  lemma DigitsOf(s: string, from: nat, n: nat, w: nat)
    requires from + w <= |s| && s[from..from + w] == Pad(n, w) && n < Power10(w)
    ensures Digits(s, from, w) && Field(s, from, w) == n
  {
    NumberOfPad(n, w);
    forall i | from <= i < from + w ensures IsDigit(s[i]) {
      assert s[i] == s[from..from + w][i - from];
    }
  }

  lemma ClockInText(c: Clock)
    requires ValidClock(c) && c.date.year < 10000
    ensures ClockIn(ClockText(c)) == Some(c)
  {
    hide ClockText, Pad, Number;
    var s := ClockText(c);
    ClockTextLayout(c);
    Powers();
    DigitsOf(s, 0, c.date.year, 4);
    DigitsOf(s, 5, c.date.month, 2);
    assert c.date.day < 100;
    DigitsOf(s, 8, c.date.day, 2);
    DigitsOf(s, 11, c.hour, 2);
    DigitsOf(s, 14, c.minute, 2);
    DigitsOf(s, 17, c.second, 2);
  }

  lemma ParseUtc(s: string, c: Clock)
    requires ClockIn(s) == Some(c) && s[19..] == "Z"
    ensures Parse(s) == Some(SecondNumber(c) * SECOND)
  {
  }

  lemma ParseInRange(t: Instant)
    requires InRange(t)
    ensures Parse(Format(t)) == Some(Floor(t))
  {
    var c := ClockOf(t);
    InRangeYears(t);
    hide InRange;
    ClockInText(c);
    ClockTextLayout(c);
    ParseUtc(ClockText(c), c);
  }

  /** From year 10000 on there is a digit where the first hyphen should be. */
  lemma LongYearIsUnread(y: nat, rest: string)
    requires y >= 10000
    ensures ClockIn(YearText(y) + rest) == None
  {
    assert (YearText(y) + rest)[4] == YearText(y)[4];
  }

  /** What is stored is read back as the instant cut to whole seconds, exactly in the range. */
  lemma ParseOfFormat(t: Instant)
    requires 0 <= t
    ensures Parse(Format(t)) == if InRange(t) then Some(Floor(t)) else None
  {
    if InRange(t) {
      ParseInRange(t);
    } else {
      InRangeYears(t);
      var c := ClockOf(t);
      LongYearIsUnread(c.date.year, FieldText('-', c.date.month, FieldText('-', c.date.day, TimeText(c))));
    }
  }

  /** The first four digits of a year's text. */
  function LeadingDigits(y: nat): nat { if y < 10000 then y else LeadingDigits(y / 10) }

  lemma {:induction false} LeadingDigitsOf(y: nat)
    ensures LeadingDigits(y) < 10000 && YearText(y)[..4] == Pad(LeadingDigits(y), 4)
  {
    if y >= 10000 {
      LeadingDigitsOf(y / 10);
      assert YearText(y)[..4] == YearText(y / 10)[..4];
    }
  }

  lemma HyphenFirst(x: string, y: string)
    requires x != "" && y != "" && x[0] == '-' && IsDigit(y[0])
    ensures Less(x, y)
  {
  }

  lemma YearOrder(short: nat, x: string, long: nat, y: string)
    requires short < 10000 <= long && x != "" && x[0] == '-'
    ensures Less(YearText(short) + x, YearText(long) + y) <==> short <= LeadingDigits(long)
  {
    LeadingDigitsOf(long);
    hide LeadingDigits;
    var head, tail := YearText(long)[..4], YearText(long)[4..] + y;
    assert YearText(long) + y == head + tail;
    assert tail[0] == YearText(long)[4];
    HyphenFirst(x, tail);
    hide Less;
    Powers();
    PadOrder(short, LeadingDigits(long), 4);
    LessByField(YearText(short), head, x, tail);
  }

  /** Across the end of the range the text order is that of time exactly if the year before
      is at most the first four digits of the year after. */
  lemma LongYearOrder(u: Instant, t: Instant)
    requires InRange(u) && t >= END_OF_RANGE
    ensures u < t
    ensures Less(Format(u), Format(t)) <==> ClockOf(u).date.year <= LeadingDigits(ClockOf(t).date.year)
  {
    InRangeYears(u);
    InRangeYears(t);
    hide InRange, LeadingDigits, YearText, Less;
    var c, d := ClockOf(u), ClockOf(t);
    YearOrder(c.date.year, FieldText('-', c.date.month, FieldText('-', c.date.day, TimeText(c))),
              d.date.year, FieldText('-', d.date.month, FieldText('-', d.date.day, TimeText(d))));
  }
}
