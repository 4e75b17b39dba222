/** Job ids (rust/agentware-kei/src/jobs.rs): the UTC wall clock to the second and a
    sequence number modulo 10000. Two ids are equal exactly when both parts are. */
module JobId {
  import opened Civil

  function Digit(d: nat): char
    requires d < 10
  {
    ['0', '1', '2', '3', '4', '5', '6', '7', '8', '9'][d]
  }

  /** A decimal number padded with zeros to a width; a longer number keeps its digits. */
  function Padded(n: nat, width: nat): string
    decreases n, width
  {
    if n < 10 && width <= 1 then [Digit(n)]
    else Padded(n / 10, if width == 0 then 0 else width - 1) + [Digit(n % 10)]
  }

  function DigitValue(c: char): nat {
    if '0' <= c <= '9' then c as int - '0' as int else 0
  }

  function Value(s: string): nat {
    if s == [] then 0 else Value(s[..|s| - 1]) * 10 + DigitValue(s[|s| - 1])
  }

  lemma {:induction false} PaddedBack(n: nat, width: nat)
    ensures Value(Padded(n, width)) == n
    decreases n, width
  {
    var s := Padded(n, width);
    if n < 10 && width <= 1 {
      assert s[..0] == [];
    } else {
      var w := if width == 0 then 0 else width - 1;
      PaddedBack(n / 10, w);
      assert s[..|s| - 1] == Padded(n / 10, w);
    }
  }

  lemma {:induction false} PaddedLength(n: nat, width: nat)
    requires (width == 2 && n < 100) || (width == 4 && n < 10_000) || (width == 1 && n < 10) || (width == 3 && n < 1000)
    ensures |Padded(n, width)| == width
  {
    if width > 1 { PaddedLength(n / 10, width - 1); }
  }

  function Format(year: nat, month: nat, day: nat, hour: nat, minute: nat, second: nat, number: nat): string {
    Padded(year, 4) + (Padded(month, 2) + Padded(day, 2)) + (Padded(hour, 2) + Padded(minute, 2))
    + (Padded(second, 2) + ['-']) + Padded(number, 4)
  }

  lemma {:induction false} DatesSince1970(n: nat)
    ensures DateAt(n).year >= 1970
  {
    if n > 0 { DatesSince1970(n - 1); }
  }

  lemma DateSinceEpoch(days: nat)
    ensures var d := CivilDate(days); d.year >= 1970 && ValidDate(d)
  {
    CivilDateIsCalendar(days);
    DatesSince1970(days);
  }

  /** The id made at a time in seconds since the epoch with a value of the counter. */
  function Generate(secs: nat, id: nat): string {
    DateSinceEpoch(secs / 86_400);
    var t := FromDaysAndSeconds(secs / 86_400, secs % 86_400);
    Format(t.date.year, t.date.month, t.date.day, t.hour, t.minute, t.second, id % 10_000)
  }

  /** Equal joins with equally long second parts have equal parts. */
  lemma JoinInjective(a: string, b: string, x: string, y: string)
    requires a + x == b + y && |x| == |y|
    ensures a == b && x == y
  {
    assert a == (a + x)[..|a|] && b == (b + y)[..|b|] && x == (a + x)[|a|..] && y == (b + y)[|b|..];
  }

  lemma PaddedInjective(a: nat, b: nat, width: nat)
    requires Padded(a, width) == Padded(b, width)
    ensures a == b
  {
    PaddedBack(a, width);
    PaddedBack(b, width);
  }

  lemma TwoInjective(a: nat, b: nat, a': nat, b': nat)
    requires b < 100 && b' < 100 && Padded(a, 2) + Padded(b, 2) == Padded(a', 2) + Padded(b', 2)
    ensures a == a' && b == b'
  {
    PaddedLength(b, 2);
    PaddedLength(b', 2);
    JoinInjective(Padded(a, 2), Padded(a', 2), Padded(b, 2), Padded(b', 2));
    PaddedInjective(a, a', 2);
    PaddedInjective(b, b', 2);
  }

  lemma LastInjective(a: nat, a': nat)
    requires Padded(a, 2) + ['-'] == Padded(a', 2) + ['-']
    ensures a == a'
  {
    JoinInjective(Padded(a, 2), Padded(a', 2), ['-'], ['-']);
    PaddedInjective(a, a', 2);
  }

  lemma TwoLength(a: nat, b: nat)
    requires a < 100 && b < 100
    ensures |Padded(a, 2) + Padded(b, 2)| == 4 && |Padded(a, 2) + ['-']| == 3
  {
    PaddedLength(a, 2);
    PaddedLength(b, 2);
  }

  datatype Fields = Fields(year: nat, month: nat, day: nat, hour: nat, minute: nat, second: nat, number: nat)

  predicate Small(f: Fields) {
    f.month < 100 && f.day < 100 && f.hour < 100 && f.minute < 100 && f.second < 100 && f.number < 10_000
  }

  function FormatFields(f: Fields): string {
    Format(f.year, f.month, f.day, f.hour, f.minute, f.second, f.number)
  }

  /** The text determines the fields, whatever number of digits the year has. */
  lemma FormatInjective(f: Fields, g: Fields)
    requires Small(f) && Small(g) && FormatFields(f) == FormatFields(g)
    ensures f == g
  {
    PaddedLength(f.number, 4);
    PaddedLength(g.number, 4);
    TwoLength(f.second, f.second);
    TwoLength(g.second, g.second);
    TwoLength(f.hour, f.minute);
    TwoLength(g.hour, g.minute);
    TwoLength(f.month, f.day);
    TwoLength(g.month, g.day);
    Peel(f, g);
    PaddedInjective(f.year, g.year, 4);
    TwoInjective(f.month, f.day, g.month, g.day);
    TwoInjective(f.hour, f.minute, g.hour, g.minute);
    LastInjective(f.second, g.second);
    PaddedInjective(f.number, g.number, 4);
  }

  function DatePart(f: Fields): string {
    Padded(f.month, 2) + Padded(f.day, 2)
  }

  function ClockPart(f: Fields): string {
    Padded(f.hour, 2) + Padded(f.minute, 2)
  }

  function SecondPart(f: Fields): string {
    Padded(f.second, 2) + ['-']
  }

  lemma Peel(f: Fields, g: Fields)
    requires FormatFields(f) == FormatFields(g)
    requires |Padded(f.number, 4)| == |Padded(g.number, 4)| && |SecondPart(f)| == |SecondPart(g)|
    requires |ClockPart(f)| == |ClockPart(g)| && |DatePart(f)| == |DatePart(g)|
    ensures Padded(f.number, 4) == Padded(g.number, 4) && SecondPart(f) == SecondPart(g)
    ensures ClockPart(f) == ClockPart(g) && DatePart(f) == DatePart(g) && Padded(f.year, 4) == Padded(g.year, 4)
  {
    var a, b := Padded(f.year, 4) + DatePart(f), Padded(g.year, 4) + DatePart(g);
    JoinInjective(a + ClockPart(f) + SecondPart(f), b + ClockPart(g) + SecondPart(g),
                  Padded(f.number, 4), Padded(g.number, 4));
    JoinInjective(a + ClockPart(f), b + ClockPart(g), SecondPart(f), SecondPart(g));
    JoinInjective(a, b, ClockPart(f), ClockPart(g));
    JoinInjective(Padded(f.year, 4), Padded(g.year, 4), DatePart(f), DatePart(g));
  }

  /** Two job ids are equal exactly when they were made in the same second with counters
      that agree modulo 10000. */
  lemma SameIdExactly(secs: nat, id: nat, secs': nat, id': nat)
    ensures Generate(secs, id) == Generate(secs', id') <==> secs == secs' && id % 10_000 == id' % 10_000
  {
    if Generate(secs, id) == Generate(secs', id') {
      var f, g := FieldsOf(secs, id), FieldsOf(secs', id');
      FormatInjective(f, g);
      SameSecond(secs, id, secs', id');
    }
  }

  function FieldsOf(secs: nat, id: nat): (f: Fields)
    ensures Small(f) && FormatFields(f) == Generate(secs, id)
  {
    DateSinceEpoch(secs / 86_400);
    TimeFieldsRecombine(secs % 86_400);
    var t := FromDaysAndSeconds(secs / 86_400, secs % 86_400);
    Fields(t.date.year, t.date.month, t.date.day, t.hour, t.minute, t.second, id % 10_000)
  }

  lemma SameSecond(secs: nat, id: nat, secs': nat, id': nat)
    requires FieldsOf(secs, id) == FieldsOf(secs', id')
    ensures secs == secs'
  {
    var days, days' := secs / 86_400, secs' / 86_400;
    TimeFieldsRecombine(secs % 86_400);
    TimeFieldsRecombine(secs' % 86_400);
    DateSinceEpoch(days);
    DateSinceEpoch(days');
    CivilDateInverted(days);
    CivilDateInverted(days');
    assert CivilDate(days) == CivilDate(days');
  }

  /** The text reads, from its end: four digits of the counter, a hyphen, two digits each of
      second, minute, hour, day and month, and before them the year in four digits or more. */
  ghost predicate Reads(s: string, f: Fields) {
    ReadsAs(s, f, Value)
  }

  ghost predicate ReadsAs(s: string, f: Fields, value: string -> nat) {
    var n := |s| - 15;
    && n >= 4 && value(s[..n]) == f.year && value(s[n..n + 2]) == f.month && value(s[n + 2..n + 4]) == f.day
    && value(s[n + 4..n + 6]) == f.hour && value(s[n + 6..n + 8]) == f.minute
    && value(s[n + 8..n + 10]) == f.second && s[n + 10] == '-' && value(s[n + 11..]) == f.number
  }

  lemma Slices(y: string, mo: string, d: string, h: string, mi: string, sec: string, num: string, s: string)
    requires |mo| == |d| == |h| == |mi| == |sec| == 2 && |num| == 4
    requires s == y + (mo + d) + (h + mi) + (sec + ['-']) + num
    ensures var n := |y|;
            && |s| == n + 15 && s[..n] == y && s[n..n + 2] == mo && s[n + 2..n + 4] == d
            && s[n + 4..n + 6] == h && s[n + 6..n + 8] == mi && s[n + 8..n + 10] == sec
            && s[n + 10] == '-' && s[n + 11..] == num
  {
  }

  lemma PaddedField(n: nat, width: nat)
    requires (width == 2 && n < 100) || (width == 4 && n < 10_000)
    ensures |Padded(n, width)| == width && Value(Padded(n, width)) == n
  {
    PaddedLength(n, width);
    PaddedBack(n, width);
  }

  lemma FormatReads(f: Fields)
    requires Small(f)
    ensures Reads(FormatFields(f), f)
  {
    PaddedAtLeast(f.year, 4);
    PaddedBack(f.year, 4);
    PaddedField(f.month, 2);
    PaddedField(f.day, 2);
    PaddedField(f.hour, 2);
    PaddedField(f.minute, 2);
    PaddedField(f.second, 2);
    PaddedField(f.number, 4);
    PartsRead(f, Value, Padded(f.year, 4), Padded(f.month, 2), Padded(f.day, 2), Padded(f.hour, 2),
              Padded(f.minute, 2), Padded(f.second, 2), Padded(f.number, 4), FormatFields(f));
  }

  lemma PartsRead(f: Fields, value: string -> nat, y: string, mo: string, d: string, h: string, mi: string,
                  sec: string, num: string, s: string)
    requires |mo| == |d| == |h| == |mi| == |sec| == 2 && |num| == 4 && |y| >= 4
    requires s == y + (mo + d) + (h + mi) + (sec + ['-']) + num
    requires value(y) == f.year && value(mo) == f.month && value(d) == f.day && value(h) == f.hour
    requires value(mi) == f.minute && value(sec) == f.second && value(num) == f.number
    ensures ReadsAs(s, f, value)
  {
    Slices(y, mo, d, h, mi, sec, num, s);
  }

  lemma {:induction false} PaddedAtLeast(n: nat, width: nat)
    ensures |Padded(n, width)| >= width
    decreases n, width
  {
    if n >= 10 || width > 1 { PaddedAtLeast(n / 10, if width == 0 then 0 else width - 1); }
  }

  /** The id made in a second reads the calendar date and the time of day of that second, and
      the counter modulo 10000. */
  lemma IdReads(secs: nat, id: nat) returns (f: Fields)
    ensures Reads(Generate(secs, id), f) && f.number == id % 10_000
    ensures Date(f.year, f.month, f.day) == DateAt(secs / 86_400)
    ensures f.hour * 3600 + f.minute * 60 + f.second == secs % 86_400 && f.minute < 60 && f.second < 60
  {
    f := FieldsOf(secs, id);
    FormatReads(f);
    CivilDateIsCalendar(secs / 86_400);
    TimeFieldsRecombine(secs % 86_400);
  }
}
