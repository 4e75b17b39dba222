/** The closed-form conversion from days since 1970-01-01 to a civil date
    (rust/agentware-kei/src/jobs.rs), proved equal to a calendar that counts one day at
    a time, for every day number, negative ones included. */
module Civil {

  datatype Date = Date(year: int, month: int, day: int)

  datatype CivilTime = CivilTime(date: Date, hour: nat, minute: nat, second: nat)

  // ---- The reference: the proleptic Gregorian calendar of ISO 8601, day by day ----

  predicate Leap(year: int) {
    year % 4 == 0 && (year % 100 != 0 || year % 400 == 0)
  }

  function DaysInMonth(year: int, month: int): int
    requires 1 <= month <= 12
  {
    if month == 2 then (if Leap(year) then 29 else 28)
    else if month in {4, 6, 9, 11} then 30
    else 31
  }

  predicate ValidDate(d: Date) {
    1 <= d.month <= 12 && 1 <= d.day <= DaysInMonth(d.year, d.month)
  }

  function NextDay(d: Date): (r: Date)
    requires ValidDate(d)
    ensures ValidDate(r)
  {
    if d.day < DaysInMonth(d.year, d.month) then Date(d.year, d.month, d.day + 1)
    else if d.month < 12 then Date(d.year, d.month + 1, 1)
    else Date(d.year + 1, 1, 1)
  }

  function PreviousDay(d: Date): (r: Date)
    requires ValidDate(d)
    ensures ValidDate(r) && NextDay(r) == d
  {
    if d.day > 1 then Date(d.year, d.month, d.day - 1)
    else if d.month > 1 then Date(d.year, d.month - 1, DaysInMonth(d.year, d.month - 1))
    else Date(d.year - 1, 12, 31)
  }

  /** The date n days after (before, when n is negative) 1970-01-01, one day at a time. */
  ghost function DateAt(n: int): (d: Date)
    ensures ValidDate(d)
    decreases if n < 0 then -n else n
  {
    if n == 0 then Date(1970, 1, 1)
    else if n > 0 then NextDay(DateAt(n - 1))
    else PreviousDay(DateAt(n + 1))
  }

  // ---- The code ----

  /** Integer division as Rust has it: truncated toward zero. */
  function TruncDiv(a: int, b: int): int
    requires b > 0
  {
    if a >= 0 then a / b else -((-a) / b)
  }

  function Era(z: int): int {
    TruncDiv(if z >= 0 then z else z - 146_096, 146_097)
  }

  function YearOfEra(doe: int): int {
    TruncDiv(doe - TruncDiv(doe, 1460) + TruncDiv(doe, 36_524) - TruncDiv(doe, 146_096), 365)
  }

  function DayOfYear(doe: int, yoe: int): int {
    doe - (365 * yoe + TruncDiv(yoe, 4) - TruncDiv(yoe, 100))
  }

  /** The date of the doy-th day of a year of the era. */
  function FromDayOfYear(era: int, yoe: int, doy: int): Date {
    var year := yoe + era * 400;
    var mp := TruncDiv(5 * doy + 2, 153);
    var day := doy - TruncDiv(153 * mp + 2, 5) + 1;
    var month := if mp < 10 then mp + 3 else mp - 9;
    Date(if month <= 2 then year + 1 else year, month, day)
  }

  function CivilDate(days: int): Date {
    var z := days + 719_468;
    var era := Era(z);
    var doe := z - era * 146_097;
    var yoe := YearOfEra(doe);
    FromDayOfYear(era, yoe, DayOfYear(doe, yoe))
  }

  const U32: nat := 0x1_0000_0000

  /** Hour, minute and second of the day; the casts to 32 bits are explicit. */
  function TimeOfDay(rem: nat): (nat, nat, nat) {
    (rem / 3600 % U32, rem % 3600 / 60 % U32, rem % 60 % U32)
  }

  function FromDaysAndSeconds(days: int, rem: nat): CivilTime {
    var (hour, minute, second) := TimeOfDay(rem);
    CivilTime(CivilDate(days), hour, minute, second)
  }

  // ---- The proof ----

  /** Days from 1970-01-01 to March 1 of `year`, the first day of the code's years. */
  function MarchFirst(year: int): int {
    365 * year + year / 4 - year / 100 + year / 400 - 719_468
  }

  /** The March-based year a date belongs to. */
  function MarchYear(d: Date): int {
    if d.month <= 2 then d.year - 1 else d.year
  }

  /** Days from March 1 to the given day of the given month. */
  function DayOfMarchYear(month: int, day: int): int {
    var mp := if month <= 2 then month + 9 else month - 3;
    (153 * mp + 2) / 5 + day - 1
  }

  /** The usual days-from-date sum, over years that begin in March. */
  function DaysFromDate(d: Date): int {
    MarchFirst(MarchYear(d)) + DayOfMarchYear(d.month, d.day)
  }

  lemma EraIsFloor(z: int)
    ensures Era(z) == z / 146_097
    ensures 0 <= z - Era(z) * 146_097 < 146_097
  {
    if z < 0 {
      var q := z / 146_097;
      var r := z % 146_097;
      assert -(z - 146_096) == -q * 146_097 + (146_096 - r);
      assert (-(z - 146_096)) / 146_097 == -q;
    }
  }

  /** Splitting a year of the era into century, quadrennium and rest. */
  lemma YearOfEraExact(c: int, q: int, k: int, doy: int)
    requires 0 <= c < 4 && 0 <= q < 25 && 0 <= k < 4 && 0 <= doy <= 365
    requires doy == 365 ==> k == 3 && (q != 24 || c == 3)
    ensures YearOfEra(36_524 * c + 1461 * q + 365 * k + doy) == 100 * c + 4 * q + k
  {
    var doe := 36_524 * c + 1461 * q + 365 * k + doy;
    var carry := if 24 * c + q + 365 * k + doy >= 1460 then 1 else 0;
    assert doe / 1460 == 25 * c + q + carry;
    if doe == 146_096 {
      assert doe / 36_524 == 4 && doe / 146_096 == 1;
    } else {
      assert doe / 36_524 == c && doe / 146_096 == 0;
    }
    assert doe - doe / 1460 + doe / 36_524 - doe / 146_096 == 365 * (100 * c + 4 * q + k) + doy - carry;
    assert 0 <= doy - carry < 365;
  }

  /** Every day of the era is the `doy`-th day of exactly the year the formula names. */
  lemma YearOfEraCorrect(doe: int)
    requires 0 <= doe < 146_097
    ensures 0 <= YearOfEra(doe) < 400
    ensures 0 <= DayOfYear(doe, YearOfEra(doe)) <= 365
    ensures DayOfYear(doe, YearOfEra(doe)) == 365 ==> Leap(YearOfEra(doe) + 1)
  {
    var c := if doe == 146_096 then 3 else doe / 36_524;
    var r := doe - 36_524 * c;
    var q := r / 1461;
    var s := r % 1461;
    var k := if s == 1460 then 3 else s / 365;
    var doy := s - 365 * k;
    assert doe == 36_524 * c + 1461 * q + 365 * k + doy;
    assert q == 24 && s == 1460 ==> c == 3;
    YearOfEraExact(c, q, k, doy);
    YearOfCentury(c, q, k);
  }

  lemma YearOfCentury(c: int, q: int, k: int)
    requires 0 <= c < 4 && 0 <= q < 25 && 0 <= k < 4
    ensures var y := 100 * c + 4 * q + k;
            && 0 <= y < 400 && y / 4 == 25 * c + q && y / 100 == c
            && (k == 3 && (q != 24 || c == 3) ==> Leap(y + 1))
  {
    var y := 100 * c + 4 * q + k;
    if k == 3 {
      assert y + 1 == 4 * (25 * c + q + 1);
      if q != 24 { assert (y + 1) % 100 == 4 * (q + 1); }
    }
  }

  /** Month and day within a March-based year. */
  lemma MonthCorrect(doy: int)
    requires 0 <= doy <= 365
    ensures var mp := (5 * doy + 2) / 153;
            var day := doy - (153 * mp + 2) / 5 + 1;
            && 0 <= mp <= 11
            && 1 <= day <= (if mp == 11 then (if doy == 365 then 29 else 28)
                            else if mp in {1, 3, 6, 8} then 30 else 31)
  {
    var mp := (5 * doy + 2) / 153;
    assert mp in {0, 1, 2, 3, 4, 5, 6, 7, 8, 9, 10, 11};
  }

  lemma LeapInEra(era: int, yoe: int)
    ensures Leap(yoe + era * 400) == Leap(yoe)
  {
    Mod4InEra(era, yoe);
    Mod100InEra(era, yoe);
    Mod400InEra(era, yoe);
  }

  lemma Mod4InEra(era: int, yoe: int)
    ensures (yoe + era * 400) % 4 == yoe % 4
  {
    assert yoe + era * 400 == yoe + 4 * (100 * era);
  }

  lemma Mod100InEra(era: int, yoe: int)
    ensures (yoe + era * 400) % 100 == yoe % 100
  {
    assert yoe + era * 400 == yoe + 100 * (4 * era);
  }

  lemma Mod400InEra(era: int, yoe: int)
    ensures (yoe + era * 400) % 400 == yoe % 400
  {
  }

  lemma MarchFirstInEra(era: int, yoe: int)
    requires 0 <= yoe < 400
    ensures MarchFirst(yoe + era * 400) == 146_097 * era + 365 * yoe + yoe / 4 - yoe / 100 - 719_468
  {
    var year := yoe + era * 400;
    assert year == yoe + (100 * era) * 4 && year == yoe + (4 * era) * 100;
    assert year / 4 == yoe / 4 + 100 * era && year / 100 == yoe / 100 + 4 * era && year / 400 == era;
  }

  lemma FromDayOfYearCorrect(era: int, yoe: int, doy: int)
    requires 0 <= doy <= 365 && (doy == 365 ==> Leap(yoe + 1))
    ensures var d := FromDayOfYear(era, yoe, doy);
            && ValidDate(d)
            && MarchYear(d) == yoe + era * 400
            && DayOfMarchYear(d.month, d.day) == doy
  {
    MonthCorrect(doy);
    LeapInEra(era, yoe + 1);
    assert yoe + 1 + era * 400 == yoe + era * 400 + 1;
  }

  /** The conversion yields a valid date, and the days-from-date sum inverts it. */
  lemma CivilDateInverted(days: int)
    ensures ValidDate(CivilDate(days))
    ensures DaysFromDate(CivilDate(days)) == days
  {
    var z := days + 719_468;
    EraIsFloor(z);
    var era := Era(z);
    var doe := z - era * 146_097;
    YearOfEraCorrect(doe);
    var yoe := YearOfEra(doe);
    EraDayInverted(era, yoe, DayOfYear(doe, yoe), doe);
  }

  lemma EraDayInverted(era: int, yoe: int, doy: int, doe: int)
    requires 0 <= yoe < 400 && doy == doe - (365 * yoe + yoe / 4 - yoe / 100)
    requires 0 <= doy <= 365 && (doy == 365 ==> Leap(yoe + 1))
    ensures var d := FromDayOfYear(era, yoe, doy);
            ValidDate(d) && DaysFromDate(d) == era * 146_097 + doe - 719_468
  {
    FromDayOfYearCorrect(era, yoe, doy);
    MarchFirstInEra(era, yoe);
  }

  lemma MarchFirstSteps(year: int)
    ensures MarchFirst(year + 1) - MarchFirst(year) == if Leap(year + 1) then 366 else 365
  {
    var y := year + 1;
    FourthSteps(y);
    HundredthSteps(y);
    assert y / 400 - year / 400 == if y % 400 == 0 then 1 else 0;
  }

  lemma FourthSteps(y: int)
    ensures y / 4 - (y - 1) / 4 == (if y % 4 == 0 then 1 else 0) && (y % 100 == 0 ==> y % 4 == 0)
  {
  }

  lemma HundredthSteps(y: int)
    ensures y / 100 - (y - 1) / 100 == (if y % 100 == 0 then 1 else 0) && (y % 400 == 0 ==> y % 100 == 0)
  {
  }

  /** The day within a March-based year, as a table of month starts. */
  lemma MonthStarts(month: int, day: int)
    requires 1 <= month <= 12
    ensures DayOfMarchYear(month, day) ==
            [306, 337, 0, 31, 61, 92, 122, 153, 184, 214, 245, 275][month - 1] + day - 1
  {
  }

  /** The sum counts days: the calendar successor is one larger. */
  lemma NextDayCounts(d: Date)
    requires ValidDate(d)
    ensures DaysFromDate(NextDay(d)) == DaysFromDate(d) + 1
  {
    MarchFirstSteps(d.year - 1);
    var e := NextDay(d);
    MonthStarts(d.month, d.day);
    MonthStarts(e.month, e.day);
    assert MarchYear(e) == if d.month == 2 && e.month == 3 then MarchYear(d) + 1 else MarchYear(d);
  }

  lemma MarchFirstMonotone(y0: int, y1: int)
    requires y0 < y1
    ensures MarchFirst(y0) + (if Leap(y0 + 1) then 366 else 365) <= MarchFirst(y1)
    decreases y1 - y0
  {
    MarchFirstSteps(y1 - 1);
    if y0 + 1 < y1 { MarchFirstMonotone(y0, y1 - 1); }
  }

  /** A date lies within its own March-based year, which fixes its month and day. */
  lemma WithinYear(d: Date)
    requires ValidDate(d)
    ensures 0 <= DayOfMarchYear(d.month, d.day) < (if Leap(MarchYear(d) + 1) then 366 else 365)
  {
    MonthStarts(d.month, d.day);
  }

  /** No two valid dates have the same day number. */
  lemma DaysFromDateInjective(d: Date, e: Date)
    requires ValidDate(d) && ValidDate(e) && DaysFromDate(d) == DaysFromDate(e)
    ensures d == e
  {
    WithinYear(d);
    WithinYear(e);
    var y, y' := MarchYear(d), MarchYear(e);
    if y < y' { MarchFirstMonotone(y, y'); }
    if y' < y { MarchFirstMonotone(y', y); }
    assert y == y';
    MonthStarts(d.month, d.day);
    MonthStarts(e.month, e.day);
  }

  /** Day numbers n and n + 1 name neighbouring dates. */
  lemma Neighbours(d: Date, e: Date)
    requires ValidDate(d) && ValidDate(e) && DaysFromDate(e) == DaysFromDate(d) + 1
    ensures e == NextDay(d) && d == PreviousDay(e)
  {
    NextDayCounts(d);
    DaysFromDateInjective(e, NextDay(d));
    NextDayCounts(PreviousDay(e));
    DaysFromDateInjective(d, PreviousDay(e));
  }

  /** One more day is the calendar successor. */
  lemma CivilDateSuccessor(days: int)
    ensures ValidDate(CivilDate(days)) && CivilDate(days + 1) == NextDay(CivilDate(days))
  {
    CivilDateInverted(days);
    CivilDateInverted(days + 1);
    Neighbours(CivilDate(days), CivilDate(days + 1));
  }

  lemma {:induction false} DateAtCounts(n: int)
    ensures DaysFromDate(DateAt(n)) == n
    decreases if n < 0 then -n else n
  {
    if n > 0 {
      DateAtCounts(n - 1);
      NextDayCounts(DateAt(n - 1));
    } else if n < 0 {
      DateAtCounts(n + 1);
      NextDayCounts(PreviousDay(DateAt(n + 1)));
    }
  }

  /** Main theorem: the closed form is the day-by-day calendar, so day 0 is 1970-01-01. */
  lemma CivilDateIsCalendar(days: int)
    ensures CivilDate(days) == DateAt(days)
  {
    CivilDateInverted(days);
    DateAtCounts(days);
    DaysFromDateInjective(CivilDate(days), DateAt(days));
  }

  /** The other composite: every valid date is the conversion of its own day number. */
  lemma DaysFromDateInverted(d: Date)
    requires ValidDate(d)
    ensures CivilDate(DaysFromDate(d)) == d
  {
    CivilDateInverted(DaysFromDate(d));
    DaysFromDateInjective(CivilDate(DaysFromDate(d)), d);
  }

  /** The time fields recombine to the seconds given, as far as 32 bits hold the hour. */
  lemma TimeFieldsRecombine(rem: nat)
    requires rem / 3600 < U32
    ensures var (hour, minute, second) := TimeOfDay(rem);
            && minute < 60 && second < 60 && (rem < 86_400 ==> hour < 24)
            && hour * 3600 + minute * 60 + second == rem
  {
    var h, r := rem / 3600, rem % 3600;
    assert rem == 3600 * h + r;
    SecondOfMinute(h, r);
    var m := r / 60;
    assert m < 60 && rem % 60 < 60;
    assert m % U32 == m && (rem % 60) % U32 == rem % 60;
  }

  lemma SecondOfMinute(h: int, r: int)
    ensures (3600 * h + r) % 60 == r % 60
  {
    assert 3600 * h + r == r + 60 * (60 * h);
  }
}
