/** The calendar clock: conversion between dates and seconds since 2000, and the
    software offset that setting the time leaves behind. */
module Clock {

  /** A 32-bit signed integer: the conversions below cannot overflow. */
  newtype Int32 = x: int | -0x8000_0000 <= x < 0x8000_0000

  const DAY := 86400

  datatype Time = Time(year: int, month: int, day: int, hour: int, minute: int, second: int, weekday: int)

  predicate Leap(y: int) {
    if y % 4 != 0 then false else if y % 100 != 0 then true else y % 400 == 0
  }

  function YearDays(y: int): int {
    if Leap(y) then 366 else 365
  }

  function MonthDays(m: int, y: int): (d: int)
    ensures 28 <= d <= 31
  {
    if m == 2 && Leap(y) then 29
    else if m < 1 || m > 12 then 30
    else if m == 2 then 28
    else if m == 4 || m == 6 || m == 9 || m == 11 then 30
    else 31
  }

  predicate Valid(t: Time) {
    && 2000 <= t.year && 1 <= t.month <= 12 && 1 <= t.day <= MonthDays(t.month, t.year)
    && 0 <= t.hour < 24 && 0 <= t.minute < 60 && 0 <= t.second < 60
  }

  // ---- the calendar, second by second ----

  /** The next second; the weekday is left alone. */
  function Tick(t: Time): Time {
    if t.second < 59 then t.(second := t.second + 1)
    else if t.minute < 59 then t.(minute := t.minute + 1, second := 0)
    else if t.hour < 23 then t.(hour := t.hour + 1, minute := 0, second := 0)
    else
      var u := t.(hour := 0, minute := 0, second := 0);
      if t.day < MonthDays(t.month, t.year) then u.(day := t.day + 1)
      else if t.month < 12 then u.(month := t.month + 1, day := 1)
      else u.(year := t.year + 1, month := 1, day := 1)
  }

  function After(t: Time, n: nat): Time {
    if n == 0 then t else Tick(After(t, n - 1))
  }

  // ---- counting seconds ----

  /** Days from 2000 to the start of year y. */
  function YearStart(y: int): int
    requires y >= 2000
  {
    if y == 2000 then 0 else YearStart(y - 1) + YearDays(y - 1)
  }

  /** Days from the start of the year to the start of month m. */
  function MonthStart(m: int, y: int): int
    requires m >= 1
  {
    if m == 1 then 0 else MonthStart(m - 1, y) + MonthDays(m - 1, y)
  }

  function Days(t: Time): int
    requires Valid(t)
  {
    YearStart(t.year) + MonthStart(t.month, t.year) + t.day - 1
  }

  function Seconds(t: Time): int
    requires Valid(t)
  {
    Days(t) * DAY + t.hour * 3600 + t.minute * 60 + t.second
  }

  /** The twelve months make up the year. */
  lemma WholeYear(y: int)
    ensures MonthStart(13, y) == YearDays(y)
  {
    hide MonthStart;
    MonthZero(y);
    MonthNext(1, y);
    MonthNext(2, y);
    MonthNext(3, y);
    MonthNext(4, y);
    MonthNext(5, y);
    MonthNext(6, y);
    MonthNext(7, y);
    MonthNext(8, y);
    MonthNext(9, y);
    MonthNext(10, y);
    MonthNext(11, y);
    MonthNext(12, y);
  }

  lemma MonthNext(m: int, y: int)
    requires m >= 1
    ensures MonthStart(m + 1, y) == MonthStart(m, y) + MonthDays(m, y)
  {
    hide MonthDays;
  }

  /** Where the months start, with one day more after February of a leap year: one that four
      divides, and a hundred does not unless four hundred does. */
  lemma MonthStartIs(m: int, y: int)
    requires 1 <= m <= 13
    ensures MonthStart(m, y) == [0, 31, 59, 90, 120, 151, 181, 212, 243, 273, 304, 334, 365][m - 1]
                                + if m > 2 && y % 4 == 0 && (y % 100 != 0 || y % 400 == 0) then 1 else 0
  {
    hide MonthStart;
    MonthZero(y);
    MonthNext(1, y);
    MonthNext(2, y);
    MonthNext(3, y);
    MonthNext(4, y);
    MonthNext(5, y);
    MonthNext(6, y);
    MonthNext(7, y);
    MonthNext(8, y);
    MonthNext(9, y);
    MonthNext(10, y);
    MonthNext(11, y);
    MonthNext(12, y);
  }

  /** Where the years start: 365 days each, and one for each leap year since 2000. */
  lemma {:induction false} YearStartIs(y: int)
    requires y >= 2000
    ensures var k := y - 2000; YearStart(y) == 365 * k + (k + 3) / 4 - (k + 99) / 100 + (k + 399) / 400
    decreases y
  {
    hide YearDays;
    if y > 2000 {
      var j := y - 2001;
      YearStartIs(y - 1);
      Leaps(j);
      UpBy4(j);
      UpBy100(j);
      UpBy400(j);
    }
  }

  lemma Leaps(j: int)
    requires j >= 0
    ensures YearDays(2000 + j) == 365 + (if j % 4 == 0 then 1 else 0) - (if j % 100 == 0 then 1 else 0) + if j % 400 == 0 then 1 else 0
  {
    By4(j);
    By100(j);
    By400(j);
    Nested(j);
  }

  lemma By4(j: int)
    ensures (2000 + j) % 4 == j % 4
  {
  }

  lemma By100(j: int)
    ensures (2000 + j) % 100 == j % 100
  {
  }

  lemma By400(j: int)
    ensures (2000 + j) % 400 == j % 400
  {
  }

  lemma Nested(j: int)
    ensures j % 100 == 0 ==> j % 4 == 0
    ensures j % 400 == 0 ==> j % 100 == 0
  {
  }

  lemma UpBy4(j: int)
    ensures (j + 4) / 4 == (j + 3) / 4 + if j % 4 == 0 then 1 else 0
  {
  }

  lemma UpBy100(j: int)
    ensures (j + 100) / 100 == (j + 99) / 100 + if j % 100 == 0 then 1 else 0
  {
  }

  lemma UpBy400(j: int)
    ensures (j + 400) / 400 == (j + 399) / 400 + if j % 400 == 0 then 1 else 0
  {
  }

  /** The count goes up by one each second of the calendar. */
  lemma TickCounts(t: Time)
    requires Valid(t)
    ensures Valid(Tick(t)) && Seconds(Tick(t)) == Seconds(t) + 1
  {
    hide MonthDays, YearStart, MonthStart, YearDays;
    MonthNext(t.month, t.year);
    MonthZero(t.year + 1);
    YearNext(t.year);
    WholeYear(t.year);
  }

  lemma YearNext(y: int)
    requires y >= 2000
    ensures YearStart(y + 1) == YearStart(y) + YearDays(y)
  {
  }

  lemma {:induction false} AfterCounts(t: Time, n: nat)
    requires Valid(t)
    ensures Valid(After(t, n)) && Seconds(After(t, n)) == Seconds(t) + n
  {
    hide Valid, Seconds, Tick;
    if n > 0 {
      AfterCounts(t, n - 1);
      TickCounts(After(t, n - 1));
    }
  }

  // ---- the count determines the date ----

  lemma {:induction false} YearsGrow(a: int, b: int)
    requires 2000 <= a < b
    ensures YearStart(a) + YearDays(a) <= YearStart(b)
    decreases b
  {
    if a < b - 1 { YearsGrow(a, b - 1); }
  }

  lemma {:induction false} MonthsGrow(a: int, b: int, y: int)
    requires 1 <= a < b
    ensures MonthStart(a, y) + MonthDays(a, y) <= MonthStart(b, y)
    decreases b
  {
    hide MonthDays;
    if a < b - 1 { MonthsGrow(a, b - 1, y); }
  }

  lemma InYear(t: Time)
    requires Valid(t)
    ensures 0 <= MonthStart(t.month, t.year) + t.day - 1 < YearDays(t.year)
  {
    hide MonthDays, YearDays;
    WholeYear(t.year);
    MonthsGrow(t.month, 13, t.year);
    if t.month > 1 { MonthsGrow(1, t.month, t.year); }
    MonthZero(t.year);
  }

  lemma MonthZero(y: int)
    ensures MonthStart(1, y) == 0
  {
  }

  lemma SameDate(t: Time, u: Time)
    requires Valid(t) && Valid(u) && Days(t) == Days(u)
    ensures t.year == u.year && t.month == u.month && t.day == u.day
  {
    hide MonthDays, YearDays, YearStart, MonthStart;
    InYear(t);
    InYear(u);
    if t.year < u.year { YearsGrow(t.year, u.year); }
    if u.year < t.year { YearsGrow(u.year, t.year); }
    if t.month < u.month { MonthsGrow(t.month, u.month, t.year); }
    if u.month < t.month { MonthsGrow(u.month, t.month, t.year); }
  }

  /** Two valid dates with the same count are the same, weekday aside. */
  lemma SameTime(t: Time, u: Time)
    requires Valid(t) && Valid(u) && Seconds(t) == Seconds(u)
    ensures t.(weekday := u.weekday) == u
  {
    hide Days, Valid;
    SplitDay(t);
    SplitDay(u);
    SameDate(t, u);
  }

  /** A count is a day and a second of it. */
  lemma SplitDay(t: Time)
    requires Valid(t)
    ensures var s := Seconds(t);
            s / DAY == Days(t) && s % DAY / 3600 == t.hour && s % DAY % 3600 / 60 == t.minute && s % DAY % 3600 % 60 == t.second
  {
    hide Days;
    DayPart(Days(t), t.hour * 3600 + t.minute * 60 + t.second);
    HourPart(t.hour, t.minute * 60 + t.second);
    MinutePart(t.minute, t.second);
  }

  lemma DayPart(d: int, r: int)
    requires 0 <= r < 86400
    ensures (d * DAY + r) / DAY == d && (d * DAY + r) % DAY == r
  {
  }

  lemma HourPart(h: int, r: int)
    requires 0 <= h && 0 <= r < 3600
    ensures (h * 3600 + r) / 3600 == h && (h * 3600 + r) % 3600 == r
  {
  }

  lemma MinutePart(m: int, s: int)
    requires 0 <= m && 0 <= s < 60
    ensures (m * 60 + s) / 60 == m && (m * 60 + s) % 60 == s
  {
  }

  // ---- the conversions ----

  /** The last year whose every second fits 32 bits. */
  const LAST := 2067

  lemma {:induction false} YearFits(y: int)
    requires 2000 <= y
    ensures 365 * (y - 2000) <= YearStart(y) <= 366 * (y - 2000)
  {
    if y > 2000 { YearFits(y - 1); }
  }

  lemma Year2068()
    ensures YearStart(2068) == 24837
  {
    hide YearStart, YearDays;
    FourYears(2000);
    FourYears(2004);
    FourYears(2008);
    FourYears(2012);
    FourYears(2016);
    FourYears(2020);
    FourYears(2024);
    FourYears(2028);
    FourYears(2032);
    FourYears(2036);
    FourYears(2040);
    FourYears(2044);
    FourYears(2048);
    FourYears(2052);
    FourYears(2056);
    FourYears(2060);
    FourYears(2064);
    YearZero();
  }

  lemma YearZero()
    ensures YearStart(2000) == 0
  {
  }

  lemma FourYears(y: int)
    requires 2000 <= y <= 2096 && y % 4 == 0
    ensures YearStart(y + 4) == YearStart(y) + 1461
  {
    hide YearStart;
    YearNext(y);
    YearNext(y + 1);
    YearNext(y + 2);
    YearNext(y + 3);
  }

  /** Every valid date up to 2067 counts to a 32-bit number. */
  lemma Fits(t: Time)
    requires Valid(t) && t.year <= LAST
    ensures 0 <= Days(t) < 24837 && 0 <= Seconds(t) < 0x8000_0000
  {
    hide YearStart, MonthStart, YearDays, MonthDays;
    InYear(t);
    YearsGrow(t.year, 2068);
    Year2068();
    YearFits(t.year);
  }

  /** What the fields of a date can hold, whether they make up a date or not. */
  predicate Fields(t: Time) {
    && 0 <= t.year < 0x1_0000 && 0 <= t.month < 256 && 0 <= t.day < 256
    && 0 <= t.hour < 256 && 0 <= t.minute < 256 && 0 <= t.second < 256
  }

  /** The months that are counted: none for month 0, and all twelve beyond the last. */
  function Counted(m: int): (r: int)
    ensures 1 <= r <= 13
  {
    if m < 1 then 1 else if m > 13 then 13 else m
  }

  function RawDays(t: Time): int {
    (if t.year <= 2000 then 0 else YearStart(t.year)) + MonthStart(Counted(t.month), t.year) + t.day - 1
  }

  /** The count of any fields; of a valid date it is the seconds since 2000. */
  function Raw(t: Time): int {
    RawDays(t) * DAY + t.hour * 3600 + t.minute * 60 + t.second
  }

  lemma RawValid(t: Time)
    requires Valid(t)
    ensures Raw(t) == Seconds(t)
  {
    hide YearStart, MonthStart, MonthDays;
    YearZero();
  }

  /** The count of any fields in closed form: no years before 2000, and months from 1 to the one
      after the last. */
  lemma RawIs(t: Time)
    ensures var k, m := if t.year <= 2000 then 0 else t.year - 2000, if t.month < 1 then 1 else if t.month > 13 then 13 else t.month;
            Raw(t) == (365 * k + (k + 3) / 4 - (k + 99) / 100 + (k + 399) / 400
                       + [0, 31, 59, 90, 120, 151, 181, 212, 243, 273, 304, 334, 365][m - 1]
                       + (if m > 2 && t.year % 4 == 0 && (t.year % 100 != 0 || t.year % 400 == 0) then 1 else 0) + t.day - 1) * 86400
                      + t.hour * 3600 + t.minute * 60 + t.second
  {
    hide YearStart, MonthStart;
    MonthStartIs(Counted(t.month), t.year);
    if t.year > 2000 { YearStartIs(t.year); }
  }

  /** Counts fields of any kind, as long as the count fits 32 bits. */
  method TimeToEpoch(t: Time) returns (e: Int32)
    requires Fields(t) && Raw(t) < 0x8000_0000
    ensures e as int == Raw(t)
  {
    hide YearStart, MonthStart, MonthDays, YearDays;
    YearZero();
    MonthZero(t.year);
    var days: Int32 := 0;
    var y := 2000;
    while y < t.year
      invariant 2000 <= y && (y <= t.year || y == 2000) && days as int == YearStart(y)
    {
      YearNext(y);
      YearFits(y + 1);
      YearLength(y);
      days := days + if Leap(y) then 366 else 365;
      y := y + 1;
    }
    var m := 1;
    YearFits(y);
    while m < t.month && m <= 12
      invariant 1 <= m <= 13 && (m <= t.month || m == 1) && days as int == YearStart(y) + MonthStart(m, t.year)
      invariant 0 <= MonthStart(m, t.year) <= 31 * (m - 1)
    {
      MonthNext(m, t.year);
      MonthLength(m, t.year);
      days := days + MonthDays(m, t.year) as Int32;
      m := m + 1;
    }
    days := days + (t.day - 1) as Int32;
    assert days as int == RawDays(t);
    e := Total(days, t);
  }

  method Total(days: Int32, t: Time) returns (e: Int32)
    requires Fields(t) && days as int == RawDays(t) >= -1 && Raw(t) < 0x8000_0000
    ensures e as int == Raw(t)
  {
    hide RawDays;
    e := days * 86400 + t.hour as Int32 * 3600 + t.minute as Int32 * 60 + t.second as Int32;
  }

  lemma MonthLength(m: int, y: int)
    ensures 28 <= MonthDays(m, y) <= 31
  {
  }

  lemma YearLength(y: int)
    ensures YearDays(y) == if Leap(y) then 366 else 365
  {
  }

  /** The valid date with the given count; a negative count is taken as zero. */
  method EpochToTime(epoch: Int32) returns (t: Time)
    ensures Valid(t) && t.year <= 2068 && t.weekday == 0
    ensures Seconds(t) == if epoch < 0 then 0 else epoch as int
  {
    hide YearStart, MonthStart, MonthDays;
    var rest := if epoch < 0 then 0 else epoch;
    ghost var total := rest as int;
    var year;
    year, rest := FindYear(rest);
    var month := 1;
    MonthZero(year);
    ghost var left := rest as int;
    while month <= 12
      invariant 1 <= month <= 13 && 0 <= rest && rest as int == left - MonthStart(month, year) * DAY
      invariant month == 13 ==> left >= MonthStart(13, year) * DAY
    {
      var days := MonthDays(month, year) as Int32;
      if rest < days * 86400 { break; }
      MonthNext(month, year);
      rest := rest - days * 86400;
      month := month + 1;
    }
    WholeYear(year);
    t := Time(year, month, (rest / 86400 + 1) as int, (rest % 86400 / 3600) as int,
              (rest % 86400 % 3600 / 60) as int, (rest % 86400 % 3600 % 60) as int, 0);
  }

  /** The year that a count falls into, found by taking whole years off, and what is left. */
  method FindYear(epoch: Int32) returns (year: int, rest: Int32)
    requires 0 <= epoch
    ensures 2000 <= year <= 2068 && 0 <= rest as int < YearDays(year) * DAY && rest as int == epoch as int - YearStart(year) * DAY
  {
    hide YearStart;
    year, rest := 2000, epoch;
    YearZero();
    while true
      invariant 2000 <= year <= 2068 && 0 <= rest && rest as int == epoch as int - YearStart(year) * DAY
      decreases 2069 - year
    {
      var days: Int32 := if Leap(year) then 366 else 365;
      if rest < days * 86400 { break; }
      YearNext(year);
      Below2069(year, epoch as int);
      rest := rest - days * 86400;
      year := year + 1;
    }
  }

  lemma Below2069(y: int, epoch: int)
    requires 2000 <= y <= 2068 && epoch < 0x8000_0000 && YearStart(y + 1) * DAY <= epoch
    ensures y < 2068
  {
    hide YearStart;
    Year2068();
    YearNext(2068);
  }

  // ---- the service ----

  datatype Result = Ok | NotReady | Invalid | Busy | Denied

  /** What reading the hardware clock gives. */
  datatype Reading = Reading(result: Result, time: Time)

  predicate InWord(n: int) {
    -0x8000_0000 <= n < 0x8000_0000
  }

  class Service {
    var offset: Int32
    var ticks: int

    constructor ()
      ensures offset == 0 && ticks == 0
    {
      offset, ticks := 0, 0;
    }

    /** Without an offset the hardware's fields as they are; with one, the valid date that
        their count moved by the offset stands for, but not before 2000, with the hardware's
        weekday. The sums must fit 32 bits, beyond which they are undefined. */
    method GetTime(hw: Reading) returns (r: Result, t: Time)
      requires hw.result == Ok ==> Fields(hw.time)
      requires hw.result == Ok && offset != 0 ==> Raw(hw.time) < 0x8000_0000 && InWord(Raw(hw.time) + offset as int)
      modifies `ticks
      ensures r == hw.result
      ensures r != Ok ==> ticks == old(ticks)
      ensures r == Ok ==> ticks == (old(ticks) + 1) % 0x1_0000_0000 && t.weekday == hw.time.weekday
      ensures r == Ok && offset == 0 ==> t == hw.time
      ensures r == Ok && offset != 0 ==> Valid(t) && Seconds(t) == var n := Raw(hw.time) + offset as int; if n < 0 then 0 else n
    {
      hide Seconds, Valid, Raw;
      t := hw.time;
      if hw.result != Ok { return hw.result, t; }
      ticks := (ticks + 1) % 0x1_0000_0000;
      if offset == 0 { return Ok, t; }
      var e := TimeToEpoch(hw.time);
      t := EpochToTime(e + offset);
      Weekday(t, hw.time.weekday);
      t := t.(weekday := hw.time.weekday);
      r := Ok;
    }

    /** Sets the time, for a subject that may, by remembering the difference. */
    method SetTime(permitted: bool, hw: Reading, t: Time) returns (r: Result)
      requires permitted && hw.result == Ok ==>
                 && Fields(hw.time) && Fields(t) && Raw(hw.time) < 0x8000_0000 && Raw(t) < 0x8000_0000
                 && InWord(Raw(t) - Raw(hw.time))
      modifies `offset
      ensures r == if !permitted then Denied else hw.result
      ensures if r == Ok then offset as int == Raw(t) - Raw(hw.time) else offset == old(offset)
    {
      hide Raw;
      if !permitted { return Denied; }
      if hw.result != Ok { return hw.result; }
      var h := TimeToEpoch(hw.time);
      var n := TimeToEpoch(t);
      offset := n - h;
      r := Ok;
    }

    /** After a permitted set to t, a read d hardware seconds later gives the calendar date
        d seconds after t, weekday aside. */
    method SetThenRead(hw: Time, t: Time, d: nat, later: Time) returns (r: Result, out: Time)
      requires Valid(hw) && hw.year <= LAST && Valid(t) && t.year <= LAST
      requires later == After(hw, d).(weekday := later.weekday) && later.year <= LAST && After(t, d).year <= LAST
      modifies this
      ensures r == Ok && out == After(t, d).(weekday := later.weekday)
    {
      hide Valid, Seconds, After, Raw, Fields;
      AfterCounts(hw, d);
      AfterCounts(t, d);
      Weekday(After(hw, d), later.weekday);
      Fits(hw);
      Fits(t);
      Fits(later);
      Fits(After(t, d));
      Counts(hw);
      Counts(t);
      Counts(later);
      var s := SetTime(true, Reading(Ok, hw), t);
      r, out := GetTime(Reading(Ok, later));
      SameTime(out, After(t, d));
    }
  }

  lemma Weekday(t: Time, w: int)
    requires Valid(t)
    ensures Valid(t.(weekday := w)) && Seconds(t.(weekday := w)) == Seconds(t)
  {
  }

  lemma Counts(t: Time)
    requires Valid(t) && t.year <= LAST
    ensures Fields(t) && Raw(t) == Seconds(t)
  {
    hide Seconds, Raw;
    RawValid(t);
  }

  /** Both conversions undo each other, weekday aside, exactly for valid dates; other fields
      come back as the valid date with their count. */
  method RoundTrip(t: Time) returns (u: Time)
    requires Fields(t) && Raw(t) < 0x8000_0000
    ensures Valid(u) && Seconds(u) == if Raw(t) < 0 then 0 else Raw(t)
    ensures u == t.(weekday := 0) <==> Valid(t)
  {
    hide Seconds, Valid, Raw;
    var e := TimeToEpoch(t);
    u := EpochToTime(e);
    if Valid(t) {
      RawValid(t);
      SecondsFrom(t);
      SameTime(t, u);
    } else {
      Unless(t, u);
    }
  }

  lemma SecondsFrom(t: Time)
    requires Valid(t)
    ensures Seconds(t) >= 0
  {
    hide YearStart, MonthStart, MonthDays, YearDays;
    InYear(t);
    YearFits(t.year);
  }

  lemma Unless(t: Time, u: Time)
    requires !Valid(t) && Valid(u)
    ensures u != t.(weekday := 0)
  {
  }
}
