/** The words for the age of an offline team's parts, and the calendar behind
    them. Times are in milliseconds since 1970, in UTC. */
module AsOf {
  // ----- the program -----

  /** A calendar date: the month counts from 1. */
  datatype Date = Date(year: int, month: int, day: int)

  /** Day number `days`, where 1970-01-01 is day 0, as a date. */
  function CivilFromDays(days: int): Date {
    var z := days + 719468;
    var era, doe := z / 146097, z % 146097;
    var yoe := (doe - doe / 1460 + doe / 36524 - doe / 146096) / 365;
    var doy := doe - (365 * yoe + yoe / 4 - yoe / 100);
    var mp := (5 * doy + 2) / 153;
    var day := doy - (153 * mp + 2) / 5 + 1;
    var month := if mp < 10 then mp + 3 else mp - 9;
    Date(yoe + era * 400 + (if month <= 2 then 1 else 0), month, day)
  }

  /** A time split into its date and minute; January is month 0. */
  datatype Moment = Moment(year: int, month: int, day: int, hour: int, minute: int) {
    function Calendar(): (int, int, int) { (year, month, day) }
  }

  function Local(ms: nat): Moment {
    var minutes := ms / 60000;
    var date := CivilFromDays(minutes / (24 * 60));
    Moment(date.year, date.month - 1, date.day, (minutes / 60) % 24, minutes % 60)
  }

  const DAY_MS: int := 24 * 60 * 60 * 1000

  /** The words for a time: the clock, then the day it was as seen now. */
  datatype Words =
    | Today(hour: int, minute: int)
    | Yesterday(hour: int, minute: int)
    | ThisYear(hour: int, minute: int, day: int, month: int)
    | WithYear(hour: int, minute: int, day: int, month: int, year: int)

  function AsOfWords(atMs: nat, nowMs: nat): Words {
    var at, today := Local(atMs), Local(nowMs);
    var yesterday := Local(if nowMs < DAY_MS then 0 else nowMs - DAY_MS);
    if at.Calendar() == today.Calendar() || atMs > nowMs then Today(at.hour, at.minute)
    else if at.Calendar() == yesterday.Calendar() then Yesterday(at.hour, at.minute)
    else if at.year == today.year then ThisYear(at.hour, at.minute, at.day, at.month)
    else WithYear(at.hour, at.minute, at.day, at.month, at.year)
  }

  // ----- the Gregorian calendar, day by day -----

  predicate IsLeap(year: int) {
    year % 4 == 0 && (year % 100 != 0 || year % 400 == 0)
  }

  function DaysInMonth(year: int, month: int): int
    requires 1 <= month <= 12
  {
    if month == 2 then (if IsLeap(year) then 29 else 28)
    else if month == 4 || month == 6 || month == 9 || month == 11 then 30
    else 31
  }

  predicate IsDate(d: Date) {
    1 <= d.month <= 12 && 1 <= d.day <= DaysInMonth(d.year, d.month)
  }

  function NextDay(d: Date): (next: Date)
    requires IsDate(d)
    ensures IsDate(next)
  {
    if d.day < DaysInMonth(d.year, d.month) then d.(day := d.day + 1)
    else if d.month < 12 then Date(d.year, d.month + 1, 1)
    else Date(d.year + 1, 1, 1)
  }

  function DayBefore(d: Date): (last: Date)
    requires IsDate(d)
    ensures IsDate(last) && NextDay(last) == d
  {
    if d.day > 1 then d.(day := d.day - 1)
    else if d.month > 1 then Date(d.year, d.month - 1, DaysInMonth(d.year, d.month - 1))
    else Date(d.year - 1, 12, 31)
  }

  const EPOCH := Date(1970, 1, 1)

  /** The date found by counting day by day from 1970-01-01. */
  function Counted(days: int): (d: Date)
    ensures IsDate(d)
    decreases if days < 0 then -days else days
  {
    if days == 0 then EPOCH
    else if days > 0 then NextDay(Counted(days - 1))
    else DayBefore(Counted(days + 1))
  }

  // ----- the number of a date -----

  /** Days from March 1st of year 0 to March 1st of year `y`. */
  function MarchDays(y: int): int {
    365 * y + y / 4 - y / 100 + y / 400
  }

  /** Days from March 1st to the first of the month, counted from March. */
  function MonthDays(mp: int): int {
    (153 * mp + 2) / 5
  }

  /** The year and month counted from March. */
  function MarchYear(d: Date): int { if d.month <= 2 then d.year - 1 else d.year }

  function MarchMonth(d: Date): int { if d.month <= 2 then d.month + 9 else d.month - 3 }

  function DaysFromDate(d: Date): int {
    MarchDays(MarchYear(d)) + MonthDays(MarchMonth(d)) + d.day - 1 - 719468
  }

  lemma MonthLengths(year: int, month: int)
    requires 1 <= month <= 12
    ensures var mp := if month <= 2 then month + 9 else month - 3;
      && 0 <= mp <= 11
      && (month != 2 ==> MonthDays(mp) + DaysInMonth(year, month) == MonthDays(mp + 1))
      && (month == 2 ==> MonthDays(mp) + 28 == 365)
  {
    MonthTable();
  }

  lemma MonthTable()
    ensures MonthDays(0) == 0 && MonthDays(1) == 31 && MonthDays(2) == 61 && MonthDays(3) == 92
    ensures MonthDays(4) == 122 && MonthDays(5) == 153 && MonthDays(6) == 184 && MonthDays(7) == 214
    ensures MonthDays(8) == 245 && MonthDays(9) == 275 && MonthDays(10) == 306 && MonthDays(11) == 337
  {
  }

  lemma YearLength(y: int)
    ensures MarchDays(y + 1) == MarchDays(y) + (if IsLeap(y + 1) then 366 else 365)
  {
    Quotient(y, 4);
    Quotient(y, 100);
    Quotient(y, 400);
    var c := (y + 1) / 400;
    assert (y + 1) % 400 == 0 ==> (y + 1) % 100 == 0 && (y + 1) % 4 == 0;
    assert (y + 1) % 100 == 0 ==> (y + 1) % 4 == 0;
  }

  lemma Quotient(y: int, n: int)
    requires n == 4 || n == 100 || n == 400
    ensures (y + 1) / n == y / n + (if (y + 1) % n == 0 then 1 else 0)
  {
  }

  /** The next date has the next number. */
  lemma NextDayIsNextNumber(d: Date)
    requires IsDate(d)
    ensures DaysFromDate(NextDay(d)) == DaysFromDate(d) + 1
  {
    hide MarchDays, IsLeap;
    MonthLengths(d.year, d.month);
    MonthTable();
    YearLength(d.year - 1);
  }

  // ----- the date of a number -----

  /** Days from the era's first day to year `y` of it. */
  function EraDays(y: int): int {
    365 * y + y / 4 - y / 100
  }

  function Adjusted(doe: int): int {
    doe - doe / 1460 + doe / 36524 - doe / 146096
  }

  lemma AdjustedGrows(a: int, b: int)
    requires 0 <= a <= b < 146097
    ensures Adjusted(a) <= Adjusted(b)
  {
    if a < b {
      assert b / 1460 - a / 1460 <= b - a;
      var p, q := a / 36524, b / 36524;
      assert a / 146096 == p / 4 && b / 146096 == q / 4;
    }
  }

  /** A year of the era as hundreds and years, and as fours and years. */
  lemma YearStart(y: int)
    requires 0 <= y < 400
    ensures y == 0 ==> EraDays(y) == 0
    ensures 0 <= EraDays(y) < 146096 && Adjusted(EraDays(y)) == 365 * y
  {
    var c, i := y / 100, y % 100;
    var k, j := y / 4, y % 4;
    assert y / 4 == 25 * c + i / 4;
    var d := EraDays(y);
    assert d == 36524 * c + 365 * i + i / 4;
    assert d == 1460 * k + 365 * j + k - c;
    assert d / 36524 == c;
    assert d / 1460 == k;
    assert d / 146096 == 0;
  }

  lemma YearEnd(y: int)
    requires 1 <= y <= 400
    ensures y < 400 ==> 0 <= EraDays(y) - 1 < 146096 && Adjusted(EraDays(y) - 1) < 365 * y
    ensures y == 400 ==> Adjusted(146096) < 365 * y
  {
    if y < 400 {
      var c, i := y / 100, y % 100;
      var k, j := y / 4, y % 4;
      assert y / 4 == 25 * c + i / 4;
      var d := EraDays(y) - 1;
      assert d + 1 == 36524 * c + 365 * i + i / 4;
      assert d + 1 == 1460 * k + 365 * j + k - c;
      assert d / 1460 == k;
      assert d / 36524 == if i == 0 then c - 1 else c;
      assert d / 146096 == 0;
    }
  }

  /** The formula for the year of the era finds the year the day is in. */
  lemma YearOfEra(doe: int)
    requires 0 <= doe < 146097
    ensures var y := Adjusted(doe) / 365;
      && 0 <= y < 400 && EraDays(y) <= doe
      && (y < 399 ==> doe < EraDays(y + 1))
  {
    hide Adjusted, EraDays;
    var y := Adjusted(doe) / 365;
    YearStart(0);
    AdjustedGrows(EraDays(0), doe);
    AdjustedGrows(doe, 146096);
    YearEnd(400);
    YearStart(y);
    if doe < EraDays(y) {
      YearEnd(y);
      AdjustedGrows(doe, EraDays(y) - 1);
    }
    if y < 399 && EraDays(y + 1) <= doe {
      YearStart(y + 1);
      AdjustedGrows(EraDays(y + 1), doe);
    }
  }

  /** `days` as an era, a year of it and a day of that year. */
  lemma Parts(days: int) returns (era: int, yoe: int, doy: int)
    ensures 0 <= yoe < 400 && days + 719468 == MarchDays(yoe + 400 * era) + doy
    ensures 0 <= doy < (if IsLeap(yoe + 400 * era + 1) then 366 else 365)
    ensures var mp := (5 * doy + 2) / 153;
      CivilFromDays(days) == Date(yoe + 400 * era + (if mp < 10 then 0 else 1),
                                  if mp < 10 then mp + 3 else mp - 9, doy - MonthDays(mp) + 1)
  {
    era := (days + 719468) / 146097;
    var doe := (days + 719468) % 146097;
    yoe := Adjusted(doe) / 365;
    doy := doe - EraDays(yoe);
    DayOfYear(doe, yoe, era);
    MonthOfDay(doy);
  }

  lemma DayOfYear(doe: int, yoe: int, era: int)
    requires 0 <= doe < 146097 && yoe == Adjusted(doe) / 365
    ensures 0 <= yoe < 400 && MarchDays(yoe + 400 * era) == EraDays(yoe) + 146097 * era
    ensures 0 <= doe - EraDays(yoe) < (if IsLeap(yoe + 400 * era + 1) then 366 else 365)
  {
    hide Adjusted, EraDays, MarchDays, IsLeap;
    YearOfEra(doe);
    EraIsMarch(yoe, era);
    YearLength(yoe + 400 * era);
    EraIsMarch(yoe + 1, era);
    EraLength();
  }

  lemma EraLength()
    ensures EraDays(400) == 146096
  {
  }

  lemma EraIsMarch(y: int, era: int)
    requires 0 <= y <= 400
    ensures MarchDays(y + 400 * era) == EraDays(y) + 146097 * era + (if y == 400 then 1 else 0)
  {
    assert (y + 400 * era) / 4 == y / 4 + 100 * era;
    assert (y + 400 * era) / 100 == y / 100 + 4 * era;
    assert (y + 400 * era) / 400 == y / 400 + era;
  }

  lemma MonthOfDay(doy: int)
    requires 0 <= doy <= 365
    ensures var mp := (5 * doy + 2) / 153; 0 <= mp <= 11 && MonthDays(mp) <= doy < MonthDays(mp + 1)
  {
  }

  /** The formulas give a date of the calendar, the one with this number. */
  lemma CivilHasItsNumber(days: int)
    ensures IsDate(CivilFromDays(days)) && DaysFromDate(CivilFromDays(days)) == days
  {
    var era, yoe, doy := Parts(days);
    MonthOfDay(doy);
    MonthTable();
    var date := CivilFromDays(days);
    MonthLengths(date.year, date.month);
  }

  // ----- dates and numbers correspond -----

  lemma MarchDaysGrow(a: int, b: int)
    requires a <= b
    ensures MarchDays(a) <= MarchDays(b)
    decreases b - a
  {
    if a < b {
      MarchDaysGrow(a, b - 1);
      YearLength(b - 1);
    }
  }

  lemma NumberInYear(d: Date)
    requires IsDate(d)
    ensures var n := DaysFromDate(d) + 719468 - MarchDays(MarchYear(d));
      && MonthDays(MarchMonth(d)) <= n < MonthDays(MarchMonth(d) + 1)
      && 0 <= n && MarchDays(MarchYear(d)) + n < MarchDays(MarchYear(d) + 1)
  {
    MonthLengths(d.year, d.month);
    MonthTable();
    YearLength(d.year - 1);
    YearLength(d.year);
  }

  lemma SameNumberSameDate(a: Date, b: Date)
    requires IsDate(a) && IsDate(b) && DaysFromDate(a) == DaysFromDate(b)
    ensures a == b
  {
    hide MarchDays, IsDate;
    NumberInYear(a);
    NumberInYear(b);
    MonthIs(a);
    MonthIs(b);
    if MarchYear(a) < MarchYear(b) {
      MarchDaysGrow(MarchYear(a) + 1, MarchYear(b));
    } else if MarchYear(b) < MarchYear(a) {
      MarchDaysGrow(MarchYear(b) + 1, MarchYear(a));
    }
    SameMonth(MarchMonth(a), MarchMonth(b), DaysFromDate(a) + 719468 - MarchDays(MarchYear(a)));
  }

  lemma MonthIs(d: Date)
    requires IsDate(d)
    ensures 1 <= d.month <= 12
  {
  }

  lemma SameMonth(m: int, m': int, n: int)
    requires 0 <= m < 12 && 0 <= m' < 12
    requires MonthDays(m) <= n < MonthDays(m + 1) && MonthDays(m') <= n < MonthDays(m' + 1)
    ensures m == m'
  {
  }

  lemma {:induction false} CountedHasItsNumber(days: int)
    ensures DaysFromDate(Counted(days)) == days
    decreases if days < 0 then -days else days
  {
    hide DaysFromDate;
    if days == 0 {
      EpochIsZero();
    } else if days > 0 {
      CountedHasItsNumber(days - 1);
      NextDayIsNextNumber(Counted(days - 1));
    } else {
      CountedHasItsNumber(days + 1);
      NextDayIsNextNumber(Counted(days));
    }
  }

  lemma EpochIsZero()
    ensures IsDate(EPOCH) && DaysFromDate(EPOCH) == 0
  {
  }

  /** The formulas are the Gregorian calendar, for every day before and after 1970. */
  lemma CivilIsTheCalendar(days: int)
    ensures CivilFromDays(days) == Counted(days)
    ensures CivilFromDays(0) == EPOCH
    ensures IsDate(CivilFromDays(days)) && CivilFromDays(days + 1) == NextDay(CivilFromDays(days))
    ensures DaysFromDate(CivilFromDays(days)) == days
  {
    hide CivilFromDays, DaysFromDate, Counted, NextDay, IsDate;
    CivilHasItsNumber(days);
    CivilHasItsNumber(days + 1);
    CountedHasItsNumber(days);
    SameNumberSameDate(CivilFromDays(days), Counted(days));
    NextDayIsNextNumber(CivilFromDays(days));
    SameNumberSameDate(CivilFromDays(days + 1), NextDay(CivilFromDays(days)));
    CivilHasItsNumber(0);
    EpochIsZero();
    SameNumberSameDate(CivilFromDays(0), EPOCH);
  }

  lemma DateHasOneNumber(d: Date)
    requires IsDate(d)
    ensures CivilFromDays(DaysFromDate(d)) == d
  {
    hide CivilFromDays, DaysFromDate;
    CivilHasItsNumber(DaysFromDate(d));
    SameNumberSameDate(CivilFromDays(DaysFromDate(d)), d);
  }

  // ----- the words -----

  /** The day number of a time. */
  function DayOf(ms: nat): int { ms / DAY_MS }

  lemma LocalIsItsDay(ms: nat)
    ensures var (m, date) := (Local(ms), CivilFromDays(DayOf(ms)));
      && m.Calendar() == (date.year, date.month - 1, date.day)
      && m.hour * 60 + m.minute == (ms / 60000) % (24 * 60)
      && 0 <= m.hour < 24 && 0 <= m.minute < 60
  {
    hide CivilFromDays;
    assert (ms / 60000) / (24 * 60) == ms / DAY_MS;
    var n := ms / 60000;
    assert (n / 60) % 24 * 60 + n % 60 == n % (24 * 60);
  }

  lemma SameDayExactly(a: nat, b: nat)
    ensures Local(a).Calendar() == Local(b).Calendar() <==> DayOf(a) == DayOf(b)
  {
    hide CivilFromDays, DaysFromDate, Local;
    LocalIsItsDay(a);
    LocalIsItsDay(b);
    CivilHasItsNumber(DayOf(a));
    CivilHasItsNumber(DayOf(b));
  }

  /** Which words: by the day number, and for older days by the year. */
  lemma WordsSayTheDay(atMs: nat, nowMs: nat)
    ensures var words := AsOfWords(atMs, nowMs);
      && (words.Today? <==> DayOf(atMs) == DayOf(nowMs) || atMs > nowMs)
      && (words.Yesterday? <==> DayOf(atMs) == DayOf(nowMs) - 1)
      && (words.ThisYear? ==> CivilFromDays(DayOf(atMs)).year == CivilFromDays(DayOf(nowMs)).year)
      && (words.WithYear? ==> CivilFromDays(DayOf(atMs)).year != CivilFromDays(DayOf(nowMs)).year)
  {
    hide CivilFromDays, Local;
    var before: nat := if nowMs < DAY_MS then 0 else nowMs - DAY_MS;
    SameDayExactly(atMs, nowMs);
    SameDayExactly(atMs, before);
    LocalIsItsDay(atMs);
    LocalIsItsDay(nowMs);
  }

  /** Whatever day is said, the clock is the time's own; a day that is said in full
      is the time's date, the month counted from 0, and its year is said or this. */
  lemma WordsHaveTheTime(atMs: nat, nowMs: nat)
    ensures var words, date := AsOfWords(atMs, nowMs), CivilFromDays(DayOf(atMs));
      && 0 <= words.hour < 24 && 0 <= words.minute < 60
      && words.hour * 60 + words.minute == (atMs / 60000) % (24 * 60)
      && (words.ThisYear? ==> Date(CivilFromDays(DayOf(nowMs)).year, words.month + 1, words.day) == date)
      && (words.WithYear? ==> Date(words.year, words.month + 1, words.day) == date)
  {
    hide CivilFromDays, Local;
    LocalIsItsDay(atMs);
    LocalIsItsDay(nowMs);
  }

  /** Seen at one moment, the words for two times not after it are the same
      only when the times are in the same minute. */
  lemma WordsTellTheMinute(a: nat, b: nat, nowMs: nat)
    requires a <= nowMs && b <= nowMs
    ensures AsOfWords(a, nowMs) == AsOfWords(b, nowMs) <==> a / 60000 == b / 60000
  {
    hide CivilFromDays, DaysFromDate, Local;
    WordsSayTheDay(a, nowMs);
    WordsSayTheDay(b, nowMs);
    LocalIsItsDay(a);
    LocalIsItsDay(b);
    SameDayExactly(a, b);
    if a / 60000 == b / 60000 {
      SameMinute(a, b);
    }
    if AsOfWords(a, nowMs) == AsOfWords(b, nowMs) {
      assert Local(a).hour == Local(b).hour && Local(a).minute == Local(b).minute;
      assert DayOf(a) == DayOf(b);
      MinuteOfDay(a);
      MinuteOfDay(b);
    }
  }

  lemma MinuteOfDay(ms: nat)
    ensures ms / 60000 == DayOf(ms) * (24 * 60) + (ms / 60000) % (24 * 60)
  {
  }

  lemma SameMinute(a: nat, b: nat)
    requires a / 60000 == b / 60000
    ensures Local(a) == Local(b)
  {
    hide CivilFromDays;
  }
}
