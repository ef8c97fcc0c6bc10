/** utils/dateUtils.js: reading a date out of a feed title, and the part
    count check of the briefing date parser. ECMAScript's Date.UTC is written
    out (section 21.4.1 of ECMA-262: Day, DayFromYear, MakeDay), so the model
    keeps its roll-over of out-of-range months and days and its mapping of the
    years 0 to 99 onto 1900 to 1999. */
module DateUtils {
  import opened Wrappers
  import opened JsText
  import opened DateService

  /** A `\d{4}-\d{2}-\d{2}` match starting at index i of s. */
  predicate DateAt(s: string, i: int) {
    0 <= i && i + 10 <= |s| && IsDateString(s[i..i + 10])
  }

  /** The index of the leftmost match, as `String.prototype.match` finds it
      for a pattern without the global flag. */
  function FirstDateMatch(s: string): (r: Option<nat>)
    ensures r.None? <==> forall i :: !DateAt(s, i)
    ensures r.Some? ==> DateAt(s, r.value) && forall i :: 0 <= i < r.value ==> !DateAt(s, i)
  {
    FirstDateMatchFrom(s, 0)
  }

  function FirstDateMatchFrom(s: string, from: nat): (r: Option<nat>)
    requires from <= |s|
    ensures r.None? <==> forall i :: from <= i ==> !DateAt(s, i)
    ensures r.Some? ==> from <= r.value && DateAt(s, r.value) && forall i :: from <= i < r.value ==> !DateAt(s, i)
    decreases |s| - from
  {
    if from + 10 > |s| then None
    else if DateAt(s, from) then Some(from)
    else FirstDateMatchFrom(s, from + 1)
  }

  // ---------------------------------------------------------------------------
  // Date.UTC for whole numbers

  /** The days in a year (DaysInYear). */
  function DaysInYear(y: int): int {
    if y % 4 != 0 then 365 else if y % 100 != 0 then 366 else if y % 400 != 0 then 365 else 366
  }

  /** The day number of 1 January of year y (DayFromYear); `/` with a
      positive divisor is floor division here, as the standard requires. */
  function DayFromYear(y: int): int {
    365 * (y - 1970) + (y - 1969) / 4 - (y - 1901) / 100 + (y - 1601) / 400
  }

  /** The days of month `mn` (0 is January) of year y. */
  function DaysInMonth(y: int, mn: int): int
    requires 0 <= mn < 12
  {
    if mn == 1 then DaysInYear(y) - 337
    else if mn == 3 || mn == 5 || mn == 8 || mn == 10 then 30
    else 31
  }

  /** The days of year y before the first of month `mn`. */
  function DaysBeforeMonth(y: int, mn: int): (r: int)
    requires 0 <= mn <= 12
    ensures 28 * mn <= r <= 31 * mn
  {
    if mn == 0 then 0 else DaysBeforeMonth(y, mn - 1) + DaysInMonth(y, mn - 1)
  }

  /** MakeDay(year, month, date) for whole numbers: the month may be any
      integer and carries into the year, the date any integer. */
  function MakeDay(year: int, month: int, date: int): int {
    var ym := year + month / 12;
    var mn := month % 12;
    DayFromYear(ym) + DaysBeforeMonth(ym, mn) + date - 1
  }

  /** `Date.UTC(year, month, day)` in milliseconds, for whole numbers whose
      result stays inside the time range: a year from 0 to 99 means 1900 plus
      that year. */
  function DateUtc(year: int, month: int, day: int): int {
    MakeDay(if 0 <= year <= 99 then 1900 + year else year, month, day) * 86400000
  }

  /** `Math.floor(new Date(ms).getTime() / 1000)`. */
  function FloorSeconds(ms: int): int {
    ms / 1000
  }

  /** The numbers parseInt reads from a matched date. */
  function DateParts(date: string): (int, int, int)
    requires IsDateString(date)
  {
    (DigitsValue(date[..4]), DigitsValue(date[5..7]), DigitsValue(date[8..]))
  }

  /** extractDateFromTitle (utils/dateUtils.js:43-53): the leftmost
      `YYYY-MM-DD` of the title as Unix seconds of UTC midnight, or null when
      the title has none. */
  function ExtractDateFromTitle(title: string): (r: Option<int>)
    ensures r.None? <==> forall i :: !DateAt(title, i)
    ensures forall i :: DateAt(title, i) && (forall j :: 0 <= j < i ==> !DateAt(title, j)) ==>
      r == Some(UtcSeconds(title[i..i + 10]))
  {
    var m := FirstDateMatch(title);
    if m.None? then None
    else
      var i := m.value;
      assert forall k :: DateAt(title, k) && (forall j :: 0 <= j < k ==> !DateAt(title, j)) ==> k == i by {
        forall k | DateAt(title, k) && (forall j :: 0 <= j < k ==> !DateAt(title, j)) ensures k == i {
        }
      }
      Some(UtcSeconds(title[i..i + 10]))
  }

  /** The year Date.UTC uses for a parsed year. */
  function FullYear(year: int): int {
    if 0 <= year <= 99 then 1900 + year else year
  }

  /** The day number of a matched date, as Date.UTC reads it. */
  function UtcDay(date: string): int
    requires IsDateString(date)
  {
    var p := DateParts(date);
    MakeDay(FullYear(p.0), p.1 - 1, p.2)
  }

  /** The seconds extractDateFromTitle gives for one matched date: whole days
      since 1970-01-01. */
  function UtcSeconds(date: string): (r: int)
    requires IsDateString(date)
    ensures r == 86400 * UtcDay(date)
  {
    var p := DateParts(date);
    MillisToSeconds(UtcDay(date));
    FloorSeconds(DateUtc(p.0, p.1 - 1, p.2))
  }

  lemma MillisToSeconds(k: int)
    ensures (k * 86400000) / 1000 == 86400 * k
  {
  }

  /** Every extracted value is a whole number of days. */
  lemma WholeDays(title: string)
    requires ExtractDateFromTitle(title).Some?
    ensures ExtractDateFromTitle(title).value % 86400 == 0
  {
    var i := FirstDateMatch(title).value;
    var k := UtcDay(title[i..i + 10]);
    assert ExtractDateFromTitle(title).value == 86400 * k;
    MultipleOfDay(k);
  }

  lemma MultipleOfDay(k: int)
    ensures (86400 * k) % 86400 == 0
  {
  }

  /** The Unix epoch is day zero. */
  lemma EpochIsZero(d: string)
    requires d == "1970-01-01"
    ensures IsDateString(d) && UtcSeconds(d) == 0
  {
    EpochParts(d);
    UtcDayOf(d, 1970, 1, 1);
    EpochDay();
  }

  lemma EpochParts(d: string)
    requires d == "1970-01-01"
    ensures IsDateString(d) && DateParts(d) == (1970, 1, 1)
  {
    FourDigitsValue(d[..4]);
    TwoDigitsValue(d[5..7]);
    TwoDigitsValue(d[8..]);
  }

  lemma EpochDay()
    ensures MakeDay(1970, 0, 1) == 0
  {
    assert DayFromYear(1970) == 0;
  }

  // ---------------------------------------------------------------------------
  // Calendar order

  /** A calendar date: month 1 to 12 and a day that month has. */
  predicate ValidDate(y: int, m: int, d: int) {
    1 <= m <= 12 && 1 <= d <= DaysInMonth(y, m - 1)
  }

  /** `(y1, m1, d1)` comes before `(y2, m2, d2)` on the calendar. */
  predicate Before(y1: int, m1: int, d1: int, y2: int, m2: int, d2: int) {
    y1 < y2 || (y1 == y2 && (m1 < m2 || (m1 == m2 && d1 < d2)))
  }

  /** The twelve months make up the year. */
  lemma MonthsFillYear(y: int)
    ensures DaysBeforeMonth(y, 12) == DaysInYear(y)
  {
    assert DaysBeforeMonth(y, 1) == 31;
    assert DaysBeforeMonth(y, 2) == 31 + DaysInMonth(y, 1);
    assert DaysBeforeMonth(y, 4) == 92 + DaysInMonth(y, 1);
    assert DaysBeforeMonth(y, 6) == 153 + DaysInMonth(y, 1);
    assert DaysBeforeMonth(y, 8) == 215 + DaysInMonth(y, 1);
    assert DaysBeforeMonth(y, 10) == 276 + DaysInMonth(y, 1);
    assert DaysBeforeMonth(y, 12) == 337 + DaysInMonth(y, 1);
  }

  /** Consecutive years are DaysInYear apart. */
  lemma DayFromYearStep(y: int)
    ensures DayFromYear(y + 1) == DayFromYear(y) + DaysInYear(y)
  {
    FourYearStep(y);
    CenturyStep(y);
    FourCenturyStep(y);
    LeapRules(y);
  }

  /** DaysInYear as 365 plus the three leap-year rules. */
  lemma LeapRules(y: int)
    ensures DaysInYear(y) == 365 + (if y % 4 == 0 then 1 else 0) - (if y % 100 == 0 then 1 else 0) + (if y % 400 == 0 then 1 else 0)
  {
    if y % 100 == 0 {
      CenturyIsLeapCycle(y);
    }
    if y % 400 == 0 {
      FourCenturiesIsCentury(y);
    }
  }

  /** A multiple of 100 is a multiple of 4. */
  lemma CenturyIsLeapCycle(y: int)
    requires y % 100 == 0
    ensures y % 4 == 0
  {
    var k := y / 100;
    assert y == 4 * (25 * k);
  }

  /** A multiple of 400 is a multiple of 100. */
  lemma FourCenturiesIsCentury(y: int)
    requires y % 400 == 0
    ensures y % 100 == 0
  {
    var k := y / 400;
    assert y == 100 * (4 * k);
  }

  /** The leap-year counts of DayFromYear each step up by one exactly after a
      multiple of their cycle: four years, a century, four centuries. */
  lemma FourYearStep(y: int)
    ensures (y + 1 - 1969) / 4 == (y - 1969) / 4 + (if y % 4 == 0 then 1 else 0)
  {
  }

  lemma CenturyStep(y: int)
    ensures (y + 1 - 1901) / 100 == (y - 1901) / 100 + (if y % 100 == 0 then 1 else 0)
  {
  }

  lemma FourCenturyStep(y: int)
    ensures (y + 1 - 1601) / 400 == (y - 1601) / 400 + (if y % 400 == 0 then 1 else 0)
  {
  }

  /** Every day of year y falls before 1 January of any later year. */
  lemma {:induction false} DayFromYearIncreasing(y1: int, y2: int)
    requires y1 < y2
    ensures DayFromYear(y1) + DaysInYear(y1) <= DayFromYear(y2)
    decreases y2 - y1
  {
    DayFromYearStep(y1);
    if y1 + 1 < y2 {
      DayFromYearIncreasing(y1 + 1, y2);
    }
  }

  /** The days before a month grow with the month. */
  lemma {:induction false} DaysBeforeMonthIncreasing(y: int, m1: int, m2: int)
    requires 0 <= m1 < m2 <= 12
    ensures DaysBeforeMonth(y, m1) + DaysInMonth(y, m1) <= DaysBeforeMonth(y, m2)
    decreases m2 - m1
  {
    if m1 + 1 < m2 {
      DaysBeforeMonthIncreasing(y, m1 + 1, m2);
    }
  }

  /** An earlier calendar date is an earlier day. */
  lemma {:induction false} MakeDayIncreasing(y1: int, m1: int, d1: int, y2: int, m2: int, d2: int)
    requires ValidDate(y1, m1, d1) && ValidDate(y2, m2, d2)
    requires Before(y1, m1, d1, y2, m2, d2)
    ensures MakeDay(y1, m1 - 1, d1) < MakeDay(y2, m2 - 1, d2)
  {
    MakeDayInYear(y1, m1, d1);
    MakeDayInYear(y2, m2, d2);
    DayNumberIncreasing(y1, m1, d1, y2, m2, d2);
  }

  /** The same, on the day numbers of dates within their year. */
  lemma DayNumberIncreasing(y1: int, m1: int, d1: int, y2: int, m2: int, d2: int)
    requires ValidDate(y1, m1, d1) && ValidDate(y2, m2, d2)
    requires Before(y1, m1, d1, y2, m2, d2)
    ensures DayFromYear(y1) + DaysBeforeMonth(y1, m1 - 1) + d1 < DayFromYear(y2) + DaysBeforeMonth(y2, m2 - 1) + d2
  {
    if y1 < y2 {
      EarlierYear(y1, m1, d1, y2, m2, d2);
    } else if m1 < m2 {
      EarlierMonth(y1, m1, d1, m2, d2);
    }
  }

  /** For a month from 1 to 12 no month carries into the year. */
  lemma MakeDayInYear(y: int, m: int, d: int)
    requires 1 <= m <= 12
    ensures MakeDay(y, m - 1, d) == DayFromYear(y) + DaysBeforeMonth(y, m - 1) + d - 1
  {
    assert (m - 1) / 12 == 0 && (m - 1) % 12 == m - 1;
  }

  /** A day of an earlier month of the same year comes first. */
  lemma EarlierMonth(y: int, m1: int, d1: int, m2: int, d2: int)
    requires 1 <= m1 < m2 <= 12 && d1 <= DaysInMonth(y, m1 - 1) && 1 <= d2
    ensures DaysBeforeMonth(y, m1 - 1) + d1 < DaysBeforeMonth(y, m2 - 1) + d2
  {
    DaysBeforeMonthIncreasing(y, m1 - 1, m2 - 1);
  }

  /** A day of an earlier year comes first. */
  lemma EarlierYear(y1: int, m1: int, d1: int, y2: int, m2: int, d2: int)
    requires y1 < y2 && 1 <= m1 <= 12 && d1 <= DaysInMonth(y1, m1 - 1) && 1 <= m2 <= 12 && 1 <= d2
    ensures DayFromYear(y1) + DaysBeforeMonth(y1, m1 - 1) + d1 < DayFromYear(y2) + DaysBeforeMonth(y2, m2 - 1) + d2
  {
    DaysBeforeMonthIncreasing(y1, m1 - 1, 12);
    MonthsFillYear(y1);
    DayFromYearIncreasing(y1, y2);
  }

  /** For years from 100 on, an earlier calendar date gives strictly fewer
      seconds; 1970-01-01 gives 0 (EpochIsZero). */
  lemma {:induction false} UtcSecondsIncreasing(a: string, b: string)
    requires IsDateString(a) && IsDateString(b)
    requires DateParts(a).0 >= 100 && DateParts(b).0 >= 100
    requires ValidDate(DateParts(a).0, DateParts(a).1, DateParts(a).2)
    requires ValidDate(DateParts(b).0, DateParts(b).1, DateParts(b).2)
    requires Before(DateParts(a).0, DateParts(a).1, DateParts(a).2, DateParts(b).0, DateParts(b).1, DateParts(b).2)
    ensures UtcSeconds(a) < UtcSeconds(b)
  {
    var pa, pb := DateParts(a), DateParts(b);
    DatesIncreasing(a, b, pa.0, pa.1, pa.2, pb.0, pb.1, pb.2);
  }

  /** UtcSecondsIncreasing on the parts of the two dates. */
  lemma DatesIncreasing(a: string, b: string, y1: int, m1: int, d1: int, y2: int, m2: int, d2: int)
    requires IsDateString(a) && IsDateString(b) && DateParts(a) == (y1, m1, d1) && DateParts(b) == (y2, m2, d2)
    requires y1 >= 100 && y2 >= 100
    requires ValidDate(y1, m1, d1) && ValidDate(y2, m2, d2)
    requires Before(y1, m1, d1, y2, m2, d2)
    ensures UtcSeconds(a) < UtcSeconds(b)
  {
    UtcDayOf(a, y1, m1, d1);
    UtcDayOf(b, y2, m2, d2);
    MakeDayIncreasing(y1, m1, d1, y2, m2, d2);
    ScaledLess(UtcSeconds(a), UtcSeconds(b), UtcDay(a), UtcDay(b));
  }

  /** From the year 100 on, the written year is the full year. */
  lemma UtcDayOf(date: string, y: int, m: int, d: int)
    requires IsDateString(date) && DateParts(date) == (y, m, d) && y >= 100
    ensures UtcDay(date) == MakeDay(y, m - 1, d)
  {
  }

  lemma ScaledLess(x: int, y: int, dx: int, dy: int)
    requires x == 86400 * dx && y == 86400 * dy && dx < dy
    ensures x < y
  {
  }

  /** A two-digit year is read as a twentieth-century year: "0024-05-01" and
      "1924-05-01" give the same seconds. */
  lemma TwoDigitYearAlias(y: int, m: int, d: int)
    requires 0 <= y <= 99
    ensures DateUtc(y, m, d) == DateUtc(1900 + y, m, d)
  {
  }

  /** The day after the last of a month is the first of the next month; after
      the last of December comes the first of January of the next year. */
  lemma MonthRollOver(y: int, m: int)
    requires 100 <= y && 0 <= m < 12
    ensures m < 11 ==> DateUtc(y, m, DaysInMonth(y, m) + 1) == DateUtc(y, m + 1, 1)
    ensures m == 11 ==> DateUtc(y, m, DaysInMonth(y, m) + 1) == DateUtc(y + 1, 0, 1)
  {
    if m < 11 {
      NextMonthRollOver(y, m);
    } else {
      NewYearRollOver(y);
    }
  }

  /** The day after a month's last, as day numbers, within one year. */
  lemma NextMonthRollOver(y: int, m: int)
    requires 0 <= m < 11
    ensures MakeDay(y, m, DaysInMonth(y, m) + 1) == MakeDay(y, m + 1, 1)
  {
    assert (m + 1) / 12 == 0 && m / 12 == 0 && (m + 1) % 12 == m + 1 && m % 12 == m;
  }

  /** 32 December is 1 January of the next year, as day numbers. */
  lemma NewYearRollOver(y: int)
    requires 100 <= y
    ensures MakeDay(y, 11, 32) == MakeDay(y + 1, 0, 1)
  {
    MonthsFillYear(y);
    DayFromYearStep(y);
    assert DaysBeforeMonth(y, 12) == DaysBeforeMonth(y, 11) + 31;
  }

  // ---------------------------------------------------------------------------
  // parseBriefingDate

  /** The part-count check of parseBriefingDate (utils/dateUtils.js:60-70):
      the string must split on `-` into exactly three parts, which then go to
      the local-time conversion (a parameter); otherwise null. */
  function ParseBriefingDate<T>(briefingDate: string, toLocal: (string, string, string) -> T): (r: Option<T>)
    ensures r.Some? <==> Count(briefingDate, '-') == 2
    ensures r.Some? ==> exists p0, p1, p2 ::
      && r.value == toLocal(p0, p1, p2)
      && p0 + "-" + p1 + "-" + p2 == briefingDate
      && '-' !in p0 && '-' !in p1 && '-' !in p2
  {
    var parts := Split(briefingDate, '-');
    if |parts| == 3 then
      JoinThree(parts);
      Some(toLocal(parts[0], parts[1], parts[2]))
    else None
  }

  lemma JoinThree(parts: seq<string>)
    requires |parts| == 3
    ensures Join(parts, '-') == parts[0] + "-" + parts[1] + "-" + parts[2]
  {
    assert Join(parts[1..][1..], '-') == parts[2];
    assert Join(parts[1..], '-') == parts[1] + "-" + parts[2];
  }
}
