/**
 * Proleptic Gregorian calendar arithmetic as Python's `datetime` does it:
 * day ordinals (0001-01-01 is day 1), weekdays, and the ISO 8601 week date
 * (ISO 8601:2004 section 4.1.4: weeks start on Monday, week 1 is the week
 * holding the year's first Thursday).
 *
 * Also the browser dashboard's own week number, which counts
 * Sunday-to-Saturday weeks from the one holding 1 January.
 */
module Calendar {

  datatype Date = Date(year: int, month: int, day: int)

  predicate IsLeap(y: int) {
    y % 4 == 0 && (y % 100 != 0 || y % 400 == 0)
  }

  function DaysInMonth(y: int, m: int): int
    requires 1 <= m <= 12
  {
    if m == 2 then (if IsLeap(y) then 29 else 28)
    else if m == 4 || m == 6 || m == 9 || m == 11 then 30
    else 31
  }

  /** A date Python's `datetime` accepts (MINYEAR = 1, MAXYEAR = 9999). */
  predicate Valid(d: Date) {
    1 <= d.year <= 9999 && 1 <= d.month <= 12 && 1 <= d.day <= DaysInMonth(d.year, d.month)
  }

  /**
   * A day of the years 0..9999, the years a four-digit JavaScript date
   * text can name; unlike Python, JavaScript also has the year 0.
   */
  predicate Proleptic(d: Date) {
    0 <= d.year <= 9999 && 1 <= d.month <= 12 && 1 <= d.day <= DaysInMonth(d.year, d.month)
  }

  function YearDays(y: int): int {
    if IsLeap(y) then 366 else 365
  }

  /**
   * Days in the years before `y`, counted year by year from the proleptic
   * year 0 (a leap year), so that 0001-01-01 is day 1.
   */
  function DaysBeforeYear(y: int): int
    requires y >= 0
  {
    if y == 0 then -366 else DaysBeforeYear(y - 1) + YearDays(y - 1)
  }

  function DaysBeforeMonth(y: int, m: int): int
    requires 1 <= m <= 12
  {
    if m == 1 then 0 else DaysBeforeMonth(y, m - 1) + DaysInMonth(y, m - 1)
  }

  /** Day number of a date; 0001-01-01 is day 1 (Python `date.toordinal`). */
  function Ordinal(d: Date): int
    requires Proleptic(d)
  {
    DaysBeforeYear(d.year) + DaysBeforeMonth(d.year, d.month) + d.day
  }

  function Jan1(y: int): int
    requires y >= 0
  {
    DaysBeforeYear(y) + 1
  }

  lemma DivStep4(p: int)
    requires p >= 0
    ensures (p + 1) / 4 - p / 4 == if (p + 1) % 4 == 0 then 1 else 0
  {}

  lemma DivStep100(p: int)
    requires p >= 0
    ensures (p + 1) / 100 - p / 100 == if (p + 1) % 100 == 0 then 1 else 0
  {}

  lemma DivStep400(p: int)
    requires p >= 0
    ensures (p + 1) / 400 - p / 400 == if (p + 1) % 400 == 0 then 1 else 0
  {}

  /** The leap-year count formula Python's `datetime` uses for the days before a year. */
  function ClosedDaysBeforeYear(y: int): int
    requires y >= 0
  {
    var p := y - 1;
    p * 365 + p / 4 - p / 100 + p / 400
  }

  lemma MultipleOf400(y: int)
    requires y % 400 == 0
    ensures y % 100 == 0 && y % 4 == 0
  {
    var k := y / 400;
    assert y == 400 * k;
    assert y / 100 == 4 * k;
    assert y / 4 == 100 * k;
  }

  lemma MultipleOf100(y: int)
    requires y % 100 == 0
    ensures y % 4 == 0
  {
    assert y == 4 * (25 * (y / 100));
  }

  lemma ClosedStep(y: int)
    requires y >= 0
    ensures ClosedDaysBeforeYear(y + 1) - ClosedDaysBeforeYear(y) == YearDays(y)
  {
    if y > 0 {
      var a, b, c := (y - 1) / 4, (y - 1) / 100, (y - 1) / 400;
      DivStep4(y - 1);
      DivStep100(y - 1);
      DivStep400(y - 1);
      if y % 400 == 0 {
        MultipleOf400(y);
      } else if y % 100 == 0 {
        MultipleOf100(y);
      }
    }
  }

  /** Counting year by year agrees with the closed leap-year formula. */
  lemma {:induction false} DaysBeforeYearClosed(y: int)
    requires y >= 0
    ensures DaysBeforeYear(y) == ClosedDaysBeforeYear(y)
  {
    if y > 0 {
      DaysBeforeYearClosed(y - 1);
      ClosedStep(y - 1);
    }
  }

  lemma YearLength(y: int)
    requires y >= 0
    ensures Jan1(y + 1) - Jan1(y) == YearDays(y)
  {}

  lemma DaysBeforeMonthBound(y: int, m: int)
    requires 1 <= m <= 12
    ensures 0 <= DaysBeforeMonth(y, m) <= 334 + (if IsLeap(y) then 1 else 0)
    ensures DaysBeforeMonth(y, m) + DaysInMonth(y, m) <= 365 + (if IsLeap(y) then 1 else 0)
  {
    if m > 1 {
      DaysBeforeMonthBound(y, m - 1);
    }
  }

  /** A valid date lies in its year's span of ordinals. */
  lemma OrdinalInYear(d: Date)
    requires Proleptic(d)
    ensures Jan1(d.year) <= Ordinal(d) < Jan1(d.year + 1)
  {
    DaysBeforeMonthBound(d.year, d.month);
    YearLength(d.year);
  }

  /** Monday = 0 ... Sunday = 6 (Python `date.weekday`). */
  function Weekday(ord: int): int {
    (ord + 6) % 7
  }

  /** The Monday of ISO week 1 of a year whose 1 January is day `firstDay`. */
  function Week1MondayFrom(firstDay: int): (r: int)
    ensures Weekday(r) == 0
    ensures firstDay - 3 <= r <= firstDay + 3
  {
    var firstWeekday := Weekday(firstDay);
    var week1Monday := firstDay - firstWeekday;
    if firstWeekday > 3 then week1Monday + 7 else week1Monday
  }

  /** Ordinal of the Monday that starts ISO week 1 of year `y`. */
  function IsoWeek1Monday(y: int): int
    requires y >= 0
  {
    Week1MondayFrom(Jan1(y))
  }

  lemma Week1MondayGap(y: int)
    requires y >= 0
    ensures var gap := IsoWeek1Monday(y + 1) - IsoWeek1Monday(y);
      gap == 364 || gap == 371
  {
    YearLength(y);
    var a, b := IsoWeek1Monday(y), IsoWeek1Monday(y + 1);
    MondaysApart(a, b);
  }

  lemma MondaysApart(a: int, b: int)
    requires Weekday(a) == 0 && Weekday(b) == 0
    ensures (b - a) % 7 == 0
  {
    assert a + 6 == 7 * ((a + 6) / 7);
    assert b + 6 == 7 * ((b + 6) / 7);
    assert b - a == 7 * ((b + 6) / 7 - (a + 6) / 7);
  }

  datatype IsoWeek = IsoWeek(year: int, week: int)

  /** Week `week` (from 1) of the ISO year starting on Monday `start` holds day `today`. */
  predicate InWeek(start: int, week: int, today: int) {
    start + 7 * (week - 1) <= today < start + 7 * week
  }

  /**
   * Python's `isocalendar` step for day `today` of calendar year `y`, given
   * the week-1 Mondays `prev`, `cur`, `next` of years `y - 1`, `y`, `y + 1`:
   * before `cur` the day belongs to the previous ISO year; from week 53 of
   * the count on, once `next` is reached, to week 1 of the next.
   */
  function IsoStep(today: int, y: int, prev: int, cur: int, next: int): IsoWeek {
    if today < cur then
      IsoWeek(y - 1, (today - prev) / 7 + 1)
    else
      var week := (today - cur) / 7;
      if week >= 52 && today >= next then IsoWeek(y + 1, 1)
      else IsoWeek(y, week + 1)
  }

  /**
   * When the three Mondays sit within three days of their 1 January and
   * 364 or 371 days apart, the step lands in the ISO year whose week 1
   * starts on or before the day and whose successor starts after it.
   */
  lemma IsoStepBrackets(today: int, y: int, j0: int, j1: int, j2: int, m0: int, m1: int, m2: int, m3: int, r: IsoWeek)
    requires r == IsoStep(today, y, m0, m1, m2)
    requires j0 + 365 <= j1 && j1 + 365 <= j2
    requires j1 <= today < j2
    requires j0 - 3 <= m0 <= j0 + 3 && j1 - 3 <= m1 <= j1 + 3 && j2 - 3 <= m2 <= j2 + 3
    requires m1 - m0 == 364 || m1 - m0 == 371
    requires m2 - m1 == 364 || m2 - m1 == 371
    requires m3 - m2 == 364 || m3 - m2 == 371
    ensures y - 1 <= r.year <= y + 1
    ensures r.year == y - 1 ==> InWeek(m0, r.week, today) && today < m1
    ensures r.year == y ==> InWeek(m1, r.week, today) && today < m2
    ensures r.year == y + 1 ==> InWeek(m2, r.week, today) && today < m3
    ensures 1 <= r.week <= 53
  {}

  /** Python `date.isocalendar()[:2]`. */
  function IsoCalendar(d: Date): (r: IsoWeek)
    requires Valid(d)
    ensures d.year - 1 <= r.year <= d.year + 1 && r.year >= 0
    ensures InWeek(IsoWeek1Monday(r.year), r.week, Ordinal(d))
    ensures Ordinal(d) < IsoWeek1Monday(r.year + 1)
    ensures 1 <= r.week <= 53
  {
    var r := IsoStep(Ordinal(d), d.year, IsoWeek1Monday(d.year - 1), IsoWeek1Monday(d.year), IsoWeek1Monday(d.year + 1));
    IsoCalendarBrackets(d, r);
    r
  }

  /** ISO week `r` holds day `o`, and the next ISO year starts after it. */
  predicate Brackets(r: IsoWeek, o: int) {
    && r.year >= 0
    && InWeek(IsoWeek1Monday(r.year), r.week, o)
    && o < IsoWeek1Monday(r.year + 1)
    && 1 <= r.week <= 53
  }

  /** The facts `IsoStepBrackets` needs, for the years around a valid date. */
  lemma IsoCalendarBrackets(d: Date, r: IsoWeek)
    requires Valid(d)
    requires r == IsoStep(Ordinal(d), d.year, IsoWeek1Monday(d.year - 1), IsoWeek1Monday(d.year), IsoWeek1Monday(d.year + 1))
    ensures d.year - 1 <= r.year <= d.year + 1 && Brackets(r, Ordinal(d))
  {
    var y, o := d.year, Ordinal(d);
    var m0, m1, m2, m3 := IsoWeek1Monday(y - 1), IsoWeek1Monday(y), IsoWeek1Monday(y + 1), IsoWeek1Monday(y + 2);
    OrdinalInYear(d);
    YearMondays(y);
    IsoStepBrackets(o, y, Jan1(y - 1), Jan1(y), Jan1(y + 1), m0, m1, m2, m3, r);
    MondaysBracket(o, y, r, m0, m1, m2, m3);
  }

  /** The 1 Januaries and week-1 Mondays around year `y`, as `IsoStepBrackets` needs them. */
  lemma YearMondays(y: int)
    requires y >= 1
    ensures Jan1(y - 1) + 365 <= Jan1(y) && Jan1(y) + 365 <= Jan1(y + 1)
    ensures Jan1(y - 1) - 3 <= IsoWeek1Monday(y - 1) <= Jan1(y - 1) + 3
    ensures Jan1(y) - 3 <= IsoWeek1Monday(y) <= Jan1(y) + 3
    ensures Jan1(y + 1) - 3 <= IsoWeek1Monday(y + 1) <= Jan1(y + 1) + 3
    ensures var g := IsoWeek1Monday(y) - IsoWeek1Monday(y - 1); g == 364 || g == 371
    ensures var g := IsoWeek1Monday(y + 1) - IsoWeek1Monday(y); g == 364 || g == 371
    ensures var g := IsoWeek1Monday(y + 2) - IsoWeek1Monday(y + 1); g == 364 || g == 371
  {
    YearLength(y - 1);
    YearLength(y);
    Week1MondayGap(y - 1);
    Week1MondayGap(y);
    Week1MondayGap(y + 1);
  }

  /** Reads a bracket by the three Mondays as a bracket by the year's own week-1 Mondays. */
  lemma MondaysBracket(o: int, y: int, r: IsoWeek, m0: int, m1: int, m2: int, m3: int)
    requires y >= 1
    requires m0 == IsoWeek1Monday(y - 1) && m1 == IsoWeek1Monday(y)
    requires m2 == IsoWeek1Monday(y + 1) && m3 == IsoWeek1Monday(y + 2)
    requires y - 1 <= r.year <= y + 1
    requires r.year == y - 1 ==> InWeek(m0, r.week, o) && o < m1
    requires r.year == y ==> InWeek(m1, r.week, o) && o < m2
    requires r.year == y + 1 ==> InWeek(m2, r.week, o) && o < m3
    requires 1 <= r.week <= 53
    ensures Brackets(r, o)
  {
    if r.year == y - 1 {
      assert r.year + 1 == y;
    } else if r.year == y {
      assert r.year + 1 == y + 1;
    } else {
      assert r.year + 1 == y + 2;
    }
  }

  /** The ISO week is unique: any year/week that brackets the date is the one computed. */
  lemma IsoCalendarUnique(d: Date, w: IsoWeek)
    requires Valid(d) && w.year >= 0 && w.week >= 1
    requires InWeek(IsoWeek1Monday(w.year), w.week, Ordinal(d))
    requires Ordinal(d) < IsoWeek1Monday(w.year + 1)
    ensures IsoCalendar(d) == w
  {
    var r := IsoCalendar(d);
    if r.year < w.year {
      Week1MondayMonotone(r.year, w.year);
    } else if w.year < r.year {
      Week1MondayMonotone(w.year, r.year);
    }
    assert r.year == w.year;
    InWeekUnique(IsoWeek1Monday(w.year), r.week, w.week, Ordinal(d));
  }

  /** A day lies in one week of the count only. */
  lemma InWeekUnique(start: int, a: int, b: int, o: int)
    requires InWeek(start, a, o) && InWeek(start, b, o)
    ensures a == b
  {
    assert a == (o - start) / 7 + 1;
    assert b == (o - start) / 7 + 1;
  }

  lemma Week1MondayMonotone(a: int, b: int)
    requires 0 <= a < b
    ensures IsoWeek1Monday(a + 1) <= IsoWeek1Monday(b)
    decreases b - a
  {
    if a + 1 < b {
      Week1MondayMonotone(a + 1, b);
      Week1MondayGap(a + 1);
    }
  }

  /** The Monday on or before day `o` is `M` when `o` falls in the week starting on Monday `M`. */
  lemma MondayOf(m: int, o: int)
    requires Weekday(m) == 0 && m <= o < m + 7
    ensures o - Weekday(o) == m
  {
    assert m + 6 == 7 * ((m + 6) / 7);
  }

  /** The Monday that starts the ISO week of a date. */
  lemma IsoWeekMonday(d: Date)
    requires Valid(d)
    ensures var r := IsoCalendar(d);
      Ordinal(d) - Weekday(Ordinal(d)) == IsoWeek1Monday(r.year) + 7 * (r.week - 1)
  {
    var r := IsoCalendar(d);
    var w := IsoWeek1Monday(r.year);
    assert Weekday(w) == 0;
    MondayPlusWeeks(w, r.week - 1);
    MondayOf(w + 7 * (r.week - 1), Ordinal(d));
  }

  /** Whole weeks after a Monday is a Monday. */
  lemma MondayPlusWeeks(m: int, k: int)
    requires Weekday(m) == 0
    ensures Weekday(m + 7 * k) == 0
  {
    assert m + 6 == 7 * ((m + 6) / 7);
    assert m + 7 * k + 6 == 7 * ((m + 6) / 7 + k);
  }

  /** A date whose Monday is that of another date's ISO week lies in that ISO week. */
  lemma SameMondaySameIsoWeek(d1: Date, d2: Date)
    requires Valid(d1) && Valid(d2)
    requires Ordinal(d1) - Weekday(Ordinal(d1)) == Ordinal(d2) - Weekday(Ordinal(d2))
    ensures IsoCalendar(d1) == IsoCalendar(d2)
  {
    IsoWeekMonday(d1);
    var r1 := IsoCalendar(d1);
    Week1MondayGap(r1.year);
    SameWeekBracket(IsoWeek1Monday(r1.year), IsoWeek1Monday(r1.year + 1), r1.week, Ordinal(d1), Ordinal(d2));
    IsoCalendarUnique(d2, r1);
  }

  /** A day sharing its Monday with a day of week `week` lies in that week, before the next year's week 1. */
  lemma SameWeekBracket(start: int, next: int, week: int, o1: int, o2: int)
    requires next - start == 364 || next - start == 371
    requires InWeek(start, week, o1) && o1 < next
    requires o1 - Weekday(o1) == start + 7 * (week - 1)
    requires o1 - Weekday(o1) == o2 - Weekday(o2)
    ensures InWeek(start, week, o2) && o2 < next
  {
    assert 0 <= Weekday(o2) < 7;
  }

  /** Two dates share an ISO week exactly when they share their Monday. */
  lemma IsoWeekSameMonday(d1: Date, d2: Date)
    requires Valid(d1) && Valid(d2)
    ensures IsoCalendar(d1) == IsoCalendar(d2) <==>
      Ordinal(d1) - Weekday(Ordinal(d1)) == Ordinal(d2) - Weekday(Ordinal(d2))
  {
    IsoWeekMonday(d1);
    IsoWeekMonday(d2);
    if Ordinal(d1) - Weekday(Ordinal(d1)) == Ordinal(d2) - Weekday(Ordinal(d2)) {
      SameMondaySameIsoWeek(d1, d2);
    }
  }

  // ---------------------------------------------------------------------
  // The browser dashboard's week number

  /** JavaScript `Date.getDay()` of a day ordinal: Sunday = 0 ... Saturday = 6. */
  function JsDay(ord: int): int {
    ord % 7
  }

  /**
   * `Math.ceil((days + jan1Day + 1) / 7)` where `days` counts days since
   * 1 January and `jan1Day` is 1 January's `getDay()`; Dafny's division
   * rounds down, so adding 6 first rounds up, for negative days too.
   */
  function JsWeekNumber(days: int, jan1Day: int): (w: int)
    requires 0 <= jan1Day < 7
    ensures days >= 0 ==> w >= 1
    ensures days <= 365 ==> w <= 54
    ensures days + jan1Day + 1 <= 0 ==> w <= 0
  {
    (days + jan1Day + 1 + 6) / 7
  }

  /**
   * The year `new Date(year, 0, 1)` builds: JavaScript reads the years
   * 0..99 as 1900..1999.
   */
  function JsYear(y: int): int {
    if 0 <= y <= 99 then 1900 + y else y
  }

  /**
   * The dashboard week of a date: days are counted from the 1 January
   * `new Date(year, 0, 1)` builds, which for the years 0..99 is the one of
   * 1900..1999, so those days count backwards.
   */
  function JsWeek(d: Date): int
    requires Proleptic(d)
  {
    var jan1 := Jan1(JsYear(d.year));
    JsWeekNumber(Ordinal(d) - jan1, JsDay(jan1))
  }

  /** Each year has at least 365 days. */
  lemma {:induction false} Jan1Grows(a: int, b: int)
    requires 0 <= a <= b
    ensures Jan1(b) - Jan1(a) >= 365 * (b - a)
    decreases b - a
  {
    if a < b {
      Jan1Grows(a, b - 1);
      YearLength(b - 1);
    }
  }

  /**
   * The dashboard week counts Sunday-to-Saturday weeks: it is the index of
   * the date's Sunday-started week, counting the week holding the
   * 1 January of `JsYear` as 1. From the year 100 on it lies in 1..54;
   * before, it is negative.
   */
  lemma JsWeekCountsSundayWeeks(d: Date)
    requires Proleptic(d)
    ensures JsWeek(d) == Ordinal(d) / 7 - Jan1(JsYear(d.year)) / 7 + 1
    ensures d.year >= 100 ==> 1 <= JsWeek(d) <= 54
    ensures d.year < 100 ==> JsWeek(d) < 0
  {
    OrdinalInYear(d);
    YearLength(d.year);
    var o, j := Ordinal(d), Jan1(JsYear(d.year));
    var k := o - j + j % 7;
    assert j - j % 7 == 7 * (j / 7);
    assert k == o - 7 * (j / 7);
    assert (k + 7) / 7 == k / 7 + 1;
    assert k / 7 == o / 7 - j / 7;
    if d.year < 100 {
      Jan1Grows(d.year + 1, JsYear(d.year));
    }
  }

  /** Two dates of one year share a dashboard week iff they share a Sunday-started week. */
  lemma JsWeekSameSundayWeek(d1: Date, d2: Date)
    requires Proleptic(d1) && Proleptic(d2) && d1.year == d2.year
    ensures JsWeek(d1) == JsWeek(d2) <==> Ordinal(d1) / 7 == Ordinal(d2) / 7
  {
    JsWeekCountsSundayWeeks(d1);
    JsWeekCountsSundayWeeks(d2);
  }

  /**
   * The two week rules disagree: 1 January 2023, a Sunday, is in ISO week
   * 52 of 2022 but in dashboard week 1 of 2023.
   */
  lemma WeekRulesDisagree()
    ensures IsoCalendar(Date(2023, 1, 1)) == IsoWeek(2022, 52)
    ensures JsWeek(Date(2023, 1, 1)) == 1
  {
    var d := Date(2023, 1, 1);
    NewYear2023();
    IsoCalendarUnique(d, IsoWeek(2022, 52));
  }

  /** 1 January 2023 is day 738521, and the ISO years 2022 and 2023 start on days 738158 and 738522. */
  lemma NewYear2023()
    ensures Ordinal(Date(2023, 1, 1)) == 738521 && Jan1(2023) == 738521
    ensures IsoWeek1Monday(2022) == 738158 && IsoWeek1Monday(2023) == 738522
  {
    DaysBeforeYearClosed(2022);
    DaysBeforeYearClosed(2023);
  }

  /** The dashboard rule reaches week 54, which no ISO year has: 31 December 2000. */
  lemma JsWeekReaches54()
    ensures JsWeek(Date(2000, 12, 31)) == 54
  {
    DaysBeforeYearClosed(2000);
    DaysBeforeYearClosed(2001);
    var d := Date(2000, 12, 31);
    assert DaysBeforeMonth(2000, 12) == 335;
  }

  // ---------------------------------------------------------------------
  // Chronological order

  /** Year, then month, then day. */
  predicate DateLe(a: Date, b: Date) {
    a.year < b.year || (a.year == b.year && (a.month < b.month || (a.month == b.month && a.day <= b.day)))
  }

  lemma {:induction false} Jan1Monotone(a: int, b: int)
    requires 0 <= a <= b
    ensures Jan1(a) <= Jan1(b)
    decreases b - a
  {
    if a < b {
      Jan1Monotone(a, b - 1);
      YearLength(b - 1);
    }
  }

  lemma {:induction false} DaysBeforeMonthMonotone(y: int, a: int, b: int)
    requires 1 <= a <= b <= 12
    ensures DaysBeforeMonth(y, a) + (if a < b then DaysInMonth(y, a) else 0) <= DaysBeforeMonth(y, b)
    decreases b - a
  {
    if a < b - 1 {
      DaysBeforeMonthMonotone(y, a, b - 1);
    }
  }

  /** Comparing dates field by field is comparing their day numbers. */
  lemma OrdinalOrder(a: Date, b: Date)
    requires Valid(a) && Valid(b)
    ensures DateLe(a, b) <==> Ordinal(a) <= Ordinal(b)
  {
    OrdinalInYear(a);
    OrdinalInYear(b);
    if a.year < b.year {
      Jan1Monotone(a.year + 1, b.year);
    } else if b.year < a.year {
      Jan1Monotone(b.year + 1, a.year);
    } else if a.month < b.month {
      DaysBeforeMonthMonotone(a.year, a.month, b.month);
    } else if b.month < a.month {
      DaysBeforeMonthMonotone(a.year, b.month, a.month);
    }
  }
}

