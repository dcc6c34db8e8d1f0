/**
 * Date text as the sales report reads and writes it: Python's
 * `datetime.strptime` for the two formats `%Y%m%d` and `%Y-%m-%d`, the
 * report's `format_date`, and its ISO week and month keys
 * (generate_sales_report.py).
 */
module PyDates {
  import opened Wrappers
  import opened Text
  import opened Calendar
  import opened Sorting
  import PyNum

  // ---------------------------------------------------------------------
  // strptime

  /** One matched directive: its value and how many characters it took. */
  datatype Piece = Piece(value: int, len: nat)

  /**
   * The alternatives of `%m` (`1[0-2]`, `0[1-9]`, `[1-9]`) that match at
   * position `i`, in the order the regular expression tries them.
   */
  function MonthPieces(s: string, i: nat): (r: seq<Piece>)
    ensures forall k :: 0 <= k < |r| ==> 1 <= r[k].value <= 12 && 1 <= r[k].len && i + r[k].len <= |s|
  {
    (if i + 1 < |s| && s[i] == '1' && '0' <= s[i + 1] <= '2' then [Piece(10 + DigitValue(s[i + 1]), 2)] else [])
    + (if i + 1 < |s| && s[i] == '0' && '1' <= s[i + 1] <= '9' then [Piece(DigitValue(s[i + 1]), 2)] else [])
    + (if i < |s| && '1' <= s[i] <= '9' then [Piece(DigitValue(s[i]), 1)] else [])
  }

  /**
   * The first alternative of `%d` (`3[01]`, `[12]\d`, `0[1-9]`, `[1-9]`,
   * ` [1-9]`) that matches at position `i`. `%d` ends the pattern, so the
   * first alternative that matches is the one the match keeps. `\d`
   * matches a decimal digit of any script, which `int()` then reads.
   */
  function DayPiece(s: string, i: nat): (r: Option<Piece>)
    ensures r.Some? ==> 1 <= r.value.value <= 31 && 1 <= r.value.len && i + r.value.len <= |s|
  {
    if i + 1 < |s| && s[i] == '3' && '0' <= s[i + 1] <= '1' then Some(Piece(30 + DigitValue(s[i + 1]), 2))
    else if i + 1 < |s| && '1' <= s[i] <= '2' && PyNum.IsDecimal(s[i + 1]) then
      Some(Piece(10 * DigitValue(s[i]) + PyNum.DecimalValue(s[i + 1]), 2))
    else if i + 1 < |s| && s[i] == '0' && '1' <= s[i + 1] <= '9' then Some(Piece(DigitValue(s[i + 1]), 2))
    else if i < |s| && '1' <= s[i] <= '9' then Some(Piece(DigitValue(s[i]), 1))
    else if i + 1 < |s| && s[i] == ' ' && '1' <= s[i + 1] <= '9' then Some(Piece(DigitValue(s[i + 1]), 2))
    else None
  }

  /** The groups of a successful match and where the match ends. */
  datatype Fields = Fields(year: int, month: int, day: int, end: nat)

  predicate MonthsFit(s: string, months: seq<Piece>, at: nat) {
    forall k :: 0 <= k < |months| ==> 1 <= months[k].value <= 12 && at + months[k].len <= |s|
  }

  /**
   * Tries the `%m` alternatives in order; each is followed by the separator
   * and `%d`. The regular expression backtracks into the next `%m`
   * alternative only when the rest fails to match.
   */
  function AfterMonth(s: string, year: int, months: seq<Piece>, at: nat, sep: string): (r: Option<Fields>)
    requires MonthsFit(s, months, at)
    ensures r.Some? ==> r.value.end <= |s| && r.value.year == year
    ensures r.Some? ==> 1 <= r.value.month <= 12 && 1 <= r.value.day <= 31
    ensures |months| == 0 ==> r.None?
    decreases |months|
  {
    if |months| == 0 then None
    else
      var j := at + months[0].len;
      var k := j + |sep|;
      if k <= |s| && s[j..k] == sep && DayPiece(s, k).Some? then
        var d := DayPiece(s, k).value;
        Some(Fields(year, months[0].value, d.value, k + d.len))
      else
        AfterMonth(s, year, months[1..], at, sep)
  }

  /**
   * `re.match` of the pattern compiled from `%Y<sep>%m<sep>%d` (`%Y` is
   * `\d\d\d\d`, four decimal digits of any script): the first match the
   * alternatives yield, not the longest.
   */
  function PatternMatch(s: string, sep: string): (r: Option<Fields>)
    ensures r.Some? ==> r.value.end <= |s| && 0 <= r.value.year <= 9999
    ensures r.Some? ==> 1 <= r.value.month <= 12 && 1 <= r.value.day <= 31
  {
    var at := 4 + |sep|;
    if at <= |s| && PyNum.AllDecimal(s[..4]) && s[4..at] == sep then
      PyNum.DecimalsAscii(s[..4]);
      DigitsBound(PyNum.IntText(s[..4]));
      AfterMonth(s, PyNum.DecimalsValue(s[..4]), MonthPieces(s, at), at, sep)
    else None
  }

  /**
   * `datetime.strptime(s, "%Y<sep>%m<sep>%d").date()`; `None` stands for
   * the `ValueError`: no match, text left over after the match, or a
   * day the month does not have (or year 0).
   */
  function Strptime(s: string, sep: string): (r: Option<Date>)
    ensures r.Some? ==> Valid(r.value)
  {
    match PatternMatch(s, sep)
    case None => None
    case Some(f) =>
      if f.end != |s| then None
      else if Valid(Date(f.year, f.month, f.day)) then Some(Date(f.year, f.month, f.day))
      else None
  }

  // ---------------------------------------------------------------------
  // Renderings of a date

  /** `YYYYMMDD`, the form the sales collector stores. */
  function Compact(d: Date): string
    requires Valid(d)
  {
    Pad(d.year, 4) + Pad(d.month, 2) + Pad(d.day, 2)
  }

  /** `YYYY-MM-DD`. */
  function Dashed(d: Date): string
    requires Valid(d)
  {
    Pad(d.year, 4) + "-" + Pad(d.month, 2) + "-" + Pad(d.day, 2)
  }

  lemma TwoDigits(s: string)
    requires |s| == 2 && AllDigits(s)
    ensures DigitsValue(s) == 10 * DigitValue(s[0]) + DigitValue(s[1])
  {
    var head := s[..1];
    assert head[..0] == [];
    assert DigitsValue(head) == DigitValue(s[0]);
    assert s[..|s| - 1] == head;
  }

  lemma RenderedParts(d: Date)
    requires Valid(d)
    ensures |Pad(d.year, 4)| == 4 && |Pad(d.month, 2)| == 2 && |Pad(d.day, 2)| == 2
    ensures DigitsValue(Pad(d.month, 2)) == 10 * DigitValue(Pad(d.month, 2)[0]) + DigitValue(Pad(d.month, 2)[1])
    ensures DigitsValue(Pad(d.day, 2)) == 10 * DigitValue(Pad(d.day, 2)[0]) + DigitValue(Pad(d.day, 2)[1])
  {
    PadFour(d.year);
    PadTwo(d.month);
    PadTwo(d.day);
    TwoDigits(Pad(d.month, 2));
    TwoDigits(Pad(d.day, 2));
  }

  /** A two-digit month rendering is matched whole by the first `%m` alternative that fits. */
  lemma MonthPieceOfRendering(s: string, i: nat, m: int)
    requires 1 <= m <= 12 && i + 2 <= |s| && IsDigit(s[i]) && IsDigit(s[i + 1])
    requires 10 * DigitValue(s[i]) + DigitValue(s[i + 1]) == m
    ensures |MonthPieces(s, i)| > 0 && MonthPieces(s, i)[0] == Piece(m, 2)
  {}

  /** A two-digit day rendering is matched whole by `%d`. */
  lemma DayPieceOfRendering(s: string, i: nat, d: int)
    requires 1 <= d <= 31 && i + 2 <= |s| && IsDigit(s[i]) && IsDigit(s[i + 1])
    requires 10 * DigitValue(s[i]) + DigitValue(s[i + 1]) == d
    ensures DayPiece(s, i) == Some(Piece(d, 2))
  {}

  /** The first `%m` alternative is kept when the separator and `%d` follow it. */
  lemma AfterFirstMonth(s: string, year: int, months: seq<Piece>, at: nat, sep: string, day: int)
    requires MonthsFit(s, months, at) && |months| > 0
    requires at + months[0].len + |sep| <= |s|
    requires s[at + months[0].len..at + months[0].len + |sep|] == sep
    requires DayPiece(s, at + months[0].len + |sep|) == Some(Piece(day, 2))
    ensures AfterMonth(s, year, months, at, sep) == Some(Fields(year, months[0].value, day, at + months[0].len + |sep| + 2))
  {}

  /**
   * Four year digits, the separator, two month digits, the separator and
   * two day digits match the pattern whole.
   */
  lemma PatternOfFields(s: string, sep: string, y: string, m: string, dd: string, month: int, day: int)
    requires s == y + sep + m + sep + dd
    requires |y| == 4 && AllDigits(y) && |m| == 2 && AllDigits(m) && |dd| == 2 && AllDigits(dd)
    requires 1 <= month <= 12 && 10 * DigitValue(m[0]) + DigitValue(m[1]) == month
    requires 1 <= day <= 31 && 10 * DigitValue(dd[0]) + DigitValue(dd[1]) == day
    ensures PatternMatch(s, sep) == Some(Fields(DigitsValue(y), month, day, |s|))
  {
    var at := 4 + |sep|;
    var k := at + 2 + |sep|;
    FieldsLayout(s, sep, y, m, dd);
    MonthPieceOfRendering(s, at, month);
    DayPieceOfRendering(s, k, day);
    DigitsBound(y);
    PyNum.DecimalsOfAscii(y);
    AfterFirstMonth(s, DigitsValue(y), MonthPieces(s, at), at, sep, day);
  }

  lemma FieldsLayout(s: string, sep: string, y: string, m: string, dd: string)
    requires s == y + sep + m + sep + dd && |y| == 4 && |m| == 2 && |dd| == 2
    ensures s[..4] == y && s[4..4 + |sep|] == sep
    ensures s[4 + |sep|] == m[0] && s[5 + |sep|] == m[1] && s[6 + |sep|..6 + 2 * |sep|] == sep
    ensures s[6 + 2 * |sep|] == dd[0] && s[7 + 2 * |sep|] == dd[1] && |s| == 8 + 2 * |sep|
  {
    var at := 4 + |sep|;
    var k := at + 2 + |sep|;
    assert s[..4] == y && s[4..at] == sep;
    assert s[at] == m[0] && s[at + 1] == m[1];
    assert s[at + 2..k] == sep;
    assert s[k] == dd[0] && s[k + 1] == dd[1];
  }

  /** A whole-text match of a valid date's fields is that date. */
  lemma StrptimeOfMatch(s: string, sep: string, d: Date)
    requires Valid(d) && PatternMatch(s, sep) == Some(Fields(d.year, d.month, d.day, |s|))
    ensures Strptime(s, sep) == Some(d)
  {}

  /** `strptime` reads back the compact rendering of every date. */
  lemma StrptimeCompact(d: Date)
    requires Valid(d)
    ensures Strptime(Compact(d), "") == Some(d)
  {
    RenderedParts(d);
    var y, m, dd := Pad(d.year, 4), Pad(d.month, 2), Pad(d.day, 2);
    assert Compact(d) == y + "" + m + "" + dd;
    PadFour(d.year);
    PatternOfFields(Compact(d), "", y, m, dd, d.month, d.day);
    StrptimeOfMatch(Compact(d), "", d);
  }

  /** `strptime` reads back the dashed rendering of every date. */
  lemma StrptimeDashed(d: Date)
    requires Valid(d)
    ensures Strptime(Dashed(d), "-") == Some(d)
  {
    RenderedParts(d);
    var y, m, dd := Pad(d.year, 4), Pad(d.month, 2), Pad(d.day, 2);
    PadFour(d.year);
    PatternOfFields(Dashed(d), "-", y, m, dd, d.month, d.day);
    StrptimeOfMatch(Dashed(d), "-", d);
  }

  /** `strptime` reads back the compact and the dashed rendering of every date. */
  lemma StrptimeRoundTrip(d: Date)
    requires Valid(d)
    ensures Strptime(Compact(d), "") == Some(d)
    ensures Strptime(Dashed(d), "-") == Some(d)
  {
    StrptimeCompact(d);
    StrptimeDashed(d);
  }

  /** Python's strptime accepts unpadded fields: "2024-1-5" reads as 5 January 2024. */
  lemma UnpaddedAccepted()
    ensures Strptime("2024-1-5", "-") == Some(Date(2024, 1, 5))
  {
    var s := "2024-1-5";
    assert s[..4] == "2024" && s[4..5] == "-";
    Year2024("2024");
    assert MonthPieces(s, 5) == [Piece(1, 1)];
    assert s[6..7] == "-";
  }

  /**
   * `\d` takes decimal digits of any script: with a full-width year,
   * "２０２４0105" reads as 5 January 2024.
   */
  lemma FullWidthYearAccepted()
    ensures Strptime("\U{FF12}\U{FF10}\U{FF12}\U{FF14}0105", "") == Some(Date(2024, 1, 5))
  {
    var s := "\U{FF12}\U{FF10}\U{FF12}\U{FF14}0105";
    var y := s[..4];
    assert y == "\U{FF12}\U{FF10}\U{FF12}\U{FF14}";
    Year2024(y);
    assert MonthPieces(s, 4) == [Piece(1, 2)];
    assert DayPiece(s, 6) == Some(Piece(5, 2));
  }

  /** Four decimal digits that `int()` reads as "2024" are the year 2024. */
  lemma Year2024(y: string)
    requires |y| == 4 && PyNum.AllDecimal(y)
    requires PyNum.DecimalValue(y[0]) == 2 && PyNum.DecimalValue(y[1]) == 0
    requires PyNum.DecimalValue(y[2]) == 2 && PyNum.DecimalValue(y[3]) == 4
    ensures PyNum.DecimalsValue(y) == 2024
  {
    var y1, y2, y3 := y[..1], y[..2], y[..3];
    assert y1[..0] == [] && y2[..1] == y1 && y3[..2] == y2;
    assert PyNum.DecimalsValue(y1) == 2;
    assert PyNum.DecimalsValue(y2) == 20;
    assert PyNum.DecimalsValue(y3) == 202;
  }

  // ---------------------------------------------------------------------
  // The report's date helpers

  /** `format_date`: eight characters become `XXXX-XX-XX`; anything else is kept. */
  function FormatDate(s: string): (r: string)
    ensures |s| == 8 ==> |r| == 10 && r[4] == '-' && r[7] == '-'
    ensures |s| != 8 ==> r == s
  {
    if |s| == 0 || |s| != 8 then s
    else s[..4] + "-" + s[4..6] + "-" + s[6..8]
  }

  /** `get_month_key`: dashes removed, the first four and next two characters. */
  function MonthKey(s: string): (r: Option<string>)
    ensures r.Some? ==> |r.value| == 7 && r.value[4] == '-'
    ensures r.Some? <==> |Replace(s, "-", "")| >= 6
  {
    if |s| == 0 then None
    else
      var d := Replace(s, "-", "");
      if |d| >= 6 then Some(d[..4] + "-" + d[4..6]) else None
  }

  /** `f"{year}-W{week:02d}"`. */
  function IsoKey(w: IsoWeek): string
    requires w.year >= 0 && w.week >= 0
  {
    IntToString(w.year) + "-W" + Pad(w.week, 2)
  }

  /**
   * `get_week_key`: an eight-character text is read as `%Y%m%d`, any other
   * as `%Y-%m-%d`; `None` when that fails.
   */
  function WeekKey(s: string): (r: Option<string>)
    ensures r.Some? ==> exists d :: Valid(d) && r.value == IsoKey(IsoCalendar(d))
  {
    var parsed := if |s| == 8 then Strptime(s, "") else Strptime(s, "-");
    match parsed
    case None => None
    case Some(d) => Some(IsoKey(IsoCalendar(d)))
  }

  /** `format_date` turns the compact rendering into the dashed one. */
  lemma FormatDateCompact(d: Date)
    requires Valid(d)
    ensures FormatDate(Compact(d)) == Dashed(d)
  {
    RenderedParts(d);
    var c := Compact(d);
    assert c[..4] == Pad(d.year, 4) && c[4..6] == Pad(d.month, 2) && c[6..8] == Pad(d.day, 2);
  }

  /** `format_date` only inserts dashes. */
  lemma FormatDateOnlyAddsDashes(s: string)
    ensures Replace(FormatDate(s), "-", "") == Replace(s, "-", "")
  {
    if |s| == 8 {
      var a, b, c := s[..4], s[4..6], s[6..8];
      assert s == a + b + c;
      ReplaceCharConcat(a + "-" + b + "-", c, '-', "");
      ReplaceCharConcat(a + "-" + b, "-", '-', "");
      ReplaceCharConcat(a + "-", b, '-', "");
      ReplaceCharConcat(a, "-", '-', "");
      ReplaceCharConcat(a + b, c, '-', "");
      ReplaceCharConcat(a, b, '-', "");
      assert Replace("-", "-", "") == "";
    }
  }

  /** The month key of a raw date and of its formatted form agree. */
  lemma MonthKeyIgnoresFormat(s: string)
    ensures MonthKey(FormatDate(s)) == MonthKey(s)
  {
    FormatDateOnlyAddsDashes(s);
  }

  /** Both renderings of a date have the month key `YYYY-MM`. */
  lemma MonthKeyOfDate(d: Date)
    requires Valid(d)
    ensures MonthKey(Compact(d)) == Some(Pad(d.year, 4) + "-" + Pad(d.month, 2))
    ensures MonthKey(Dashed(d)) == Some(Pad(d.year, 4) + "-" + Pad(d.month, 2))
  {
    RenderedParts(d);
    var y, m, dd := Pad(d.year, 4), Pad(d.month, 2), Pad(d.day, 2);
    assert '-' !in y + m + dd by {
      assert AllDigits(y + m + dd);
    }
    ReplaceCharAbsent(y + m + dd, '-', "");
    assert Compact(d) == y + m + dd;
    FormatDateCompact(d);
    MonthKeyIgnoresFormat(Compact(d));
    assert (y + m + dd)[..4] == y && (y + m + dd)[4..6] == m;
  }

  /** Both renderings of a date get the key of its ISO week. */
  lemma WeekKeyOfDate(d: Date)
    requires Valid(d)
    ensures WeekKey(Compact(d)) == Some(IsoKey(IsoCalendar(d)))
    ensures WeekKey(Dashed(d)) == Some(IsoKey(IsoCalendar(d)))
  {
    RenderedParts(d);
    StrptimeRoundTrip(d);
  }

  /**
   * The format is chosen by length: "2024-1-5" has eight characters, is
   * read as `%Y%m%d`, and gets no week key although `%Y-%m-%d` accepts it.
   */
  lemma WeekKeyByLength()
    ensures WeekKey("2024-1-5") == None
  {
    assert MonthPieces("2024-1-5", 4) == [];
  }

  /** Distinct ISO weeks get distinct keys. */
  lemma IsoKeyInjective(w1: IsoWeek, w2: IsoWeek)
    requires w1.year >= 0 && w2.year >= 0 && 0 <= w1.week < 100 && 0 <= w2.week < 100
    requires IsoKey(w1) == IsoKey(w2)
    ensures w1 == w2
  {
    var k := IsoKey(w1);
    PadTwo(w1.week);
    PadTwo(w2.week);
    var y1, y2 := IntToString(w1.year), IntToString(w2.year);
    assert k[|k| - 2..] == Pad(w1.week, 2);
    assert IsoKey(w2)[|k| - 2..] == Pad(w2.week, 2);
    assert k[..|k| - 4] == y1;
    assert IsoKey(w2)[..|k| - 4] == y2;
  }

  // ---------------------------------------------------------------------
  // String order of the renderings

  /** Comparing equal-length prefixes first. */
  lemma {:induction false} StrLeConcat(a1: string, b1: string, a2: string, b2: string)
    requires |a1| == |a2|
    ensures StrLe(a1 + b1, a2 + b2) <==> if a1 == a2 then StrLe(b1, b2) else StrLe(a1, a2)
    decreases |a1|
  {
    if |a1| == 0 {
      assert a1 + b1 == b1 && a2 + b2 == b2;
    } else {
      assert (a1 + b1)[0] == a1[0] && (a2 + b2)[0] == a2[0];
      assert (a1 + b1)[1..] == a1[1..] + b1 && (a2 + b2)[1..] == a2[1..] + b2;
      StrLeConcat(a1[1..], b1, a2[1..], b2);
      if a1[0] == a2[0] && a1[1..] == a2[1..] {
        assert a1 == [a1[0]] + a1[1..] && a2 == [a2[0]] + a2[1..];
      }
      if a1 == a2 {
        assert a1[1..] == a2[1..];
      }
    }
  }

  lemma MulLe(x: int, y: int, p: int)
    requires x <= y && p >= 0
    ensures x * p <= y * p
  {}

  /** The value of a digit string read from its first digit. */
  lemma DigitsFront(a: string)
    requires |a| > 0 && AllDigits(a)
    ensures DigitsValue(a) == DigitValue(a[0]) * Pow10(|a| - 1) + DigitsValue(a[1..])
  {
    var h, t := a[..1], a[1..];
    assert a == h + t;
    OneDigitThen(h, t);
  }

  lemma OneDigitThen(h: string, t: string)
    requires |h| == 1 && AllDigits(h) && AllDigits(t)
    ensures AllDigits(h + t) && (h + t)[0] == h[0]
    ensures DigitsValue(h + t) == DigitValue(h[0]) * Pow10(|t|) + DigitsValue(t)
  {
    DigitsValueConcat(h, t);
    assert h[..0] == [];
  }

  lemma FrontDecides(x1: int, x2: int, r1: int, r2: int, p: int)
    requires x1 < x2 && 0 <= r1 < p && 0 <= r2 < p
    ensures x1 * p + r1 < x2 * p + r2
  {
    MulLe(x1 + 1, x2, p);
  }

  /** A smaller first digit makes a smaller number of the same length. */
  lemma DigitsFrontLess(a: string, b: string)
    requires |a| == |b| > 0 && AllDigits(a) && AllDigits(b) && a[0] < b[0]
    ensures DigitsValue(a) < DigitsValue(b)
  {
    DigitsFront(a);
    DigitsFront(b);
    DigitsBound(a[1..]);
    DigitsBound(b[1..]);
    FrontDecides(DigitValue(a[0]), DigitValue(b[0]), DigitsValue(a[1..]), DigitsValue(b[1..]), Pow10(|a| - 1));
  }

  /** On equal-length digit strings, string order is numeric order. */
  lemma {:induction false} StrLeDigits(a: string, b: string)
    requires |a| == |b| && AllDigits(a) && AllDigits(b)
    ensures StrLe(a, b) <==> DigitsValue(a) <= DigitsValue(b)
    decreases |a|
  {
    if |a| > 0 {
      if a[0] < b[0] {
        DigitsFrontLess(a, b);
      } else if b[0] < a[0] {
        DigitsFrontLess(b, a);
      } else {
        StrLeDigits(a[1..], b[1..]);
        DigitsFront(a);
        DigitsFront(b);
      }
    }
  }

  /** Two equal-length digit fields: string order and equality follow their values. */
  lemma DigitField(a: string, b: string)
    requires |a| == |b| && AllDigits(a) && AllDigits(b)
    ensures StrLe(a, b) <==> DigitsValue(a) <= DigitsValue(b)
    ensures a == b <==> DigitsValue(a) == DigitsValue(b)
  {
    StrLeDigits(a, b);
    if DigitsValue(a) == DigitsValue(b) {
      DigitsValueInjective(a, b);
    }
  }

  /** Year, month and day fields of fixed widths, joined by one separator. */
  lemma ThreeFieldOrder(y1: string, m1: string, d1: string, y2: string, m2: string, d2: string, sep: string)
    requires |y1| == |y2| && |m1| == |m2|
    ensures StrLe(y1 + sep + m1 + sep + d1, y2 + sep + m2 + sep + d2) <==>
      if y1 != y2 then StrLe(y1, y2) else if m1 != m2 then StrLe(m1, m2) else StrLe(d1, d2)
  {
    assert y1 + sep + m1 + sep + d1 == y1 + (sep + m1 + (sep + d1));
    assert y2 + sep + m2 + sep + d2 == y2 + (sep + m2 + (sep + d2));
    StrLeConcat(y1, sep + m1 + (sep + d1), y2, sep + m2 + (sep + d2));
    StrLeConcat(sep + m1, sep + d1, sep + m2, sep + d2);
    StrLeConcat(sep, m1, sep, m2);
    StrLeConcat(sep, d1, sep, d2);
    if sep + m1 == sep + m2 {
      assert m1 == (sep + m1)[|sep|..];
      assert m2 == (sep + m2)[|sep|..];
    }
  }

  /** Fixed-width digit fields of two dates, compared as strings, compare the dates. */
  lemma FieldsOrder(a: Date, b: Date, ya: string, ma: string, da: string, yb: string, mb: string, db: string, sep: string)
    requires Valid(a) && Valid(b)
    requires |ya| == |yb| && |ma| == |mb| && |da| == |db|
    requires AllDigits(ya) && AllDigits(ma) && AllDigits(da) && AllDigits(yb) && AllDigits(mb) && AllDigits(db)
    requires DigitsValue(ya) == a.year && DigitsValue(ma) == a.month && DigitsValue(da) == a.day
    requires DigitsValue(yb) == b.year && DigitsValue(mb) == b.month && DigitsValue(db) == b.day
    ensures StrLe(ya + sep + ma + sep + da, yb + sep + mb + sep + db) <==> Ordinal(a) <= Ordinal(b)
  {
    OrdinalOrder(a, b);
    ThreeFieldOrder(ya, ma, da, yb, mb, db, sep);
    DigitField(ya, yb);
    DigitField(ma, mb);
    DigitField(da, db);
  }

  /** Sorting compact date texts as strings sorts them chronologically. */
  lemma CompactOrder(a: Date, b: Date)
    requires Valid(a) && Valid(b)
    ensures StrLe(Compact(a), Compact(b)) <==> Ordinal(a) <= Ordinal(b)
  {
    RenderedParts(a);
    RenderedParts(b);
    var ya, ma, da := Pad(a.year, 4), Pad(a.month, 2), Pad(a.day, 2);
    var yb, mb, db := Pad(b.year, 4), Pad(b.month, 2), Pad(b.day, 2);
    assert Compact(a) == ya + "" + ma + "" + da && Compact(b) == yb + "" + mb + "" + db;
    FieldsOrder(a, b, ya, ma, da, yb, mb, db, "");
  }

  /** ... and so does sorting dashed date texts. */
  lemma DashedOrder(a: Date, b: Date)
    requires Valid(a) && Valid(b)
    ensures StrLe(Dashed(a), Dashed(b)) <==> Ordinal(a) <= Ordinal(b)
  {
    RenderedParts(a);
    RenderedParts(b);
    var ya, ma, da := Pad(a.year, 4), Pad(a.month, 2), Pad(a.day, 2);
    var yb, mb, db := Pad(b.year, 4), Pad(b.month, 2), Pad(b.day, 2);
    FieldsOrder(a, b, ya, ma, da, yb, mb, db, "-");
  }

  /** For four-digit years, sorting week keys as strings sorts the weeks chronologically. */
  lemma IsoKeyOrder(w1: IsoWeek, w2: IsoWeek)
    requires 1000 <= w1.year <= 9999 && 1000 <= w2.year <= 9999
    requires 0 <= w1.week < 100 && 0 <= w2.week < 100
    ensures StrLe(IsoKey(w1), IsoKey(w2)) <==>
      w1.year < w2.year || (w1.year == w2.year && w1.week <= w2.week)
  {
    FourDigitYear(w1.year);
    FourDigitYear(w2.year);
    PadTwo(w1.week);
    PadTwo(w2.week);
    var y1, y2 := IntToString(w1.year), IntToString(w2.year);
    var k1, k2 := Pad(w1.week, 2), Pad(w2.week, 2);
    assert IsoKey(w1) == y1 + ("-W" + k1) && IsoKey(w2) == y2 + ("-W" + k2);
    StrLeConcat(y1, "-W" + k1, y2, "-W" + k2);
    StrLeConcat("-W", k1, "-W", k2);
    DigitField(y1, y2);
    DigitField(k1, k2);
  }

  lemma FourDigitYear(y: int)
    requires 1000 <= y <= 9999
    ensures |IntToString(y)| == 4 && IntToString(y) == Pad(y, 4)
  {
    NatToStringLength(y, 4);
    NatToStringLengthLower(y, 3);
  }
}

