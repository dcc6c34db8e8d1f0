/**
 * The sales dashboard (docs/sales.js): the order-to-POS store-name
 * mapping, the browser's week key and week list, the period and store
 * filters with the per-store aggregation and the summary, the order totals
 * matched to POS stores and the order-rate table, and the store table's
 * search, sort and header toggle.
 *
 * Korean collation is a parameter, as in the keyword table.
 */
module SalesDashboard {
  import opened Wrappers
  import opened Seqs
  import opened Sorting
  import opened Text
  import opened Calendar
  import PyDates

  // ---------------------------------------------------------------------
  // Store-name mapping

  /** Order-side store name to POS store name. */
  const StoreMapping: seq<(string, string)> := [
    ("역대짬뽕 장안본점(98)", "역대짬뽕 본점"),
    ("역대짬뽕 오산시청점(99)", "역대짬뽕 오산시청점"),
    ("역대짬뽕 병점점(99)", "역대짬뽕 병점점"),
    ("역대짬뽕 송탄점(99)", "역대짬뽕 송탄점"),
    ("역대짬뽕 화성반월점(99)", "역대짬뽕 화성반월점"),
    ("역대짬뽕 다산1호점(14)", "역대짬뽕 다산1호점"),
    ("역대짬뽕 송파점(95)", "역대짬뽕 송파점"),
    ("역대짬뽕 두정점(101)", "역대짬뽕 두정점")
  ]

  function Keys(pairs: seq<(string, string)>): seq<string> {
    Map(pairs, (p: (string, string)) => p.0)
  }

  function Values(pairs: seq<(string, string)>): seq<string> {
    Map(pairs, (p: (string, string)) => p.1)
  }

  /** Reading an object literal: the value stored under `key`. */
  function Lookup(pairs: seq<(string, string)>, key: string): (r: Option<string>)
    ensures r.Some? ==> (key, r.value) in pairs
    ensures r.None? <==> key !in Keys(pairs)
  {
    if |pairs| == 0 then None
    else if pairs[0].0 == key then Some(pairs[0].1)
    else
      assert Keys(pairs) == [pairs[0].0] + Keys(pairs[1..]) by {
        assert pairs == [pairs[0]] + pairs[1..];
      }
      Lookup(pairs[1..], key)
  }

  /**
   * The reverse object as the `forEach` over the mapping builds it: each
   * entry stores its key under its value, so a later entry overwrites an
   * earlier one with the same value.
   */
  function ReverseLookup(pairs: seq<(string, string)>, value: string): (r: Option<string>)
    ensures r.Some? ==> (r.value, value) in pairs
    ensures r.None? <==> value !in Values(pairs)
  {
    if |pairs| == 0 then None
    else if pairs[|pairs| - 1].1 == value then Some(pairs[|pairs| - 1].0)
    else ReverseLookup(pairs[..|pairs| - 1], value)
  }

  /** `getPosStoeName`: the mapped POS name, or the name itself. */
  function PosStoreName(orderName: string): string {
    Lookup(StoreMapping, orderName).GetOr(orderName)
  }

  /** `getOrderStoreName`: the order-side name mapped to this POS name, or the name itself. */
  function OrderStoreName(posName: string): string {
    ReverseLookup(StoreMapping, posName).GetOr(posName)
  }

  /** With distinct keys, the entry at `i` is what its key looks up. */
  lemma {:induction false} LookupAt(pairs: seq<(string, string)>, i: int)
    requires NoDup(Keys(pairs)) && 0 <= i < |pairs|
    ensures Lookup(pairs, pairs[i].0) == Some(pairs[i].1)
  {
    if i > 0 {
      assert Keys(pairs)[0] != Keys(pairs)[i];
      var tail := pairs[1..];
      assert NoDup(Keys(tail)) by {
        forall a, b | 0 <= a < b < |tail| ensures Keys(tail)[a] != Keys(tail)[b] {
          assert Keys(pairs)[a + 1] != Keys(pairs)[b + 1];
        }
      }
      LookupAt(tail, i - 1);
    }
  }

  /** With distinct values, the entry at `i` is what its value looks up in reverse. */
  lemma {:induction false} ReverseLookupAt(pairs: seq<(string, string)>, i: int)
    requires NoDup(Values(pairs)) && 0 <= i < |pairs|
    ensures ReverseLookup(pairs, pairs[i].1) == Some(pairs[i].0)
  {
    var n := |pairs| - 1;
    if i < n {
      assert Values(pairs)[i] != Values(pairs)[n];
      var init := pairs[..n];
      assert NoDup(Values(init)) by {
        forall a, b | 0 <= a < b < |init| ensures Values(init)[a] != Values(init)[b] {
          assert Values(pairs)[a] != Values(pairs)[b];
        }
      }
      ReverseLookupAt(init, i);
    }
  }

  /** The mapping is one-to-one: no order name and no POS name occurs twice. */
  lemma MappingInjective()
    ensures NoDup(Keys(StoreMapping)) && NoDup(Values(StoreMapping))
  {
    var k, v := Keys(StoreMapping), Values(StoreMapping);
    assert k == Map(StoreMapping, (p: (string, string)) => p.0);
    forall a, b | 0 <= a < b < |k| ensures k[a] != k[b] {
      assert k[a] == StoreMapping[a].0 && k[b] == StoreMapping[b].0;
    }
    forall a, b | 0 <= a < b < |v| ensures v[a] != v[b] {
      assert v[a] == StoreMapping[a].1 && v[b] == StoreMapping[b].1;
    }
  }

  /**
   * The two lookups are inverse on the mapped names, and an order-side
   * name outside the mapping is used as the POS name unchanged.
   */
  lemma StoreNamesRoundTrip(orderName: string)
    ensures orderName in Keys(StoreMapping) ==> OrderStoreName(PosStoreName(orderName)) == orderName
    ensures orderName !in Keys(StoreMapping) ==> PosStoreName(orderName) == orderName
  {
    if orderName in Keys(StoreMapping) {
      MappingInjective();
      var i :| 0 <= i < |StoreMapping| && Keys(StoreMapping)[i] == orderName;
      LookupAt(StoreMapping, i);
      ReverseLookupAt(StoreMapping, i);
    }
  }

  /** Every POS name of the mapping goes back and forth unchanged. */
  lemma PosNamesRoundTrip(posName: string)
    requires posName in Values(StoreMapping)
    ensures PosStoreName(OrderStoreName(posName)) == posName
  {
    MappingInjective();
    var i :| 0 <= i < |StoreMapping| && Values(StoreMapping)[i] == posName;
    LookupAt(StoreMapping, i);
    ReverseLookupAt(StoreMapping, i);
  }

  // ---------------------------------------------------------------------
  // Weeks

  /** A day a JavaScript `Date` holds, as far as this model goes: one of the years 0..9999. */
  type JsDate = d: Date | Proleptic(d) witness Date(1970, 1, 1)

  /**
   * The engine's own reading of a date text the standard does not fix:
   * a day, or `None` for an invalid date.
   */
  type DateParser = string -> Option<JsDate>

  /**
   * The date-only form of the ECMAScript Date Time String Format,
   * `YYYY-MM-DD` in ASCII digits, when it names a real day.
   */
  function StandardDate(text: string): (r: Option<JsDate>)
    ensures r.Some? ==> |text| == 10 && text[4] == '-' && text[7] == '-'
  {
    if |text| == 10 && text[4] == '-' && text[7] == '-'
      && AllDigits(text[..4]) && AllDigits(text[5..7]) && AllDigits(text[8..])
    then
      var d := Date(DigitsValue(text[..4]), DigitsValue(text[5..7]), DigitsValue(text[8..]));
      if Proleptic(d) then Some(d) else None
    else None
  }

  /**
   * `new Date(text)`: the standard form is read as its day; any other text,
   * another format or a day its month does not have, is read by the
   * engine's own parser `parse`.
   */
  function NewDate(text: string, parse: DateParser): Option<JsDate> {
    match StandardDate(text)
    case Some(d) => Some(d)
    case None => parse(text)
  }

  /** A dashboard week: the year and the browser's week number in it. */
  datatype WeekNo = WeekNo(year: int, week: int)

  /**
   * What the week key of a non-empty date text stands for: a week, or the
   * invalid date, whose year and week are both NaN.
   */
  datatype DateWeek = InWeek(w: WeekNo) | NaNWeek

  /**
   * The week of a date text: `null` for an empty text, NaN for an invalid
   * date, and otherwise the date's year and `Math.ceil((days since
   * 1 January + 1 January's getDay() + 1) / 7)`, where 1 January is the
   * one `new Date(year, 0, 1)` builds (1900..1999 for the years 0..99).
   */
  function WeekOf(date: string, parse: DateParser): (r: Option<DateWeek>)
    ensures r.None? <==> date == ""
    ensures r.Some? && r.value.InWeek? ==> 0 <= r.value.w.year <= 9999
    ensures r.Some? && r.value.InWeek? && r.value.w.year >= 100 ==> 1 <= r.value.w.week <= 54
    ensures r.Some? && r.value.InWeek? && r.value.w.year < 100 ==> r.value.w.week < 0
  {
    if date == "" then None
    else match NewDate(date, parse)
      case None => Some(NaNWeek)
      case Some(d) =>
        JsWeekCountsSundayWeeks(d);
        Some(InWeek(WeekNo(d.year, JsWeek(d))))
  }

  /** `String(week).padStart(2, '0')`. */
  function WeekText(week: int): (r: string)
    ensures week >= 0 ==> r == Pad(week, 2)
    ensures week < 0 ==> r == "-" + NatToString(-week)
  {
    var s := IntToString(week);
    if |s| < 2 then Zeros(2 - |s|) + s else s
  }

  /** `${year}-W${String(week).padStart(2, '0')}`: "NaN-WNaN" for the invalid date. */
  function KeyOf(e: DateWeek): string {
    match e
    case InWeek(w) => IntToString(w.year) + "-W" + WeekText(w.week)
    case NaNWeek => "NaN-WNaN"
  }

  /** `getWeekKey`. */
  function WeekKey(date: string, parse: DateParser): Option<string> {
    match WeekOf(date, parse)
    case None => None
    case Some(e) => Some(KeyOf(e))
  }

  /** The year and week `parseInt` reads back from a week's key; the invalid date never reaches them. */
  function YearOf(e: DateWeek): int {
    if e.InWeek? then e.w.year else 0
  }

  function WeekNumOf(e: DateWeek): int {
    if e.InWeek? then e.w.week else 0
  }

  /** Newest first: year descending, then week descending. */
  function WeekOrder(): (DateWeek, DateWeek) -> bool {
    ThenBy(ByIntDesc(YearOf), ByIntDesc(WeekNumOf))
  }

  /**
   * `getWeekList`: one entry per week key of the daily dates, newest
   * first. With the invalid date among them, every comparison with its
   * NaN year reads as "equal", the comparator is no longer consistent, and
   * the ECMAScript standard leaves the order to the engine: `engineRank`
   * stands for the order it picks (any order of distinct entries is a
   * ranking).
   */
  function WeekList(dates: seq<string>, parse: DateParser, engineRank: DateWeek -> int): seq<DateWeek> {
    var entries := Distinct(Choose(dates, (s: string) => WeekOf(s, parse)));
    if NaNWeek in entries then SortBy(entries, ByIntDesc(engineRank))
    else SortBy(entries, WeekOrder())
  }

  /** `new Date` reads the dashed rendering of a date as that date. */
  lemma StandardDashed(d: Date)
    requires Valid(d)
    ensures StandardDate(PyDates.Dashed(d)) == Some(d)
  {
    PyDates.RenderedParts(d);
    var y, m, dd := Pad(d.year, 4), Pad(d.month, 2), Pad(d.day, 2);
    DashedFields(y, m, dd);
    assert DigitsValue(y) == d.year && DigitsValue(m) == d.month && DigitsValue(dd) == d.day;
    StandardOfFields(y + "-" + m + "-" + dd, d);
  }

  lemma DashedFields(y: string, m: string, dd: string)
    requires |y| == 4 && |m| == 2 && |dd| == 2
    ensures var t := y + "-" + m + "-" + dd;
      |t| == 10 && t[4] == '-' && t[7] == '-' && t[..4] == y && t[5..7] == m && t[8..] == dd
  {
    var t := y + "-" + m + "-" + dd;
    assert t[..4] == y;
    assert t[5..7] == m;
    assert t[8..] == dd;
  }

  lemma StandardOfFields(t: string, d: Date)
    requires Proleptic(d) && |t| == 10 && t[4] == '-' && t[7] == '-'
    requires AllDigits(t[..4]) && AllDigits(t[5..7]) && AllDigits(t[8..])
    requires DigitsValue(t[..4]) == d.year && DigitsValue(t[5..7]) == d.month && DigitsValue(t[8..]) == d.day
    ensures StandardDate(t) == Some(d)
  {}

  /** The week of a dashed date is its year and its Sunday-started week number. */
  lemma WeekOfDashed(d: Date, parse: DateParser)
    requires Valid(d)
    ensures WeekOf(PyDates.Dashed(d), parse) == Some(InWeek(WeekNo(d.year, JsWeek(d))))
    ensures WeekKey(PyDates.Dashed(d), parse) == Some(KeyOf(InWeek(WeekNo(d.year, JsWeek(d)))))
  {
    StandardDashed(d);
    PyDates.RenderedParts(d);
  }

  /** A text `new Date` cannot read has the key "NaN-WNaN". */
  lemma InvalidDateKey(date: string, parse: DateParser)
    requires date != "" && NewDate(date, parse).None?
    ensures WeekOf(date, parse) == Some(NaNWeek)
    ensures WeekKey(date, parse) == Some("NaN-WNaN")
  {}

  /** A week's year text is digits, and nothing but the first "-W" ends it. */
  lemma {:induction false} YearTextUnique(y1: nat, y2: nat, r1: string, r2: string)
    requires NatToString(y1) + r1 == NatToString(y2) + r2
    requires |r1| > 0 && r1[0] == '-' && |r2| > 0 && r2[0] == '-'
    ensures y1 == y2 && r1 == r2
  {
    var a, b := NatToString(y1), NatToString(y2);
    FirstDash(a, r1);
    FirstDash(b, r2);
    assert |a| == |b|;
    assert a == (a + r1)[..|a|] && b == (b + r2)[..|b|];
    assert r1 == (a + r1)[|a|..] && r2 == (b + r2)[|b|..];
  }

  /** In digits followed by a dash, the first dash is the one after the digits. */
  lemma FirstDash(a: string, r: string)
    requires AllDigits(a) && |r| > 0 && r[0] == '-'
    ensures (a + r)[|a|] == '-'
    ensures forall i :: 0 <= i < |a| ==> (a + r)[i] != '-'
  {
    forall i | 0 <= i < |a| ensures (a + r)[i] != '-' {
      assert (a + r)[i] == a[i];
    }
  }

  /** Different week numbers have different padded texts. */
  lemma WeekTextInjective(w1: int, w2: int)
    ensures WeekText(w1) == WeekText(w2) <==> w1 == w2
  {
    var t1, t2 := WeekText(w1), WeekText(w2);
    if t1 == t2 && w1 < 0 && w2 < 0 {
      assert NatToString(-w1) == t1[1..] && NatToString(-w2) == t2[1..];
    }
  }

  /**
   * Different weeks of years 0 and up have different keys, and only the
   * invalid date has the key "NaN-WNaN".
   */
  lemma KeyOfInjective(a: DateWeek, b: DateWeek)
    requires a.InWeek? ==> a.w.year >= 0
    requires b.InWeek? ==> b.w.year >= 0
    ensures KeyOf(a) == KeyOf(b) <==> a == b
  {
    if a.InWeek? && b.InWeek? {
      WeekKeysInjective(a.w, b.w);
    } else if a.InWeek? {
      WeekKeyNotNaN(a.w);
    } else if b.InWeek? {
      WeekKeyNotNaN(b.w);
    }
  }

  lemma WeekKeysInjective(a: WeekNo, b: WeekNo)
    requires a.year >= 0 && b.year >= 0
    ensures KeyOf(InWeek(a)) == KeyOf(InWeek(b)) ==> a == b
  {
    if KeyOf(InWeek(a)) == KeyOf(InWeek(b)) {
      var r1, r2 := "-W" + WeekText(a.week), "-W" + WeekText(b.week);
      KeySplit(a);
      KeySplit(b);
      YearTextUnique(a.year, b.year, r1, r2);
      assert WeekText(a.week) == r1[2..] && WeekText(b.week) == r2[2..];
      WeekTextInjective(a.week, b.week);
    }
  }

  lemma KeySplit(w: WeekNo)
    requires w.year >= 0
    ensures KeyOf(InWeek(w)) == NatToString(w.year) + ("-W" + WeekText(w.week))
  {}

  /** A week's key starts with a digit, the invalid date's with 'N'. */
  lemma WeekKeyNotNaN(a: WeekNo)
    requires a.year >= 0
    ensures KeyOf(InWeek(a)) != "NaN-WNaN"
  {
    assert IsDigit(KeyOf(InWeek(a))[0]);
  }

  /** Two dates have the same week key exactly when they have the same week. */
  lemma WeekKeyInjective(a: string, b: string, parse: DateParser)
    ensures WeekKey(a, parse) == WeekKey(b, parse) <==> WeekOf(a, parse) == WeekOf(b, parse)
  {
    var wa, wb := WeekOf(a, parse), WeekOf(b, parse);
    if wa.Some? && wb.Some? {
      KeyOfInjective(wa.value, wb.value);
    }
  }

  /**
   * The week list names each week key of the dates once; the invalid date
   * is listed exactly when some non-empty date cannot be read, and
   * without it the list is strictly newest first.
   */
  /** Real weeks only, each strictly newer than the next: year descending, then week descending. */
  predicate NewestFirst(r: seq<DateWeek>) {
    forall i, j :: 0 <= i < j < |r| ==>
      (r[i].InWeek? && r[j].InWeek? &&
       (r[i].w.year > r[j].w.year || (r[i].w.year == r[j].w.year && r[i].w.week > r[j].w.week)))
  }

  lemma WeekListSpec(dates: seq<string>, parse: DateParser, engineRank: DateWeek -> int)
    ensures NoDup(WeekList(dates, parse, engineRank))
    ensures forall e :: e in WeekList(dates, parse, engineRank) <==>
      exists i :: 0 <= i < |dates| && WeekOf(dates[i], parse) == Some(e)
    ensures NaNWeek in WeekList(dates, parse, engineRank) <==>
      exists i :: 0 <= i < |dates| && dates[i] != "" && NewDate(dates[i], parse).None?
    ensures var r := WeekList(dates, parse, engineRank);
      NaNWeek !in r ==> NewestFirst(r)
  {
    WeekListNoDup(dates, parse, engineRank);
    forall e ensures e in WeekList(dates, parse, engineRank) <==> exists i :: 0 <= i < |dates| && WeekOf(dates[i], parse) == Some(e) {
      WeekListHas(dates, parse, engineRank, e);
    }
    WeekListNaN(dates, parse, engineRank);
    WeekListNewest(dates, parse, engineRank);
  }

  lemma WeekListNoDup(dates: seq<string>, parse: DateParser, engineRank: DateWeek -> int)
    ensures NoDup(WeekList(dates, parse, engineRank))
  {
    var d := Distinct(Choose(dates, (s: string) => WeekOf(s, parse)));
    if NaNWeek in d {
      SortByNoDup(d, ByIntDesc(engineRank));
    } else {
      SortByNoDup(d, WeekOrder());
    }
  }

  lemma WeekListNaN(dates: seq<string>, parse: DateParser, engineRank: DateWeek -> int)
    ensures NaNWeek in WeekList(dates, parse, engineRank) <==>
      exists i :: 0 <= i < |dates| && dates[i] != "" && NewDate(dates[i], parse).None?
  {
    WeekListHas(dates, parse, engineRank, NaNWeek);
    forall i | 0 <= i < |dates|
      ensures WeekOf(dates[i], parse) == Some(NaNWeek) <==> dates[i] != "" && NewDate(dates[i], parse).None?
    {}
  }

  lemma WeekListNewest(dates: seq<string>, parse: DateParser, engineRank: DateWeek -> int)
    ensures var r := WeekList(dates, parse, engineRank);
      NaNWeek !in r ==> NewestFirst(r)
  {
    var d := Distinct(Choose(dates, (s: string) => WeekOf(s, parse)));
    var r := WeekList(dates, parse, engineRank);
    if NaNWeek !in r {
      assert NaNWeek !in d by {
        WeekListHas(dates, parse, engineRank, NaNWeek);
        ChooseIff(dates, (s: string) => WeekOf(s, parse), NaNWeek);
      }
      WeekListOrdered(d, r);
    }
  }

  lemma WeekListHas(dates: seq<string>, parse: DateParser, engineRank: DateWeek -> int, e: DateWeek)
    ensures e in WeekList(dates, parse, engineRank) <==> exists i :: 0 <= i < |dates| && WeekOf(dates[i], parse) == Some(e)
  {
    var f := (s: string) => WeekOf(s, parse);
    var d := Distinct(Choose(dates, f));
    var r := WeekList(dates, parse, engineRank);
    ChooseIff(dates, f, e);
    assert multiset(r) == multiset(d);
    assert e in r <==> e in multiset(d);
  }

  /** Sorted by `WeekOrder` without the invalid date: strictly newest first. */
  lemma WeekListOrdered(d: seq<DateWeek>, r: seq<DateWeek>)
    requires NoDup(d) && NaNWeek !in d && r == SortBy(d, WeekOrder())
    ensures NewestFirst(r)
  {
    var le := WeekOrder();
    assert NoDup(r) by {
      SortByNoDup(d, le);
    }
    assert Sorted(r, le) by {
      ByIntPreorder(YearOf);
      ByIntPreorder(WeekNumOf);
      ThenByPreorder(ByIntDesc(YearOf), ByIntDesc(WeekNumOf));
      SortBySorted(d, le);
    }
    AllInWeeks(d, r);
    forall i, j | 0 <= i < j < |r|
      ensures r[i].InWeek? && r[j].InWeek? &&
        (r[i].w.year > r[j].w.year || (r[i].w.year == r[j].w.year && r[i].w.week > r[j].w.week))
    {
      StrictlyNewer(r[i], r[j]);
    }
  }

  /** A rearrangement of real weeks holds only real weeks. */
  lemma AllInWeeks(d: seq<DateWeek>, r: seq<DateWeek>)
    requires multiset(r) == multiset(d) && NaNWeek !in d
    ensures forall k :: 0 <= k < |r| ==> r[k].InWeek?
  {
    forall k | 0 <= k < |r| ensures r[k].InWeek? {
      assert r[k] in multiset(d);
    }
  }

  /** Two different weeks in `WeekOrder` are strictly newest first. */
  lemma StrictlyNewer(a: DateWeek, b: DateWeek)
    requires a.InWeek? && b.InWeek? && a != b && WeekOrder()(a, b)
    ensures a.w.year > b.w.year || (a.w.year == b.w.year && a.w.week > b.w.week)
  {
    assert YearOf(a) >= YearOf(b) && (YearOf(a) > YearOf(b) || WeekNumOf(a) >= WeekNumOf(b));
  }

  // ---------------------------------------------------------------------
  // Period filter

  datatype PeriodType = Monthly | Weekly

  /**
   * A date is in the period when no period is chosen; a monthly period
   * is a prefix of the date text, a weekly one the date's week key.
   */
  predicate InPeriod(date: string, periodType: PeriodType, period: string, parse: DateParser) {
    period == "" ||
    (periodType == Monthly && StartsWith(date, period)) ||
    (periodType == Weekly && WeekKey(date, parse) == Some(period))
  }

  /** A day of the chain-wide daily series. */
  datatype Day = Day(date: string, hall: int, delivery: int, total: int)

  function PeriodDays(days: seq<Day>, periodType: PeriodType, period: string, parse: DateParser): seq<Day> {
    Filter(days, (d: Day) => InPeriod(d.date, periodType, period, parse))
  }

  /** No period keeps every day; otherwise exactly the days in the period are kept, in order. */
  lemma PeriodDaysSpec(days: seq<Day>, periodType: PeriodType, period: string, parse: DateParser, d: Day)
    ensures period == "" ==> PeriodDays(days, periodType, period, parse) == days
    ensures d in PeriodDays(days, periodType, period, parse) <==> d in days && InPeriod(d.date, periodType, period, parse)
    ensures IsSubseq(PeriodDays(days, periodType, period, parse), days)
  {
    var p := (x: Day) => InPeriod(x.date, periodType, period, parse);
    if period == "" {
      FilterAll(days, p);
    }
    if d in days && p(d) {
      FilterKeeps(days, p, d);
    }
    FilterIsSubseq(days, p);
  }

  /**
   * The weekly period "NaN-WNaN", which the week list offers once some
   * date cannot be read, keeps exactly the days whose date cannot be read.
   */
  lemma InvalidWeekKeepsUnreadDays(days: seq<Day>, parse: DateParser, d: Day)
    ensures d in PeriodDays(days, Weekly, "NaN-WNaN", parse) <==>
      d in days && d.date != "" && NewDate(d.date, parse).None?
  {
    PeriodDaysSpec(days, Weekly, "NaN-WNaN", parse, d);
    if d.date != "" {
      KeyOfInjective(WeekOf(d.date, parse).value, NaNWeek);
    }
  }

  // ---------------------------------------------------------------------
  // Store aggregation

  /** A store's line in one day's detail. */
  datatype StoreRow = StoreRow(code: string, name: string, hall: int, delivery: int, total: int)

  /** A store's totals over the filtered days. */
  datatype StoreTotal = StoreTotal(code: string, name: string, hall: int, delivery: int, deliveryExternal: int, total: int)

  function DetailOf(detail: map<string, seq<StoreRow>>, date: string): seq<StoreRow> {
    if date in detail then detail[date] else []
  }

  /** A detail row counts when no store is selected or it is the selected store's. */
  predicate Counted(store: string, r: StoreRow) {
    store == "" || r.name == store
  }

  /** The counted detail rows of the given dates, date by date. */
  function DetailRows(dates: seq<string>, detail: map<string, seq<StoreRow>>, store: string): (r: seq<StoreRow>)
    ensures forall i :: 0 <= i < |r| ==> Counted(store, r[i])
  {
    if |dates| == 0 then []
    else DetailRows(dates[..|dates| - 1], detail, store) + Filter(DetailOf(detail, dates[|dates| - 1]), (r: StoreRow) => Counted(store, r))
  }

  /** The aggregation state: codes in first-seen order and the running totals per code. */
  datatype Tally = Tally(codes: seq<string>, totals: map<string, StoreTotal>)

  /** Adds one detail row: a new code starts an entry named after this row; a known code adds to its sums. */
  function AddRow(t: Tally, r: StoreRow): Tally {
    if r.code in t.totals then
      var o := t.totals[r.code];
      Tally(t.codes, t.totals[r.code := o.(hall := o.hall + r.hall, delivery := o.delivery + r.delivery, total := o.total + r.total)])
    else
      Tally(t.codes + [r.code], t.totals[r.code := StoreTotal(r.code, r.name, r.hall, r.delivery, 0, r.total)])
  }

  /** What adding a row does to the entry of a code. */
  lemma AddRowEntry(t: Tally, r: StoreRow, c: string)
    ensures c in AddRow(t, r).totals <==> c in t.totals || c == r.code
    ensures c != r.code && c in t.totals ==> AddRow(t, r).totals[c] == t.totals[c]
    ensures c == r.code && c in t.totals ==> (AddRow(t, r).totals[c] ==
      t.totals[c].(hall := t.totals[c].hall + r.hall, delivery := t.totals[c].delivery + r.delivery, total := t.totals[c].total + r.total))
    ensures c == r.code && c !in t.totals ==> AddRow(t, r).totals[c] == StoreTotal(r.code, r.name, r.hall, r.delivery, 0, r.total)
  {
  }

  function TallyRows(rows: seq<StoreRow>): Tally {
    if |rows| == 0 then Tally([], map[]) else AddRow(TallyRows(rows[..|rows| - 1]), rows[|rows| - 1])
  }

  /** `Object.values(storeMap)`: the entries in first-seen order. */
  function StoreList(t: Tally): seq<StoreTotal> {
    Map(t.codes, c => if c in t.totals then t.totals[c] else StoreTotal(c, "", 0, 0, 0, 0))
  }

  /** The store totals of the filter: the detail rows of the filtered days' distinct dates, aggregated. */
  function Stores(days: seq<Day>, detail: map<string, seq<StoreRow>>, periodType: PeriodType, period: string, parse: DateParser, store: string): seq<StoreTotal> {
    var dates := Distinct(Map(PeriodDays(days, periodType, period, parse), (d: Day) => d.date));
    StoreList(TallyRows(DetailRows(dates, detail, store)))
  }

  function CodeOf(r: StoreRow): string { r.code }
  function HallOf(r: StoreRow): int { r.hall }
  function DeliveryOf(r: StoreRow): int { r.delivery }
  function TotalOf(r: StoreRow): int { r.total }

  function WithCode(c: string): StoreRow -> bool {
    (r: StoreRow) => r.code == c
  }

  /** What a store's entry must be: named after its first row, with sums over all its rows. */
  predicate Expected(rows: seq<StoreRow>, c: string, e: StoreTotal) {
    var g := Filter(rows, WithCode(c));
    |g| > 0 && e == StoreTotal(c, g[0].name, Sum(g, HallOf), Sum(g, DeliveryOf), 0, Sum(g, TotalOf))
  }

  /** The aggregation has one entry per code, in first-seen order, holding the code's sums. */
  lemma {:induction false} TallySpec(rows: seq<StoreRow>)
    ensures TallyRows(rows).codes == Distinct(Map(rows, CodeOf))
    ensures forall c :: c in TallyRows(rows).totals <==> c in Map(rows, CodeOf)
    ensures forall c :: c in TallyRows(rows).totals ==> Expected(rows, c, TallyRows(rows).totals[c])
  {
    if |rows| > 0 {
      var init, x := rows[..|rows| - 1], rows[|rows| - 1];
      assert init + [x] == rows;
      TallySpec(init);
      MapSnoc(init, x, CodeOf);
      DistinctSnoc(Map(init, CodeOf), x.code);
      var t := TallyRows(rows);
      assert t == AddRow(TallyRows(init), x);
      forall c | c in t.totals ensures Expected(rows, c, t.totals[c]) {
        TallyEntry(init, x, c);
      }
    }
  }

  /** One step of `TallySpec`: the entry of a code after adding a row. */
  lemma TallyEntry(init: seq<StoreRow>, x: StoreRow, c: string)
    requires c in TallyRows(init).totals <==> c in Map(init, CodeOf)
    requires c in TallyRows(init).totals ==> Expected(init, c, TallyRows(init).totals[c])
    requires c in AddRow(TallyRows(init), x).totals
    ensures Expected(init + [x], c, AddRow(TallyRows(init), x).totals[c])
  {
    var before := TallyRows(init);
    AddRowEntry(before, x, c);
    if c == x.code {
      if c in before.totals {
        TallyAddKnown(init, x, before.totals[c]);
      } else {
        TallyAddNew(init, x);
      }
    } else {
      TallyKeep(init, x, c, before.totals[c]);
    }
  }

  /** A row of another code leaves a code's group as it was. */
  lemma TallyKeep(init: seq<StoreRow>, x: StoreRow, c: string, e: StoreTotal)
    requires c != x.code && Expected(init, c, e)
    ensures Expected(init + [x], c, e)
  {
    var p := WithCode(c);
    FilterSnoc(init, x, p);
    assert !p(x);
    assert Filter(init + [x], p) == Filter(init, p) + [];
    assert Filter(init, p) + [] == Filter(init, p);
  }

  /** A row of a known code extends that code's group by one row. */
  lemma TallyAddKnown(init: seq<StoreRow>, x: StoreRow, o: StoreTotal)
    requires Expected(init, x.code, o)
    ensures Expected(init + [x], x.code, o.(hall := o.hall + x.hall, delivery := o.delivery + x.delivery, total := o.total + x.total))
  {
    var g := Filter(init, WithCode(x.code));
    FilterSnoc(init, x, WithCode(x.code));
    SumSnoc(g, x, HallOf);
    SumSnoc(g, x, DeliveryOf);
    SumSnoc(g, x, TotalOf);
  }

  /** The first row of a code starts that code's group. */
  lemma TallyAddNew(init: seq<StoreRow>, x: StoreRow)
    requires x.code !in Map(init, CodeOf)
    ensures Expected(init + [x], x.code, StoreTotal(x.code, x.name, x.hall, x.delivery, 0, x.total))
  {
    var g := Filter(init, WithCode(x.code));
    FilterSnoc(init, x, WithCode(x.code));
    forall i | 0 <= i < |init| ensures !WithCode(x.code)(init[i]) {
      assert Map(init, CodeOf)[i] == init[i].code;
    }
    FilterEmpty(init, WithCode(x.code));
    assert g + [x] == [x];
    SumSnoc([], x, HallOf);
    SumSnoc([], x, DeliveryOf);
    SumSnoc([], x, TotalOf);
  }

  function IndexIn<T(==)>(s: seq<T>, x: T): (i: int)
    requires x in s
    ensures 0 <= i < |s| && s[i] == x
  {
    if s[|s| - 1] == x then |s| - 1 else IndexIn(s[..|s| - 1], x)
  }

  /**
   * The store list has exactly one entry per store code of the counted
   * rows; each entry carries its code's hall, delivery and total sums,
   * the first row's name, and no external delivery.
   */
  lemma StoreListSpec(rows: seq<StoreRow>)
    ensures Map(StoreList(TallyRows(rows)), (e: StoreTotal) => e.code) == Distinct(Map(rows, CodeOf))
    ensures forall e :: e in StoreList(TallyRows(rows)) ==> Expected(rows, e.code, e)
  {
    var t := TallyRows(rows);
    TallySpec(rows);
    forall c | c in t.codes ensures c in t.totals {
      assert c in Map(rows, CodeOf);
    }
    StoreListOf(t, rows);
  }

  /** Listing a tally whose every code has an expected entry lists those entries, code by code. */
  lemma StoreListOf(t: Tally, rows: seq<StoreRow>)
    requires forall c :: c in t.codes ==> c in t.totals
    requires forall c :: c in t.totals ==> Expected(rows, c, t.totals[c])
    ensures Map(StoreList(t), (e: StoreTotal) => e.code) == t.codes
    ensures forall e :: e in StoreList(t) ==> Expected(rows, e.code, e)
  {
    var l := StoreList(t);
    forall i | 0 <= i < |l| ensures l[i] == t.totals[t.codes[i]] && l[i].code == t.codes[i] {
      assert t.codes[i] in t.totals;
      assert Expected(rows, t.codes[i], t.totals[t.codes[i]]);
    }
    var codes := Map(l, (e: StoreTotal) => e.code);
    assert codes == t.codes;
  }

  /** With a store selected, every aggregated entry is that store's. */
  lemma SelectedStoreOnly(dates: seq<string>, detail: map<string, seq<StoreRow>>, store: string)
    requires store != ""
    ensures forall e :: e in StoreList(TallyRows(DetailRows(dates, detail, store))) ==> e.name == store
  {
    var rows := DetailRows(dates, detail, store);
    StoreListSpec(rows);
    forall e | e in StoreList(TallyRows(rows)) ensures e.name == store {
      var g := Filter(rows, WithCode(e.code));
      assert g[0] in rows;
    }
  }

  // ---------------------------------------------------------------------
  // Daily series and summary

  datatype DayTotal = DayTotal(date: string, hall: int, delivery: int, deliveryExternal: int, total: int)

  /** `Array.prototype.find` by store name. */
  function FindByName(rows: seq<StoreRow>, name: string): (r: Option<StoreRow>)
    ensures r.Some? ==> r.value in rows && r.value.name == name
    ensures r.None? <==> forall x :: x in rows ==> x.name != name
  {
    if |rows| == 0 then None
    else if rows[0].name == name then Some(rows[0])
    else FindByName(rows[1..], name)
  }

  function WholeDay(d: Day): DayTotal {
    DayTotal(d.date, d.hall, d.delivery, 0, d.total)
  }

  /** The selected store's line of a day, or nothing when the day's detail lacks the store. */
  function StoreDay(detail: map<string, seq<StoreRow>>, store: string, d: Day): Option<DayTotal> {
    match FindByName(DetailOf(detail, d.date), store)
    case None => None
    case Some(r) => Some(DayTotal(d.date, r.hall, r.delivery, 0, r.total))
  }

  /** The daily series: the chain's days, or the selected store's where it has a line. */
  function DailyView(days: seq<Day>, detail: map<string, seq<StoreRow>>, store: string): seq<DayTotal> {
    if store == "" then Map(days, WholeDay) else Choose(days, d => StoreDay(detail, store, d))
  }

  /**
   * Without a store the series has every day's figures; with one, a line
   * exactly for the days whose detail has the store, with its figures.
   * External delivery is always 0.
   */
  lemma DailyViewSpec(days: seq<Day>, detail: map<string, seq<StoreRow>>, store: string)
    ensures store == "" ==> (|DailyView(days, detail, store)| == |days| &&
      forall i :: 0 <= i < |days| ==> DailyView(days, detail, store)[i] == DayTotal(days[i].date, days[i].hall, days[i].delivery, 0, days[i].total))
    ensures store != "" ==> forall x :: x in DailyView(days, detail, store) <==>
      (exists i, r :: 0 <= i < |days| && r in DetailOf(detail, days[i].date) && r.name == store &&
        r == FindByName(DetailOf(detail, days[i].date), store).value &&
        x == DayTotal(days[i].date, r.hall, r.delivery, 0, r.total))
    ensures forall x :: x in DailyView(days, detail, store) ==> x.deliveryExternal == 0
  {
    var f := d => StoreDay(detail, store, d);
    if store != "" {
      forall x ensures x in DailyView(days, detail, store) <==>
        (exists i, r :: 0 <= i < |days| && r in DetailOf(detail, days[i].date) && r.name == store &&
          r == FindByName(DetailOf(detail, days[i].date), store).value &&
          x == DayTotal(days[i].date, r.hall, r.delivery, 0, r.total))
      {
        ChooseIff(days, f, x);
        if x in DailyView(days, detail, store) {
          var i :| 0 <= i < |days| && f(days[i]) == Some(x);
          var r := FindByName(DetailOf(detail, days[i].date), store).value;
        }
      }
    }
  }

  datatype Summary = Summary(hall: int, delivery: int, deliveryExternal: int, total: int, days: nat)

  function DayHall(d: DayTotal): int { d.hall }
  function DayDelivery(d: DayTotal): int { d.delivery }
  function DayExternal(d: DayTotal): int { d.deliveryExternal }
  function DayTotalOf(d: DayTotal): int { d.total }

  /** The summary cards: the series' sums and its number of days. */
  method Summarize(daily: seq<DayTotal>) returns (s: Summary)
    ensures s.hall == Sum(daily, DayHall) && s.delivery == Sum(daily, DayDelivery)
    ensures s.deliveryExternal == Sum(daily, DayExternal) && s.total == Sum(daily, DayTotalOf)
    ensures s.days == |daily|
  {
    s := Summary(0, 0, 0, 0, 0);
    var i := 0;
    while i < |daily|
      invariant 0 <= i <= |daily|
      invariant s.hall == Sum(daily[..i], DayHall) && s.delivery == Sum(daily[..i], DayDelivery)
      invariant s.deliveryExternal == Sum(daily[..i], DayExternal) && s.total == Sum(daily[..i], DayTotalOf)
    {
      var d := daily[i];
      assert daily[..i + 1][..i] == daily[..i];
      s := s.(hall := s.hall + d.hall, delivery := s.delivery + d.delivery,
              deliveryExternal := s.deliveryExternal + d.deliveryExternal, total := s.total + d.total);
      i := i + 1;
    }
    assert daily[..i] == daily;
    s := s.(days := |daily|);
  }

  // ---------------------------------------------------------------------
  // Order totals matched to POS stores

  /** An order-side store: its name and, when present, its daily order totals by date. */
  datatype OrderStore = OrderStore(name: string, daily: Option<seq<(string, int)>>)

  /** A store's order total over the dates in the period. */
  function PeriodOrder(s: OrderStore, inPeriod: string -> bool): int {
    if s.daily.None? then 0
    else Sum(Filter(s.daily.value, (e: (string, int)) => inPeriod(e.0)), (e: (string, int)) => e.1)
  }

  /**
   * An order-side store adds to the POS store `pos` when `rename` maps its
   * name there and it ordered something in the period.
   */
  function FeedsInto(rename: string -> string, inPeriod: string -> bool, pos: string): OrderStore -> bool {
    (s: OrderStore) => s.daily.Some? && PeriodOrder(s, inPeriod) > 0 && rename(s.name) == pos
  }

  /**
   * `orderByPosStore`: positive period totals summed under the POS names
   * `rename` gives; the dashboard renames with `PosStoreName`.
   */
  function OrderByPos(stores: seq<OrderStore>, rename: string -> string, inPeriod: string -> bool): map<string, int> {
    if |stores| == 0 then map[]
    else
      var m := OrderByPos(stores[..|stores| - 1], rename, inPeriod);
      var s := stores[|stores| - 1];
      var t := PeriodOrder(s, inPeriod);
      if s.daily.None? || t <= 0 then m
      else
        var pos := rename(s.name);
        m[pos := (if pos in m then m[pos] else 0) + t]
  }

  /** The dashboard's order totals: order-side names mapped to POS names, dates limited to the period. */
  function OrderTotals(stores: seq<OrderStore>, periodType: PeriodType, period: string, parse: DateParser): map<string, int> {
    OrderByPos(stores, PosStoreName, (date: string) => InPeriod(date, periodType, period, parse))
  }

  function OrderOf(inPeriod: string -> bool): OrderStore -> int {
    (s: OrderStore) => PeriodOrder(s, inPeriod)
  }

  /**
   * A POS name has an order total exactly when some order-side store with
   * orders in the period maps to it; the total is the sum over those
   * stores, and it is positive.
   */
  lemma {:induction false} OrderByPosSpec(stores: seq<OrderStore>, rename: string -> string, inPeriod: string -> bool, pos: string)
    ensures var m := OrderByPos(stores, rename, inPeriod);
      (pos in m <==> exists s :: s in stores && FeedsInto(rename, inPeriod, pos)(s))
    ensures var m := OrderByPos(stores, rename, inPeriod);
      pos in m ==> m[pos] == Sum(Filter(stores, FeedsInto(rename, inPeriod, pos)), OrderOf(inPeriod)) && m[pos] > 0
  {
    if |stores| > 0 {
      var init, s := stores[..|stores| - 1], stores[|stores| - 1];
      assert init + [s] == stores;
      OrderByPosSpec(init, rename, inPeriod, pos);
      OrderStep(init, s, rename, inPeriod, pos);
    }
  }

  /** Unfolding the fold once at the last store. */
  lemma OrderByPosSnoc(init: seq<OrderStore>, last: OrderStore, rename: string -> string, inPeriod: string -> bool)
    ensures var before := OrderByPos(init, rename, inPeriod);
      var t := PeriodOrder(last, inPeriod);
      OrderByPos(init + [last], rename, inPeriod) ==
        if last.daily.None? || t <= 0 then before
        else before[rename(last.name) := (if rename(last.name) in before then before[rename(last.name)] else 0) + t]
  {
    var stores := init + [last];
    assert stores[..|stores| - 1] == init;
  }

  /** One more order-side store adds its period total under its POS name, if positive. */
  lemma OrderStep(init: seq<OrderStore>, last: OrderStore, rename: string -> string, inPeriod: string -> bool, pos: string)
    requires var m := OrderByPos(init, rename, inPeriod);
      (pos in m <==> exists s :: s in init && FeedsInto(rename, inPeriod, pos)(s))
    requires var m := OrderByPos(init, rename, inPeriod);
      pos in m ==> m[pos] == Sum(Filter(init, FeedsInto(rename, inPeriod, pos)), OrderOf(inPeriod)) && m[pos] > 0
    ensures var m := OrderByPos(init + [last], rename, inPeriod);
      (pos in m <==> exists s :: s in init + [last] && FeedsInto(rename, inPeriod, pos)(s))
    ensures var m := OrderByPos(init + [last], rename, inPeriod);
      pos in m ==> m[pos] == Sum(Filter(init + [last], FeedsInto(rename, inPeriod, pos)), OrderOf(inPeriod)) && m[pos] > 0
  {
    var p := FeedsInto(rename, inPeriod, pos);
    var before := OrderByPos(init, rename, inPeriod);
    var t := PeriodOrder(last, inPeriod);
    var fires := last.daily.Some? && t > 0;
    OrderByPosSnoc(init, last, rename, inPeriod);
    FilterSumSnoc(init, last, p, OrderOf(inPeriod));
    var g := Filter(init, p);
    if pos !in before {
      assert g == [] by {
        FilterEmpty(init, p);
      }
    }
    assert p(last) <==> fires && rename(last.name) == pos;
    AddPositive(before, OrderByPos(init + [last], rename, inPeriod), rename(last.name), pos, t, fires, Sum(g, OrderOf(inPeriod)));
    ExistsSnoc(init, last, p);
  }

  /** Adding a positive amount under `key`, when `fires`, to a map whose entry for `pos` is a positive running sum. */
  lemma AddPositive(before: map<string, int>, after: map<string, int>, key: string, pos: string, t: int, fires: bool, sum: int)
    requires after == if fires then before[key := (if key in before then before[key] else 0) + t] else before
    requires fires ==> t > 0
    requires pos !in before ==> sum == 0
    requires pos in before ==> before[pos] == sum && sum > 0
    ensures pos in after <==> pos in before || (fires && key == pos)
    ensures pos in after ==> after[pos] == sum + (if fires && key == pos then t else 0) && after[pos] > 0
  {
  }

  // ---------------------------------------------------------------------
  // Order rate

  datatype RateRow = RateRow(name: string, sales: int, order: int, rate: real, hasOrder: bool)

  /** Orders as a percentage of sales; 0 without sales. */
  function Rate(sales: int, order: int): (r: real)
    ensures sales > 0 ==> r * sales as real == order as real * 100.0
    ensures sales <= 0 ==> r == 0.0
    ensures sales > 0 && order >= 0 ==> r >= 0.0
  {
    if sales > 0 then order as real / sales as real * 100.0 else 0.0
  }

  function RateOf(orders: map<string, int>, s: StoreTotal): RateRow {
    var order := if s.name in orders then orders[s.name] else 0;
    RateRow(s.name, s.total, order, Rate(s.total, order), order > 0)
  }

  predicate Listed(r: RateRow) {
    r.sales > 0 || r.order > 0
  }

  /** The order-rate table: a row per store with sales or orders, highest rate first. */
  function RateRows(stores: seq<StoreTotal>, orders: map<string, int>): seq<RateRow> {
    SortBy(Filter(Map(stores, s => RateOf(orders, s)), Listed), ByRealDesc((r: RateRow) => r.rate))
  }

  lemma RateRowsMembers(stores: seq<StoreTotal>, orders: map<string, int>)
    ensures forall r :: r in RateRows(stores, orders) <==> (exists s :: s in stores && r == RateOf(orders, s)) && Listed(r)
  {
    var all := Map(stores, s => RateOf(orders, s));
    var f := Filter(all, Listed);
    forall r ensures r in RateRows(stores, orders) <==> (exists s :: s in stores && r == RateOf(orders, s)) && Listed(r) {
      assert r in RateRows(stores, orders) <==> r in multiset(f);
      if (exists s :: s in stores && r == RateOf(orders, s)) && Listed(r) {
        var s :| s in stores && r == RateOf(orders, s) && Listed(r);
        assert all[IndexIn(stores, s)] == r;
        FilterKeeps(all, Listed, r);
      }
      if r in f {
        var k := IndexIn(all, r);
        assert r == RateOf(orders, stores[k]);
      }
    }
  }

  /** Exactly the stores with sales or orders get a row, one each, and rows go by rate, highest first. */
  lemma RateRowsSpec(stores: seq<StoreTotal>, orders: map<string, int>)
    ensures forall r :: r in RateRows(stores, orders) <==> (exists s :: s in stores && r == RateOf(orders, s)) && Listed(r)
    ensures var t := RateRows(stores, orders);
      forall i, j :: 0 <= i < j < |t| ==> t[i].rate >= t[j].rate
    ensures |RateRows(stores, orders)| == |Filter(Map(stores, s => RateOf(orders, s)), Listed)|
  {
    RateRowsMembers(stores, orders);
    SortByRealDescOrdered(Filter(Map(stores, s => RateOf(orders, s)), Listed), (r: RateRow) => r.rate);
  }

  datatype RateBand = High | Mid | Low

  /** How a row's rate cell reads: unmatched without orders, else the rate and its band. */
  datatype RateCell = Unmatched | Shown(rate: real, band: RateBand)

  function RateDisplay(r: RateRow): (c: RateCell)
    ensures c.Unmatched? <==> r.order <= 0
    ensures c.Shown? ==> c.rate == r.rate && (c.band == High <==> r.rate >= 40.0) && (c.band == Low <==> r.rate < 30.0)
  {
    if r.order > 0 then Shown(r.rate, if r.rate >= 40.0 then High else if r.rate >= 30.0 then Mid else Low)
    else Unmatched
  }

  /** High outranks mid, which outranks low. */
  function BandRank(b: RateBand): nat {
    match b
    case Low => 0
    case Mid => 1
    case High => 2
  }

  /** Down the order-rate table, the band of the shown rows never rises. */
  lemma RateBandsDescend(stores: seq<StoreTotal>, orders: map<string, int>)
    ensures var t := RateRows(stores, orders);
      forall i, j :: 0 <= i < j < |t| && t[i].order > 0 && t[j].order > 0 ==>
        BandRank(RateDisplay(t[i]).band) >= BandRank(RateDisplay(t[j]).band)
  {
    RateRowsSpec(stores, orders);
  }

  // ---------------------------------------------------------------------
  // Store table

  datatype StoreSort = StoreSort(column: string, direction: Direction)

  /** The numeric field a column names; a column that names none reads as 0 for every store. */
  function StoreField(column: string, s: StoreTotal): int {
    if column == "hall" then s.hall
    else if column == "delivery" then s.delivery
    else if column == "deliveryExternal" then s.deliveryExternal
    else if column == "total" then s.total
    else 0
  }

  function StoreOrder(st: StoreSort, collate: (string, string) -> bool): (StoreTotal, StoreTotal) -> bool {
    if st.column == "name" then Oriented((a: StoreTotal, b: StoreTotal) => collate(a.name, b.name), st.direction)
    else Oriented(ByInt((s: StoreTotal) => StoreField(st.column, s)), st.direction)
  }

  function SearchStores(stores: seq<StoreTotal>, term: string): seq<StoreTotal> {
    if term == "" then stores else Filter(stores, (s: StoreTotal) => Contains(Lower(s.name), Lower(term)))
  }

  /** `renderStoreTable`: the searched stores, sorted by the current column. */
  function StoreTable(stores: seq<StoreTotal>, term: string, st: StoreSort, collate: (string, string) -> bool): seq<StoreTotal> {
    SortBy(SearchStores(stores, term), StoreOrder(st, collate))
  }

  /** `handleSort`: the current column flips direction; a new column starts ascending for the name, descending otherwise. */
  function HandleSort(st: StoreSort, column: string): (r: StoreSort)
    ensures r.column == column
    ensures st.column == column ==> r.direction != st.direction
    ensures st.column != column ==> (r.direction == Asc <==> column == "name")
  {
    if st.column == column then
      if column == "name" then StoreSort(column, if st.direction == Asc then Desc else Asc)
      else StoreSort(column, if st.direction == Desc then Asc else Desc)
    else StoreSort(column, if column == "name" then Asc else Desc)
  }

  /**
   * The table shows exactly the stores whose lower-cased name contains
   * the lower-cased term, ordered by the column in the current direction.
   */
  lemma StoreTableSpec(stores: seq<StoreTotal>, term: string, st: StoreSort, collate: (string, string) -> bool)
    requires TotalPreorder(collate)
    ensures forall s :: s in StoreTable(stores, term, st, collate) <==> s in stores && (term == "" || Contains(Lower(s.name), Lower(term)))
    ensures var t := StoreTable(stores, term, st, collate);
      st.column == "name" ==> forall i, j :: 0 <= i < j < |t| ==>
        if st.direction == Asc then collate(t[i].name, t[j].name) else collate(t[j].name, t[i].name)
    ensures var t := StoreTable(stores, term, st, collate);
      st.column != "name" ==> forall i, j :: 0 <= i < j < |t| ==>
        if st.direction == Asc then StoreField(st.column, t[i]) <= StoreField(st.column, t[j])
        else StoreField(st.column, t[i]) >= StoreField(st.column, t[j])
  {
    var found := SearchStores(stores, term);
    var le := StoreOrder(st, collate);
    var t := SortBy(found, le);
    var p := (s: StoreTotal) => Contains(Lower(s.name), Lower(term));
    forall s ensures s in t <==> s in stores && (term == "" || p(s)) {
      assert s in t <==> s in multiset(found);
      if term != "" && s in stores && p(s) {
        FilterKeeps(stores, p, s);
      }
    }
    if st.column == "name" {
      var base := (a: StoreTotal, b: StoreTotal) => collate(a.name, b.name);
      forall a: StoreTotal, b: StoreTotal ensures base(a, b) || base(b, a) {
        assert collate(a.name, b.name) || collate(b.name, a.name);
      }
      forall a: StoreTotal, b: StoreTotal, c: StoreTotal | base(a, b) && base(b, c) ensures base(a, c) {
        assert collate(a.name, b.name) && collate(b.name, c.name);
      }
      OrientedPreorder(base, st.direction);
    } else {
      ByIntPreorder((s: StoreTotal) => StoreField(st.column, s));
      OrientedPreorder(ByInt((s: StoreTotal) => StoreField(st.column, s)), st.direction);
    }
    SortBySorted(found, le);
    forall i, j | 0 <= i < j < |t| ensures le(t[i], t[j]) {
    }
  }
}
