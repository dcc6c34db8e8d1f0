/**
 * The sales report generator (generate_sales_report.py): KIS point-of-sale
 * rows are totalled per store, per day, per day and store, per ISO week
 * and per month, and summarised.
 *
 * Dictionaries keyed in first-seen order are modelled as `Distinct` key
 * sequences; each bucket is the sum over the rows (or days) carrying its
 * key.
 */
module SalesReport {
  import opened Wrappers
  import opened Seqs
  import opened Sorting
  import opened Text
  import opened PyNum
  import opened PyDates
  import Calendar

  /** One collected sales row; missing text fields are "". */
  datatype SaleRow = SaleRow(
    saleDate: string,
    shopCode: string,
    shopName: string,
    hall: Scalar,
    delivery: Scalar,
    packaging: Scalar,
    sales: Scalar,
    receipts: Scalar,
    customers: Scalar)

  /** The six totals the report keeps for every grouping. */
  datatype Amounts = Amounts(hall: int, delivery: int, packaging: int, total: int, count: int, customers: int)

  datatype Measure = Hall | Delivery | Packaging | Total | Count | Customers

  function Get(a: Amounts, m: Measure): int {
    match m
    case Hall => a.hall
    case Delivery => a.delivery
    case Packaging => a.packaging
    case Total => a.total
    case Count => a.count
    case Customers => a.customers
  }

  const Zero := Amounts(0, 0, 0, 0, 0, 0)

  function Add(a: Amounts, b: Amounts): Amounts {
    Amounts(a.hall + b.hall, a.delivery + b.delivery, a.packaging + b.packaging,
            a.total + b.total, a.count + b.count, a.customers + b.customers)
  }

  /** Field-wise sum of `f` over `s`. */
  function SumAmounts<T>(s: seq<T>, f: T -> Amounts): Amounts {
    if |s| == 0 then Zero else Add(SumAmounts(s[..|s| - 1], f), f(s[|s| - 1]))
  }

  /** Reads one measure of a field-wise sum through any function that picks it. */
  lemma {:induction false} SumAmountsGet<T>(s: seq<T>, f: T -> Amounts, m: Measure, g: T -> int)
    requires forall x :: g(x) == Get(f(x), m)
    ensures Get(SumAmounts(s, f), m) == Sum(s, g)
  {
    if |s| > 0 {
      SumAmountsGet(s[..|s| - 1], f, m, g);
      AddGet(SumAmounts(s[..|s| - 1], f), f(s[|s| - 1]), m);
    }
  }

  lemma AddGet(a: Amounts, b: Amounts, m: Measure)
    ensures Get(Add(a, b), m) == Get(a, m) + Get(b, m)
  {}

  // ---------------------------------------------------------------------
  // Rows

  /** Rows without a date or a store code are skipped. */
  predicate Counted(r: SaleRow) {
    r.saleDate != "" && r.shopCode != ""
  }

  /**
   * The amounts of one row; when the net sales figure reads as 0, the sum
   * of the hall, delivery and packaging sales stands in for it.
   */
  function RowAmounts(r: SaleRow): (a: Amounts)
    ensures a.hall == ParseInt(r.hall) && a.delivery == ParseInt(r.delivery) && a.packaging == ParseInt(r.packaging)
    ensures a.count == ParseInt(r.receipts) && a.customers == ParseInt(r.customers)
    ensures ParseInt(r.sales) != 0 ==> a.total == ParseInt(r.sales)
    ensures ParseInt(r.sales) == 0 ==> a.total == a.hall + a.delivery + a.packaging
    ensures a.total == 0 ==> a.hall + a.delivery + a.packaging == 0
  {
    var hall, delivery, packaging := ParseInt(r.hall), ParseInt(r.delivery), ParseInt(r.packaging);
    var total := ParseInt(r.sales);
    Amounts(hall, delivery, packaging,
            if total == 0 then hall + delivery + packaging else total,
            ParseInt(r.receipts), ParseInt(r.customers))
  }

  function DateOf(r: SaleRow): string { r.saleDate }

  function ShopOf(r: SaleRow): string { r.shopCode }

  function CountedRows(rows: seq<SaleRow>): seq<SaleRow> {
    Filter(rows, Counted)
  }

  /** The dates seen, in first-seen order. */
  function Dates(rows: seq<SaleRow>): seq<string> {
    Distinct(Map(CountedRows(rows), DateOf))
  }

  /** The store codes seen, in first-seen order. */
  function Shops(rows: seq<SaleRow>): seq<string> {
    Distinct(Map(CountedRows(rows), ShopOf))
  }

  /** The store name on the first row of store `code`; later names are ignored. */
  function FirstName(s: seq<SaleRow>, code: string): Option<string> {
    if |s| == 0 then None
    else
      var earlier := FirstName(s[..|s| - 1], code);
      if earlier.Some? then earlier
      else if s[|s| - 1].shopCode == code then Some(s[|s| - 1].shopName)
      else None
  }

  // ---------------------------------------------------------------------
  // Groupings

  datatype StoreEntry = StoreEntry(code: string, name: string, amounts: Amounts, days: nat)

  function StoreOf(rows: seq<SaleRow>, code: string): StoreEntry {
    var mine := Group(CountedRows(rows), ShopOf, code);
    StoreEntry(code, FirstName(CountedRows(rows), code).GetOr(code),
               SumAmounts(mine, RowAmounts), |Distinct(Map(mine, DateOf))|)
  }

  /** One entry per store, in first-seen order. */
  function StoreList(rows: seq<SaleRow>): seq<StoreEntry> {
    Map(Shops(rows), code => StoreOf(rows, code))
  }

  datatype DayEntry = DayEntry(date: string, dateRaw: string, amounts: Amounts, stores: nat)

  function DayRows(rows: seq<SaleRow>, date: string): seq<SaleRow> {
    Group(CountedRows(rows), DateOf, date)
  }

  function DayTotals(rows: seq<SaleRow>, date: string): Amounts {
    SumAmounts(DayRows(rows, date), RowAmounts)
  }

  function DayOf(rows: seq<SaleRow>, date: string): DayEntry {
    DayEntry(FormatDate(date), date, DayTotals(rows, date), |Distinct(Map(DayRows(rows, date), ShopOf))|)
  }

  function SortedDates(rows: seq<SaleRow>): seq<string> {
    SortBy(Dates(rows), StrLe)
  }

  /** One entry per date, in string order of the raw dates. */
  function DailyList(rows: seq<SaleRow>): seq<DayEntry> {
    Map(SortedDates(rows), DayAt(rows))
  }

  function DayAt(rows: seq<SaleRow>): string -> DayEntry {
    date => DayOf(rows, date)
  }

  datatype DetailEntry = DetailEntry(code: string, name: string, amounts: Amounts)

  /** The per-store entries of one date, stores in first-seen order. */
  function DetailOf(rows: seq<SaleRow>, date: string): seq<DetailEntry> {
    var day := DayRows(rows, date);
    Map(Distinct(Map(day, ShopOf)), code =>
      DetailEntry(code, FirstName(CountedRows(rows), code).GetOr(code), SumAmounts(Group(day, ShopOf, code), RowAmounts)))
  }

  /**
   * The detail map, keyed by the formatted date; dates are visited in
   * first-seen order, so of two raw dates with one formatted form the
   * later one's entries are kept.
   */
  function DetailMap(rows: seq<SaleRow>): map<string, seq<DetailEntry>> {
    ToMap(Dates(rows), FormatDate, date => DetailOf(rows, date))
  }

  datatype Bucket = Bucket(key: string, amounts: Amounts, days: nat)

  /** A key function's bucket key for a date it accepts. */
  function KeyOf(keyOf: string -> Option<string>): string -> string {
    d => keyOf(d).GetOr("")
  }

  function HasKey(keyOf: string -> Option<string>): string -> bool {
    d => keyOf(d).Some?
  }

  /** The dates that get a key, in first-seen order. */
  function KeyedDates(rows: seq<SaleRow>, keyOf: string -> Option<string>): seq<string> {
    Filter(Dates(rows), HasKey(keyOf))
  }

  function BucketKeys(rows: seq<SaleRow>, keyOf: string -> Option<string>): seq<string> {
    Distinct(Map(KeyedDates(rows, keyOf), KeyOf(keyOf)))
  }

  function BucketOf(rows: seq<SaleRow>, keyOf: string -> Option<string>, key: string): Bucket {
    var days := Group(KeyedDates(rows, keyOf), KeyOf(keyOf), key);
    Bucket(key, SumAmounts(days, d => DayTotals(rows, d)), |days|)
  }

  /**
   * Day totals regrouped by a key of the date, dates without a key left
   * out, buckets in key order: the weekly and the monthly list.
   */
  function Buckets(rows: seq<SaleRow>, keyOf: string -> Option<string>): seq<Bucket> {
    Map(SortBy(BucketKeys(rows, keyOf), StrLe), BucketAt(rows, keyOf))
  }

  function BucketAt(rows: seq<SaleRow>, keyOf: string -> Option<string>): string -> Bucket {
    key => BucketOf(rows, keyOf, key)
  }

  function WeeklyList(rows: seq<SaleRow>): seq<Bucket> {
    Buckets(rows, WeekKey)
  }

  function MonthlyList(rows: seq<SaleRow>): seq<Bucket> {
    Buckets(rows, MonthKey)
  }

  /** The month keys, latest first. */
  function MonthList(rows: seq<SaleRow>): seq<string> {
    SortBy(BucketKeys(rows, MonthKey), Reverse(StrLe))
  }

  datatype Summary = Summary(
    totalRecords: nat,
    totalStores: nat,
    totalDays: nat,
    start: Option<string>,
    end: Option<string>,
    totals: Amounts)

  /** The report total over the counted rows. */
  function Totals(rows: seq<SaleRow>): Amounts {
    SumAmounts(CountedRows(rows), RowAmounts)
  }

  function Summarize(rows: seq<SaleRow>): Summary {
    var dates := SortedDates(rows);
    Summary(|rows|, |Shops(rows)|, |dates|,
            if |dates| > 0 then Some(FormatDate(dates[0])) else None,
            if |dates| > 0 then Some(FormatDate(dates[|dates| - 1])) else None,
            Totals(rows))
  }

  datatype Report = Report(
    summary: Summary,
    stores: seq<StoreEntry>,
    daily: seq<DayEntry>,
    dailyDetail: map<string, seq<DetailEntry>>,
    weekly: seq<Bucket>,
    monthly: seq<Bucket>,
    monthList: seq<string>)

  /** `generate_report`; no rows at all gives the empty report. */
  function GenerateReport(rows: seq<SaleRow>): (r: Report)
    ensures |rows| == 0 ==> r.summary.totals == Zero && r.stores == [] && r.daily == [] && r.weekly == []
    ensures r.summary.totalRecords == |rows|
    ensures r.summary.totalDays == |r.daily| && r.summary.totalStores == |r.stores|
  {
    if |rows| == 0 then
      Report(Summary(0, 0, 0, None, None, Zero), [], [], map[], [], [], [])
    else
      Report(Summarize(rows), StoreList(rows), DailyList(rows), DetailMap(rows),
             WeeklyList(rows), MonthlyList(rows), MonthList(rows))
  }

  // ---------------------------------------------------------------------
  // Reading a row

  /** How an amount can appear in the export: as a number or as text with thousands separators. */
  predicate Shown(v: Scalar, n: nat) {
    || v == Int(n)
    || (v == Str(Grouped(n)) && |NatToString(n)| <= MaxStrDigits)
  }

  lemma ShownReads(v: Scalar, n: nat)
    requires Shown(v, n)
    ensures ParseInt(v) == n
  {
    if v.Str? {
      ParseIntGrouped(n);
    }
  }

  /** A row whose figures are shown in those forms carries their values; a net sales of 0 is replaced by the channel sum. */
  lemma RowAmountsOfShown(r: SaleRow, hall: nat, delivery: nat, packaging: nat, sales: nat, receipts: nat, customers: nat)
    requires Shown(r.hall, hall) && Shown(r.delivery, delivery) && Shown(r.packaging, packaging)
    requires Shown(r.sales, sales) && Shown(r.receipts, receipts) && Shown(r.customers, customers)
    ensures RowAmounts(r) == Amounts(hall, delivery, packaging,
      if sales == 0 then hall + delivery + packaging else sales, receipts, customers)
  {
    ShownReads(r.hall, hall);
    ShownReads(r.delivery, delivery);
    ShownReads(r.packaging, packaging);
    ShownReads(r.sales, sales);
    ShownReads(r.receipts, receipts);
    ShownReads(r.customers, customers);
  }

  /**
   * A missing, empty or unreadable net sales figure falls back to the sum
   * of the hall, delivery and packaging sales.
   */
  lemma RowTotalFallback(r: SaleRow, i: int)
    requires || r.sales == Null
             || r.sales == Str("")
             || (r.sales.Str? && 0 <= i < |r.sales.s| && r.sales.s[i] != ',' && !IntSyntax(IntChar(r.sales.s[i])))
    ensures RowAmounts(r).total == RowAmounts(r).hall + RowAmounts(r).delivery + RowAmounts(r).packaging
  {
    if r.sales == Str("") {
      ParseIntBlank();
    } else if r.sales.Str? {
      ParseIntRejects(r.sales.s, i);
    }
  }

  // ---------------------------------------------------------------------
  // Totals agree across groupings

  /**
   * Rows grouped under duplicate-free keys that cover every row: entries
   * carrying each group's measure add up to the measure over all rows.
   */
  lemma GroupsAddUp<E>(s: seq<SaleRow>, key: SaleRow -> string, keys: seq<string>, entries: seq<E>, g: E -> int, m: Measure)
    requires NoDup(keys) && forall i :: 0 <= i < |s| ==> key(s[i]) in keys
    requires |entries| == |keys|
    requires forall i :: 0 <= i < |entries| ==> g(entries[i]) == Get(SumAmounts(Group(s, key, keys[i]), RowAmounts), m)
    ensures Sum(entries, g) == Get(SumAmounts(s, RowAmounts), m)
  {
    var h := x => Get(RowAmounts(x), m);
    var sub := k => Sum(Group(s, key, k), h);
    forall i | 0 <= i < |keys| ensures g(entries[i]) == sub(keys[i]) {
      SumAmountsGet(Group(s, key, keys[i]), RowAmounts, m, h);
    }
    SumByKey(s, h, key, keys, sub);
    SumPointwise(entries, keys, g, sub);
    SumAmountsGet(s, RowAmounts, m, h);
  }

  /** The store totals add up to the report total, measure by measure. */
  lemma StoreTotalsAddUp(rows: seq<SaleRow>, m: Measure)
    ensures Sum(StoreList(rows), (e: StoreEntry) => Get(e.amounts, m)) == Get(Totals(rows), m)
  {
    var counted, shops := CountedRows(rows), Shops(rows);
    DistinctMapCovers(counted, ShopOf);
    forall i | 0 <= i < |shops|
      ensures StoreList(rows)[i].amounts == SumAmounts(Group(counted, ShopOf, shops[i]), RowAmounts)
    {
      assert StoreList(rows)[i] == StoreOf(rows, shops[i]);
    }
    GroupsAddUp(counted, ShopOf, shops, StoreList(rows), (e: StoreEntry) => Get(e.amounts, m), m);
  }

  /** Summing the day totals over all dates gives the report total. */
  lemma DatesAddUp(rows: seq<SaleRow>, m: Measure)
    ensures Sum(Dates(rows), d => Get(DayTotals(rows, d), m)) == Get(Totals(rows), m)
  {
    var counted, dates := CountedRows(rows), Dates(rows);
    var g := d => Get(DayTotals(rows, d), m);
    DistinctMapCovers(counted, DateOf);
    forall i | 0 <= i < |dates|
      ensures g(dates[i]) == Get(SumAmounts(Group(counted, DateOf, dates[i]), RowAmounts), m)
    {
      assert DayTotals(rows, dates[i]) == SumAmounts(Group(counted, DateOf, dates[i]), RowAmounts);
    }
    GroupsAddUp(counted, DateOf, dates, dates, g, m);
  }

  /** The daily totals add up to the report total, measure by measure. */
  lemma DailyTotalsAddUp(rows: seq<SaleRow>, m: Measure)
    ensures Sum(DailyList(rows), (e: DayEntry) => Get(e.amounts, m)) == Get(Totals(rows), m)
  {
    var dayM := d => Get(DayTotals(rows, d), m);
    DatesAddUp(rows, m);
    SortBySum(Dates(rows), StrLe, dayM);
    forall d ensures Get(DayAt(rows)(d).amounts, m) == dayM(d) {
      assert DayAt(rows)(d) == DayOf(rows, d);
    }
    SumOverMap(SortedDates(rows), DayAt(rows), (e: DayEntry) => Get(e.amounts, m), dayM);
  }

  /** The summary counts the rows, the stores and the dates, and carries the report total. */
  lemma SummaryCounts(rows: seq<SaleRow>)
    ensures Summarize(rows).totalRecords == |rows|
    ensures Summarize(rows).totalStores == |Shops(rows)| == |StoreList(rows)|
    ensures Summarize(rows).totalDays == |Dates(rows)| == |DailyList(rows)|
    ensures Summarize(rows).totals == Totals(rows)
  {}

  /**
   * The buckets of a key function add up to the day totals of the dates
   * it gives a key, and their day counts to the number of those dates.
   */
  lemma BucketsAddUp(rows: seq<SaleRow>, keyOf: string -> Option<string>, m: Measure)
    ensures Sum(Buckets(rows, keyOf), (b: Bucket) => Get(b.amounts, m))
         == Sum(KeyedDates(rows, keyOf), d => Get(DayTotals(rows, d), m))
    ensures Sum(Buckets(rows, keyOf), (b: Bucket) => b.days) == |KeyedDates(rows, keyOf)|
  {
    BucketAmountsAddUp(rows, keyOf, m);
    BucketDaysAddUp(rows, keyOf);
  }

  /** Every keyed date's key is a bucket key. */
  lemma KeysCover(rows: seq<SaleRow>, keyOf: string -> Option<string>)
    ensures forall i :: 0 <= i < |KeyedDates(rows, keyOf)| ==>
      KeyOf(keyOf)(KeyedDates(rows, keyOf)[i]) in BucketKeys(rows, keyOf)
  {
    var dates := KeyedDates(rows, keyOf);
    forall i | 0 <= i < |dates| ensures KeyOf(keyOf)(dates[i]) in BucketKeys(rows, keyOf) {
      assert Map(dates, KeyOf(keyOf))[i] == KeyOf(keyOf)(dates[i]);
    }
  }

  lemma BucketAmountsAddUp(rows: seq<SaleRow>, keyOf: string -> Option<string>, m: Measure)
    ensures Sum(Buckets(rows, keyOf), (b: Bucket) => Get(b.amounts, m))
         == Sum(KeyedDates(rows, keyOf), d => Get(DayTotals(rows, d), m))
  {
    var dates, keys := KeyedDates(rows, keyOf), BucketKeys(rows, keyOf);
    var sorted := SortBy(keys, StrLe);
    var dayM := d => Get(DayTotals(rows, d), m);
    var subM := k => Sum(Group(dates, KeyOf(keyOf), k), dayM);
    assert Sum(Buckets(rows, keyOf), (b: Bucket) => Get(b.amounts, m)) == Sum(sorted, subM) by {
      forall i | 0 <= i < |sorted|
        ensures Get(Buckets(rows, keyOf)[i].amounts, m) == subM(sorted[i])
      {
        var days := Group(dates, KeyOf(keyOf), sorted[i]);
        SumAmountsGet(days, d => DayTotals(rows, d), m, dayM);
      }
      SumPointwise(Buckets(rows, keyOf), sorted, (b: Bucket) => Get(b.amounts, m), subM);
    }
    assert Sum(sorted, subM) == Sum(keys, subM) by {
      SortBySum(keys, StrLe, subM);
    }
    assert Sum(keys, subM) == Sum(dates, dayM) by {
      KeysCover(rows, keyOf);
      SumByKey(dates, dayM, KeyOf(keyOf), keys, subM);
    }
  }

  lemma BucketDaysAddUp(rows: seq<SaleRow>, keyOf: string -> Option<string>)
    ensures Sum(Buckets(rows, keyOf), (b: Bucket) => b.days) == |KeyedDates(rows, keyOf)|
  {
    var dates, keys := KeyedDates(rows, keyOf), BucketKeys(rows, keyOf);
    var sorted := SortBy(keys, StrLe);
    var one: string -> int := d => 1;
    KeysCover(rows, keyOf);
    var subDays := k => Sum(Group(dates, KeyOf(keyOf), k), one);
    SumByKey(dates, one, KeyOf(keyOf), keys, subDays);
    SortBySum(keys, StrLe, subDays);
    forall i | 0 <= i < |sorted|
      ensures Buckets(rows, keyOf)[i].days == subDays(sorted[i])
    {
      var days := Group(dates, KeyOf(keyOf), sorted[i]);
      SumOnes(days);
      SumCongruent(days, one, x => 1);
    }
    SumPointwise(Buckets(rows, keyOf), sorted, (b: Bucket) => b.days, subDays);
    SumOnes(dates);
    SumCongruent(dates, one, x => 1);
  }

  /**
   * When every date gets a key, the buckets add up to the report total and
   * count every day once.
   */
  lemma BucketsCoverAll(rows: seq<SaleRow>, keyOf: string -> Option<string>, m: Measure)
    requires forall i :: 0 <= i < |Dates(rows)| ==> keyOf(Dates(rows)[i]).Some?
    ensures Sum(Buckets(rows, keyOf), (b: Bucket) => Get(b.amounts, m)) == Get(Totals(rows), m)
    ensures Sum(Buckets(rows, keyOf), (b: Bucket) => b.days) == Summarize(rows).totalDays
  {
    FilterAll(Dates(rows), HasKey(keyOf));
    BucketsAddUp(rows, keyOf, m);
    DatesAddUp(rows, m);
  }

  /** A date as the collector stores it: either rendering of a calendar date. */
  ghost predicate WellFormedDate(s: string) {
    exists d :: Calendar.Valid(d) && (s == Compact(d) || s == Dashed(d))
  }

  lemma DateHasRow(rows: seq<SaleRow>, i: nat)
    requires i < |Dates(rows)|
    ensures exists r :: r in rows && Counted(r) && r.saleDate == Dates(rows)[i]
  {
    var counted := CountedRows(rows);
    assert Dates(rows)[i] in Map(counted, DateOf);
    var j :| 0 <= j < |counted| && Map(counted, DateOf)[j] == Dates(rows)[i];
    assert counted[j] in rows;
  }

  /**
   * When every row carries a well-formed date, the weekly and the monthly
   * buckets both add up to the report total and count every day once.
   */
  lemma WeeklyMonthlyCoverAll(rows: seq<SaleRow>, m: Measure)
    requires forall r :: r in rows && Counted(r) ==> WellFormedDate(r.saleDate)
    ensures Sum(WeeklyList(rows), (b: Bucket) => Get(b.amounts, m)) == Get(Totals(rows), m)
    ensures Sum(MonthlyList(rows), (b: Bucket) => Get(b.amounts, m)) == Get(Totals(rows), m)
    ensures Sum(WeeklyList(rows), (b: Bucket) => b.days) == Summarize(rows).totalDays
    ensures Sum(MonthlyList(rows), (b: Bucket) => b.days) == Summarize(rows).totalDays
  {
    var dates := Dates(rows);
    forall i | 0 <= i < |dates|
      ensures WeekKey(dates[i]).Some? && MonthKey(dates[i]).Some?
    {
      DateHasRow(rows, i);
      var d :| Calendar.Valid(d) && (dates[i] == Compact(d) || dates[i] == Dashed(d));
      WeekKeyOfDate(d);
      MonthKeyOfDate(d);
    }
    BucketsCoverAll(rows, WeekKey, m);
    BucketsCoverAll(rows, MonthKey, m);
  }

  // ---------------------------------------------------------------------
  // Order

  /** The daily list runs through distinct raw dates in string order. */
  lemma DailyOrdered(rows: seq<SaleRow>)
    ensures forall i, j :: 0 <= i < j < |DailyList(rows)| ==>
      StrLe(DailyList(rows)[i].dateRaw, DailyList(rows)[j].dateRaw)
      && DailyList(rows)[i].dateRaw != DailyList(rows)[j].dateRaw
  {
    StrLePreorder();
    SortBySorted(Dates(rows), StrLe);
    SortByNoDup(Dates(rows), StrLe);
  }

  /** Of two distinct renderings in string order, the first is the earlier date. */
  lemma RenderingOrder(x: string, y: string, a: Calendar.Date, b: Calendar.Date)
    requires StrLe(x, y) && x != y
    requires Calendar.Valid(a) && Calendar.Valid(b)
    requires (x, y) == (Compact(a), Compact(b)) || (x, y) == (Dashed(a), Dashed(b))
    ensures Calendar.Ordinal(a) < Calendar.Ordinal(b)
  {
    if x == Compact(a) && y == Compact(b) {
      CompactOrder(a, b);
      CompactOrder(b, a);
    } else {
      DashedOrder(a, b);
      DashedOrder(b, a);
    }
    if StrLe(y, x) {
      StrLeAntisym(x, y);
    }
  }

  /** With dates in one of the two renderings, the daily list is in calendar order. */
  lemma DailyChronological(rows: seq<SaleRow>, i: nat, j: nat, a: Calendar.Date, b: Calendar.Date)
    requires i < j < |DailyList(rows)|
    requires Calendar.Valid(a) && Calendar.Valid(b)
    requires (DailyList(rows)[i].dateRaw, DailyList(rows)[j].dateRaw) == (Compact(a), Compact(b))
      || (DailyList(rows)[i].dateRaw, DailyList(rows)[j].dateRaw) == (Dashed(a), Dashed(b))
    ensures Calendar.Ordinal(a) < Calendar.Ordinal(b)
  {
    var x, y := DailyList(rows)[i].dateRaw, DailyList(rows)[j].dateRaw;
    DailyOrdered(rows);
    assert StrLe(x, y) && x != y;
    RenderingOrder(x, y, a, b);
  }

  /** The summary's range runs from the least to the greatest raw date. */
  lemma SummaryRange(rows: seq<SaleRow>)
    ensures |Dates(rows)| == 0 <==> Summarize(rows).start.None?
    ensures Summarize(rows).start.Some? ==> exists d :: (d in Dates(rows) &&
      Summarize(rows).start == Some(FormatDate(d)) &&
      forall j :: 0 <= j < |Dates(rows)| ==> StrLe(d, Dates(rows)[j]))
    ensures Summarize(rows).end.Some? ==> exists d :: (d in Dates(rows) &&
      Summarize(rows).end == Some(FormatDate(d)) &&
      forall j :: 0 <= j < |Dates(rows)| ==> StrLe(Dates(rows)[j], d))
  {
    var dates, sorted := Dates(rows), SortedDates(rows);
    var sm := Summarize(rows);
    if |dates| > 0 {
      var lo, hi := sorted[0], sorted[|sorted| - 1];
      assert sm.start == Some(FormatDate(lo)) && sm.end == Some(FormatDate(hi));
      StrLePreorder();
      SortByEnds(dates, StrLe);
      assert lo in dates && forall j :: 0 <= j < |dates| ==> StrLe(lo, dates[j]);
      assert hi in dates && forall j :: 0 <= j < |dates| ==> StrLe(dates[j], hi);
    }
  }

  function BucketKey(b: Bucket): string { b.key }

  /** The month list is the monthly list's keys, latest first. */
  lemma MonthListReversed(rows: seq<SaleRow>)
    ensures MonthList(rows) == Reversed(Map(MonthlyList(rows), BucketKey))
  {
    BucketsReversed(rows, MonthKey);
  }

  /** Any key function's keys sorted latest first are its buckets' keys read backwards. */
  lemma BucketsReversed(rows: seq<SaleRow>, keyOf: string -> Option<string>)
    ensures SortBy(BucketKeys(rows, keyOf), Reverse(StrLe)) == Reversed(Map(Buckets(rows, keyOf), BucketKey))
  {
    var keys := BucketKeys(rows, keyOf);
    SortStringsDescending(keys);
    BucketAtKey(rows, keyOf);
    KeysOfBuckets(SortBy(keys, StrLe), BucketAt(rows, keyOf));
  }

  lemma BucketAtKey(rows: seq<SaleRow>, keyOf: string -> Option<string>)
    ensures forall k :: BucketAt(rows, keyOf)(k).key == k
  {
    forall k ensures BucketAt(rows, keyOf)(k).key == k {
      assert BucketAt(rows, keyOf)(k) == BucketOf(rows, keyOf, k);
    }
  }

  /** Buckets made for some keys carry exactly those keys. */
  lemma KeysOfBuckets(keys: seq<string>, f: string -> Bucket)
    requires forall k :: f(k).key == k
    ensures Map(Map(keys, f), BucketKey) == keys
  {
    var m := Map(keys, f);
    forall i | 0 <= i < |keys| ensures Map(m, BucketKey)[i] == keys[i] {
      assert m[i] == f(keys[i]);
    }
  }

  // ---------------------------------------------------------------------
  // Stores and days

  lemma ShopHasRow(rows: seq<SaleRow>, i: nat)
    requires i < |Shops(rows)|
    ensures exists j :: 0 <= j < |CountedRows(rows)| && CountedRows(rows)[j].shopCode == Shops(rows)[i]
  {
    assert Shops(rows)[i] in Map(CountedRows(rows), ShopOf);
    var j :| 0 <= j < |CountedRows(rows)| && Map(CountedRows(rows), ShopOf)[j] == Shops(rows)[i];
  }

  /** `FirstName` finds a name exactly when the store has a row, and then its first row's. */
  lemma {:induction false} FirstNameSpec(s: seq<SaleRow>, code: string)
    ensures FirstName(s, code).Some? <==> exists i :: 0 <= i < |s| && s[i].shopCode == code
    ensures FirstName(s, code).Some? ==> exists i :: (0 <= i < |s| && s[i].shopCode == code
      && s[i].shopName == FirstName(s, code).value
      && forall j :: 0 <= j < i ==> s[j].shopCode != code)
  {
    if |s| > 0 {
      var init := s[..|s| - 1];
      FirstNameSpec(init, code);
      if FirstName(init, code).Some? {
        var i :| 0 <= i < |init| && init[i].shopCode == code && init[i].shopName == FirstName(init, code).value
          && forall j :: 0 <= j < i ==> init[j].shopCode != code;
        assert s[i] == init[i];
        assert forall j :: 0 <= j < i ==> s[j] == init[j];
      } else {
        assert forall j :: 0 <= j < |init| ==> s[j] == init[j];
        if s[|s| - 1].shopCode == code {
          assert FirstName(s, code) == Some(s[|s| - 1].shopName);
          assert forall j :: 0 <= j < |s| - 1 ==> s[j].shopCode != code;
        } else {
          assert FirstName(s, code).None?;
        }
      }
    }
  }

  /** Each store is named after its first row. */
  lemma StoreNameIsFirst(rows: seq<SaleRow>, i: nat)
    requires i < |StoreList(rows)|
    ensures var counted, e := CountedRows(rows), StoreList(rows)[i];
      exists j :: (0 <= j < |counted| && counted[j].shopCode == e.code && counted[j].shopName == e.name
        && forall k :: 0 <= k < j ==> counted[k].shopCode != e.code)
  {
    var counted, code := CountedRows(rows), Shops(rows)[i];
    var e := StoreList(rows)[i];
    assert e == StoreOf(rows, code);
    ShopHasRow(rows, i);
    FirstNameSpec(counted, code);
    var name := FirstName(counted, code);
    assert name.Some?;
    assert e.name == name.value;
  }

  /** A store traded on at least one and at most every day of the report. */
  lemma StoreDaysBounded(rows: seq<SaleRow>, i: nat)
    requires i < |StoreList(rows)|
    ensures 1 <= StoreList(rows)[i].days <= |Dates(rows)|
  {
    var counted, code := CountedRows(rows), Shops(rows)[i];
    var mine := Group(counted, ShopOf, code);
    ShopHasRow(rows, i);
    var j :| 0 <= j < |counted| && counted[j].shopCode == code;
    GroupKeeps(counted, ShopOf, code, counted[j]);
    assert StoreList(rows)[i] == StoreOf(rows, code);
    DistinctMapBounded(mine, counted, DateOf);
  }

  /** A day has at least one and at most every store of the report. */
  lemma DayStoresBounded(rows: seq<SaleRow>, i: nat)
    requires i < |DailyList(rows)|
    ensures 1 <= DailyList(rows)[i].stores <= |Shops(rows)|
  {
    var counted, date := CountedRows(rows), SortedDates(rows)[i];
    var day := DayRows(rows, date);
    DayHasRows(rows, i);
    assert DailyList(rows)[i] == DayOf(rows, date);
    DistinctMapBounded(day, counted, ShopOf);
  }

  /** Every listed date has at least one counted row. */
  lemma DayHasRows(rows: seq<SaleRow>, i: nat)
    requires i < |SortedDates(rows)|
    ensures 0 < |DayRows(rows, SortedDates(rows)[i])|
  {
    var date := SortedDates(rows)[i];
    SortBySameElements(Dates(rows), StrLe);
    var n :| 0 <= n < |Dates(rows)| && Dates(rows)[n] == date;
    DateHasRow(rows, n);
    var r :| r in rows && Counted(r) && r.saleDate == date;
    FilterKeeps(rows, Counted, r);
    GroupKeeps(CountedRows(rows), DateOf, date, r);
  }

  // ---------------------------------------------------------------------
  // Per-day detail

  /** The per-store detail of a date adds up to that date's total. */
  lemma DetailAddsUp(rows: seq<SaleRow>, date: string, m: Measure)
    ensures Sum(DetailOf(rows, date), (e: DetailEntry) => Get(e.amounts, m)) == Get(DayTotals(rows, date), m)
  {
    var day := DayRows(rows, date);
    var codes := Distinct(Map(day, ShopOf));
    var entries := DetailOf(rows, date);
    forall i | 0 <= i < |codes|
      ensures entries[i].amounts == SumAmounts(Group(day, ShopOf, codes[i]), RowAmounts)
    {}
    StoresAddUp(day, entries, m);
  }

  /** Entries carrying the sums of a day's stores add up to the day's sum. */
  lemma StoresAddUp(day: seq<SaleRow>, entries: seq<DetailEntry>, m: Measure)
    requires |entries| == |Distinct(Map(day, ShopOf))|
    requires forall i :: 0 <= i < |entries| ==>
      entries[i].amounts == SumAmounts(Group(day, ShopOf, Distinct(Map(day, ShopOf))[i]), RowAmounts)
    ensures Sum(entries, (e: DetailEntry) => Get(e.amounts, m)) == Get(SumAmounts(day, RowAmounts), m)
  {
    var codes := Distinct(Map(day, ShopOf));
    DistinctMapCovers(day, ShopOf);
    GroupsAddUp(day, ShopOf, codes, entries, (e: DetailEntry) => Get(e.amounts, m), m);
  }

  /**
   * The detail map has a key for the formatted form of every date and no
   * other; under each key are the entries of the last date in first-seen
   * order with that formatted form.
   */
  lemma DetailMapEntries(rows: seq<SaleRow>, i: nat)
    requires i < |Dates(rows)|
    requires forall j :: i < j < |Dates(rows)| ==> FormatDate(Dates(rows)[j]) != FormatDate(Dates(rows)[i])
    ensures FormatDate(Dates(rows)[i]) in DetailMap(rows)
    ensures DetailMap(rows)[FormatDate(Dates(rows)[i])] == DetailOf(rows, Dates(rows)[i])
  {
    ToMapLastWins(Dates(rows), FormatDate, date => DetailOf(rows, date), i);
  }

  lemma DetailMapKeys(rows: seq<SaleRow>)
    ensures forall k :: k in DetailMap(rows) <==> exists i :: 0 <= i < |Dates(rows)| && FormatDate(Dates(rows)[i]) == k
  {
    ToMapKeys(Dates(rows), FormatDate, date => DetailOf(rows, date));
  }

  /** The two renderings of one date share a detail key. */
  lemma DetailKeyShared(d: Calendar.Date)
    requires Calendar.Valid(d)
    ensures FormatDate(Compact(d)) == FormatDate(Dashed(d))
  {
    FormatDateCompact(d);
    RenderedParts(d);
  }

  // ---------------------------------------------------------------------
  // Skipped rows

  lemma SumAmountsCongruent<T>(s: seq<T>, f: T -> Amounts, g: T -> Amounts)
    requires forall x :: x in s ==> f(x) == g(x)
    ensures SumAmounts(s, f) == SumAmounts(s, g)
  {
    if |s| > 0 {
      SumAmountsCongruent(s[..|s| - 1], f, g);
    }
  }

  lemma BucketsDecided(a: seq<SaleRow>, b: seq<SaleRow>, keyOf: string -> Option<string>)
    requires CountedRows(a) == CountedRows(b)
    ensures Buckets(a, keyOf) == Buckets(b, keyOf)
  {
    assert Dates(a) == Dates(b);
    var keys := SortBy(BucketKeys(a, keyOf), StrLe);
    forall i | 0 <= i < |keys| ensures BucketOf(a, keyOf, keys[i]) == BucketOf(b, keyOf, keys[i]) {
      var days := Group(KeyedDates(a, keyOf), KeyOf(keyOf), keys[i]);
      SumAmountsCongruent(days, d => DayTotals(a, d), d => DayTotals(b, d));
    }
  }

  /** Everything but the record count depends on the counted rows alone. */
  lemma CountedRowsDecide(a: seq<SaleRow>, b: seq<SaleRow>)
    requires CountedRows(a) == CountedRows(b)
    ensures Summarize(a).totals == Summarize(b).totals
    ensures StoreList(a) == StoreList(b) && DailyList(a) == DailyList(b)
    ensures WeeklyList(a) == WeeklyList(b) && MonthlyList(a) == MonthlyList(b)
    ensures MonthList(a) == MonthList(b)
  {
    assert Shops(a) == Shops(b) && Dates(a) == Dates(b);
    forall i | 0 <= i < |Shops(a)| ensures StoreList(a)[i] == StoreList(b)[i] {
      assert StoreList(a)[i] == StoreOf(a, Shops(a)[i]);
    }
    forall i | 0 <= i < |SortedDates(a)| ensures DailyList(a)[i] == DailyList(b)[i] {
      assert DailyList(a)[i] == DayOf(a, SortedDates(a)[i]);
    }
    BucketsDecided(a, b, WeekKey);
    BucketsDecided(a, b, MonthKey);
  }

  /** A row without a date or a store code changes nothing but the record count. */
  lemma SkippedRowIgnored(rows: seq<SaleRow>, r: SaleRow)
    requires !Counted(r)
    ensures Summarize(rows + [r]).totals == Summarize(rows).totals
    ensures Summarize(rows + [r]).totalRecords == Summarize(rows).totalRecords + 1
    ensures StoreList(rows + [r]) == StoreList(rows) && DailyList(rows + [r]) == DailyList(rows)
    ensures WeeklyList(rows + [r]) == WeeklyList(rows) && MonthlyList(rows + [r]) == MonthlyList(rows)
  {
    assert (rows + [r])[..|rows|] == rows;
    CountedRowsDecide(rows + [r], rows);
  }
}
