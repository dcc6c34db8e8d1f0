/**
 * The order report generator (generate_report.py): the order records of the
 * master data are summed by day, by store and by category; each product's
 * information comes from the first record carrying its code; and the
 * records with a positive unit price give the price histories that the
 * price-change analysis ranks, over all stores and store by store.
 */
module OrderReport {
  import opened Wrappers
  import opened Seqs
  import opened Sorting
  import opened PyNum
  import opened Text
  import PriceAnalysis

  /**
   * One record of the master data as loaded. A missing text field reads as
   * "", a missing quantity, unit price or total as `Int(0)`.
   */
  datatype OrderItem = OrderItem(
    date: string,
    store: string,
    category: string,
    code: string,
    name: string,
    unit: string,
    qty: Scalar,
    price: Scalar,
    total: Scalar)

  /** A record after cleaning: names trimmed, numbers read. */
  datatype Line = Line(
    date: string,
    store: string,
    category: string,
    code: string,
    name: string,
    unit: string,
    qty: int,
    price: int,
    total: int)

  datatype Numbers = Numbers(qty: int, price: int, total: int)

  /**
   * The three numbers of a record, each read as `int(v or 0)`; when any of
   * them cannot be read, all three are 0.
   */
  function ReadNumbers(it: OrderItem): (r: Numbers)
    ensures IntOrZero(it.qty).None? || IntOrZero(it.price).None? || IntOrZero(it.total).None?
      ==> r == Numbers(0, 0, 0)
    ensures IntOrZero(it.qty).Some? && IntOrZero(it.price).Some? && IntOrZero(it.total).Some?
      ==> r == Numbers(IntOrZero(it.qty).value, IntOrZero(it.price).value, IntOrZero(it.total).value)
  {
    match (IntOrZero(it.qty), IntOrZero(it.price), IntOrZero(it.total))
    case (Some(q), Some(p), Some(t)) => Numbers(q, p, t)
    case _ => Numbers(0, 0, 0)
  }

  /** The store, category, code and name are trimmed; the date and unit are taken as they are. */
  function Clean(it: OrderItem): Line {
    var n := ReadNumbers(it);
    Line(it.date, Strip(it.store), Strip(it.category), Strip(it.code), Strip(it.name), it.unit,
         n.qty, n.price, n.total)
  }

  function DateOf(l: Line): string { l.date }
  function StoreOf(l: Line): string { l.store }
  function CategoryOf(l: Line): string { l.category }
  function CodeOf(l: Line): string { l.code }
  function Qty(l: Line): int { l.qty }
  function Total(l: Line): int { l.total }

  // ---------------------------------------------------------------------
  // Daily sales

  /** One day's sales: quantities, totals and the number of records. */
  datatype Day = Day(date: string, count: int, total: int, items: nat)

  function DayTotal(d: Day): int { d.total }
  function DayCount(d: Day): int { d.count }
  function DayItems(d: Day): int { d.items }

  /** The dates in first-seen order; an empty date is a date like any other. */
  function Dates(lines: seq<Line>): seq<string> {
    Distinct(Map(lines, DateOf))
  }

  function SortedDates(lines: seq<Line>): seq<string> {
    SortBy(Dates(lines), StrLe)
  }

  function DayOf(lines: seq<Line>, date: string): Day {
    var g := Group(lines, DateOf, date);
    Day(date, Sum(g, Qty), Sum(g, Total), |g|)
  }

  function DayOfDate(lines: seq<Line>): string -> Day {
    d => DayOf(lines, d)
  }

  /** The days in date order. */
  function Daily(lines: seq<Line>): seq<Day> {
    Map(SortedDates(lines), DayOfDate(lines))
  }

  // ---------------------------------------------------------------------
  // Store and category breakdowns

  /** The sales under one store or category name. */
  datatype Sales = Sales(name: string, count: int, total: int)

  function SalesTotal(e: Sales): int { e.total }
  function SalesCount(e: Sales): int { e.count }
  function SalesName(e: Sales): string { e.name }

  /** Whether a record has a non-empty name under `keyOf`. */
  function Named(keyOf: Line -> string): Line -> bool {
    l => keyOf(l) != ""
  }

  function Unnamed(keyOf: Line -> string): Line -> bool {
    l => keyOf(l) == ""
  }

  /** The records counted under some name; a record with an empty name is left out. */
  function Keyed(lines: seq<Line>, keyOf: Line -> string): seq<Line> {
    Filter(lines, Named(keyOf))
  }

  /** The non-empty names, in first-seen order. */
  function Names(lines: seq<Line>, keyOf: Line -> string): seq<string> {
    Distinct(Map(Keyed(lines, keyOf), keyOf))
  }

  function SalesOf(lines: seq<Line>, keyOf: Line -> string, k: string): Sales {
    var g := Group(Keyed(lines, keyOf), keyOf, k);
    Sales(k, Sum(g, Qty), Sum(g, Total))
  }

  function SalesOfName(lines: seq<Line>, keyOf: Line -> string): string -> Sales {
    k => SalesOf(lines, keyOf, k)
  }

  /** One entry per name, largest total first; equal totals keep first-seen order. */
  function Breakdown(lines: seq<Line>, keyOf: Line -> string): seq<Sales> {
    SortBy(Map(Names(lines, keyOf), SalesOfName(lines, keyOf)), ByIntDesc(SalesTotal))
  }

  /** The stores in name order. */
  function StoreList(lines: seq<Line>): seq<string> {
    SortBy(Names(lines, StoreOf), StrLe)
  }

  // ---------------------------------------------------------------------
  // Products

  datatype Product = Product(code: string, name: string, category: string, unit: string)

  function ProductCode(p: Product): string { p.code }
  function ProductIdentity(p: Product): Product { p }

  function ProductOfLine(l: Line): Product {
    Product(l.code, l.name, l.category, l.unit)
  }

  /** The products in first-seen order; a code's first record describes it. */
  function Catalog(lines: seq<Line>): seq<Product> {
    if |lines| == 0 then []
    else
      var init := Catalog(lines[..|lines| - 1]);
      var l := lines[|lines| - 1];
      if l.code != "" && l.code !in Map(init, ProductCode) then init + [ProductOfLine(l)] else init
  }

  /** The catalog as a dictionary by code. */
  function CatalogMap(lines: seq<Line>): map<string, Product> {
    ToMap(Catalog(lines), ProductCode, ProductIdentity)
  }

  /** A product's name, or "Unknown" for a code without a product. */
  function NameOf(catalog: map<string, Product>, code: string): string {
    if code in catalog then catalog[code].name else "Unknown"
  }

  /** A product's category, or "" for a code without a product. */
  function CategoryOfCode(catalog: map<string, Product>, code: string): string {
    if code in catalog then catalog[code].category else ""
  }

  // ---------------------------------------------------------------------
  // Price changes

  /** A record enters the price histories when it has a positive price and a code. */
  predicate Priced(l: Line) {
    l.price > 0 && l.code != ""
  }

  function PointOf(l: Line): PriceAnalysis.PricePoint {
    PriceAnalysis.PricePoint(l.date, l.price)
  }

  /** The codes of the priced records, in first-seen order. */
  function PriceCodes(priced: seq<Line>): seq<string> {
    Distinct(Map(priced, CodeOf))
  }

  /** A code's price history, in record order. */
  function History(priced: seq<Line>, code: string): seq<PriceAnalysis.PricePoint> {
    Map(Group(priced, CodeOf, code), PointOf)
  }

  datatype PriceChange = PriceChange(code: string, name: string, category: string, analysis: PriceAnalysis.Analysis)

  function ChangeSize(c: PriceChange): real {
    PriceAnalysis.AbsPct(c.analysis)
  }

  /** A code's price change, named from the catalog; `None` when it has no positive price. */
  function ChangeOf(priced: seq<Line>, catalog: map<string, Product>, code: string): Option<PriceChange> {
    match PriceAnalysis.Analyze(History(priced, code))
    case None => None
    case Some(a) => Some(PriceChange(code, NameOf(catalog, code), CategoryOfCode(catalog, code), a))
  }

  function ChangeOfCode(priced: seq<Line>, catalog: map<string, Product>): string -> Option<PriceChange> {
    c => ChangeOf(priced, catalog, c)
  }

  /** The analyses of the given codes, in their order; a code without a positive price is skipped. */
  function ChangesFor(priced: seq<Line>, catalog: map<string, Product>, codes: seq<string>): seq<PriceChange> {
    Choose(codes, ChangeOfCode(priced, catalog))
  }

  /** Every product's analysis, the largest change first. */
  function AnalyzeChanges(priced: seq<Line>, catalog: map<string, Product>): seq<PriceChange> {
    SortBy(ChangesFor(priced, catalog, PriceCodes(priced)), ByRealDesc(ChangeSize))
  }

  /** At most this many price changes are reported. */
  const PriceChangeLimit := 300

  function Cap<T>(s: seq<T>, n: nat): (r: seq<T>)
    ensures |r| == if |s| < n then |s| else n
    ensures r <= s
  {
    if |s| < n then s else s[..n]
  }

  function PriceChanges(lines: seq<Line>): seq<PriceChange> {
    Cap(AnalyzeChanges(Filter(lines, Priced), CatalogMap(lines)), PriceChangeLimit)
  }

  /** The priced records of one store. */
  function StorePriced(lines: seq<Line>, store: string): seq<Line> {
    Group(Filter(lines, Priced), StoreOf, store)
  }

  /** Per store, its own products' price changes; a store without any is left out. */
  function StorePriceChanges(lines: seq<Line>): map<string, seq<PriceChange>> {
    map s | s in Names(lines, StoreOf) && |StorePriced(lines, s)| > 0
                 && |AnalyzeChanges(StorePriced(lines, s), CatalogMap(lines))| > 0
      :: AnalyzeChanges(StorePriced(lines, s), CatalogMap(lines))
  }

  // ---------------------------------------------------------------------
  // Store details

  datatype StoreDetail = StoreDetail(daily: seq<Day>, totalCount: int, totalSales: int)

  function DetailOf(lines: seq<Line>, store: string): StoreDetail {
    var g := Group(Keyed(lines, StoreOf), StoreOf, store);
    StoreDetail(Daily(g), Sum(g, Qty), Sum(g, Total))
  }

  function StoreDetails(lines: seq<Line>): map<string, StoreDetail> {
    map s | s in StoreList(lines) :: DetailOf(lines, s)
  }

  // ---------------------------------------------------------------------
  // The report

  datatype Summary = Summary(
    totalRecords: nat,
    totalStores: nat,
    totalCategories: nat,
    totalProducts: nat,
    start: Option<string>,
    end: Option<string>,
    totalSales: int)

  datatype Report = Report(
    summary: Summary,
    daily: seq<Day>,
    stores: seq<Sales>,
    categories: seq<Sales>,
    priceChanges: seq<PriceChange>,
    storePriceChanges: map<string, seq<PriceChange>>,
    storeDetails: map<string, StoreDetail>,
    products: seq<Product>,
    storeList: seq<string>)

  function First(s: seq<string>): Option<string> {
    if |s| == 0 then None else Some(s[0])
  }

  function Last(s: seq<string>): Option<string> {
    if |s| == 0 then None else Some(s[|s| - 1])
  }

  function Summarize(lines: seq<Line>): Summary {
    Summary(|lines|, |Names(lines, StoreOf)|, |Names(lines, CategoryOf)|, |Catalog(lines)|,
            First(SortedDates(lines)), Last(SortedDates(lines)), Sum(Daily(lines), DayTotal))
  }

  function Build(lines: seq<Line>): Report {
    Report(Summarize(lines), Daily(lines), Breakdown(lines, StoreOf), Breakdown(lines, CategoryOf),
           PriceChanges(lines), StorePriceChanges(lines), StoreDetails(lines), Catalog(lines),
           StoreList(lines))
  }

  function EmptyReport(): Report {
    Report(Summary(0, 0, 0, 0, None, None, 0), [], [], [], [], map[], map[], [], [])
  }

  /** The report over the master data; no data gives the empty report. */
  function GenerateReport(items: seq<OrderItem>): (r: Report)
    ensures r.summary.totalRecords == |items|
    ensures |items| == 0 <==> r.summary.start.None?
    ensures r.summary.totalStores == |r.storeList|
    ensures r.summary.totalProducts == |r.products|
    ensures |items| == 0 ==> r.daily == [] && r.stores == [] && r.priceChanges == [] && r.summary.totalSales == 0
  {
    if |items| == 0 then EmptyReport()
    else
      var lines := Map(items, Clean);
      assert DateOf(lines[0]) in Dates(lines) by {
        assert Map(lines, DateOf)[0] == DateOf(lines[0]);
      }
      Build(lines)
  }

  // ---------------------------------------------------------------------
  // Properties: reading numbers

  /** Text with a thousands separator in any of the three numbers zeroes all three. */
  lemma CommaZeroesItem(it: OrderItem, s: string)
    requires it.qty == Str(s) || it.price == Str(s) || it.total == Str(s)
    requires ',' in s
    ensures ReadNumbers(it) == Numbers(0, 0, 0)
  {
    CommaRejected(s);
    assert Truthy(Str(s));
  }

  /**
   * How a count can appear in the export: as a number, as its decimal
   * text, or — for 0 only — missing, null or empty.
   */
  predicate Written(v: Scalar, n: nat) {
    || v == Int(n)
    || (v == Str(NatToString(n)) && |NatToString(n)| <= MaxStrDigits)
    || (n == 0 && (v == Null || v == Str("")))
  }

  lemma WrittenReads(v: Scalar, n: nat)
    requires Written(v, n)
    ensures IntOrZero(v) == Some(n)
  {
    if v == Str(NatToString(n)) && |NatToString(n)| <= MaxStrDigits {
      DigitsRead(NatToString(n));
    }
  }

  /** Counts written in any of those forms are read as their values. */
  lemma ReadNumbersOfWritten(it: OrderItem, q: nat, p: nat, t: nat)
    requires Written(it.qty, q) && Written(it.price, p) && Written(it.total, t)
    ensures ReadNumbers(it) == Numbers(q, p, t)
  {
    WrittenReads(it.qty, q);
    WrittenReads(it.price, p);
    WrittenReads(it.total, t);
  }

  /** A character `int()` cannot read in any of the three numbers zeroes all three. */
  lemma ForeignZeroesItem(it: OrderItem, s: string, i: int)
    requires it.qty == Str(s) || it.price == Str(s) || it.total == Str(s)
    requires 0 <= i < |s| && !IntSyntax(IntChar(s[i]))
    ensures ReadNumbers(it) == Numbers(0, 0, 0)
  {
    ForeignRejected(s, i);
  }

  // ---------------------------------------------------------------------
  // Properties: daily sales

  /** A per-day measure summed over the days is the record measure summed over all records. */
  lemma DaysAddUp(lines: seq<Line>, f: Line -> int, h: Day -> int)
    requires forall d :: h(DayOf(lines, d)) == Sum(Group(lines, DateOf, d), f)
    ensures Sum(Daily(lines), h) == Sum(lines, f)
  {
    var dates, sorted := Dates(lines), SortedDates(lines);
    var g := d => Sum(Group(lines, DateOf, d), f);
    DistinctMapCovers(lines, DateOf);
    SumByKey(lines, f, DateOf, dates, g);
    SortBySum(dates, StrLe, g);
    forall i | 0 <= i < |sorted| ensures h(Daily(lines)[i]) == g(sorted[i]) {
      assert Daily(lines)[i] == DayOf(lines, sorted[i]);
    }
    SumPointwise(Daily(lines), sorted, h, g);
  }

  /** The days' totals, quantities and record counts add up to those of all records. */
  lemma DailyAddsUp(lines: seq<Line>)
    ensures Sum(Daily(lines), DayTotal) == Sum(lines, Total)
    ensures Sum(Daily(lines), DayCount) == Sum(lines, Qty)
    ensures Sum(Daily(lines), DayItems) == |lines|
  {
    DaysAddUp(lines, Total, DayTotal);
    DaysAddUp(lines, Qty, DayCount);
    var one := (l: Line) => 1;
    forall d ensures DayItems(DayOf(lines, d)) == Sum(Group(lines, DateOf, d), one) {
      SumOnes(Group(lines, DateOf, d));
    }
    DaysAddUp(lines, one, DayItems);
    SumOnes(lines);
  }

  /** The days are in strictly increasing date order, and every record's date has its day. */
  lemma DailyOrdered(lines: seq<Line>)
    ensures forall i, j :: 0 <= i < j < |Daily(lines)| ==>
      StrLe(Daily(lines)[i].date, Daily(lines)[j].date) && Daily(lines)[i].date != Daily(lines)[j].date
    ensures forall k :: 0 <= k < |lines| ==> exists i :: 0 <= i < |Daily(lines)| && Daily(lines)[i].date == lines[k].date
  {
    DailyDates(lines);
    SortStringsStrict(Dates(lines));
    forall k | 0 <= k < |lines| ensures exists i :: 0 <= i < |Daily(lines)| && Daily(lines)[i].date == lines[k].date {
      DateListed(lines, k);
    }
  }

  /** Day `i` is dated with the `i`-th sorted date. */
  lemma DailyDates(lines: seq<Line>)
    ensures |Daily(lines)| == |SortedDates(lines)|
    ensures forall i :: 0 <= i < |Daily(lines)| ==> Daily(lines)[i].date == SortedDates(lines)[i]
  {
    var sorted := SortedDates(lines);
    forall i | 0 <= i < |sorted| ensures Daily(lines)[i].date == sorted[i] {
      assert Daily(lines)[i] == DayOf(lines, sorted[i]);
    }
  }

  lemma DateListed(lines: seq<Line>, k: int)
    requires 0 <= k < |lines|
    ensures exists i :: 0 <= i < |SortedDates(lines)| && SortedDates(lines)[i] == lines[k].date
  {
    var dates, sorted := Dates(lines), SortedDates(lines);
    DistinctMapCovers(lines, DateOf);
    assert DateOf(lines[k]) in dates;
    assert lines[k].date in multiset(sorted);
  }

  /** The date range spans every record's date, and exists exactly when there are records. */
  lemma DateRange(lines: seq<Line>)
    ensures Summarize(lines).start.Some? <==> |lines| > 0
    ensures Summarize(lines).end.Some? <==> |lines| > 0
    ensures |lines| > 0 ==> forall k :: 0 <= k < |lines| ==>
      StrLe(Summarize(lines).start.value, lines[k].date) && StrLe(lines[k].date, Summarize(lines).end.value)
  {
    var sorted := SortedDates(lines);
    assert Summarize(lines).start == First(sorted) && Summarize(lines).end == Last(sorted);
    SortedDatesSpan(lines);
  }

  /** The sorted dates are empty exactly without records, and their ends bracket every record's date. */
  lemma SortedDatesSpan(lines: seq<Line>)
    ensures |SortedDates(lines)| > 0 <==> |lines| > 0
    ensures |lines| > 0 ==> forall k :: 0 <= k < |lines| ==>
      StrLe(SortedDates(lines)[0], lines[k].date) && StrLe(lines[k].date, SortedDates(lines)[|SortedDates(lines)| - 1])
  {
    var dates := Dates(lines);
    DatesCount(lines);
    if |lines| > 0 {
      StrLePreorder();
      SortByEnds(dates, StrLe);
      forall k | 0 <= k < |lines|
        ensures StrLe(SortedDates(lines)[0], lines[k].date) && StrLe(lines[k].date, SortedDates(lines)[|dates| - 1])
      {
        DateIn(lines, k);
      }
    }
  }

  lemma DatesCount(lines: seq<Line>)
    ensures |SortedDates(lines)| == |Dates(lines)|
    ensures |Dates(lines)| > 0 <==> |lines| > 0
  {
    assert |multiset(SortedDates(lines))| == |multiset(Dates(lines))|;
    if |lines| > 0 {
      DateIn(lines, 0);
    } else {
      assert Map(lines, DateOf) == [];
    }
  }

  lemma DateIn(lines: seq<Line>, k: int)
    requires 0 <= k < |lines|
    ensures lines[k].date in Dates(lines)
  {
    DistinctMapCovers(lines, DateOf);
    assert DateOf(lines[k]) == lines[k].date;
  }

  /** The reported sales total is the total over all records. */
  lemma TotalSalesIsRecordTotal(lines: seq<Line>)
    ensures Summarize(lines).totalSales == Sum(lines, Total)
  {
    DailyAddsUp(lines);
  }

  // ---------------------------------------------------------------------
  // Properties: store and category breakdowns

  lemma NamedUnnamed(keyOf: Line -> string)
    ensures forall l :: Unnamed(keyOf)(l) == !Named(keyOf)(l)
  {}

  /** A per-name measure summed over the breakdown is the record measure over the named records. */
  lemma BreakdownSum(lines: seq<Line>, keyOf: Line -> string, f: Line -> int, h: Sales -> int)
    requires forall k :: h(SalesOf(lines, keyOf, k)) == Sum(Group(Keyed(lines, keyOf), keyOf, k), f)
    ensures Sum(Breakdown(lines, keyOf), h) == Sum(Keyed(lines, keyOf), f)
  {
    var keyed, names := Keyed(lines, keyOf), Names(lines, keyOf);
    var entries := Map(names, SalesOfName(lines, keyOf));
    var g := k => Sum(Group(keyed, keyOf, k), f);
    DistinctMapCovers(keyed, keyOf);
    SumByKey(keyed, f, keyOf, names, g);
    forall i | 0 <= i < |entries| ensures h(entries[i]) == g(names[i]) {
      assert entries[i] == SalesOf(lines, keyOf, names[i]);
    }
    SumPointwise(entries, names, h, g);
    SortBySum(entries, ByIntDesc(SalesTotal), h);
  }

  /**
   * The breakdown's totals and quantities, plus those of the records with
   * an empty name, add up to those of all records.
   */
  lemma BreakdownAddsUp(lines: seq<Line>, keyOf: Line -> string)
    ensures Sum(Breakdown(lines, keyOf), SalesTotal) + Sum(Filter(lines, Unnamed(keyOf)), Total) == Sum(lines, Total)
    ensures Sum(Breakdown(lines, keyOf), SalesCount) + Sum(Filter(lines, Unnamed(keyOf)), Qty) == Sum(lines, Qty)
  {
    BreakdownSum(lines, keyOf, Total, SalesTotal);
    BreakdownSum(lines, keyOf, Qty, SalesCount);
    NamedUnnamed(keyOf);
    FilterSplitSum(lines, Named(keyOf), Unnamed(keyOf), Total);
    FilterSplitSum(lines, Named(keyOf), Unnamed(keyOf), Qty);
  }

  /** The breakdown rearranges the per-name entries, largest total first. */
  lemma BreakdownOrdered(lines: seq<Line>, keyOf: Line -> string)
    ensures multiset(Breakdown(lines, keyOf)) == multiset(Map(Names(lines, keyOf), SalesOfName(lines, keyOf)))
    ensures forall i, j :: 0 <= i < j < |Breakdown(lines, keyOf)| ==>
      Breakdown(lines, keyOf)[i].total >= Breakdown(lines, keyOf)[j].total
  {
    SortByIntDescOrdered(Map(Names(lines, keyOf), SalesOfName(lines, keyOf)), SalesTotal);
  }

  /** Every name in the breakdown is a non-empty name of some record. */
  lemma NamesFromRecords(lines: seq<Line>, keyOf: Line -> string, k: string)
    requires k in Names(lines, keyOf)
    ensures k != "" && exists m :: 0 <= m < |lines| && keyOf(lines[m]) == k
  {
    var keyed := Keyed(lines, keyOf);
    var i :| 0 <= i < |keyed| && Map(keyed, keyOf)[i] == k;
    assert keyed[i] in lines;
  }

  /** Each breakdown entry carries a non-empty name and the sums of that name's records. */
  lemma BreakdownEntries(lines: seq<Line>, keyOf: Line -> string)
    ensures forall e :: e in Breakdown(lines, keyOf) ==> e.name != "" && e == SalesOf(lines, keyOf, e.name)
  {
    var names := Names(lines, keyOf);
    var entries := Map(names, SalesOfName(lines, keyOf));
    forall e | e in Breakdown(lines, keyOf) ensures e.name != "" && e == SalesOf(lines, keyOf, e.name) {
      assert e in multiset(entries);
      var n :| 0 <= n < |entries| && entries[n] == e;
      assert entries[n] == SalesOf(lines, keyOf, names[n]);
      NamesFromRecords(lines, keyOf, names[n]);
    }
  }

  /** No name occurs twice in the breakdown. */
  lemma BreakdownDistinct(lines: seq<Line>, keyOf: Line -> string)
    ensures forall i, j :: 0 <= i < j < |Breakdown(lines, keyOf)| ==>
      Breakdown(lines, keyOf)[i].name != Breakdown(lines, keyOf)[j].name
  {
    var names := Names(lines, keyOf);
    var entries := Map(names, SalesOfName(lines, keyOf));
    var r := Breakdown(lines, keyOf);
    forall a, b | 0 <= a < b < |entries| ensures entries[a] != entries[b] {
      assert entries[a].name == names[a] && entries[b].name == names[b];
    }
    SortByNoDup(entries, ByIntDesc(SalesTotal));
    BreakdownEntries(lines, keyOf);
    forall i, j | 0 <= i < j < |r| ensures r[i].name != r[j].name {
      assert r[i] in r && r[j] in r;
    }
  }

  /** Every record with a non-empty name has its name's entry in the breakdown. */
  lemma BreakdownCovers(lines: seq<Line>, keyOf: Line -> string)
    ensures forall m :: 0 <= m < |lines| && keyOf(lines[m]) != "" ==>
      exists i :: 0 <= i < |Breakdown(lines, keyOf)| && Breakdown(lines, keyOf)[i].name == keyOf(lines[m])
  {
    forall m | 0 <= m < |lines| && keyOf(lines[m]) != ""
      ensures exists i :: 0 <= i < |Breakdown(lines, keyOf)| && Breakdown(lines, keyOf)[i].name == keyOf(lines[m])
    {
      NameListed(lines, keyOf, m);
      NameInBreakdown(lines, keyOf, keyOf(lines[m]));
    }
  }

  lemma NameListed(lines: seq<Line>, keyOf: Line -> string, m: int)
    requires 0 <= m < |lines| && keyOf(lines[m]) != ""
    ensures keyOf(lines[m]) in Names(lines, keyOf)
  {
    var keyed := Keyed(lines, keyOf);
    DistinctMapCovers(keyed, keyOf);
    FilterKeeps(lines, Named(keyOf), lines[m]);
    var q :| 0 <= q < |keyed| && keyed[q] == lines[m];
  }

  lemma NameInBreakdown(lines: seq<Line>, keyOf: Line -> string, k: string)
    requires k in Names(lines, keyOf)
    ensures exists i :: 0 <= i < |Breakdown(lines, keyOf)| && Breakdown(lines, keyOf)[i].name == k
  {
    var names := Names(lines, keyOf);
    var entries := Map(names, SalesOfName(lines, keyOf));
    var r := Breakdown(lines, keyOf);
    var n :| 0 <= n < |names| && names[n] == k;
    var e := entries[n];
    assert e == SalesOf(lines, keyOf, k);
    SortByKeeps(entries, ByIntDesc(SalesTotal), e);
    assert e in r;
  }

  /** A store's detail totals are its daily totals added up, and equal its breakdown entry. */
  lemma StoreDetailAddsUp(lines: seq<Line>, store: string)
    ensures DetailOf(lines, store).totalSales == Sum(DetailOf(lines, store).daily, DayTotal)
    ensures DetailOf(lines, store).totalCount == Sum(DetailOf(lines, store).daily, DayCount)
    ensures DetailOf(lines, store).totalSales == SalesOf(lines, StoreOf, store).total
  {
    DailyAddsUp(Group(Keyed(lines, StoreOf), StoreOf, store));
  }

  // ---------------------------------------------------------------------
  // Properties: products

  /** The catalog's codes are non-empty and distinct, and every record with a code has its product. */
  lemma {:induction false} CatalogCodes(lines: seq<Line>)
    ensures NoDup(Map(Catalog(lines), ProductCode))
    ensures forall i :: 0 <= i < |Catalog(lines)| ==> Catalog(lines)[i].code != ""
    ensures forall j :: 0 <= j < |lines| && lines[j].code != "" ==> lines[j].code in Map(Catalog(lines), ProductCode)
  {
    if |lines| > 0 {
      var init := lines[..|lines| - 1];
      var l := lines[|lines| - 1];
      CatalogCodes(init);
      var c, r := Catalog(init), Catalog(lines);
      var codes := Map(c, ProductCode);
      var added := l.code != "" && l.code !in codes;
      if added {
        assert r == c + [ProductOfLine(l)];
        MapSnoc(c, ProductOfLine(l), ProductCode);
        assert Map(r, ProductCode) == codes + [l.code];
      } else {
        assert r == c;
      }
      forall j | 0 <= j < |lines| - 1 && lines[j].code != ""
        ensures lines[j].code in Map(r, ProductCode)
      {
        assert init[j] == lines[j];
        var i :| 0 <= i < |c| && codes[i] == lines[j].code;
        assert Map(r, ProductCode)[i] == lines[j].code;
      }
    }
  }

  /** Record `j` is the first record carrying its (non-empty) code, and it describes `p`. */
  predicate DescribedBy(lines: seq<Line>, p: Product, j: int) {
    && 0 <= j < |lines| && lines[j].code != "" && p == ProductOfLine(lines[j])
    && forall k :: 0 <= k < j ==> lines[k].code != lines[j].code
  }

  /** Each product is described by the first record carrying its code. */
  lemma {:induction false} CatalogFirst(lines: seq<Line>, i: nat)
    requires i < |Catalog(lines)|
    ensures exists j :: DescribedBy(lines, Catalog(lines)[i], j)
  {
    var init := lines[..|lines| - 1];
    var l := lines[|lines| - 1];
    CatalogCodes(init);
    var c, r := Catalog(init), Catalog(lines);
    var added := l.code != "" && l.code !in Map(c, ProductCode);
    assert r == if added then c + [ProductOfLine(l)] else c;
    if i < |c| {
      CatalogFirst(init, i);
      var j :| DescribedBy(init, c[i], j);
      assert lines[j] == init[j] && r[i] == c[i];
      assert forall k :: 0 <= k < j ==> lines[k] == init[k];
      assert DescribedBy(lines, r[i], j);
    } else {
      var j := |lines| - 1;
      assert added && r[i] == ProductOfLine(lines[j]);
      forall k | 0 <= k < j ensures lines[k].code != l.code {
        assert lines[k] == init[k];
      }
      assert DescribedBy(lines, r[i], j);
    }
  }

  /**
   * Looking a code up in the catalog finds the product described by the
   * first record carrying that code.
   */
  lemma CatalogLookup(lines: seq<Line>, j: nat)
    requires j < |lines| && lines[j].code != ""
    ensures lines[j].code in CatalogMap(lines)
    ensures exists f :: (0 <= f <= j && lines[f].code == lines[j].code
      && CatalogMap(lines)[lines[j].code] == ProductOfLine(lines[f])
      && forall k :: 0 <= k < f ==> lines[k].code != lines[j].code)
  {
    var c := Catalog(lines);
    CatalogCodes(lines);
    var i :| 0 <= i < |c| && Map(c, ProductCode)[i] == lines[j].code;
    CatalogFirst(lines, i);
    forall n | i < n < |c| ensures ProductCode(c[n]) != ProductCode(c[i]) {
      assert Map(c, ProductCode)[i] != Map(c, ProductCode)[n];
    }
    ToMapLastWins(c, ProductCode, ProductIdentity, i);
    var f :| DescribedBy(lines, c[i], f);
  }

  // ---------------------------------------------------------------------
  // Properties: price changes

  /**
   * A code's history holds exactly the dates and prices of the records with
   * that code and a positive price.
   */
  lemma HistoryExactly(lines: seq<Line>, code: string, x: PriceAnalysis.PricePoint)
    ensures x in History(Filter(lines, Priced), code) <==>
      exists k :: 0 <= k < |lines| && Priced(lines[k]) && lines[k].code == code && PointOf(lines[k]) == x
  {
    var h := History(Filter(lines, Priced), code);
    if x in h {
      var i :| 0 <= i < |h| && h[i] == x;
      HistoryFrom(lines, code, i);
    }
    if exists k :: 0 <= k < |lines| && Priced(lines[k]) && lines[k].code == code && PointOf(lines[k]) == x {
      var k :| 0 <= k < |lines| && Priced(lines[k]) && lines[k].code == code && PointOf(lines[k]) == x;
      HistoryHas(lines, code, k);
    }
  }

  lemma HistoryFrom(lines: seq<Line>, code: string, i: int)
    requires 0 <= i < |History(Filter(lines, Priced), code)|
    ensures exists k :: (0 <= k < |lines| && Priced(lines[k]) && lines[k].code == code
      && PointOf(lines[k]) == History(Filter(lines, Priced), code)[i])
  {
    var priced := Filter(lines, Priced);
    var g := Group(priced, CodeOf, code);
    assert History(priced, code)[i] == PointOf(g[i]);
    assert g[i] in priced;
    assert g[i] in lines;
  }

  lemma HistoryHas(lines: seq<Line>, code: string, k: int)
    requires 0 <= k < |lines| && Priced(lines[k]) && lines[k].code == code
    ensures PointOf(lines[k]) in History(Filter(lines, Priced), code)
  {
    var priced := Filter(lines, Priced);
    var g := Group(priced, CodeOf, code);
    FilterKeeps(lines, Priced, lines[k]);
    GroupKeeps(priced, CodeOf, code, lines[k]);
    var i :| 0 <= i < |g| && g[i] == lines[k];
    assert History(priced, code)[i] == PointOf(lines[k]);
  }

  /** A code that some priced record carries gets an analysis. */
  lemma CodeAnalyzed(priced: seq<Line>, code: string)
    requires forall i :: 0 <= i < |priced| ==> Priced(priced[i])
    requires code in Map(priced, CodeOf)
    ensures PriceAnalysis.Analyze(History(priced, code)).Some?
  {
    var m :| 0 <= m < |priced| && Map(priced, CodeOf)[m] == code;
    PositivePoint(priced, code, priced[m]);
    PriceAnalysis.AnalyzedIff(History(priced, code));
  }

  lemma PositivePoint(priced: seq<Line>, code: string, y: Line)
    requires y in priced && y.price > 0 && y.code == code
    ensures exists i :: 0 <= i < |History(priced, code)| && History(priced, code)[i].price > 0
  {
    GroupKeeps(priced, CodeOf, code, y);
    var g := Group(priced, CodeOf, code);
    var i :| 0 <= i < |g| && g[i] == y;
    assert History(priced, code)[i] == PointOf(y);
  }

  /** Over priced records, every listed code yields its change, in the order of the codes. */
  lemma ChangesComplete(priced: seq<Line>, catalog: map<string, Product>, codes: seq<string>)
    requires forall i :: 0 <= i < |priced| ==> Priced(priced[i])
    requires forall i :: 0 <= i < |codes| ==> codes[i] in Map(priced, CodeOf)
    ensures |ChangesFor(priced, catalog, codes)| == |codes|
    ensures forall i :: 0 <= i < |codes| ==> ChangeOf(priced, catalog, codes[i]) == Some(ChangesFor(priced, catalog, codes)[i])
  {
    var f := ChangeOfCode(priced, catalog);
    forall i | 0 <= i < |codes| ensures f(codes[i]).Some? {
      CodeAnalyzed(priced, codes[i]);
    }
    ChooseAll(codes, f);
  }

  /** A change reports its code's analysis under the catalog's name. */
  lemma ChangeOfSpec(priced: seq<Line>, catalog: map<string, Product>, code: string)
    requires ChangeOf(priced, catalog, code).Some?
    ensures var x := ChangeOf(priced, catalog, code).value;
      && x.code == code
      && PriceAnalysis.Analyze(History(priced, code)) == Some(x.analysis)
      && x.name == NameOf(catalog, code)
  {}

  /** The price changes of priced records: one per code, the largest change first. */
  lemma AnalyzeChangesOrdered(priced: seq<Line>, catalog: map<string, Product>)
    requires forall i :: 0 <= i < |priced| ==> Priced(priced[i])
    ensures |AnalyzeChanges(priced, catalog)| == |PriceCodes(priced)|
    ensures forall i, j :: 0 <= i < j < |AnalyzeChanges(priced, catalog)| ==>
      ChangeSize(AnalyzeChanges(priced, catalog)[i]) >= ChangeSize(AnalyzeChanges(priced, catalog)[j])
  {
    ChangesComplete(priced, catalog, PriceCodes(priced));
    SortByRealDescOrdered(ChangesFor(priced, catalog, PriceCodes(priced)), ChangeSize);
  }

  /** Each price change is the change of a distinct priced code. */
  lemma AnalyzeChangesContents(priced: seq<Line>, catalog: map<string, Product>)
    requires forall i :: 0 <= i < |priced| ==> Priced(priced[i])
    ensures forall x :: x in AnalyzeChanges(priced, catalog) ==>
      x.code in PriceCodes(priced) && ChangeOf(priced, catalog, x.code) == Some(x)
  {
    var codes := PriceCodes(priced);
    var changes := ChangesFor(priced, catalog, codes);
    ChangesComplete(priced, catalog, codes);
    forall x | x in AnalyzeChanges(priced, catalog)
      ensures x.code in codes && ChangeOf(priced, catalog, x.code) == Some(x)
    {
      SortByFrom(changes, ByRealDesc(ChangeSize), x);
      var i :| 0 <= i < |changes| && changes[i] == x;
      ChangeOfSpec(priced, catalog, codes[i]);
    }
  }

  /**
   * At most 300 price changes are reported: the largest ones, in
   * decreasing order of size, as a prefix of the full ranking.
   */
  lemma PriceChangesCapped(lines: seq<Line>)
    ensures var n := |PriceCodes(Filter(lines, Priced))|;
      |PriceChanges(lines)| == if n < PriceChangeLimit then n else PriceChangeLimit
    ensures PriceChanges(lines) <= AnalyzeChanges(Filter(lines, Priced), CatalogMap(lines))
    ensures var all := AnalyzeChanges(Filter(lines, Priced), CatalogMap(lines));
      forall i, j :: 0 <= i < |PriceChanges(lines)| <= j < |all| ==>
        ChangeSize(PriceChanges(lines)[i]) >= ChangeSize(all[j])
  {
    AnalyzeChangesOrdered(Filter(lines, Priced), CatalogMap(lines));
  }

  /** Every reported product is in the catalog, so its name never falls back to "Unknown". */
  lemma PriceChangesNamed(lines: seq<Line>)
    ensures forall x :: x in PriceChanges(lines) ==>
      x.code in CatalogMap(lines) && x.name == CatalogMap(lines)[x.code].name
  {
    var priced := Filter(lines, Priced);
    var all := AnalyzeChanges(priced, CatalogMap(lines));
    AnalyzeChangesContents(priced, CatalogMap(lines));
    forall x | x in PriceChanges(lines)
      ensures x.code in CatalogMap(lines) && x.name == CatalogMap(lines)[x.code].name
    {
      var i :| 0 <= i < |PriceChanges(lines)| && PriceChanges(lines)[i] == x;
      assert all[i] == x;
      ChangeOfSpec(priced, CatalogMap(lines), x.code);
      var m :| 0 <= m < |priced| && Map(priced, CodeOf)[m] == x.code;
      assert priced[m] in lines;
      var j :| 0 <= j < |lines| && lines[j] == priced[m];
      CatalogLookup(lines, j);
    }
  }

  /** A store with its own price changes is a named store with a priced record. */
  lemma StorePriceChangesFromRecords(lines: seq<Line>, store: string)
    requires store in StorePriceChanges(lines)
    ensures store != "" && exists k :: 0 <= k < |lines| && Priced(lines[k]) && lines[k].store == store
  {
    var sp := StorePriced(lines, store);
    var priced := Filter(lines, Priced);
    NamesFromRecords(lines, StoreOf, store);
    assert sp[0] in priced;
    assert sp[0] in lines;
  }

  /** A named store with a priced record gets its own price changes. */
  lemma StorePriceChangesCover(lines: seq<Line>, k: nat)
    requires k < |lines| && Priced(lines[k]) && lines[k].store != ""
    ensures lines[k].store in StorePriceChanges(lines)
  {
    var store := lines[k].store;
    var sp := StorePriced(lines, store);
    var priced := Filter(lines, Priced);
    FilterKeeps(lines, Priced, lines[k]);
    GroupKeeps(priced, StoreOf, store, lines[k]);
    StoreNamed(lines, k);
    forall i | 0 <= i < |sp| ensures Priced(sp[i]) {
      assert sp[i] in priced;
    }
    AnalyzeChangesOrdered(sp, CatalogMap(lines));
    assert Map(sp, CodeOf)[0] in PriceCodes(sp);
  }

  /** A record's non-empty store is among the store names. */
  lemma StoreNamed(lines: seq<Line>, k: nat)
    requires k < |lines| && lines[k].store != ""
    ensures lines[k].store in Names(lines, StoreOf)
  {
    FilterKeeps(lines, Named(StoreOf), lines[k]);
    DistinctMapCovers(Keyed(lines, StoreOf), StoreOf);
    var q :| 0 <= q < |Keyed(lines, StoreOf)| && Keyed(lines, StoreOf)[q] == lines[k];
  }

  /** A store has its own price changes exactly when one of its records is priced. */
  lemma StorePriceChangesKeys(lines: seq<Line>, store: string)
    ensures store in StorePriceChanges(lines) <==>
      store != "" && exists k :: 0 <= k < |lines| && Priced(lines[k]) && lines[k].store == store
  {
    if store in StorePriceChanges(lines) {
      StorePriceChangesFromRecords(lines, store);
    }
    if store != "" && exists k :: 0 <= k < |lines| && Priced(lines[k]) && lines[k].store == store {
      var k :| 0 <= k < |lines| && Priced(lines[k]) && lines[k].store == store;
      StorePriceChangesCover(lines, k);
    }
  }

  // ---------------------------------------------------------------------
  // Properties: the report

  /** The report of no records agrees with the empty report the generator writes. */
  lemma EmptyAgrees()
    ensures Build([]) == EmptyReport()
  {
    assert StorePriceChanges([]) == map[];
    assert StoreDetails([]) == map[];
  }

  /**
   * The reported sales total is the total over all records, and equals the
   * store breakdown's total plus that of the records without a store.
   */
  lemma ReportTotals(items: seq<OrderItem>)
    requires |items| > 0
    ensures var lines := Map(items, Clean);
      && GenerateReport(items).summary.totalSales == Sum(lines, Total)
      && GenerateReport(items).summary.totalSales
         == Sum(GenerateReport(items).stores, SalesTotal) + Sum(Filter(lines, Unnamed(StoreOf)), Total)
      && GenerateReport(items).summary.totalSales
         == Sum(GenerateReport(items).categories, SalesTotal) + Sum(Filter(lines, Unnamed(CategoryOf)), Total)
  {
    var lines := Map(items, Clean);
    TotalSalesIsRecordTotal(lines);
    BreakdownAddsUp(lines, StoreOf);
    BreakdownAddsUp(lines, CategoryOf);
  }
}
