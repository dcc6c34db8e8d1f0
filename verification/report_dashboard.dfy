/**
 * The order report dashboard (docs/app.js): the weekly and monthly tables
 * with their change against the previous row, the store table with each
 * store's share of the listed total, and the price cards with their search,
 * their sort choices and their up/down/neutral marking.
 *
 * Numbers are exact: `toFixed(1)` is modelled as rounding to a whole number
 * of tenths, and a division by a zero total as the non-finite value
 * JavaScript produces.
 */
module ReportDashboard {
  import opened Seqs
  import opened Sorting
  import opened Text
  import PriceAnalysis
  import OrderReport

  // ---------------------------------------------------------------------
  // Weekly and monthly tables

  /** One row of the weekly or monthly table, in the report's key order. */
  datatype PeriodRow = PeriodRow(key: string, count: int, total: int)

  /**
   * The change cell of a row: '-' on the first row, otherwise the change
   * against the previous row in tenths of a percent, or the non-finite
   * result of dividing by a zero previous total.
   */
  datatype Change = NoPrevious | Tenths(tenths: int) | Infinite(up: bool) | NotANumber

  /** The colouring of a change or a card: rising, falling or neither. */
  datatype Trend = Rising | Falling | Steady

  /** `toFixed(1)` as a whole number of tenths: the magnitude rounded half up, the sign kept. */
  function RoundTenths(x: real): (r: int)
    ensures -1.0 / 20.0 <= r as real / 10.0 - x <= 1.0 / 20.0
    ensures r > 0 ==> x > 0.0
    ensures r < 0 ==> x < 0.0
  {
    if x < 0.0 then -((-x) * 10.0 + 0.5).Floor else (x * 10.0 + 0.5).Floor
  }

  /** The change from `prev` to `cur` as a percentage of `prev`. */
  function Growth(prev: int, cur: int): (r: real)
    requires prev != 0
    ensures r * prev as real == (cur - prev) as real * 100.0
  {
    (cur - prev) as real / prev as real * 100.0
  }

  /** The change cell of a row whose previous row's total is `prev`. */
  function ChangeFrom(prev: int, cur: int): (r: Change)
    ensures r.Tenths? <==> prev != 0
    ensures r.NotANumber? <==> prev == 0 && cur == 0
  {
    if prev == 0 then (if cur == 0 then NotANumber else Infinite(cur > 0))
    else Tenths(RoundTenths(Growth(prev, cur)))
  }

  /**
   * The class of a change cell: the rounded value's sign, with infinities
   * signed and NaN and '-' comparing neither above nor below zero.
   */
  function ChangeTrend(c: Change): Trend {
    match c
    case Tenths(t) => if t > 0 then Rising else if t < 0 then Falling else Steady
    case Infinite(up) => if up then Rising else Falling
    case _ => Steady
  }

  /** The change cells of a table, row by row. */
  function PeriodChanges(rows: seq<PeriodRow>): (r: seq<Change>)
    ensures |r| == |rows|
    ensures |r| > 0 ==> r[0] == NoPrevious
    ensures forall i :: 0 < i < |r| ==> r[i] == ChangeFrom(rows[i - 1].total, rows[i].total)
  {
    if |rows| == 0 then []
    else if |rows| == 1 then [NoPrevious]
    else PeriodChanges(rows[..|rows| - 1]) + [ChangeFrom(rows[|rows| - 2].total, rows[|rows| - 1].total)]
  }

  /** Rounding to tenths is positive exactly from a twentieth upwards, negative from a twentieth downwards. */
  lemma RoundTenthsSign(x: real)
    ensures RoundTenths(x) > 0 <==> x >= 1.0 / 20.0
    ensures RoundTenths(x) < 0 <==> x <= -1.0 / 20.0
  {
    if x < 0.0 {
      var f := ((-x) * 10.0 + 0.5).Floor;
      assert f >= 1 <==> (-x) * 10.0 + 0.5 >= 1.0;
    } else {
      var f := (x * 10.0 + 0.5).Floor;
      assert f >= 1 <==> x * 10.0 + 0.5 >= 1.0;
    }
  }

  /**
   * A row is marked rising exactly when its total grew by at least a
   * twentieth of a percent of a positive previous total, and falling
   * exactly when it shrank by that much; after a zero total any growth is
   * rising and any loss falling.
   */
  lemma ChangeTrendIff(prev: int, cur: int)
    ensures prev > 0 ==> (ChangeTrend(ChangeFrom(prev, cur)) == Rising <==> 2000 * (cur - prev) >= prev)
    ensures prev > 0 ==> (ChangeTrend(ChangeFrom(prev, cur)) == Falling <==> 2000 * (prev - cur) >= prev)
    ensures prev == 0 ==> (ChangeTrend(ChangeFrom(prev, cur)) == Rising <==> cur > 0)
    ensures prev == 0 ==> (ChangeTrend(ChangeFrom(prev, cur)) == Falling <==> cur < 0)
  {
    if prev > 0 {
      var g := Growth(prev, cur);
      var p := prev as real;
      RoundTenthsSign(g);
      PositiveFactor(g - 1.0 / 20.0, p);
      PositiveFactor(-1.0 / 20.0 - g, p);
      assert (g - 1.0 / 20.0) * p == (cur - prev) as real * 100.0 - p / 20.0;
      assert (-1.0 / 20.0 - g) * p == (prev - cur) as real * 100.0 - p / 20.0;
    }
  }

  /** Multiplying by a positive factor keeps the sign. */
  lemma PositiveFactor(x: real, p: real)
    requires p > 0.0
    ensures x * p >= 0.0 <==> x >= 0.0
  {
    if x >= 0.0 {
      assert x * p >= 0.0;
    } else {
      assert x * p < 0.0;
    }
  }

  /** The first row of a table shows '-' and is never coloured. */
  lemma FirstRowPlain(rows: seq<PeriodRow>)
    requires |rows| > 0
    ensures ChangeTrend(PeriodChanges(rows)[0]) == Steady
  {
  }

  // ---------------------------------------------------------------------
  // Store table

  type Sales = OrderReport.Sales

  /** A store's share of `sum` in percent; a non-positive `sum` gives 0. */
  function Share(total: int, sum: int): (r: real)
    ensures sum > 0 ==> r * sum as real == total as real * 100.0
    ensures sum <= 0 ==> r == 0.0
  {
    if sum > 0 then total as real / sum as real * 100.0 else 0.0
  }

  /** A positive sum is all of itself. */
  lemma ShareWhole(sum: int)
    requires sum > 0
    ensures Share(sum, sum) == 100.0
  {
    assert sum as real / sum as real == 1.0;
  }

  /** Shares of one sum add up like the totals they are taken of. */
  lemma ShareAdd(a: int, b: int, sum: int)
    requires sum > 0
    ensures Share(a + b, sum) == Share(a, sum) + Share(b, sum)
  {
    var k := sum as real;
    assert (a + b) as real / k == a as real / k + b as real / k;
  }

  /** One rendered row: the 1-based rank, the store and its share. */
  datatype StoreLine = StoreLine(rank: int, store: Sales, ratio: real)

  function TotalSales(stores: seq<Sales>): int {
    Sum(stores, OrderReport.SalesTotal)
  }

  /** The rows of `stores`, ranked in list order, with shares of `sum`. */
  function Lines(stores: seq<Sales>, sum: int): (r: seq<StoreLine>)
    ensures |r| == |stores|
    ensures forall i :: 0 <= i < |r| ==> r[i] == StoreLine(i + 1, stores[i], Share(stores[i].total, sum))
  {
    if |stores| == 0 then []
    else
      var last := stores[|stores| - 1];
      Lines(stores[..|stores| - 1], sum) + [StoreLine(|stores|, last, Share(last.total, sum))]
  }

  /** The stores whose lowercased name contains the lowercased query. */
  function SearchStores(stores: seq<Sales>, query: string): seq<Sales> {
    Filter(stores, (s: Sales) => Contains(Lower(s.name), Lower(query)))
  }

  /** The store table after a search: the matching stores, with shares of the matching stores' total. */
  function StoreTable(stores: seq<Sales>, query: string): seq<StoreLine> {
    var shown := SearchStores(stores, query);
    Lines(shown, TotalSales(shown))
  }

  function RatioTotal(lines: seq<StoreLine>): real {
    if |lines| == 0 then 0.0 else RatioTotal(lines[..|lines| - 1]) + lines[|lines| - 1].ratio
  }

  /** The shares of a positive `sum` add up to the stores' total as a share of it. */
  lemma {:induction false} RatioTotalScaled(stores: seq<Sales>, sum: int)
    requires sum > 0
    ensures RatioTotal(Lines(stores, sum)) == Share(TotalSales(stores), sum)
  {
    if |stores| > 0 {
      var init, last := stores[..|stores| - 1], stores[|stores| - 1];
      assert init + [last] == stores;
      RatioTotalScaled(init, sum);
      SumSnoc(init, last, OrderReport.SalesTotal);
      var l := Lines(stores, sum);
      assert l[..|l| - 1] == Lines(init, sum);
      ShareAdd(TotalSales(init), last.total, sum);
    }
  }

  /** With no positive total every share is 0. */
  lemma {:induction false} RatioTotalZero(stores: seq<Sales>, sum: int)
    requires sum <= 0
    ensures RatioTotal(Lines(stores, sum)) == 0.0
  {
    if |stores| > 0 {
      var l := Lines(stores, sum);
      RatioTotalZero(stores[..|stores| - 1], sum);
      assert l[..|l| - 1] == Lines(stores[..|stores| - 1], sum);
    }
  }

  /**
   * The store table lists matching stores only, ranked 1, 2, ... in list
   * order, and their shares add up to 100% of the matching stores' total
   * (0 when that total is not positive).
   */
  lemma StoreTableSpec(stores: seq<Sales>, query: string)
    ensures forall l :: l in StoreTable(stores, query) ==> l.store in stores && Contains(Lower(l.store.name), Lower(query))
    ensures forall i :: 0 <= i < |StoreTable(stores, query)| ==> StoreTable(stores, query)[i].rank == i + 1
    ensures RatioTotal(StoreTable(stores, query)) == if TotalSales(SearchStores(stores, query)) > 0 then 100.0 else 0.0
  {
    var shown := SearchStores(stores, query);
    var sum := TotalSales(shown);
    if sum > 0 {
      RatioTotalScaled(shown, sum);
      ShareWhole(sum);
    } else {
      RatioTotalZero(shown, sum);
    }
  }

  /** A store is listed exactly when it matches, and an empty search lists every store. */
  lemma SearchStoresSpec(stores: seq<Sales>, query: string, s: Sales)
    ensures s in SearchStores(stores, query) <==> s in stores && Contains(Lower(s.name), Lower(query))
    ensures query == "" ==> SearchStores(stores, query) == stores
  {
    var p := (s: Sales) => Contains(Lower(s.name), Lower(query));
    if s in stores && p(s) {
      FilterKeeps(stores, p, s);
    }
    if query == "" {
      forall i | 0 <= i < |stores| ensures p(stores[i]) {
        ContainsEmpty(Lower(stores[i].name));
      }
      FilterAll(stores, p);
    }
  }

  // ---------------------------------------------------------------------
  // Price cards

  /** A price-change entry as the cards read it. */
  datatype PriceItem = PriceItem(
    code: string,
    name: string,
    category: string,
    firstPrice: int,
    lastPrice: int,
    change: int,
    changePct: real)

  /** The card data of a reported price change. */
  function ItemOf(c: OrderReport.PriceChange): PriceItem {
    PriceItem(c.code, c.name, c.category, c.analysis.firstPrice, c.analysis.lastPrice, c.analysis.change, c.analysis.changePct)
  }

  /** A card is 'up', 'down' or 'neutral', with the arrow to match, by the sign of its change. */
  function CardTrend(item: PriceItem): Trend {
    if item.change > 0 then Rising else if item.change < 0 then Falling else Steady
  }

  /**
   * For a product's analysed history, the card is 'up' exactly when the
   * last positive price is above the first and 'down' exactly when it is
   * below; the percentage shown has the same sign.
   */
  lemma CardTrendOfHistory(code: string, name: string, category: string, points: seq<PriceAnalysis.PricePoint>)
    requires PriceAnalysis.Analyze(points).Some?
    ensures var item := ItemOf(OrderReport.PriceChange(code, name, category, PriceAnalysis.Analyze(points).value));
      && (CardTrend(item) == Rising <==> item.lastPrice > item.firstPrice)
      && (CardTrend(item) == Falling <==> item.lastPrice < item.firstPrice)
      && (CardTrend(item) == Rising <==> item.changePct > 0.0)
      && (CardTrend(item) == Falling <==> item.changePct < 0.0)
  {
    var a := PriceAnalysis.Analyze(points).value;
    var prices := PriceAnalysis.PositivePrices(points);
    assert a.change == a.lastPrice - a.firstPrice && a.firstPrice == prices[0] && a.lastPrice == prices[|prices| - 1];
    PriceAnalysis.ChangePctSign(points);
  }

  /** The search test: the lowercased name contains the lowercased query, or the code contains it as is. */
  predicate PriceMatches(query: string, item: PriceItem) {
    Contains(Lower(item.name), Lower(query)) || Contains(item.code, Lower(query))
  }

  function SearchPrices(items: seq<PriceItem>, query: string): seq<PriceItem> {
    Filter(items, (it: PriceItem) => PriceMatches(query, it))
  }

  /**
   * The search keeps the matching items in their order; an empty query
   * keeps them all, and only the lowercased query matters.
   */
  lemma SearchPricesSpec(items: seq<PriceItem>, query: string, item: PriceItem)
    ensures item in SearchPrices(items, query) <==> item in items && PriceMatches(query, item)
    ensures IsSubseq(SearchPrices(items, query), items)
    ensures query == "" ==> SearchPrices(items, query) == items
    ensures SearchPrices(items, Lower(query)) == SearchPrices(items, query)
  {
    var p := (it: PriceItem) => PriceMatches(query, it);
    if item in items && PriceMatches(query, item) {
      FilterKeeps(items, p, item);
    }
    FilterIsSubseq(items, p);
    if query == "" {
      forall i | 0 <= i < |items| ensures p(items[i]) {
        ContainsEmpty(Lower(items[i].name));
      }
      FilterAll(items, p);
    }
    LowerIdempotent(query);
    FilterSame(items, (it: PriceItem) => PriceMatches(Lower(query), it), p);
  }

  function AbsChangePct(item: PriceItem): real {
    if item.changePct < 0.0 then -item.changePct else item.changePct
  }

  function LastPrice(item: PriceItem): int { item.lastPrice }

  /** Names compared with the locale collation `collate`. */
  function ByName(collate: (string, string) -> bool): (PriceItem, PriceItem) -> bool {
    (a: PriceItem, b: PriceItem) => collate(a.name, b.name)
  }

  /** A sort choice recognised by the dashboard. */
  predicate KnownChoice(choice: string) {
    choice == "change_desc" || choice == "change_asc" || choice == "price_desc" || choice == "name_asc"
  }

  /**
   * The price cards after a sort choice, on a copy of the full list: by the
   * size of the change either way, by the last price descending, or by name;
   * ties keep their order and any other choice keeps the list as it is.
   */
  function SortPrices(items: seq<PriceItem>, choice: string, collate: (string, string) -> bool): seq<PriceItem> {
    if choice == "change_desc" then SortBy(items, ByRealDesc(AbsChangePct))
    else if choice == "change_asc" then SortBy(items, ByReal(AbsChangePct))
    else if choice == "price_desc" then SortBy(items, ByIntDesc(LastPrice))
    else if choice == "name_asc" then SortBy(items, ByName(collate))
    else items
  }

  /** The comparator a recognised choice sorts with. */
  function ChoiceOrder(choice: string, collate: (string, string) -> bool): (PriceItem, PriceItem) -> bool {
    if choice == "change_desc" then ByRealDesc(AbsChangePct)
    else if choice == "change_asc" then ByReal(AbsChangePct)
    else if choice == "price_desc" then ByIntDesc(LastPrice)
    else ByName(collate)
  }

  lemma ChoiceOrderPreorder(choice: string, collate: (string, string) -> bool)
    requires TotalPreorder(collate)
    ensures TotalPreorder(ChoiceOrder(choice, collate))
  {
    if choice == "change_desc" || choice == "change_asc" {
      ByRealPreorder(AbsChangePct);
    } else if choice == "price_desc" {
      ByIntPreorder(LastPrice);
    } else {
      ByNamePreorder(collate);
    }
  }

  lemma ByNamePreorder(collate: (string, string) -> bool)
    requires TotalPreorder(collate)
    ensures TotalPreorder(ByName(collate))
  {
    forall a: PriceItem, b: PriceItem ensures ByName(collate)(a, b) || ByName(collate)(b, a) {
      assert collate(a.name, b.name) || collate(b.name, a.name);
    }
    forall a: PriceItem, b: PriceItem, c: PriceItem | ByName(collate)(a, b) && ByName(collate)(b, c)
      ensures ByName(collate)(a, c)
    {
      assert collate(a.name, b.name) && collate(b.name, c.name);
    }
  }

  /**
   * Sorting reorders the cards without losing or adding any, in the order
   * the choice names; an unrecognised choice leaves the order alone.
   */
  lemma SortPricesSpec(items: seq<PriceItem>, choice: string, collate: (string, string) -> bool)
    requires TotalPreorder(collate)
    ensures multiset(SortPrices(items, choice, collate)) == multiset(items)
    ensures choice == "change_desc" ==> forall i, j :: 0 <= i < j < |items| ==>
      AbsChangePct(SortPrices(items, choice, collate)[i]) >= AbsChangePct(SortPrices(items, choice, collate)[j])
    ensures choice == "change_asc" ==> forall i, j :: 0 <= i < j < |items| ==>
      AbsChangePct(SortPrices(items, choice, collate)[i]) <= AbsChangePct(SortPrices(items, choice, collate)[j])
    ensures choice == "price_desc" ==> forall i, j :: 0 <= i < j < |items| ==>
      SortPrices(items, choice, collate)[i].lastPrice >= SortPrices(items, choice, collate)[j].lastPrice
    ensures choice == "name_asc" ==> forall i, j :: 0 <= i < j < |items| ==>
      collate(SortPrices(items, choice, collate)[i].name, SortPrices(items, choice, collate)[j].name)
    ensures !KnownChoice(choice) ==> SortPrices(items, choice, collate) == items
  {
    if choice == "change_desc" {
      ByRealPreorder(AbsChangePct);
      SortBySorted(items, ByRealDesc(AbsChangePct));
    } else if choice == "change_asc" {
      ByRealPreorder(AbsChangePct);
      SortBySorted(items, ByReal(AbsChangePct));
    } else if choice == "price_desc" {
      var r := SortBy(items, ByIntDesc(LastPrice));
      ByIntPreorder(LastPrice);
      SortBySorted(items, ByIntDesc(LastPrice));
      assert forall i, j :: 0 <= i < j < |r| ==> LastPrice(r[i]) >= LastPrice(r[j]);
    } else if choice == "name_asc" {
      ByNamePreorder(collate);
      SortBySorted(items, ByName(collate));
    }
  }

  /** Choosing the same sort twice gives the same cards as choosing it once. */
  lemma SortPricesIdempotent(items: seq<PriceItem>, choice: string, collate: (string, string) -> bool)
    requires TotalPreorder(collate)
    ensures SortPrices(SortPrices(items, choice, collate), choice, collate) == SortPrices(items, choice, collate)
  {
    if KnownChoice(choice) {
      var le := ChoiceOrder(choice, collate);
      var once := SortBy(items, le);
      assert SortPrices(items, choice, collate) == once;
      assert SortPrices(once, choice, collate) == SortBy(once, le);
      ChoiceOrderPreorder(choice, collate);
      SortBySorted(items, le);
      SortByFixpoint(once, le);
    }
  }
}
