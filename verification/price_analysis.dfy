/**
 * The price-change analysis shared by the order report generator
 * (generate_report.py) and the order crawler's price export
 * (sajo_crawler.py): a product's price history is put in date order, and
 * its positive prices give the first, last, lowest and highest price and
 * the change from first to last.
 */
module PriceAnalysis {
  import opened Wrappers
  import opened Seqs
  import opened Sorting

  datatype PricePoint = PricePoint(date: string, price: int)

  /** The analysis of one product's history; `changePct` is exact, before rounding. */
  datatype Analysis = Analysis(
    firstDate: string,
    lastDate: string,
    firstPrice: int,
    lastPrice: int,
    minPrice: int,
    maxPrice: int,
    change: int,
    changePct: real,
    history: seq<PricePoint>,
    count: nat)

  function PointDate(p: PricePoint): string { p.date }

  function PointPrice(p: PricePoint): int { p.price }

  predicate Positive(p: PricePoint) { p.price > 0 }

  /** The history in date order; points with equal dates keep their order. */
  function ByDate(points: seq<PricePoint>): seq<PricePoint> {
    SortBy(points, ByStr(PointDate))
  }

  /** The positive prices, in date order. */
  function PositivePrices(points: seq<PricePoint>): (r: seq<int>)
    ensures forall i :: 0 <= i < |r| ==> r[i] > 0
  {
    Map(Filter(ByDate(points), Positive), PointPrice)
  }

  function Min(s: seq<int>): (r: int)
    requires |s| > 0
    ensures r in s && forall i :: 0 <= i < |s| ==> r <= s[i]
  {
    if |s| == 1 then s[0]
    else
      var m := Min(s[..|s| - 1]);
      assert m in s[..|s| - 1];
      if s[|s| - 1] < m then s[|s| - 1] else m
  }

  function Max(s: seq<int>): (r: int)
    requires |s| > 0
    ensures r in s && forall i :: 0 <= i < |s| ==> s[i] <= r
  {
    if |s| == 1 then s[0]
    else
      var m := Max(s[..|s| - 1]);
      assert m in s[..|s| - 1];
      if s[|s| - 1] > m then s[|s| - 1] else m
  }

  /**
   * The analysis of a history, or `None` when it holds no positive price
   * (such a product is left out of the output).
   */
  function Analyze(points: seq<PricePoint>): Option<Analysis> {
    var sorted := ByDate(points);
    var prices := PositivePrices(points);
    if |prices| == 0 then None
    else
      var first, last := prices[0], prices[|prices| - 1];
      Some(Analysis(sorted[0].date, sorted[|sorted| - 1].date, first, last, Min(prices), Max(prices),
                    last - first, Pct(last - first, first), sorted, |sorted|))
  }

  /** A change as a percentage of a positive base. */
  function Pct(change: int, base: int): real
    requires base > 0
  {
    change as real / base as real * 100.0
  }

  /** Ranking by the size of the change, largest first; ties keep their order. */
  function AbsPct(a: Analysis): real {
    if a.changePct < 0.0 then -a.changePct else a.changePct
  }

  function Rank(s: seq<Analysis>): seq<Analysis> {
    SortBy(s, ByRealDesc(AbsPct))
  }

  // ---------------------------------------------------------------------
  // Properties

  /** Selecting from a sorted sequence keeps it sorted. */
  lemma {:induction false} FilterSorted<T>(s: seq<T>, p: T -> bool, le: (T, T) -> bool)
    requires Sorted(s, le)
    ensures Sorted(Filter(s, p), le)
  {
    if |s| > 0 {
      var init, x := s[..|s| - 1], s[|s| - 1];
      FilterSorted(init, p, le);
      var f := Filter(init, p);
      forall i | 0 <= i < |f| ensures le(f[i], x) {
        var k :| 0 <= k < |init| && init[k] == f[i];
      }
    }
  }

  lemma PositiveInHistory(points: seq<PricePoint>, i: nat)
    requires i < |points| && points[i].price > 0
    ensures points[i] in Filter(ByDate(points), Positive)
  {
    assert points[i] in multiset(ByDate(points));
    FilterKeeps(ByDate(points), Positive, points[i]);
  }

  /** A product is analysed exactly when some point of its history has a positive price. */
  lemma AnalyzedIff(points: seq<PricePoint>)
    ensures Analyze(points).Some? <==> exists i :: 0 <= i < |points| && points[i].price > 0
  {
    var kept := Filter(ByDate(points), Positive);
    if exists i :: 0 <= i < |points| && points[i].price > 0 {
      var i :| 0 <= i < |points| && points[i].price > 0;
      PositiveInHistory(points, i);
    }
    if |kept| > 0 {
      assert kept[0] in multiset(ByDate(points));
      var i :| 0 <= i < |points| && points[i] == kept[0];
    }
  }

  /**
   * The lowest and highest prices are prices of positive points and bound
   * every positive price; the first and last prices lie between them.
   */
  lemma AnalysisBounds(points: seq<PricePoint>)
    requires Analyze(points).Some?
    ensures var a := Analyze(points).value;
      && 0 < a.minPrice <= a.firstPrice <= a.maxPrice
      && a.minPrice <= a.lastPrice <= a.maxPrice
      && a.count == |points| && a.change == a.lastPrice - a.firstPrice
      && (exists i :: 0 <= i < |points| && points[i].price == a.minPrice)
      && (exists i :: 0 <= i < |points| && points[i].price == a.maxPrice)
      && forall i :: 0 <= i < |points| && points[i].price > 0 ==> a.minPrice <= points[i].price <= a.maxPrice
  {
    var a := Analyze(points).value;
    var kept := Filter(ByDate(points), Positive);
    var prices := PositivePrices(points);
    forall i | 0 <= i < |points| && points[i].price > 0
      ensures a.minPrice <= points[i].price <= a.maxPrice
    {
      PositiveInHistory(points, i);
      var k :| 0 <= k < |kept| && kept[k] == points[i];
      assert prices[k] == points[i].price;
    }
    var lo :| 0 <= lo < |prices| && prices[lo] == a.minPrice;
    var hi :| 0 <= hi < |prices| && prices[hi] == a.maxPrice;
    assert kept[lo] in multiset(ByDate(points)) && kept[hi] in multiset(ByDate(points));
    var i :| 0 <= i < |points| && points[i] == kept[lo];
    var j :| 0 <= j < |points| && points[j] == kept[hi];
  }

  lemma ByDateSorted(points: seq<PricePoint>)
    ensures Sorted(ByDate(points), ByStr(PointDate))
  {
    ByStrPreorder(PointDate);
    SortBySorted(points, ByStr(PointDate));
  }

  /** In a sequence sorted by date, the first element is dated no later than any, the last no earlier. */
  lemma SortedDateEnds(s: seq<PricePoint>)
    requires Sorted(s, ByStr(PointDate)) && |s| > 0
    ensures forall x :: x in s ==> StrLe(s[0].date, x.date) && StrLe(x.date, s[|s| - 1].date)
  {
    forall x | x in s ensures StrLe(s[0].date, x.date) && StrLe(x.date, s[|s| - 1].date) {
      var k :| 0 <= k < |s| && s[k] == x;
      StrLeTotal(x.date, x.date);
      if 0 < k {
        assert ByStr(PointDate)(s[0], s[k]);
        assert StrLe(PointDate(s[0]), PointDate(s[k]));
      }
      if k < |s| - 1 {
        assert ByStr(PointDate)(s[k], s[|s| - 1]);
        assert StrLe(PointDate(s[k]), PointDate(s[|s| - 1]));
      }
    }
  }

  /**
   * The first price belongs to a positive point dated no later than any
   * other positive point, and the last price to one dated no earlier.
   */
  lemma FirstAndLastByDate(points: seq<PricePoint>)
    requires Analyze(points).Some?
    ensures var a := Analyze(points).value;
      && (exists i :: (0 <= i < |points| && points[i].price == a.firstPrice
          && forall j :: 0 <= j < |points| && points[j].price > 0 ==> StrLe(points[i].date, points[j].date)))
      && (exists i :: (0 <= i < |points| && points[i].price == a.lastPrice
          && forall j :: 0 <= j < |points| && points[j].price > 0 ==> StrLe(points[j].date, points[i].date)))
  {
    var sorted := ByDate(points);
    var kept := Filter(sorted, Positive);
    ByDateSorted(points);
    FilterSorted(sorted, Positive, ByStr(PointDate));
    SortedDateEnds(kept);
    var first, last := kept[0], kept[|kept| - 1];
    assert Analyze(points).value.firstPrice == first.price;
    assert Analyze(points).value.lastPrice == last.price;
    forall j | 0 <= j < |points| && points[j].price > 0
      ensures StrLe(first.date, points[j].date) && StrLe(points[j].date, last.date)
    {
      PositiveInHistory(points, j);
    }
    assert first in multiset(sorted) && last in multiset(sorted);
    var i :| 0 <= i < |points| && points[i] == first;
    var l :| 0 <= l < |points| && points[l] == last;
  }

  /** The first and last dates span every date of the history. */
  lemma DateSpan(points: seq<PricePoint>)
    requires Analyze(points).Some?
    ensures var a := Analyze(points).value;
      forall j :: 0 <= j < |points| ==> StrLe(a.firstDate, points[j].date) && StrLe(points[j].date, a.lastDate)
  {
    var sorted := ByDate(points);
    ByDateSorted(points);
    SortedDateEnds(sorted);
    assert Analyze(points).value.firstDate == sorted[0].date;
    assert Analyze(points).value.lastDate == sorted[|sorted| - 1].date;
    forall j | 0 <= j < |points| ensures points[j] in sorted {
      assert points[j] in multiset(sorted);
    }
  }

  /** A change as a percentage of a positive base keeps its sign. */
  lemma PctOf(change: int, base: int, p: real)
    requires base > 0 && p == Pct(change, base)
    ensures p * base as real == change as real * 100.0
    ensures p > 0.0 <==> change > 0
    ensures p < 0.0 <==> change < 0
  {
    var b := base as real;
    var q := change as real / b;
    assert q * b == change as real;
    if change > 0 {
      assert q > 0.0;
    } else if change < 0 {
      assert q < 0.0;
    } else {
      assert q == 0.0;
    }
  }

  /** The analysis computes its percentage from the first positive price. */
  lemma AnalysisPct(points: seq<PricePoint>)
    requires Analyze(points).Some?
    ensures var a := Analyze(points).value;
      a.firstPrice > 0 && a.changePct == Pct(a.change, a.firstPrice)
  {
    var prices := PositivePrices(points);
    assert Analyze(points).value.firstPrice == prices[0];
  }

  /** The percentage has the sign of the change. */
  lemma ChangePctSign(points: seq<PricePoint>)
    requires Analyze(points).Some?
    ensures var a := Analyze(points).value;
      && a.firstPrice > 0
      && (a.changePct > 0.0 <==> a.change > 0)
      && (a.changePct < 0.0 <==> a.change < 0)
  {
    var a := Analyze(points).value;
    AnalysisPct(points);
    PctOf(a.change, a.firstPrice, a.changePct);
  }

  /** The ranking is a reordering with the largest changes first. */
  lemma RankOrdered(s: seq<Analysis>)
    ensures multiset(Rank(s)) == multiset(s)
    ensures forall i, j :: 0 <= i < j < |Rank(s)| ==> AbsPct(Rank(s)[i]) >= AbsPct(Rank(s)[j])
  {
    ByRealPreorder(AbsPct);
    SortBySorted(s, ByRealDesc(AbsPct));
  }
}
