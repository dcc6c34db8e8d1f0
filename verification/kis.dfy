/**
 * The point-of-sale collector (kis_crawler.py): which rows of the sales
 * sheet are kept, and how a run's rows are merged into the stored rows,
 * keyed by sale date and shop code.
 */
module KisSales {
  import opened Wrappers
  import opened Seqs
  import opened Sorting
  import opened Text

  /**
   * A sales row. `None` is a missing key; the sales figures are carried
   * along untouched.
   */
  datatype Row = Row(saleDate: Option<string>, shopCode: Option<string>, figures: seq<(string, string)>)

  /** The sheet's header line carries this in its date column. */
  const HeaderDate := "일자"

  /** A subtotal line's date column starts with this. */
  const SubtotalPrefix := "소계:"

  /** A grand-total line's date column contains this. */
  const GrandTotal := "합계"

  // ---------------------------------------------------------------------
  // Extraction

  /** JavaScript truthiness of the date column: present and non-empty. */
  predicate DateTruthy(d: Option<string>) {
    d.Some? && d.value != ""
  }

  /** The sheet rows that are not sales: the header, subtotal and total lines. */
  predicate Skipped(r: Row) {
    || r.saleDate == Some(HeaderDate)
    || (DateTruthy(r.saleDate) && StartsWith(r.saleDate.value, SubtotalPrefix))
    || (DateTruthy(r.saleDate) && Contains(r.saleDate.value, GrandTotal))
  }

  predicate IsSale(r: Row) {
    !Skipped(r)
  }

  /** The sales rows of the sheet, in sheet order. */
  function Extract(rows: seq<Row>): seq<Row> {
    Filter(rows, IsSale)
  }

  // ---------------------------------------------------------------------
  // Merging

  type Key = (Option<string>, Option<string>)

  /** The identity of a row: its date and shop, either possibly missing. */
  function KeyOf(r: Row): Key {
    (r.saleDate, r.shopCode)
  }

  /** The dates a forced run replaces: the non-empty dates of its rows. */
  function NewDates(incoming: seq<Row>): set<string> {
    set i | 0 <= i < |incoming| && DateTruthy(incoming[i].saleDate) :: incoming[i].saleDate.value
  }

  function NotReplaced(dates: set<string>): Row -> bool {
    (r: Row) => r.saleDate.None? || r.saleDate.value !in dates
  }

  /** The stored rows that survive: all of them, or under force those not dated on a new date. */
  function Surviving(stored: seq<Row>, incoming: seq<Row>, force: bool): seq<Row> {
    if force then Filter(stored, NotReplaced(NewDates(incoming))) else stored
  }

  /**
   * The new rows added after the rows whose keys are `seen`: in order, each
   * whose key is neither seen nor already added.
   */
  function Added(seen: seq<Key>, incoming: seq<Row>): seq<Row> {
    if |incoming| == 0 then []
    else
      var prev := Added(seen, incoming[..|incoming| - 1]);
      var x := incoming[|incoming| - 1];
      if KeyOf(x) in seen || KeyOf(x) in Map(prev, KeyOf) then prev else prev + [x]
  }

  /** The sort key: a missing date or shop sorts as "". */
  function DateText(r: Row): string { r.saleDate.GetOr("") }
  function ShopText(r: Row): string { r.shopCode.GetOr("") }

  function ByDateShop(): (Row, Row) -> bool {
    ThenBy(ByStr(DateText), ByStr(ShopText))
  }

  /** The unsorted merge: the surviving rows, then the added ones. */
  function Combined(stored: seq<Row>, incoming: seq<Row>, force: bool): seq<Row> {
    var kept := Surviving(stored, incoming, force);
    kept + Added(Map(kept, KeyOf), incoming)
  }

  /** The merged rows, sorted by date and then shop. */
  function Merge(stored: seq<Row>, incoming: seq<Row>, force: bool): seq<Row> {
    SortBy(Combined(stored, incoming, force), ByDateShop())
  }

  // ---------------------------------------------------------------------
  // Properties: extraction

  /** The truthiness guards are redundant: an empty date neither starts with "소계:" nor holds "합계". */
  lemma SkippedIff(r: Row)
    ensures Skipped(r) <==> (r.saleDate.Some? &&
      (r.saleDate.value == HeaderDate || StartsWith(r.saleDate.value, SubtotalPrefix) || Contains(r.saleDate.value, GrandTotal)))
  {
    if r.saleDate == Some("") {
      ContainsAt("", GrandTotal);
    }
  }

  /** Extraction keeps exactly the sales rows, in order. */
  lemma ExtractIff(rows: seq<Row>, x: Row)
    ensures x in Extract(rows) <==> x in rows && IsSale(x)
    ensures IsSubseq(Extract(rows), rows)
  {
    if x in rows && IsSale(x) {
      FilterKeeps(rows, IsSale, x);
    }
    FilterIsSubseq(rows, IsSale);
  }

  // ---------------------------------------------------------------------
  // Properties: merging

  /** Every added row is a new row whose key was not seen, and the added keys are distinct. */
  lemma {:induction false} AddedFresh(seen: seq<Key>, incoming: seq<Row>)
    ensures forall i :: 0 <= i < |Added(seen, incoming)| ==>
      Added(seen, incoming)[i] in incoming && KeyOf(Added(seen, incoming)[i]) !in seen
    ensures NoDup(Map(Added(seen, incoming), KeyOf))
  {
    if |incoming| > 0 {
      var init, x := incoming[..|incoming| - 1], incoming[|incoming| - 1];
      var prev := Added(seen, init);
      AddedFresh(seen, init);
      forall i | 0 <= i < |prev| ensures prev[i] in incoming {
        assert prev[i] in init;
      }
      if !(KeyOf(x) in seen || KeyOf(x) in Map(prev, KeyOf)) {
        MapSnoc(prev, x, KeyOf);
      }
    }
  }

  /** One more new row keeps every added key and leaves its own key seen or added. */
  lemma AddedStep(seen: seq<Key>, init: seq<Row>, x: Row)
    ensures forall v :: v in Map(Added(seen, init), KeyOf) ==> v in Map(Added(seen, init + [x]), KeyOf)
    ensures KeyOf(x) in seen || KeyOf(x) in Map(Added(seen, init + [x]), KeyOf)
  {
    var prev := Added(seen, init);
    assert (init + [x])[..|init|] == init;
    if !(KeyOf(x) in seen || KeyOf(x) in Map(prev, KeyOf)) {
      MapSnoc(prev, x, KeyOf);
    }
  }

  /** Every new row's key ends up seen or added. */
  lemma {:induction false} AddedCovers(seen: seq<Key>, incoming: seq<Row>)
    ensures forall j :: 0 <= j < |incoming| ==> KeyOf(incoming[j]) in seen || KeyOf(incoming[j]) in Map(Added(seen, incoming), KeyOf)
  {
    if |incoming| > 0 {
      var init, x := incoming[..|incoming| - 1], incoming[|incoming| - 1];
      assert incoming == init + [x];
      AddedCovers(seen, init);
      AddedStep(seen, init, x);
      forall j | 0 <= j < |incoming|
        ensures KeyOf(incoming[j]) in seen || KeyOf(incoming[j]) in Map(Added(seen, incoming), KeyOf)
      {
        if j < |init| {
          assert incoming[j] == init[j];
        }
      }
    }
  }

  /**
   * Within the new rows only the first of each key is added: a new row is
   * added exactly when its key was not seen and no earlier new row has it.
   */
  lemma {:induction false} AddedFirst(seen: seq<Key>, incoming: seq<Row>, j: nat)
    requires j < |incoming|
    requires KeyOf(incoming[j]) !in seen
    requires forall i :: 0 <= i < j ==> KeyOf(incoming[i]) != KeyOf(incoming[j])
    ensures incoming[j] in Added(seen, incoming)
  {
    var init, x := incoming[..|incoming| - 1], incoming[|incoming| - 1];
    var prev := Added(seen, init);
    if j < |init| {
      assert init[j] == incoming[j];
      AddedFirst(seen, init, j);
      assert prev <= Added(seen, incoming);
    } else {
      AddedFresh(seen, init);
      forall k | 0 <= k < |prev| ensures KeyOf(prev[k]) != KeyOf(x) {
        var i :| 0 <= i < |init| && init[i] == prev[k];
        assert incoming[i] == init[i];
      }
      assert KeyOf(x) !in Map(prev, KeyOf);
    }
  }

  /** Each added row is the first new row with its key. */
  lemma {:induction false} AddedOnlyFirst(seen: seq<Key>, incoming: seq<Row>, x: Row)
    requires x in Added(seen, incoming)
    ensures exists j :: (0 <= j < |incoming| && incoming[j] == x
      && forall i :: 0 <= i < j ==> KeyOf(incoming[i]) != KeyOf(x))
  {
    var init, last := incoming[..|incoming| - 1], incoming[|incoming| - 1];
    var prev := Added(seen, init);
    if x in prev {
      AddedOnlyFirst(seen, init, x);
      var j :| 0 <= j < |init| && init[j] == x && forall i :: 0 <= i < j ==> KeyOf(init[i]) != KeyOf(x);
      assert incoming[j] == x;
      assert forall i :: 0 <= i < j ==> incoming[i] == init[i];
    } else {
      assert x == last && KeyOf(last) !in Map(prev, KeyOf);
      AddedCovers(seen, init);
      forall i | 0 <= i < |init| ensures KeyOf(incoming[i]) != KeyOf(x) {
        assert incoming[i] == init[i];
      }
    }
  }

  /** Without force every stored row is kept; a new row is added only under a key not yet stored. */
  lemma ExistingWin(stored: seq<Row>, incoming: seq<Row>)
    ensures multiset(stored) <= multiset(Merge(stored, incoming, false))
    ensures forall x :: x in Merge(stored, incoming, false) && x !in stored ==>
      x in incoming && KeyOf(x) !in Map(stored, KeyOf)
  {
    var seen := Map(stored, KeyOf);
    var added := Added(seen, incoming);
    var merged := Merge(stored, incoming, false);
    AddedFresh(seen, incoming);
    MergeCount(stored, incoming, false);
    assert Combined(stored, incoming, false) == stored + added;
    assert multiset(merged) == multiset(stored) + multiset(added);
    forall x | x in merged && x !in stored
      ensures x in incoming && KeyOf(x) !in seen
    {
      assert x in multiset(merged);
      assert x in multiset(added);
      var i :| 0 <= i < |added| && added[i] == x;
    }
  }

  /** Under force no stored row dated on a date of the new rows survives. */
  lemma ForceReplaces(stored: seq<Row>, incoming: seq<Row>, x: Row)
    requires x in Merge(stored, incoming, true)
    requires x.saleDate.Some? && x.saleDate.value in NewDates(incoming)
    ensures x in incoming
  {
    var kept := Surviving(stored, incoming, true);
    var added := Added(Map(kept, KeyOf), incoming);
    AddedFresh(Map(kept, KeyOf), incoming);
    MergeCount(stored, incoming, true);
    assert multiset(Merge(stored, incoming, true)) == multiset(kept) + multiset(added);
    assert x in multiset(Merge(stored, incoming, true));
    assert !NotReplaced(NewDates(incoming))(x);
    assert x !in kept;
    assert x in multiset(added);
    var i :| 0 <= i < |added| && added[i] == x;
  }

  /** Under force, the stored rows dated on none of the new dates all stay, each as often as before. */
  lemma ForceKeepsOthers(stored: seq<Row>, incoming: seq<Row>)
    ensures multiset(Filter(stored, NotReplaced(NewDates(incoming)))) <= multiset(Merge(stored, incoming, true))
  {}

  /** The merge adds the surviving and the added rows and nothing else. */
  lemma MergeCount(stored: seq<Row>, incoming: seq<Row>, force: bool)
    ensures var kept := Surviving(stored, incoming, force);
      |Merge(stored, incoming, force)| == |kept| + |Added(Map(kept, KeyOf), incoming)|
    ensures multiset(Merge(stored, incoming, force)) == multiset(Combined(stored, incoming, force))
  {}

  /** The surviving rows keep distinct keys, and the added rows bring none of theirs. */
  lemma CombinedUniqueKeys(stored: seq<Row>, incoming: seq<Row>, force: bool)
    requires NoDup(Map(stored, KeyOf))
    ensures NoDup(Map(Combined(stored, incoming, force), KeyOf))
  {
    var kept := Surviving(stored, incoming, force);
    var added := Added(Map(kept, KeyOf), incoming);
    var c := kept + added;
    if force {
      NoDupMapIff(stored, KeyOf);
      FilterNoDup(stored, NotReplaced(NewDates(incoming)));
      NoDupMapIff(kept, KeyOf);
    }
    AddedFresh(Map(kept, KeyOf), incoming);
    var mk, ma, mc := Map(kept, KeyOf), Map(added, KeyOf), Map(c, KeyOf);
    forall i, j | 0 <= i < j < |mc| ensures mc[i] != mc[j] {
      if j < |kept| {
        assert mc[i] == mk[i] && mc[j] == mk[j];
      } else if i >= |kept| {
        assert mc[i] == ma[i - |kept|] && mc[j] == ma[j - |kept|];
      } else {
        assert mc[i] == mk[i] && mc[j] == KeyOf(added[j - |kept|]);
      }
    }
  }

  /** Keys distinct among the stored rows stay distinct after the merge. */
  lemma MergeUniqueKeys(stored: seq<Row>, incoming: seq<Row>, force: bool)
    requires NoDup(Map(stored, KeyOf))
    ensures NoDup(Map(Merge(stored, incoming, force), KeyOf))
  {
    CombinedUniqueKeys(stored, incoming, force);
    SortByNoDupKeys(Combined(stored, incoming, force), ByDateShop(), KeyOf);
  }

  /** The merged rows are in (date, shop) order. */
  lemma MergeSorted(stored: seq<Row>, incoming: seq<Row>, force: bool)
    ensures forall i, j :: 0 <= i < j < |Merge(stored, incoming, force)| ==>
      var a, b := Merge(stored, incoming, force)[i], Merge(stored, incoming, force)[j];
      StrLe(DateText(a), DateText(b)) && (DateText(a) == DateText(b) ==> StrLe(ShopText(a), ShopText(b)))
  {
    ByStrPreorder(DateText);
    ByStrPreorder(ShopText);
    ThenByPreorder(ByStr(DateText), ByStr(ShopText));
    SortBySorted(Combined(stored, incoming, force), ByDateShop());
  }
}
