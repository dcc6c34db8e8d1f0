/**
 * The search-ad dashboard's keyword table (docs/ads.js): the filter chain
 * over campaign, ad group, status and search text; the column sort and its
 * header-click toggle; the selection and the pending bid edits with bulk set
 * and bulk adjust; and the bid recommendation against the rank-3 bid.
 *
 * Korean collation (`localeCompare(.., 'ko')`) is a parameter: any total
 * preorder on strings.
 */
module AdsDashboard {
  import opened Wrappers
  import opened Seqs
  import opened Sorting
  import opened Text

  /** A keyword row as the dashboard reads it; missing fields read as "", false and 0. */
  datatype Kw = Kw(
    id: string,
    keyword: string,
    campaignName: string,
    adgroupName: string,
    adgroupId: string,
    userLock: bool,
    bidAmt: int)

  datatype AdgroupRef = AdgroupRef(id: string, campaignId: string)

  /** Search-volume statistics of a keyword text. */
  datatype KwStat = KwStat(pc: int, mobile: int, compIdx: string)

  // ---------------------------------------------------------------------
  // Filters

  /** `Array.prototype.find`: the first ad group with this id. */
  function FindAdgroup(groups: seq<AdgroupRef>, id: string): (r: Option<AdgroupRef>)
    ensures r.Some? ==> r.value in groups && r.value.id == id
    ensures r.None? <==> forall g :: g in groups ==> g.id != id
  {
    if |groups| == 0 then None
    else if groups[0].id == id then Some(groups[0])
    else FindAdgroup(groups[1..], id)
  }

  predicate InCampaign(groups: seq<AdgroupRef>, campaignId: string, k: Kw) {
    var g := FindAdgroup(groups, k.adgroupId);
    g.Some? && g.value.campaignId == campaignId
  }

  function ByCampaign(ks: seq<Kw>, groups: seq<AdgroupRef>, campaignId: string): seq<Kw> {
    if campaignId == "" then ks else Filter(ks, k => InCampaign(groups, campaignId, k))
  }

  function ByAdgroup(ks: seq<Kw>, adgroupId: string): seq<Kw> {
    if adgroupId == "" then ks else Filter(ks, (k: Kw) => k.adgroupId == adgroupId)
  }

  predicate Unlocked(k: Kw) { !k.userLock }

  predicate Locked(k: Kw) { k.userLock }

  /** "active" keeps unlocked keywords, "paused" locked ones; any other status keeps all. */
  function ByStatus(ks: seq<Kw>, status: string): seq<Kw> {
    if status == "active" then Filter(ks, Unlocked)
    else if status == "paused" then Filter(ks, Locked)
    else ks
  }

  /** The lower-cased term occurs in the lower-cased keyword, campaign name or ad group name. */
  predicate Matches(term: string, k: Kw) {
    Contains(Lower(k.keyword), term) || Contains(Lower(k.campaignName), term) || Contains(Lower(k.adgroupName), term)
  }

  function BySearch(ks: seq<Kw>, search: string): seq<Kw> {
    if search == "" then ks else Filter(ks, k => Matches(Lower(search), k))
  }

  // ---------------------------------------------------------------------
  // Sorting

  datatype SortState = SortState(column: string, direction: Direction)

  /** The columns sorted as text. */
  predicate TextColumn(column: string) {
    column == "keyword" || column == "campaign" || column == "adgroup"
  }

  function TextField(column: string, k: Kw): string {
    if column == "keyword" then k.keyword
    else if column == "campaign" then k.campaignName
    else k.adgroupName
  }

  /** Monthly PC plus mobile searches; a keyword without statistics has none. */
  function Volume(stats: map<string, KwStat>, k: Kw): int {
    if k.keyword in stats then stats[k.keyword].pc + stats[k.keyword].mobile else 0
  }

  /** Competition as a rank: 높음 3, 중간 2, 낮음 1, anything else 0. */
  function CompRank(c: string): int {
    if c == "높음" then 3 else if c == "중간" then 2 else if c == "낮음" then 1 else 0
  }

  function CompOf(stats: map<string, KwStat>, k: Kw): int {
    if k.keyword in stats then CompRank(stats[k.keyword].compIdx) else 0
  }

  /** The numeric sort key of a numeric column. */
  function NumberKey(column: string, stats: map<string, KwStat>, k: Kw): int {
    if column == "bidAmt" then k.bidAmt
    else if column == "searchVolume" then Volume(stats, k)
    else CompOf(stats, k)
  }

  predicate NumberColumn(column: string) {
    column == "bidAmt" || column == "searchVolume" || column == "compIdx"
  }

  /**
   * "Sorts at or before" by a column, ascending: collation of the text
   * column, numeric order of the numeric column; any other column ties
   * everything.
   */
  function ColumnOrder(column: string, stats: map<string, KwStat>, collate: (string, string) -> bool): (Kw, Kw) -> bool {
    if TextColumn(column) then (a: Kw, b: Kw) => collate(TextField(column, a), TextField(column, b))
    else if NumberColumn(column) then ByInt((k: Kw) => NumberKey(column, stats, k))
    else (a: Kw, b: Kw) => true
  }

  /** The order of the current sort: the column's order, reversed when descending. */
  function KwOrder(st: SortState, stats: map<string, KwStat>, collate: (string, string) -> bool): (Kw, Kw) -> bool {
    Oriented(ColumnOrder(st.column, stats, collate), st.direction)
  }

  /** `sortKeywords`: a sorted copy (the input is a value and stays as it is). */
  function SortKeywords(ks: seq<Kw>, st: SortState, stats: map<string, KwStat>, collate: (string, string) -> bool): seq<Kw> {
    SortBy(ks, KwOrder(st, stats, collate))
  }

  /** `handleSort`: the current column flips direction; a new column starts ascending for text, descending otherwise. */
  function HandleSort(st: SortState, column: string): (r: SortState)
    ensures r.column == column
    ensures st.column == column ==> r.direction != st.direction
    ensures st.column != column ==> (r.direction == Asc <==> TextColumn(column))
  {
    if st.column == column then SortState(column, if st.direction == Asc then Desc else Asc)
    else SortState(column, if TextColumn(column) then Asc else Desc)
  }

  /** The filter chain of `filterAndRender`: campaign, ad group, status, search. */
  function Filtered(ks: seq<Kw>, groups: seq<AdgroupRef>, campaignId: string, adgroupId: string, status: string,
                    search: string): seq<Kw> {
    BySearch(ByStatus(ByAdgroup(ByCampaign(ks, groups, campaignId), adgroupId), status), search)
  }

  /** `filterAndRender`: the filter chain, then the sort. */
  function Visible(ks: seq<Kw>, groups: seq<AdgroupRef>, campaignId: string, adgroupId: string, status: string,
                   search: string, st: SortState, stats: map<string, KwStat>, collate: (string, string) -> bool): seq<Kw> {
    SortKeywords(Filtered(ks, groups, campaignId, adgroupId, status, search), st, stats, collate)
  }

  // ---------------------------------------------------------------------
  // Selection and pending edits

  /** `toggleSelectAll`: every visible keyword, or none. */
  function SelectAll(visible: seq<Kw>, checked: bool): (r: set<string>)
    ensures forall id :: id in r <==> checked && exists k :: k in visible && k.id == id
  {
    if checked then set k | k in visible :: k.id else {}
  }

  /**
   * A bid typed into a row: a present, non-zero value other than the
   * original becomes pending; anything else withdraws the row's edit.
   * `value` is the typed text as read by `parseInt` (`None` when empty or
   * not a number).
   */
  function BidInput(pending: map<string, int>, id: string, original: int, value: Option<int>): (r: map<string, int>)
    ensures id in r <==> value.Some? && value.value != 0 && value.value != original
    ensures id in r ==> r[id] == value.value
    ensures forall other :: other != id ==> (other in r <==> other in pending)
    ensures forall other :: other != id && other in r ==> r[other] == pending[other]
  {
    if value.Some? && value.value != 0 && value.value != original then pending[id := value.value]
    else pending - {id}
  }

  /** The save button is enabled while some edit is pending. */
  predicate SaveEnabled(pending: map<string, int>) {
    |pending| > 0
  }

  /** The smallest and largest bid. */
  const MinBid := 70
  const MaxBid := 100000

  /** `applyBulkBid`: a missing or zero amount, or one below the minimum, changes nothing; otherwise every selected keyword gets it. */
  function ApplyBulkBid(pending: map<string, int>, selected: set<string>, amount: Option<int>): (r: map<string, int>)
    ensures amount.None? || amount.value < MinBid ==> r == pending
    ensures amount.Some? && amount.value >= MinBid ==>
      && r.Keys == pending.Keys + selected
      && (forall id :: id in selected ==> r[id] == amount.value)
      && (forall id :: id in pending && id !in selected ==> r[id] == pending[id])
  {
    if amount.None? || amount.value == 0 || amount.value < MinBid then pending
    else map id | id in pending.Keys + selected :: if id in selected then amount.value else pending[id]
  }

  /** JavaScript `Math.round`: halves round up. */
  function Round(x: real): (n: int)
    ensures x - 0.5 < n as real <= x + 0.5
  {
    (x + 0.5).Floor
  }

  function Clamp(x: int): (r: int)
    ensures MinBid <= r <= MaxBid
    ensures MinBid <= x <= MaxBid ==> r == x
  {
    if x < MinBid then MinBid else if x > MaxBid then MaxBid else x
  }

  /** The bid a bulk adjustment starts from: the pending bid when set and non-zero, else the keyword's bid. */
  function CurrentBid(pending: map<string, int>, k: Kw): int {
    if k.id in pending && pending[k.id] != 0 then pending[k.id] else k.bidAmt
  }

  /** The adjusted bid: scaled, rounded to tens, clamped. */
  function Adjusted(current: int, multiplier: real): (r: int)
    ensures MinBid <= r <= MaxBid && r % 10 == 0
  {
    Clamp(Round(current as real * multiplier / 10.0) * 10)
  }

  /** The ids a bulk adjustment touches: selected and on a visible row. */
  function Adjustable(selected: set<string>, visible: seq<Kw>): set<string> {
    set id | id in selected && exists k :: k in visible && k.id == id
  }

  /** The first visible row with this id. */
  function RowOf(visible: seq<Kw>, id: string): (k: Kw)
    requires exists k :: k in visible && k.id == id
    ensures k in visible && k.id == id
  {
    if visible[0].id == id then visible[0] else RowOf(visible[1..], id)
  }

  /**
   * `adjustBulkBid`: each selected id on a visible row gets its adjusted
   * bid. Every id reads and writes only its own entry, so the order in
   * which the selection is visited does not matter.
   */
  function AdjustBulkBid(pending: map<string, int>, selected: set<string>, visible: seq<Kw>, multiplier: real): (r: map<string, int>)
    ensures r.Keys == pending.Keys + Adjustable(selected, visible)
    ensures forall id :: id in Adjustable(selected, visible) ==> MinBid <= r[id] <= MaxBid && r[id] % 10 == 0
    ensures forall id :: id in Adjustable(selected, visible) ==>
      r[id] == Adjusted(CurrentBid(pending, RowOf(visible, id)), multiplier)
    ensures forall id :: id in pending && id !in Adjustable(selected, visible) ==> r[id] == pending[id]
  {
    var touched := Adjustable(selected, visible);
    map id | id in pending.Keys + touched ::
      if id in touched then Adjusted(CurrentBid(pending, RowOf(visible, id)), multiplier) else pending[id]
  }

  // ---------------------------------------------------------------------
  // Bid recommendation

  datatype RankBid = RankBid(rank: int, mobileBid: int)

  datatype Advice = NoAdvice | RaiseBid | LowerBid | Adequate

  /** The rank-3 mobile bid, or 0 when there is none. */
  function Rank3(bids: seq<RankBid>): int {
    if |bids| >= 3 then bids[2].mobileBid else 0
  }

  /**
   * The recommendation: below 0.8 of the rank-3 bid, raise to it; above
   * 1.5 of it, lower to 1.2 of it; otherwise keep the bid. Without a
   * positive rank-3 bid there is no advice.
   */
  function Recommend(bid: int, bids: seq<RankBid>): (Advice, int) {
    var r3 := Rank3(bids);
    if r3 <= 0 then (NoAdvice, bid)
    else if (bid as real) < (r3 as real) * 0.8 then (RaiseBid, r3)
    else if (bid as real) > (r3 as real) * 1.5 then (LowerBid, Round(r3 as real * 1.2))
    else (Adequate, bid)
  }

  /** The rows of the recommendation table: those with search volume or rank bids, by volume, largest first. */
  function SuggestionRows(visible: seq<Kw>, stats: map<string, KwStat>, rankBids: map<string, seq<RankBid>>): seq<Kw> {
    SortBy(Filter(visible, k => HasData(stats, rankBids, k)), ByIntDesc(k => Volume(stats, k)))
  }

  predicate HasData(stats: map<string, KwStat>, rankBids: map<string, seq<RankBid>>, k: Kw) {
    Volume(stats, k) > 0 || (k.keyword in rankBids && |rankBids[k.keyword]| > 0)
  }

  // ---------------------------------------------------------------------
  // Properties: filters

  /** Each filter keeps a subsequence of its input; an empty criterion keeps everything. */
  lemma FiltersSubseq(ks: seq<Kw>, groups: seq<AdgroupRef>, campaignId: string, adgroupId: string, status: string, search: string)
    ensures IsSubseq(ByCampaign(ks, groups, campaignId), ks)
    ensures IsSubseq(ByAdgroup(ks, adgroupId), ks)
    ensures IsSubseq(ByStatus(ks, status), ks)
    ensures IsSubseq(BySearch(ks, search), ks)
    ensures campaignId == "" ==> ByCampaign(ks, groups, campaignId) == ks
    ensures adgroupId == "" ==> ByAdgroup(ks, adgroupId) == ks
    ensures status != "active" && status != "paused" ==> ByStatus(ks, status) == ks
    ensures search == "" ==> BySearch(ks, search) == ks
  {
    IsSubseqRefl(ks);
    FilterIsSubseq(ks, k => InCampaign(groups, campaignId, k));
    FilterIsSubseq(ks, (k: Kw) => k.adgroupId == adgroupId);
    FilterIsSubseq(ks, Unlocked);
    FilterIsSubseq(ks, Locked);
    FilterIsSubseq(ks, k => Matches(Lower(search), k));
  }

  lemma {:induction false} IsSubseqRefl<T>(s: seq<T>)
    ensures IsSubseq(s, s)
  {
    if |s| > 0 {
      IsSubseqRefl(s[..|s| - 1]);
    }
  }

  /** "active" keeps exactly the unlocked keywords and "paused" exactly the locked ones. */
  lemma StatusIff(ks: seq<Kw>, k: Kw)
    ensures k in ByStatus(ks, "active") <==> k in ks && !k.userLock
    ensures k in ByStatus(ks, "paused") <==> k in ks && k.userLock
  {
    if k in ks && !k.userLock {
      FilterKeeps(ks, Unlocked, k);
    }
    if k in ks && k.userLock {
      FilterKeeps(ks, Locked, k);
    }
  }

  /** The search keeps exactly the keywords whose lower-cased fields contain the lower-cased term. */
  lemma SearchIff(ks: seq<Kw>, search: string, k: Kw)
    requires search != ""
    ensures k in BySearch(ks, search) <==> k in ks && Matches(Lower(search), k)
  {
    if k in ks && Matches(Lower(search), k) {
      FilterKeeps(ks, k => Matches(Lower(search), k), k);
    }
  }

  /** The ad group `find` picks for a keyword: the group at `i` when it has the id and no earlier group has. */
  predicate FirstWithId(groups: seq<AdgroupRef>, id: string, i: int) {
    0 <= i < |groups| && groups[i].id == id && forall j :: 0 <= j < i ==> groups[j].id != id
  }

  /** `find` returns exactly the first group with the id. */
  lemma FindAdgroupFirst(groups: seq<AdgroupRef>, id: string)
    ensures FindAdgroup(groups, id).Some? ==>
      exists i :: FirstWithId(groups, id, i) && FindAdgroup(groups, id).value == groups[i]
    ensures forall i :: FirstWithId(groups, id, i) ==> FindAdgroup(groups, id) == Some(groups[i])
  {
    FindAdgroupFound(groups, id);
    forall i | FirstWithId(groups, id, i) ensures FindAdgroup(groups, id) == Some(groups[i]) {
      assert groups[i] in groups;
      var k :| FirstWithId(groups, id, k) && FindAdgroup(groups, id).value == groups[k];
      assert !(i < k) && !(k < i);
    }
  }

  /** What `find` returns is the first group with the id. */
  lemma {:induction false} FindAdgroupFound(groups: seq<AdgroupRef>, id: string)
    ensures FindAdgroup(groups, id).Some? ==>
      exists i :: FirstWithId(groups, id, i) && FindAdgroup(groups, id).value == groups[i]
  {
    if |groups| > 0 && groups[0].id != id {
      var tail := groups[1..];
      FindAdgroupFound(tail, id);
      assert FindAdgroup(groups, id) == FindAdgroup(tail, id);
      if FindAdgroup(groups, id).Some? {
        var i :| FirstWithId(tail, id, i) && FindAdgroup(tail, id).value == tail[i];
        assert FirstWithId(groups, id, i + 1) by {
          forall j | 0 <= j < i + 1 ensures groups[j].id != id {
            if j > 0 {
              assert groups[j] == tail[j - 1];
            }
          }
        }
      }
    } else if |groups| > 0 {
      assert FirstWithId(groups, id, 0);
    }
  }

  /** The campaign filter keeps exactly the keywords whose ad group, the first with their group id, is in the campaign. */
  lemma CampaignIff(ks: seq<Kw>, groups: seq<AdgroupRef>, campaignId: string, k: Kw)
    requires campaignId != ""
    ensures k in ByCampaign(ks, groups, campaignId) <==>
      (k in ks && exists i :: FirstWithId(groups, k.adgroupId, i) && groups[i].campaignId == campaignId)
  {
    if k in ks && InCampaign(groups, campaignId, k) {
      FilterKeeps(ks, k => InCampaign(groups, campaignId, k), k);
    }
    FindAdgroupFirst(groups, k.adgroupId);
  }

  // ---------------------------------------------------------------------
  // Properties: sorting

  /** With a sound collation, every column's order is a total preorder. */
  lemma KwOrderPreorder(st: SortState, stats: map<string, KwStat>, collate: (string, string) -> bool)
    requires TotalPreorder(collate)
    ensures TotalPreorder(KwOrder(st, stats, collate))
  {
    var c := st.column;
    var le := ColumnOrder(c, stats, collate);
    if TextColumn(c) {
      forall a: Kw, b: Kw ensures le(a, b) || le(b, a) {
        assert collate(TextField(c, a), TextField(c, b)) || collate(TextField(c, b), TextField(c, a));
      }
      forall a: Kw, b: Kw, d: Kw | le(a, b) && le(b, d) ensures le(a, d) {
        assert collate(TextField(c, a), TextField(c, b)) && collate(TextField(c, b), TextField(c, d));
      }
    } else if NumberColumn(c) {
      ByIntPreorder((k: Kw) => NumberKey(c, stats, k));
    }
    OrientedPreorder(le, st.direction);
  }

  /**
   * The keyword table keeps its rows and orders them by the column: text
   * columns by collation, numeric ones by value, each reversed when
   * descending; an unknown column keeps the filtered order.
   */
  lemma SortKeywordsSpec(ks: seq<Kw>, st: SortState, stats: map<string, KwStat>, collate: (string, string) -> bool)
    requires TotalPreorder(collate)
    ensures multiset(SortKeywords(ks, st, stats, collate)) == multiset(ks)
    ensures var r := SortKeywords(ks, st, stats, collate);
      TextColumn(st.column) && st.direction == Asc ==>
        forall i, j :: 0 <= i < j < |r| ==> collate(TextField(st.column, r[i]), TextField(st.column, r[j]))
    ensures var r := SortKeywords(ks, st, stats, collate);
      TextColumn(st.column) && st.direction == Desc ==>
        forall i, j :: 0 <= i < j < |r| ==> collate(TextField(st.column, r[j]), TextField(st.column, r[i]))
    ensures var r := SortKeywords(ks, st, stats, collate);
      NumberColumn(st.column) && st.direction == Asc ==>
        forall i, j :: 0 <= i < j < |r| ==> NumberKey(st.column, stats, r[i]) <= NumberKey(st.column, stats, r[j])
    ensures var r := SortKeywords(ks, st, stats, collate);
      NumberColumn(st.column) && st.direction == Desc ==>
        forall i, j :: 0 <= i < j < |r| ==> NumberKey(st.column, stats, r[i]) >= NumberKey(st.column, stats, r[j])
    ensures !TextColumn(st.column) && !NumberColumn(st.column) ==> SortKeywords(ks, st, stats, collate) == ks
  {
    var le := KwOrder(st, stats, collate);
    var r := SortBy(ks, le);
    if TextColumn(st.column) || NumberColumn(st.column) {
      KwOrderPreorder(st, stats, collate);
      SortBySorted(ks, le);
      forall i, j | 0 <= i < j < |r| ensures le(r[i], r[j]) {
      }
    } else {
      SortByFixpoint(ks, le);
    }
  }

  /** Every row the filter chain keeps is a stored keyword that passed each selected filter. */
  lemma FilteredFromKeywords(ks: seq<Kw>, groups: seq<AdgroupRef>, campaignId: string, adgroupId: string, status: string,
                             search: string, k: Kw)
    requires k in Filtered(ks, groups, campaignId, adgroupId, status, search)
    ensures k in ks
    ensures adgroupId != "" ==> k.adgroupId == adgroupId
    ensures status == "active" ==> !k.userLock
    ensures status == "paused" ==> k.userLock
    ensures search != "" ==> Matches(Lower(search), k)
  {
    var a := ByCampaign(ks, groups, campaignId);
    var b := ByAdgroup(a, adgroupId);
    var c := ByStatus(b, status);
    if search != "" { SearchIff(c, search, k); }
    assert k in c;
    StatusIff(b, k);
    assert k in b;
    if adgroupId != "" {
      var i :| 0 <= i < |b| && b[i] == k;
    }
    assert k in a;
  }

  /** The rows shown are exactly the rows the filter chain keeps. */
  lemma VisibleRows(ks: seq<Kw>, groups: seq<AdgroupRef>, campaignId: string, adgroupId: string, status: string,
                    search: string, st: SortState, stats: map<string, KwStat>, collate: (string, string) -> bool)
    ensures multiset(Visible(ks, groups, campaignId, adgroupId, status, search, st, stats, collate))
      == multiset(Filtered(ks, groups, campaignId, adgroupId, status, search))
    ensures IsSubseq(Filtered(ks, groups, campaignId, adgroupId, status, search), ks)
  {
    var a := ByCampaign(ks, groups, campaignId);
    var b := ByAdgroup(a, adgroupId);
    var c := ByStatus(b, status);
    var d := BySearch(c, search);
    FiltersSubseq(ks, groups, campaignId, adgroupId, status, search);
    FiltersSubseq(a, groups, campaignId, adgroupId, status, search);
    FiltersSubseq(b, groups, campaignId, adgroupId, status, search);
    FiltersSubseq(c, groups, campaignId, adgroupId, status, search);
    SubseqTrans(b, a, ks);
    SubseqTrans(c, b, ks);
    SubseqTrans(d, c, ks);
  }

  // ---------------------------------------------------------------------
  // Properties: pending edits

  /** Typing the original bid back withdraws the row's edit and nothing else. */
  lemma BidInputUndo(pending: map<string, int>, id: string, original: int, value: Option<int>)
    ensures BidInput(BidInput(pending, id, original, value), id, original, Some(original)) == pending - {id}
  {
    var r := BidInput(BidInput(pending, id, original, value), id, original, Some(original));
    assert r.Keys == (pending - {id}).Keys;
  }

  /** After an edit the save button is enabled; withdrawing the only edit disables it. */
  lemma SaveAfterInput(pending: map<string, int>, id: string, original: int, value: Option<int>)
    ensures value.Some? && value.value != 0 && value.value != original ==> SaveEnabled(BidInput(pending, id, original, value))
    ensures pending.Keys <= {id} && !(value.Some? && value.value != 0 && value.value != original) ==>
      !SaveEnabled(BidInput(pending, id, original, value))
  {
    var r := BidInput(pending, id, original, value);
    if id in r {
      assert |r| > 0;
    } else if pending.Keys <= {id} {
      assert r.Keys == {};
    }
  }

  /** Applying the same bulk bid twice is the same as once. */
  lemma ApplyBulkBidIdempotent(pending: map<string, int>, selected: set<string>, amount: Option<int>)
    ensures ApplyBulkBid(ApplyBulkBid(pending, selected, amount), selected, amount) == ApplyBulkBid(pending, selected, amount)
  {
    var once := ApplyBulkBid(pending, selected, amount);
    var twice := ApplyBulkBid(once, selected, amount);
    assert twice.Keys == once.Keys;
  }

  /** A factor of one leaves an in-range bid that is a multiple of ten unchanged. */
  lemma AdjustedIdentity(current: int)
    requires MinBid <= current <= MaxBid && current % 10 == 0
    ensures Adjusted(current, 1.0) == current
  {
    var q := current / 10;
    assert current as real * 1.0 / 10.0 == q as real;
    assert Round(q as real) == q;
  }

  /** A larger factor never yields a smaller bid. */
  lemma AdjustedMonotone(current: int, m1: real, m2: real)
    requires current >= 0 && m1 <= m2
    ensures Adjusted(current, m1) <= Adjusted(current, m2)
  {
    var x1 := current as real * m1 / 10.0;
    var x2 := current as real * m2 / 10.0;
    assert x1 <= x2 by {
      assert current as real * m1 <= current as real * m2;
    }
    assert Round(x1) <= Round(x2);
  }

  // ---------------------------------------------------------------------
  // Properties: recommendation

  /** The band around the rank-3 bid the recommendation calls adequate. */
  predicate InBand(bid: int, r3: int) {
    (r3 as real) * 0.8 <= bid as real <= (r3 as real) * 1.5
  }

  /**
   * Raising recommends a higher bid, lowering a lower one, and the
   * recommendation is adequate exactly inside the band; without a positive
   * rank-3 bid the bid is kept.
   */
  lemma RecommendSpec(bid: int, bids: seq<RankBid>)
    ensures var (a, b) := Recommend(bid, bids);
      && (a == NoAdvice <==> Rank3(bids) <= 0)
      && (a == Adequate <==> Rank3(bids) > 0 && InBand(bid, Rank3(bids)))
      && (a == RaiseBid ==> b > bid)
      && (a == LowerBid ==> b < bid)
      && (a == NoAdvice || a == Adequate ==> b == bid)
  {
    var r3 := Rank3(bids);
    if r3 > 0 && (bid as real) > (r3 as real) * 1.5 {
      LowerTarget(r3, bid);
    }
  }

  /** The lowered target lies inside the band, strictly below every bid above it. */
  lemma LowerTarget(r3: int, bid: int)
    requires r3 > 0
    ensures InBand(Round(r3 as real * 1.2), r3)
    ensures (bid as real) > (r3 as real) * 1.5 ==> Round(r3 as real * 1.2) < bid
  {
    var x := Round(r3 as real * 1.2);
    if r3 == 1 {
      assert x == 1;
    }
  }

  /** Following a recommendation lands in the adequate band: a second look finds it adequate. */
  lemma RecommendSettles(bid: int, bids: seq<RankBid>)
    requires Recommend(bid, bids).0 != NoAdvice
    ensures Recommend(Recommend(bid, bids).1, bids).0 == Adequate
  {
    var r3 := Rank3(bids);
    if (bid as real) > (r3 as real) * 1.5 && (bid as real) >= (r3 as real) * 0.8 {
      LowerTarget(r3, bid);
    }
  }

  /** The suggestion table lists exactly the visible keywords with data, by search volume, largest first. */
  lemma SuggestionRowsSpec(visible: seq<Kw>, stats: map<string, KwStat>, rankBids: map<string, seq<RankBid>>)
    ensures var r := SuggestionRows(visible, stats, rankBids);
      forall k :: k in r <==> k in visible && HasData(stats, rankBids, k)
    ensures var r := SuggestionRows(visible, stats, rankBids);
      forall i, j :: 0 <= i < j < |r| ==> Volume(stats, r[i]) >= Volume(stats, r[j])
  {
    var p := (k: Kw) => HasData(stats, rankBids, k);
    var f := Filter(visible, p);
    var r := SuggestionRows(visible, stats, rankBids);
    forall k ensures k in r <==> k in visible && HasData(stats, rankBids, k) {
      assert k in r <==> k in multiset(f);
      if k in visible && HasData(stats, rankBids, k) {
        FilterKeeps(visible, p, k);
      }
    }
    SortByIntDescOrdered(f, k => Volume(stats, k));
  }
}
