/**
 * The search-ad collector (scripts/naver_ads_api.py): it walks campaigns,
 * their ad groups and their keywords, tags each ad group and keyword with
 * its owners' names, keeps the distinct keyword texts for the volume query,
 * counts the active keywords, and turns the volume reply into per-keyword
 * statistics.
 */
module AdsCollect {
  import opened Wrappers
  import opened Seqs
  import opened PyNum

  /** A keyword as the API lists it; a missing `keyword` reads as "", a missing `userLock` as false. */
  datatype Keyword = Keyword(id: string, text: string, userLock: Scalar, bidAmt: int)

  datatype Adgroup = Adgroup(id: string, name: string, keywords: seq<Keyword>)

  datatype Campaign = Campaign(id: string, name: string, adgroups: seq<Adgroup>)

  /** An ad group with its campaign's name attached. */
  datatype TaggedAdgroup = TaggedAdgroup(group: Adgroup, campaignName: string)

  /** A keyword with its campaign's and ad group's names attached. */
  datatype TaggedKeyword = TaggedKeyword(keyword: Keyword, campaignName: string, adgroupName: string)

  datatype Summary = Summary(campaigns: nat, adgroups: nat, keywords: nat, active: nat)

  datatype Collection = Collection(
    adgroups: seq<TaggedAdgroup>,
    keywords: seq<TaggedKeyword>,
    keywordTexts: seq<string>,
    summary: Summary)

  // ---------------------------------------------------------------------
  // The walk, as reference definitions

  function TagKeyword(campaign: string, adgroup: string): Keyword -> TaggedKeyword {
    k => TaggedKeyword(k, campaign, adgroup)
  }

  function TagAdgroup(campaign: string): Adgroup -> TaggedAdgroup {
    g => TaggedAdgroup(g, campaign)
  }

  /** The keywords of one ad group, tagged. */
  function GroupKeywords(campaign: string, g: Adgroup): seq<TaggedKeyword> {
    Map(g.keywords, TagKeyword(campaign, g.name))
  }

  /** The keywords of a campaign's ad groups, group after group. */
  function CampaignKeywords(campaign: string, groups: seq<Adgroup>): seq<TaggedKeyword> {
    if |groups| == 0 then []
    else CampaignKeywords(campaign, groups[..|groups| - 1]) + GroupKeywords(campaign, groups[|groups| - 1])
  }

  /** Every keyword, campaign after campaign. */
  function AllKeywords(cs: seq<Campaign>): seq<TaggedKeyword> {
    if |cs| == 0 then []
    else AllKeywords(cs[..|cs| - 1]) + CampaignKeywords(cs[|cs| - 1].name, cs[|cs| - 1].adgroups)
  }

  /** Every ad group, campaign after campaign. */
  function AllAdgroups(cs: seq<Campaign>): seq<TaggedAdgroup> {
    if |cs| == 0 then []
    else AllAdgroups(cs[..|cs| - 1]) + Map(cs[|cs| - 1].adgroups, TagAdgroup(cs[|cs| - 1].name))
  }

  function TextOf(k: TaggedKeyword): string { k.keyword.text }

  predicate NonEmpty(s: string) { s != "" }

  /** A keyword is active unless its lock flag is truthy. */
  predicate Active(k: TaggedKeyword) { !Truthy(k.keyword.userLock) }

  /** The texts sent to the volume query: the non-empty ones, once each, first seen first. */
  function KeywordTexts(ks: seq<TaggedKeyword>): seq<string> {
    Distinct(Filter(Map(ks, TextOf), NonEmpty))
  }

  // ---------------------------------------------------------------------
  // The walk as the collector performs it

  /** The query list as the collector builds it: a text is appended when non-empty and not yet listed. */
  function QueryTexts(ks: seq<TaggedKeyword>): seq<string> {
    if |ks| == 0 then []
    else
      var prev, t := QueryTexts(ks[..|ks| - 1]), ks[|ks| - 1].keyword.text;
      if t != "" && t !in prev then prev + [t] else prev
  }

  /** The active counter as the collector keeps it. */
  function ActiveCount(ks: seq<TaggedKeyword>): nat {
    if |ks| == 0 then 0
    else ActiveCount(ks[..|ks| - 1]) + if Truthy(ks[|ks| - 1].keyword.userLock) then 0 else 1
  }

  /** The collector's running state: the lists so far, the query texts and the active count. */
  datatype Acc = Acc(groups: seq<TaggedAdgroup>, keywords: seq<TaggedKeyword>, texts: seq<string>, active: nat)

  /** The query texts and the active count agree with the keywords gathered so far. */
  predicate Consistent(a: Acc) {
    a.texts == QueryTexts(a.keywords) && a.active == ActiveCount(a.keywords)
  }

  /** The collector's walk over campaigns, ad groups and keywords. */
  method Collect(cs: seq<Campaign>) returns (c: Collection)
    ensures c.adgroups == AllAdgroups(cs)
    ensures c.keywords == AllKeywords(cs)
    ensures c.keywordTexts == KeywordTexts(AllKeywords(cs))
    ensures c.summary == Summary(|cs|, |AllAdgroups(cs)|, |AllKeywords(cs)|, Count(AllKeywords(cs), Active))
  {
    var acc := Acc([], [], [], 0);
    for i := 0 to |cs|
      invariant acc.groups == AllAdgroups(cs[..i])
      invariant acc.keywords == AllKeywords(cs[..i])
      invariant Consistent(acc)
    {
      assert cs[..i + 1][..i] == cs[..i];
      acc := CollectCampaign(cs[i], acc);
    }
    assert cs[..|cs|] == cs;
    QueryTextsDistinct(acc.keywords);
    ActiveCountSpec(acc.keywords);
    c := Collection(acc.groups, acc.keywords, acc.texts, Summary(|cs|, |acc.groups|, |acc.keywords|, acc.active));
  }

  /** One campaign: its ad groups in order. */
  method CollectCampaign(camp: Campaign, acc: Acc) returns (r: Acc)
    requires Consistent(acc)
    ensures Consistent(r)
    ensures r.groups == acc.groups + Map(camp.adgroups, TagAdgroup(camp.name))
    ensures r.keywords == acc.keywords + CampaignKeywords(camp.name, camp.adgroups)
  {
    r := acc;
    for j := 0 to |camp.adgroups|
      invariant Consistent(r)
      invariant r.groups == acc.groups + Map(camp.adgroups[..j], TagAdgroup(camp.name))
      invariant r.keywords == acc.keywords + CampaignKeywords(camp.name, camp.adgroups[..j])
    {
      var g := camp.adgroups[j];
      CampaignStep(camp.name, camp.adgroups, j);
      r := CollectGroup(camp.name, g, r);
      AppendAssoc(acc.groups, Map(camp.adgroups[..j], TagAdgroup(camp.name)), [TaggedAdgroup(g, camp.name)]);
      AppendAssoc(acc.keywords, CampaignKeywords(camp.name, camp.adgroups[..j]), GroupKeywords(camp.name, g));
    }
    assert camp.adgroups[..|camp.adgroups|] == camp.adgroups;
  }

  /** One ad group: it is listed, then its keywords in order. */
  method CollectGroup(campaign: string, g: Adgroup, acc: Acc) returns (r: Acc)
    requires Consistent(acc)
    ensures Consistent(r)
    ensures r.groups == acc.groups + [TaggedAdgroup(g, campaign)]
    ensures r.keywords == acc.keywords + GroupKeywords(campaign, g)
  {
    r := acc.(groups := acc.groups + [TaggedAdgroup(g, campaign)]);
    for k := 0 to |g.keywords|
      invariant Consistent(r)
      invariant r.groups == acc.groups + [TaggedAdgroup(g, campaign)]
      invariant r.keywords == acc.keywords + Map(g.keywords[..k], TagKeyword(campaign, g.name))
    {
      GroupStep(campaign, g, k);
      r := CollectKeyword(TaggedKeyword(g.keywords[k], campaign, g.name), r);
    }
    assert g.keywords[..|g.keywords|] == g.keywords;
  }

  lemma CampaignStep(name: string, groups: seq<Adgroup>, j: nat)
    requires j < |groups|
    ensures Map(groups[..j + 1], TagAdgroup(name)) == Map(groups[..j], TagAdgroup(name)) + [TaggedAdgroup(groups[j], name)]
    ensures CampaignKeywords(name, groups[..j + 1]) == CampaignKeywords(name, groups[..j]) + GroupKeywords(name, groups[j])
  {
    assert groups[..j + 1] == groups[..j] + [groups[j]];
    MapSnoc(groups[..j], groups[j], TagAdgroup(name));
  }

  lemma GroupStep(campaign: string, g: Adgroup, k: nat)
    requires k < |g.keywords|
    ensures Map(g.keywords[..k + 1], TagKeyword(campaign, g.name))
      == Map(g.keywords[..k], TagKeyword(campaign, g.name)) + [TaggedKeyword(g.keywords[k], campaign, g.name)]
  {
    assert g.keywords[..k + 1] == g.keywords[..k] + [g.keywords[k]];
    MapSnoc(g.keywords[..k], g.keywords[k], TagKeyword(campaign, g.name));
  }

  /** One keyword: it is listed, its text joins the query list when non-empty and new, and it is counted when active. */
  method CollectKeyword(kw: TaggedKeyword, acc: Acc) returns (r: Acc)
    requires Consistent(acc)
    ensures Consistent(r)
    ensures r.groups == acc.groups && r.keywords == acc.keywords + [kw]
  {
    assert (acc.keywords + [kw])[..|acc.keywords|] == acc.keywords;
    var t := kw.keyword.text;
    var texts := if t != "" && t !in acc.texts then acc.texts + [t] else acc.texts;
    var active := if !Truthy(kw.keyword.userLock) then acc.active + 1 else acc.active;
    r := Acc(acc.groups, acc.keywords + [kw], texts, active);
  }

  /** The collector's query list is the de-duplicated non-empty texts. */
  lemma {:induction false} QueryTextsDistinct(ks: seq<TaggedKeyword>)
    ensures QueryTexts(ks) == KeywordTexts(ks)
  {
    if |ks| > 0 {
      var init, k := ks[..|ks| - 1], ks[|ks| - 1];
      QueryTextsDistinct(init);
      assert ks == init + [k];
      KeywordTextsSnoc(init, k);
    }
  }

  /** The collector's counter counts the active keywords. */
  lemma {:induction false} ActiveCountSpec(ks: seq<TaggedKeyword>)
    ensures ActiveCount(ks) == Count(ks, Active)
  {
    if |ks| > 0 {
      var init, k := ks[..|ks| - 1], ks[|ks| - 1];
      ActiveCountSpec(init);
      assert ks == init + [k];
      FilterSnoc(init, k, Active);
    }
  }

  /** Appending a keyword adds its text to the query list exactly when it is non-empty and new. */
  lemma KeywordTextsSnoc(ks: seq<TaggedKeyword>, k: TaggedKeyword)
    ensures KeywordTexts(ks + [k]) ==
      if k.keyword.text != "" && k.keyword.text !in KeywordTexts(ks) then KeywordTexts(ks) + [k.keyword.text]
      else KeywordTexts(ks)
  {
    var t, m := k.keyword.text, Map(ks, TextOf);
    var f := Filter(m, NonEmpty);
    MapSnoc(ks, k, TextOf);
    FilterSnoc(m, t, NonEmpty);
    if t != "" {
      DistinctSnoc(f, t);
      assert Filter(Map(ks + [k], TextOf), NonEmpty) == f + [t];
    } else {
      assert Filter(Map(ks + [k], TextOf), NonEmpty) == f;
    }
  }

  // ---------------------------------------------------------------------
  // Volume statistics

  /** One entry of the volume reply. */
  datatype StatItem = StatItem(relKeyword: string, pc: Scalar, mobile: Scalar, compIdx: string)

  datatype KeywordStat = KeywordStat(pc: int, mobile: int, compIdx: string)

  function StatOf(item: StatItem): KeywordStat {
    KeywordStat(ParseVolume(item.pc), ParseVolume(item.mobile), item.compIdx)
  }

  function RelKeyword(item: StatItem): string { item.relKeyword }

  predicate Named(item: StatItem) { item.relKeyword != "" }

  /** The statistics by keyword; a later reply entry for the same keyword overwrites an earlier one. */
  function KeywordStats(items: seq<StatItem>): map<string, KeywordStat> {
    ToMap(Filter(items, Named), RelKeyword, StatOf)
  }

  // ---------------------------------------------------------------------
  // Properties

  /** The query list holds each non-empty keyword text exactly once, in first-seen order. */
  lemma KeywordTextsSpec(ks: seq<TaggedKeyword>)
    ensures NoDup(KeywordTexts(ks))
    ensures forall t :: t in KeywordTexts(ks) <==> t != "" && exists i :: 0 <= i < |ks| && ks[i].keyword.text == t
    ensures forall i, j :: 0 <= i < j < |KeywordTexts(ks)| ==>
      SeenBefore(Filter(Map(ks, TextOf), NonEmpty), KeywordTexts(ks)[i], KeywordTexts(ks)[j])
  {
    var m := Map(ks, TextOf);
    var f := Filter(m, NonEmpty);
    DistinctFirstSeen(f);
    forall t ensures t in KeywordTexts(ks) <==> t != "" && exists i :: 0 <= i < |ks| && ks[i].keyword.text == t {
      if t != "" && exists i :: 0 <= i < |ks| && ks[i].keyword.text == t {
        var i :| 0 <= i < |ks| && ks[i].keyword.text == t;
        assert m[i] == t;
        FilterKeeps(m, NonEmpty, t);
      }
      if t in f {
        var i :| 0 <= i < |m| && m[i] == t;
        assert ks[i].keyword.text == t;
      }
    }
  }

  /** Active and locked keywords together make up all keywords. */
  lemma ActivePartition(ks: seq<TaggedKeyword>)
    ensures Count(ks, Active) + Count(ks, k => !Active(k)) == |ks|
    ensures Count(ks, Active) <= |ks|
  {
    FilterSplitSum(ks, Active, k => !Active(k), k => 1);
    SumOnes(ks);
    SumOnes(Filter(ks, Active));
    SumOnes(Filter(ks, k => !Active(k)));
  }

  /** How many keywords a tagged ad group holds. */
  function GroupSize(g: TaggedAdgroup): int { |g.group.keywords| }

  /** The keyword count is the sum of the ad groups' keyword counts. */
  lemma {:induction false} KeywordTotal(cs: seq<Campaign>)
    ensures |AllKeywords(cs)| == Sum(AllAdgroups(cs), GroupSize)
  {
    if |cs| > 0 {
      var init, c := cs[..|cs| - 1], cs[|cs| - 1];
      KeywordTotal(init);
      CampaignTotal(c.name, c.adgroups);
      SumConcat(AllAdgroups(init), Map(c.adgroups, TagAdgroup(c.name)), GroupSize);
    }
  }

  lemma {:induction false} CampaignTotal(name: string, groups: seq<Adgroup>)
    ensures |CampaignKeywords(name, groups)| == Sum(Map(groups, TagAdgroup(name)), GroupSize)
  {
    if |groups| > 0 {
      var init, g := groups[..|groups| - 1], groups[|groups| - 1];
      CampaignTotal(name, init);
      assert groups == init + [g];
      MapSnoc(init, g, TagAdgroup(name));
      SumSnoc(Map(init, TagAdgroup(name)), TaggedAdgroup(g, name), GroupSize);
    }
  }

  /** Every tagged keyword carries the names of the campaign and ad group it came from. */
  lemma {:induction false} KeywordsTagged(cs: seq<Campaign>, k: TaggedKeyword)
    requires k in AllKeywords(cs)
    ensures exists c, g :: (c in cs && g in c.adgroups && k.keyword in g.keywords
      && k.campaignName == c.name && k.adgroupName == g.name)
  {
    var init, c := cs[..|cs| - 1], cs[|cs| - 1];
    if k in AllKeywords(init) {
      KeywordsTagged(init, k);
    } else {
      var g := CampaignKeywordsTagged(c.name, c.adgroups, k);
    }
  }

  lemma {:induction false} CampaignKeywordsTagged(name: string, groups: seq<Adgroup>, k: TaggedKeyword) returns (g: Adgroup)
    requires k in CampaignKeywords(name, groups)
    ensures g in groups && k.keyword in g.keywords && k.campaignName == name && k.adgroupName == g.name
  {
    var init, last := groups[..|groups| - 1], groups[|groups| - 1];
    if k in CampaignKeywords(name, init) {
      g := CampaignKeywordsTagged(name, init, k);
    } else {
      g := last;
      var i :| 0 <= i < |GroupKeywords(name, last)| && GroupKeywords(name, last)[i] == k;
      assert k.keyword == last.keywords[i];
    }
  }

  /**
   * A keyword has statistics exactly when some reply entry names it, and
   * they are the parsed volumes of the last such entry.
   */
  lemma KeywordStatsSpec(items: seq<StatItem>, i: nat)
    requires i < |items| && items[i].relKeyword != ""
    requires forall j :: i < j < |items| ==> items[j].relKeyword != items[i].relKeyword
    ensures items[i].relKeyword in KeywordStats(items)
    ensures KeywordStats(items)[items[i].relKeyword] == KeywordStat(ParseVolume(items[i].pc), ParseVolume(items[i].mobile), items[i].compIdx)
  {
    var f := Filter(items, Named);
    var n := NamedPosition(items, i);
    ToMapLastWins(f, RelKeyword, StatOf, n);
  }

  /** The position of a named entry among the named entries, with no later entry of the same name. */
  lemma {:induction false} NamedPosition(items: seq<StatItem>, i: nat) returns (n: nat)
    requires i < |items| && items[i].relKeyword != ""
    requires forall j :: i < j < |items| ==> items[j].relKeyword != items[i].relKeyword
    ensures n < |Filter(items, Named)| && Filter(items, Named)[n] == items[i]
    ensures forall j :: n < j < |Filter(items, Named)| ==> Filter(items, Named)[j].relKeyword != items[i].relKeyword
  {
    var init, last := items[..|items| - 1], items[|items| - 1];
    if i == |items| - 1 {
      n := |Filter(init, Named)|;
    } else {
      assert init[i] == items[i];
      n := NamedPosition(init, i);
      var f := Filter(items, Named);
      forall j | n < j < |f| ensures f[j].relKeyword != items[i].relKeyword {
        if j >= |Filter(init, Named)| {
          assert f[j] == last;
        }
      }
    }
  }

  /** Only named entries get statistics, and every statistic belongs to a named entry. */
  lemma KeywordStatsKeys(items: seq<StatItem>)
    ensures forall k :: k in KeywordStats(items) ==> k != "" && exists i :: 0 <= i < |items| && items[i].relKeyword == k
  {
    var f := Filter(items, Named);
    ToMapKeys(f, RelKeyword, StatOf);
    forall k | k in KeywordStats(items) ensures k != "" && exists i :: 0 <= i < |items| && items[i].relKeyword == k {
      var n :| 0 <= n < |f| && RelKeyword(f[n]) == k;
      assert f[n] in items;
      var i :| 0 <= i < |items| && items[i] == f[n];
    }
  }
}
