/**
 * The place-review collector (scripts/naver_review_crawler.py): reading the
 * dates the review pages show, the collection-period check, the
 * negative-review classifier, merging a run's reviews into the stored
 * ones, and the day/week/month statistics with their change rates.
 */
module Reviews {
  import opened Wrappers
  import opened Seqs
  import opened Sorting
  import opened Text
  import opened Calendar
  import opened PyDates
  import PriceAnalysis
  import PyNum

  // ---------------------------------------------------------------------
  // Reading a shown date

  /** How many leading characters of `s` are decimal digits (of any script, as `\d` matches). */
  function LeadDigits(s: string): (k: nat)
    ensures k <= |s| && PyNum.AllDecimal(s[..k])
    ensures k < |s| ==> !PyNum.IsDecimal(s[k])
  {
    if |s| == 0 || !PyNum.IsDecimal(s[0]) then 0
    else
      var k := 1 + LeadDigits(s[1..]);
      assert s[..k] == [s[0]] + s[1..][..k - 1];
      k
  }

  /** `re.findall(r'\d+', s)`: the maximal runs of decimal digits, left to right. */
  function Runs(s: string): (r: seq<string>)
    ensures forall i :: 0 <= i < |r| ==> |r[i]| > 0 && PyNum.AllDecimal(r[i])
    decreases |s|
  {
    if |s| == 0 then []
    else if !PyNum.IsDecimal(s[0]) then Runs(s[1..])
    else
      var k := LeadDigits(s);
      [s[..k]] + Runs(s[k..])
  }

  /** `"{:04d}-{:02d}-{:02d}".format(y, m, d)` for non-negative fields. */
  function Render(y: nat, m: nat, d: nat): string {
    Pad(y, 4) + "-" + Pad(m, 2) + "-" + Pad(d, 2)
  }

  /**
   * `parse_date`: three or more digit runs are year, month and day (a
   * two-digit year is in the 2000s); exactly two are month and day of
   * `currentYear`; anything else, and the empty text, gives `None`. Each
   * run is read by `int()`, whatever script its digits are in.
   */
  function ParseDate(s: string, currentYear: nat): Option<string> {
    if s == "" then None else ReadRuns(Runs(s), currentYear)
  }

  /** The date `parse_date` builds from the digit runs it found. */
  function ReadRuns(parts: seq<string>, currentYear: nat): Option<string>
    requires forall i :: 0 <= i < |parts| ==> PyNum.AllDecimal(parts[i])
  {
    if |parts| >= 3 then
      var y := PyNum.DecimalsValue(parts[0]);
      Some(Render(if y < 100 then y + 2000 else y, PyNum.DecimalsValue(parts[1]), PyNum.DecimalsValue(parts[2])))
    else if |parts| >= 2 then
      Some(Render(currentYear, PyNum.DecimalsValue(parts[0]), PyNum.DecimalsValue(parts[1])))
    else None
  }

  // ---------------------------------------------------------------------
  // The collection period

  /** Checks the end bound; an unreadable bound lets the review through. */
  predicate BeforeEnd(review: Date, end: string) {
    if end == "" then true
    else match Strptime(end, "-")
      case None => true
      case Some(e) => DateLe(review, e)
  }

  /**
   * `is_date_in_range`: an empty or unreadable review date is in range; an
   * empty bound is not checked; an unreadable bound ends the check with
   * "in range" (the exception handler's answer).
   */
  predicate InRange(date: string, start: string, end: string) {
    if date == "" then true
    else match Strptime(date, "-")
      case None => true
      case Some(r) =>
        if start == "" then BeforeEnd(r, end)
        else match Strptime(start, "-")
          case None => true
          case Some(s) => DateLe(s, r) && BeforeEnd(r, end)
  }

  // ---------------------------------------------------------------------
  // The negative-review classifier

  /** The phrases that mark a review negative (the list repeats "그저 그"). */
  const NegativeKeywords: seq<string> := [
    "별로", "실망", "아쉽", "아쉬웠", "짜다", "짰", "싱겁", "느끼", "늦", "오래 걸",
    "불친절", "차갑", "식었", "적었", "적다", "비싸", "비쌌", "양이 적", "재방문 의사 없",
    "다시 안", "다신 안", "비추", "최악", "후회", "맛없", "맛이 없", "서비스 별로",
    "위생", "불결", "더럽", "냄새", "이상한 맛", "탔", "안 좋", "그닥", "그저 그",
    "기대 이하", "평범", "보통", "그저 그", "애매"]

  /** A review as stored; a missing text field reads as "". */
  datatype Review = Review(
    id: string,
    content: string,
    tags: seq<string>,
    visitDate: string,
    writeDate: string,
    negative: bool)

  /** The scan over the phrase list: does `text` contain one of `phrases`? */
  predicate AnyPhrase(text: string, phrases: seq<string>) {
    |phrases| > 0 && (Contains(text, phrases[0]) || AnyPhrase(text, phrases[1..]))
  }

  /** The scan over the tags, each lower-cased. */
  predicate AnyTag(tags: seq<string>, phrases: seq<string>) {
    |tags| > 0 && (AnyPhrase(Lower(tags[0]), phrases) || AnyTag(tags[1..], phrases))
  }

  /** `is_negative_review`: the lower-cased content, then each lower-cased tag. */
  predicate IsNegative(content: string, tags: seq<string>) {
    AnyPhrase(Lower(content), NegativeKeywords) || AnyTag(tags, NegativeKeywords)
  }

  // ---------------------------------------------------------------------
  // Merging a run into the stored reviews

  function Id(r: Review): string { r.id }

  /** The review's date for ordering: the visit date, else the write date, else "". */
  function DateOf(r: Review): string {
    if r.visitDate != "" then r.visitDate else r.writeDate
  }

  /** The non-empty ids of the stored reviews. */
  function StoredIds(stored: seq<Review>): set<string> {
    set r | r in stored && r.id != "" :: r.id
  }

  /** The new reviews appended, in order: each with a non-empty id neither stored nor appended before. */
  function Appended(ids: set<string>, incoming: seq<Review>): seq<Review> {
    if |incoming| == 0 then []
    else
      var prev, x := Appended(ids, incoming[..|incoming| - 1]), incoming[|incoming| - 1];
      if x.id != "" && x.id !in ids && x.id !in Map(prev, Id) then prev + [x] else prev
  }

  /** `merge_reviews`: the merged list, newest first, and how many reviews were added. */
  function MergeReviews(stored: seq<Review>, incoming: seq<Review>): (seq<Review>, nat) {
    var added := Appended(StoredIds(stored), incoming);
    (SortBy(stored + added, ByStrDesc(DateOf)), |added|)
  }

  // ---------------------------------------------------------------------
  // Statistics

  datatype Store = Store(visitor: seq<Review>, blog: seq<Review>)

  /** Every review of every store, visitor reviews before blog reviews. */
  function AllReviews(stores: seq<Store>): seq<Review> {
    if |stores| == 0 then []
    else AllReviews(stores[..|stores| - 1]) + stores[|stores| - 1].visitor + stores[|stores| - 1].blog
  }

  /** The day number of a review's date, when it has a readable one. */
  function DayOf(r: Review): Option<int> {
    var s := DateOf(r);
    if s == "" then None
    else match Strptime(s, "-")
      case None => None
      case Some(d) => Some(Ordinal(d))
  }

  datatype Stats = Stats(
    today: nat,
    yesterday: nat,
    thisWeek: nat,
    lastWeek: nat,
    thisMonth: nat,
    lastMonth: nat,
    negative: nat)

  /** One review's contribution, counted against day number `t` (today). */
  function Tally(s: Stats, r: Review, t: int): Stats {
    match DayOf(r)
    case None => s
    case Some(o) =>
      Stats(
        s.today + (if o == t then 1 else 0),
        s.yesterday + (if o == t - 1 then 1 else 0),
        s.thisWeek + (if o >= t - 7 then 1 else 0),
        s.lastWeek + (if t - 7 > o >= t - 14 then 1 else 0),
        s.thisMonth + (if o >= t - 30 then 1 else 0),
        s.lastMonth + (if t - 30 > o >= t - 60 then 1 else 0),
        s.negative + (if r.negative then 1 else 0))
  }

  /** The statistics loop over the reviews, in order. */
  function TallyAll(rs: seq<Review>, t: int): Stats {
    if |rs| == 0 then Stats(0, 0, 0, 0, 0, 0, 0)
    else Tally(TallyAll(rs[..|rs| - 1], t), rs[|rs| - 1], t)
  }

  /** `calc_change`: the change from `previous` to `current` in percent (exact, before rounding). */
  function Change(current: nat, previous: nat): real {
    if previous == 0 then (if current > 0 then 100.0 else 0.0)
    else PriceAnalysis.Pct(current - previous, previous)
  }

  /** The review statistics of all stores, with today's day number `t`. */
  function ReviewStats(stores: seq<Store>, today: Date): Stats
    requires Valid(today)
  {
    TallyAll(AllReviews(stores), Ordinal(today))
  }

  predicate Flagged(r: Review) { r.negative }

  predicate Classified(r: Review) { IsNegative(r.content, r.tags) }

  /** A store's negative count: its flagged visitor reviews plus its flagged blog reviews. */
  function NegativeCount(s: Store): nat {
    Count(s.visitor, Flagged) + Count(s.blog, Flagged)
  }

  // ---------------------------------------------------------------------
  // Properties: dates

  /** A digit run followed by a non-digit (or nothing) is read as one run. */
  lemma RunsConcat(a: string, b: string)
    requires |a| > 0 && PyNum.AllDecimal(a)
    requires |b| == 0 || !PyNum.IsDecimal(b[0])
    ensures Runs(a + b) == [a] + Runs(b)
  {
    var s := a + b;
    LeadDigitsOf(a, b);
    assert s[..|a|] == a && s[|a|..] == b;
  }

  lemma {:induction false} LeadDigitsOf(a: string, b: string)
    requires PyNum.AllDecimal(a)
    requires |b| == 0 || !PyNum.IsDecimal(b[0])
    ensures LeadDigits(a + b) == |a|
  {
    if |a| > 0 {
      assert (a + b)[1..] == a[1..] + b;
      assert PyNum.AllDecimal(a[1..]);
      LeadDigitsOf(a[1..], b);
    } else {
      assert a + b == b;
    }
  }

  /** A leading non-digit is skipped. */
  lemma RunsSkip(c: char, b: string)
    requires !PyNum.IsDecimal(c)
    ensures Runs([c] + b) == Runs(b)
  {
    assert ([c] + b)[1..] == b;
  }

  /** A digit run standing alone is one run. */
  lemma RunsSingle(a: string)
    requires |a| > 0 && PyNum.AllDecimal(a)
    ensures Runs(a) == [a]
  {
    RunsConcat(a, "");
    assert a + "" == a;
  }

  /** A digit run, then one non-digit: the run, then the runs of what follows. */
  lemma RunsCons(a: string, sep: char, rest: string)
    requires |a| > 0 && PyNum.AllDecimal(a) && !PyNum.IsDecimal(sep)
    ensures Runs(a + [sep] + rest) == [a] + Runs(rest)
  {
    assert a + [sep] + rest == a + ([sep] + rest);
    RunsConcat(a, [sep] + rest);
    RunsSkip(sep, rest);
  }

  /** Three digit runs joined by dashes are read as those three runs. */
  lemma RunsOfFields(a: string, b: string, c: string)
    requires |a| > 0 && AllDigits(a) && |b| > 0 && AllDigits(b) && |c| > 0 && AllDigits(c)
    ensures Runs(a + "-" + b + "-" + c) == [a, b, c]
  {
    var rest := b + "-" + c;
    assert a + "-" + b + "-" + c == a + ['-'] + rest;
    RunsCons(a, '-', rest);
    RunsCons(b, '-', c);
    RunsSingle(c);
  }

  /** The runs of a rendered date are its three fields. */
  lemma RunsOfRender(y: nat, m: nat, d: nat)
    ensures Runs(Render(y, m, d)) == [Pad(y, 4), Pad(m, 2), Pad(d, 2)]
  {
    NonEmptyPad(y, 4);
    NonEmptyPad(m, 2);
    NonEmptyPad(d, 2);
    RunsOfFields(Pad(y, 4), Pad(m, 2), Pad(d, 2));
  }

  /** Three or more runs are read as year, month and day. */
  lemma ParseThree(s: string, currentYear: nat, a: string, b: string, c: string, y: nat, m: nat, d: nat)
    requires s != "" && |Runs(s)| >= 3 && Runs(s)[0] == a && Runs(s)[1] == b && Runs(s)[2] == c
    requires PyNum.AllDecimal(a) && PyNum.DecimalsValue(a) == y
    requires PyNum.AllDecimal(b) && PyNum.DecimalsValue(b) == m
    requires PyNum.AllDecimal(c) && PyNum.DecimalsValue(c) == d
    ensures ParseDate(s, currentYear) == Some(Render(if y < 100 then y + 2000 else y, m, d))
  {
    var r := Runs(s);
    assert ParseDate(s, currentYear) == ReadRuns(r, currentYear);
  }

  /** Exactly two runs are read as month and day of the current year. */
  lemma ParseTwo(s: string, currentYear: nat, a: string, b: string, m: nat, d: nat)
    requires s != "" && Runs(s) == [a, b]
    requires PyNum.AllDecimal(a) && PyNum.DecimalsValue(a) == m
    requires PyNum.AllDecimal(b) && PyNum.DecimalsValue(b) == d
    ensures ParseDate(s, currentYear) == Some(Render(currentYear, m, d))
  {}

  /** A padded ASCII field reads as its number. */
  lemma PadRead(n: nat, w: nat)
    ensures PyNum.AllDecimal(Pad(n, w)) && PyNum.DecimalsValue(Pad(n, w)) == n
  {
    PyNum.DecimalsOfAscii(Pad(n, w));
  }

  /** A rendered date's runs read as its three fields. */
  lemma ParseRender(y: nat, m: nat, d: nat, currentYear: nat)
    ensures ParseDate(Render(y, m, d), currentYear) == Some(Render(if y < 100 then y + 2000 else y, m, d))
  {
    RunsOfRender(y, m, d);
    PadRead(y, 4);
    PadRead(m, 2);
    PadRead(d, 2);
    ParseThree(Render(y, m, d), currentYear, Pad(y, 4), Pad(m, 2), Pad(d, 2), y, m, d);
  }

  lemma NonEmptyPad(n: nat, w: nat)
    requires w > 0
    ensures |Pad(n, w)| > 0
  {}

  /** A date is read when its text holds at least two digit runs, and only then. */
  lemma ParseDateDefined(s: string, currentYear: nat)
    ensures ParseDate(s, currentYear).Some? <==> |Runs(s)| >= 2
  {
    if s == "" {
      assert Runs(s) == [];
    }
  }

  /** A rendered date with a year of three or more digits reads back as itself. */
  lemma ParseDateRoundTrip(d: Date, currentYear: nat)
    requires Valid(d) && d.year >= 100
    ensures ParseDate(Dashed(d), currentYear) == Some(Dashed(d))
  {
    assert Dashed(d) == Render(d.year, d.month, d.day);
    ParseRender(d.year, d.month, d.day, currentYear);
  }

  /**
   * `\d+` and `int()` take decimal digits of any script: a full-width year
   * reads as its number, "２０２４.1.5" as 5 January 2024.
   */
  lemma FullWidthYearRead(year: string, currentYear: nat)
    requires year == "\U{FF12}\U{FF10}\U{FF12}\U{FF14}"
    ensures ParseDate(year + ".1.5", currentYear) == Some(Render(2024, 1, 5))
  {
    var s := year + ".1.5";
    assert PyNum.AllDecimal(year) && PyNum.DecimalsValue(year) == 2024 by {
      Year2024(year);
    }
    assert PyNum.AllDecimal("1") && PyNum.DecimalsValue("1") == 1 by {
      PyNum.DecimalsOfAscii("1");
    }
    assert PyNum.AllDecimal("5") && PyNum.DecimalsValue("5") == 5 by {
      PyNum.DecimalsOfAscii("5");
    }
    assert Runs(s) == [year, "1", "5"] by {
      ThreeRuns(year, "1", "5", '.');
      assert s == year + ['.'] + "1" + ['.'] + "5";
    }
    ParseThree(s, currentYear, year, "1", "5", 2024, 1, 5);
  }

  /** Three digit runs with one non-digit between each are read as three runs. */
  lemma ThreeRuns(y: string, m: string, d: string, sep: char)
    requires |y| > 0 && PyNum.AllDecimal(y) && |m| > 0 && PyNum.AllDecimal(m) && |d| > 0 && PyNum.AllDecimal(d)
    requires !PyNum.IsDecimal(sep)
    ensures Runs(y + [sep] + m + [sep] + d) == [y, m, d]
  {
    assert y + [sep] + m + [sep] + d == y + [sep] + (m + [sep] + d);
    RunsCons(y, sep, m + [sep] + d);
    RunsCons(m, sep, d);
    RunsSingle(d);
  }

  /** A two-digit year is taken to be in the 2000s; with two runs the year is the current one. */
  lemma ParseDateYears(y: nat, m: nat, d: nat, currentYear: nat)
    ensures y < 100 ==> ParseDate(Render(y, m, d), currentYear) == Some(Render(y + 2000, m, d))
    ensures ParseDate(Pad(m, 2) + "." + Pad(d, 2) + ".", currentYear) == Some(Render(currentYear, m, d))
  {
    ParseRender(y, m, d, currentYear);
    RunsOfMonthDay(Pad(m, 2), Pad(d, 2));
    PadRead(m, 2);
    PadRead(d, 2);
    assert Pad(m, 2) + "." + Pad(d, 2) + "." != "";
    ParseTwo(Pad(m, 2) + "." + Pad(d, 2) + ".", currentYear, Pad(m, 2), Pad(d, 2), m, d);
  }

  /** `MM.DD.` is read as two runs. */
  lemma RunsOfMonthDay(ms: string, ds: string)
    requires |ms| > 0 && AllDigits(ms) && |ds| > 0 && AllDigits(ds)
    ensures Runs(ms + "." + ds + ".") == [ms, ds]
  {
    assert ms + "." + ds + "." == ms + ['.'] + (ds + ".");
    RunsCons(ms, '.', ds + ".");
    assert ds + "." == ds + ['.'] + "";
    RunsCons(ds, '.', "");
  }

  /** The period check reads in-range exactly as the bounds say, for readable dates. */
  lemma InRangeSpec(date: string, start: string, end: string, r: Date)
    requires date != "" && Strptime(date, "-") == Some(r)
    requires start == "" || Strptime(start, "-").Some?
    requires end == "" || Strptime(end, "-").Some?
    ensures InRange(date, start, end) <==>
      (start == "" || DateLe(Strptime(start, "-").value, r)) && (end == "" || DateLe(r, Strptime(end, "-").value))
  {}

  /** Reviews without a readable date are never filtered out. */
  lemma InRangeLenient(date: string, start: string, end: string)
    requires date == "" || Strptime(date, "-").None?
    ensures InRange(date, start, end)
  {}

  /** For dates written YYYY-MM-DD, the period check is plain string comparison. */
  lemma InRangeDashed(r: Date, s: Date, e: Date)
    requires Valid(r) && Valid(s) && Valid(e)
    ensures InRange(Dashed(r), Dashed(s), Dashed(e)) <==> StrLe(Dashed(s), Dashed(r)) && StrLe(Dashed(r), Dashed(e))
  {
    StrptimeRoundTrip(r);
    StrptimeRoundTrip(s);
    StrptimeRoundTrip(e);
    RenderedParts(r);
    RenderedParts(s);
    RenderedParts(e);
    DashedOrder(s, r);
    DashedOrder(r, e);
    OrdinalOrder(s, r);
    OrdinalOrder(r, e);
  }

  // ---------------------------------------------------------------------
  // Properties: the classifier

  lemma {:induction false} AnyPhraseIff(text: string, phrases: seq<string>)
    ensures AnyPhrase(text, phrases) <==> exists i :: 0 <= i < |phrases| && Contains(text, phrases[i])
  {
    if |phrases| > 0 {
      AnyPhraseIff(text, phrases[1..]);
      assert forall i :: 1 <= i < |phrases| ==> phrases[i] == phrases[1..][i - 1];
      if exists i :: 0 <= i < |phrases| && Contains(text, phrases[i]) {
        var i :| 0 <= i < |phrases| && Contains(text, phrases[i]);
        if i > 0 {
          assert Contains(text, phrases[1..][i - 1]);
        }
      }
    }
  }

  /** Some phrase occurs in the lower-cased text. */
  predicate HasPhrase(text: string, phrases: seq<string>) {
    exists i :: 0 <= i < |phrases| && Contains(Lower(text), phrases[i])
  }

  lemma {:induction false} AnyTagIff(tags: seq<string>, phrases: seq<string>)
    ensures AnyTag(tags, phrases) <==> exists j :: 0 <= j < |tags| && HasPhrase(tags[j], phrases)
  {
    if |tags| > 0 {
      AnyTagIff(tags[1..], phrases);
      AnyPhraseIff(Lower(tags[0]), phrases);
      assert forall j :: 1 <= j < |tags| ==> tags[j] == tags[1..][j - 1];
      if exists j :: 0 <= j < |tags| && HasPhrase(tags[j], phrases) {
        var j :| 0 <= j < |tags| && HasPhrase(tags[j], phrases);
        if j > 0 {
          assert HasPhrase(tags[1..][j - 1], phrases);
        }
      }
    }
  }

  /** A review is negative exactly when a phrase occurs in its lower-cased content or in one of its lower-cased tags. */
  lemma IsNegativeIff(content: string, tags: seq<string>)
    ensures IsNegative(content, tags) <==>
      HasPhrase(content, NegativeKeywords) || exists j :: 0 <= j < |tags| && HasPhrase(tags[j], NegativeKeywords)
  {
    ScanIff(content, tags, NegativeKeywords);
  }

  lemma ScanIff(content: string, tags: seq<string>, phrases: seq<string>)
    ensures AnyPhrase(Lower(content), phrases) || AnyTag(tags, phrases) <==>
      HasPhrase(content, phrases) || exists j :: 0 <= j < |tags| && HasPhrase(tags[j], phrases)
  {
    AnyPhraseIff(Lower(content), phrases);
    AnyTagIff(tags, phrases);
  }

  /** The classifier ignores letter case. */
  lemma IsNegativeIgnoresCase(content: string, tags: seq<string>)
    ensures IsNegative(Upper(content), Map(tags, Upper)) == IsNegative(content, tags)
  {
    ScanIgnoresCase(content, tags, NegativeKeywords);
  }

  /** The scan over content and tags ignores letter case, whatever the phrases. */
  lemma ScanIgnoresCase(content: string, tags: seq<string>, phrases: seq<string>)
    ensures (AnyPhrase(Lower(Upper(content)), phrases) || AnyTag(Map(tags, Upper), phrases)) ==
      (AnyPhrase(Lower(content), phrases) || AnyTag(tags, phrases))
  {
    AnyPhraseIff(Lower(content), phrases);
    AnyPhraseIff(Lower(Upper(content)), phrases);
    AnyTagIff(tags, phrases);
    AnyTagIff(Map(tags, Upper), phrases);
    LowerUpper(content);
    forall j | 0 <= j < |tags| ensures HasPhrase(Map(tags, Upper)[j], phrases) == HasPhrase(tags[j], phrases) {
      LowerUpper(tags[j]);
    }
    if exists j :: 0 <= j < |tags| && HasPhrase(tags[j], phrases) {
      var j :| 0 <= j < |tags| && HasPhrase(tags[j], phrases);
      assert HasPhrase(Map(tags, Upper)[j], phrases);
    }
  }

  // ---------------------------------------------------------------------
  // Properties: merging

  /** Every appended review is a new review with a fresh non-empty id, and the appended ids are distinct. */
  lemma {:induction false} AppendedFresh(ids: set<string>, incoming: seq<Review>)
    ensures forall i :: 0 <= i < |Appended(ids, incoming)| ==>
      Appended(ids, incoming)[i] in incoming && Appended(ids, incoming)[i].id != "" && Appended(ids, incoming)[i].id !in ids
    ensures NoDup(Map(Appended(ids, incoming), Id))
  {
    if |incoming| > 0 {
      var init, x := incoming[..|incoming| - 1], incoming[|incoming| - 1];
      var prev := Appended(ids, init);
      AppendedFresh(ids, init);
      forall i | 0 <= i < |prev| ensures prev[i] in incoming {
        assert prev[i] in init;
      }
      if x.id != "" && x.id !in ids && x.id !in Map(prev, Id) {
        MapSnoc(prev, x, Id);
      }
    }
  }

  /** Every new review with a non-empty id ends up stored or appended under that id. */
  lemma {:induction false} AppendedCovers(ids: set<string>, incoming: seq<Review>)
    ensures forall j :: 0 <= j < |incoming| && incoming[j].id != "" ==>
      incoming[j].id in ids || incoming[j].id in Map(Appended(ids, incoming), Id)
  {
    if |incoming| > 0 {
      var init, x := incoming[..|incoming| - 1], incoming[|incoming| - 1];
      var prev, added := Appended(ids, init), Appended(ids, incoming);
      AppendedCovers(ids, init);
      assert prev <= added;
      forall j | 0 <= j < |incoming| && incoming[j].id != ""
        ensures incoming[j].id in ids || incoming[j].id in Map(added, Id)
      {
        if j < |init| {
          assert incoming[j] == init[j];
          if incoming[j].id in Map(prev, Id) {
            var k :| 0 <= k < |prev| && Map(prev, Id)[k] == incoming[j].id;
            assert Map(added, Id)[k] == incoming[j].id;
          }
        } else if x.id !in ids && x.id !in Map(prev, Id) {
          assert Map(added, Id)[|prev|] == x.id;
        }
      }
    }
  }

  /** The merge keeps every stored review, adds exactly the appended ones, and reports how many. */
  lemma MergeKeeps(stored: seq<Review>, incoming: seq<Review>)
    ensures var (merged, added) := MergeReviews(stored, incoming);
      && multiset(merged) == multiset(stored) + multiset(Appended(StoredIds(stored), incoming))
      && multiset(stored) <= multiset(merged)
      && added == |merged| - |stored|
  {
    var a := Appended(StoredIds(stored), incoming);
    assert multiset(stored + a) == multiset(stored) + multiset(a);
  }

  /** A new review is added only under an id that is non-empty and not stored. */
  lemma MergeAddsFresh(stored: seq<Review>, incoming: seq<Review>, x: Review)
    requires x in MergeReviews(stored, incoming).0 && x !in stored
    ensures x in incoming && x.id != "" && x.id !in StoredIds(stored)
  {
    var a := Appended(StoredIds(stored), incoming);
    MergeKeeps(stored, incoming);
    AppendedFresh(StoredIds(stored), incoming);
    assert x in multiset(stored + a);
    var i :| 0 <= i < |a| && a[i] == x;
  }

  /** The merged reviews are newest first. */
  lemma MergeNewestFirst(stored: seq<Review>, incoming: seq<Review>)
    ensures var merged := MergeReviews(stored, incoming).0;
      forall i, j :: 0 <= i < j < |merged| ==> StrLe(DateOf(merged[j]), DateOf(merged[i]))
  {
    var a := Appended(StoredIds(stored), incoming);
    ByStrPreorder(DateOf);
    SortBySorted(stored + a, ByStrDesc(DateOf));
  }

  // ---------------------------------------------------------------------
  // Properties: statistics

  predicate Dated(r: Review) { DayOf(r).Some? }

  predicate OnDay(t: int, r: Review) { DayOf(r).Some? && DayOf(r).value == t }

  /** Dated no earlier than `from` and before `until`. */
  predicate Within(from: int, until: int, r: Review) {
    DayOf(r).Some? && from <= DayOf(r).value < until
  }

  predicate Since(from: int, r: Review) {
    DayOf(r).Some? && from <= DayOf(r).value
  }

  predicate DatedNegative(r: Review) { DayOf(r).Some? && r.negative }

  /** Each counter of the statistics loop counts the reviews in its window. */
  lemma {:induction false} TallyCounts(rs: seq<Review>, t: int)
    ensures var s := TallyAll(rs, t);
      && s.today == Count(rs, r => OnDay(t, r))
      && s.yesterday == Count(rs, r => OnDay(t - 1, r))
      && s.thisWeek == Count(rs, r => Since(t - 7, r))
      && s.lastWeek == Count(rs, r => Within(t - 14, t - 7, r))
      && s.thisMonth == Count(rs, r => Since(t - 30, r))
      && s.lastMonth == Count(rs, r => Within(t - 60, t - 30, r))
      && s.negative == Count(rs, DatedNegative)
  {
    if |rs| > 0 {
      var init, x := rs[..|rs| - 1], rs[|rs| - 1];
      TallyCounts(init, t);
      assert rs == init + [x];
      FilterSnoc(init, x, r => OnDay(t, r));
      FilterSnoc(init, x, r => OnDay(t - 1, r));
      FilterSnoc(init, x, r => Since(t - 7, r));
      FilterSnoc(init, x, r => Within(t - 14, t - 7, r));
      FilterSnoc(init, x, r => Since(t - 30, r));
      FilterSnoc(init, x, r => Within(t - 60, t - 30, r));
      FilterSnoc(init, x, DatedNegative);
    }
  }

  /** Two windows that split a range count its reviews between them, each once. */
  lemma WindowSplit(rs: seq<Review>, from: int, mid: int)
    requires from <= mid
    ensures Count(rs, r => Within(from, mid, r)) + Count(rs, r => Since(mid, r)) == Count(rs, r => Since(from, r))
  {
    CountSplit(rs, r => Within(from, mid, r), r => Since(mid, r), r => Since(from, r));
  }

  /** Last week and this week together are the reviews of the last fourteen days; likewise for the months. */
  lemma StatsWindows(rs: seq<Review>, t: int)
    ensures var s := TallyAll(rs, t);
      && s.lastWeek + s.thisWeek == Count(rs, r => Since(t - 14, r))
      && s.lastMonth + s.thisMonth == Count(rs, r => Since(t - 60, r))
      && s.today <= s.thisWeek && s.yesterday <= s.thisWeek && s.thisWeek <= s.thisMonth
  {
    TallyCounts(rs, t);
    WindowSplit(rs, t - 14, t - 7);
    WindowSplit(rs, t - 60, t - 30);
    FilterImplies(rs, r => OnDay(t, r), r => Since(t - 7, r));
    FilterImplies(rs, r => OnDay(t - 1, r), r => Since(t - 7, r));
    FilterImplies(rs, r => Since(t - 7, r), r => Since(t - 30, r));
  }

  /** Undated reviews change no counter. */
  lemma UndatedSkipped(rs: seq<Review>, x: Review, t: int)
    requires DayOf(x).None?
    ensures TallyAll(rs + [x], t) == TallyAll(rs, t)
  {
    assert (rs + [x])[..|rs|] == rs;
  }

  /**
   * The change rate: from zero it is 100 when anything was counted, else 0;
   * otherwise its sign is that of the change, and scaled back by the
   * previous count it gives the change in percent.
   */
  lemma ChangeSpec(current: nat, previous: nat)
    ensures previous == 0 ==> Change(current, previous) == (if current > 0 then 100.0 else 0.0)
    ensures previous > 0 ==> Change(current, previous) * previous as real == (current - previous) as real * 100.0
    ensures previous > 0 ==> (Change(current, previous) > 0.0 <==> current > previous)
    ensures previous > 0 ==> (Change(current, previous) < 0.0 <==> current < previous)
  {
    if previous > 0 {
      PriceAnalysis.PctOf(current - previous, previous, Change(current, previous));
    }
  }

  /** A store's negative count counts its flagged reviews, visitor and blog alike. */
  lemma NegativeCountSpec(s: Store)
    ensures NegativeCount(s) == Count(s.visitor + s.blog, Flagged)
  {
    FilterConcat(s.visitor, s.blog, Flagged);
  }

  /** When each flag is the classifier's verdict, the negative count is the number of negative reviews. */
  lemma NegativeCountClassified(s: Store)
    requires forall r :: r in s.visitor + s.blog ==> r.negative == IsNegative(r.content, r.tags)
    ensures NegativeCount(s) == Count(s.visitor + s.blog, Classified)
  {
    NegativeCountSpec(s);
    FilterSame(s.visitor + s.blog, Flagged, Classified);
  }

  /** The statistics count only dated negatives, so never more than the stores' negative counts. */
  lemma StatsNegativeBound(stores: seq<Store>, today: Date)
    requires Valid(today)
    ensures ReviewStats(stores, today).negative <= Count(AllReviews(stores), Flagged)
  {
    TallyCounts(AllReviews(stores), Ordinal(today));
    FilterImplies(AllReviews(stores), DatedNegative, Flagged);
  }
}
