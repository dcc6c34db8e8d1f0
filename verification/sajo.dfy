/**
 * The order crawler's data shaping (sajo_crawler.py): which cells of the
 * order table make an order line, how a line's cells are cleaned into a
 * record, how the records are split into per-category, per-store and
 * per-product files with file-system-safe names, and the per-product
 * price-change export.
 */
module SajoOrders {
  import opened Wrappers
  import opened Seqs
  import opened Sorting
  import opened Text
  import opened PyNum
  import PriceAnalysis

  /** The columns of an order record, in the order of the CSV header. */
  datatype Column =
    | DateField | OrderCodeField | StoreField | CodeField | NameField | SpecField | QtyField
    | UnitField | PriceField | SupplyField | VatField | TotalField | CategoryField

  /** The header each column is written under. */
  function ColumnName(c: Column): string {
    match c
    case DateField => "조회일자"
    case OrderCodeField => "주문코드"
    case StoreField => "지점명"
    case CodeField => "상품코드"
    case NameField => "상품명"
    case SpecField => "규격"
    case QtyField => "수량"
    case UnitField => "단위"
    case PriceField => "단가"
    case SupplyField => "공급가"
    case VatField => "부가세"
    case TotalField => "합계"
    case CategoryField => "대분류"
  }

  /**
   * A record as the crawler keeps it: the text of each column, `None` where
   * the dictionary has no such key.
   */
  datatype Record = Record(
    date: Option<string>, orderCode: Option<string>, store: Option<string>, code: Option<string>,
    name: Option<string>, spec: Option<string>, qty: Option<string>, unit: Option<string>,
    price: Option<string>, supply: Option<string>, vat: Option<string>, total: Option<string>,
    category: Option<string>)

  /** `item[column]`, or `None` for the `KeyError`. */
  function Get(r: Record, c: Column): Option<string> {
    match c
    case DateField => r.date
    case OrderCodeField => r.orderCode
    case StoreField => r.store
    case CodeField => r.code
    case NameField => r.name
    case SpecField => r.spec
    case QtyField => r.qty
    case UnitField => r.unit
    case PriceField => r.price
    case SupplyField => r.supply
    case VatField => r.vat
    case TotalField => r.total
    case CategoryField => r.category
  }

  /** The fourth cell of a subtotal line. */
  const Subtotal := "소계"

  /** The group of records lacking the grouping column. */
  const Other := "기타"

  /** An order table row has this many cells. */
  const RowCells := 12

  // ---------------------------------------------------------------------
  // Rows and records

  /**
   * An order line has twelve cells; its first cell (the order code) is at
   * least five characters, digits after any leading '-'; its fourth cell is
   * not the subtotal marker.
   */
  predicate IsOrderRow(cells: seq<string>) {
    && |cells| == RowCells
    && cells[0] != ""
    && IsDigitText(LStripChar(cells[0], '-'))
    && |cells[0]| >= 5
    && cells[3] != Subtotal
  }

  /** A numeric cell: thousands separators removed, then surrounding whitespace. */
  function CleanNumber(s: string): (r: string)
    ensures ',' !in r
    ensures |r| == 0 || (!IsSpace(r[0]) && !IsSpace(r[|r| - 1]))
  {
    var t := Replace(s, ",", "");
    ReplaceCharRemovesIt(s, ',', "");
    StripFrom(t, ',');
    Strip(t)
  }

  /** The store cell loses its '■ ' and '■' markers. */
  function CleanStore(s: string): (r: string)
    ensures '■' !in r
  {
    ReplaceCharRemovesIt(Replace(s, "■ ", ""), '■', "");
    Replace(Replace(s, "■ ", ""), "■", "")
  }

  function Cell(cells: seq<string>, i: nat): string {
    if i < |cells| then cells[i] else ""
  }

  /** The record of an order line read on `date`. */
  function ToRecord(date: string, cells: seq<string>): Record {
    Record(
      date := Some(date),
      orderCode := Some(Cell(cells, 0)),
      store := Some(CleanStore(Cell(cells, 1))),
      code := Some(Cell(cells, 2)),
      name := Some(Cell(cells, 3)),
      spec := Some(Cell(cells, 4)),
      qty := Some(CleanNumber(Cell(cells, 5))),
      unit := Some(Cell(cells, 6)),
      price := Some(CleanNumber(Cell(cells, 7))),
      supply := Some(CleanNumber(Cell(cells, 8))),
      vat := Some(CleanNumber(Cell(cells, 9))),
      total := Some(CleanNumber(Cell(cells, 10))),
      category := Some(Cell(cells, 11)))
  }

  function RecordOn(date: string): seq<string> -> Record {
    cells => ToRecord(date, cells)
  }

  /** The records of a page's rows, in table order; other rows are ignored. */
  function ParseRows(date: string, rows: seq<seq<string>>): seq<Record> {
    Map(Filter(rows, IsOrderRow), RecordOn(date))
  }

  // ---------------------------------------------------------------------
  // Grouping into files

  /** `item.get(name, default)`. */
  function Field(r: Record, name: Column, default: string): string {
    Get(r, name).GetOr(default)
  }

  /** The file key of a grouping column: its text, or '기타' when the record lacks it. */
  function KeyOf(c: Column): Record -> string {
    r => Field(r, c, Other)
  }

  /** A product's file key: code and name joined by '_'. */
  function ProductKey(r: Record): string {
    Field(r, CodeField, "") + "_" + Field(r, NameField, "")
  }

  function RecordDate(r: Record): string { Field(r, DateField, "") }

  function GroupAt<T>(items: seq<T>, key: T -> string): string -> (string, seq<T>) {
    k => (k, Group(items, key, k))
  }

  /** A list-valued dictionary filled in order: each key with its items, keys in first-seen order. */
  function GroupBy<T>(items: seq<T>, key: T -> string): seq<(string, seq<T>)> {
    Map(Distinct(Map(items, key)), GroupAt(items, key))
  }

  function GroupSize<T>(g: (string, seq<T>)): int { |g.1| }

  /**
   * A product file lists its records by date; records of the same date keep
   * their order. A record without a date sorts as "" here, where the
   * crawler's `x['조회일자']` would raise `KeyError`; collected records
   * always carry one (`CollectedComplete`).
   */
  function ByRecordDate(items: seq<Record>): seq<Record> {
    SortBy(items, ByStr(RecordDate))
  }

  function DatedGroup(g: (string, seq<Record>)): (string, seq<Record>) {
    (g.0, ByRecordDate(g.1))
  }

  function ProductFiles(records: seq<Record>): seq<(string, seq<Record>)> {
    Map(GroupBy(records, ProductKey), DatedGroup)
  }

  /** The characters a file name may not hold. */
  const Unsafe: set<char> := {'\\', '/', '*', '?', ':', '"', '<', '>', '|'}

  /** Product file names also avoid parentheses. */
  const UnsafeInProduct: set<char> := Unsafe + {'(', ')'}

  /** Product file names are cut to this many characters. */
  const ProductNameLimit := 80

  function Scrub(bad: set<char>): char -> char {
    c => if c in bad then '_' else c
  }

  /** Every unsafe character replaced by '_'. */
  function Sanitize(s: string, bad: set<char>): string {
    Map(s, Scrub(bad))
  }

  function SafeName(s: string): string {
    Sanitize(s, Unsafe)
  }

  function SafeProductName(s: string): (r: string)
    ensures |r| <= ProductNameLimit
  {
    var t := Sanitize(s, UnsafeInProduct);
    if |t| <= ProductNameLimit then t else t[..ProductNameLimit]
  }

  /**
   * The files `save_csv` leaves in one directory for a list of groups: each
   * group is written under `name` of its key, in mode 'w', so a group whose
   * file name is already taken replaces the earlier file.
   */
  function WriteFiles<T>(groups: seq<(string, seq<T>)>, name: string -> string): (files: map<string, seq<T>>)
    ensures forall i :: 0 <= i < |groups| ==> name(groups[i].0) in files
    ensures forall f :: f in files ==> exists i :: 0 <= i < |groups| && name(groups[i].0) == f
  {
    if |groups| == 0 then map[]
    else
      var init := groups[..|groups| - 1];
      var last := groups[|groups| - 1];
      assert forall i :: 0 <= i < |init| ==> init[i] == groups[i];
      WriteFiles(init, name)[name(last.0) := last.1]
  }

  /** Text free of the characters `SafeName` replaces. */
  predicate SafeText(s: string) {
    forall i :: 0 <= i < |s| ==> s[i] !in Unsafe
  }

  /** Text `SafeProductName` leaves as it is: no unsafe character or parenthesis, and at most 80 characters. */
  predicate SafeProductText(s: string) {
    |s| <= ProductNameLimit && forall i :: 0 <= i < |s| ==> s[i] !in UnsafeInProduct
  }

  // ---------------------------------------------------------------------
  // Price-change export

  /** The product a record's price belongs to. */
  datatype ProductId = ProductId(code: string, name: string, category: string)

  /** The key of a record; `None` when a column is missing, which aborts the export. */
  function IdOf(r: Record): Option<ProductId> {
    if r.code.Some? && r.name.Some? && r.category.Some?
    then Some(ProductId(r.code.value, r.name.value, r.category.value))
    else None
  }

  function Id(r: Record): ProductId {
    ProductId(Field(r, CodeField, ""), Field(r, NameField, ""), Field(r, CategoryField, ""))
  }

  /**
   * A record's unit price: 0 when the text is empty; `None` when the column
   * is missing or `int()` rejects the text.
   */
  function PriceOf(r: Record): Option<int> {
    match r.price
    case None => None
    case Some(text) => if text == "" then Some(0) else PyIntOfStr(text)
  }

  /** The price reads; the product's key is then entered, even if the record goes on to fail. */
  predicate Priced(r: Record) {
    PriceOf(r).Some?
  }

  /** The record enters its product's history: its price reads and it has a date. */
  predicate Dated(r: Record) {
    Priced(r) && r.date.Some?
  }

  function PointOfRecord(r: Record): PriceAnalysis.PricePoint {
    PriceAnalysis.PricePoint(RecordDate(r), PriceOf(r).GetOr(0))
  }

  /** The records that enter a history. */
  function Kept(records: seq<Record>): seq<Record> {
    Filter(records, Dated)
  }

  /** The products in the order their keys were first entered. */
  function Listed(records: seq<Record>): seq<ProductId> {
    Distinct(Map(Filter(records, Priced), Id))
  }

  /** A product's price history: its kept records' dates and prices, in record order. */
  function ProductHistory(kept: seq<Record>, id: ProductId): seq<PriceAnalysis.PricePoint> {
    Map(Group(kept, Id, id), PointOfRecord)
  }

  datatype ProductChange = ProductChange(id: ProductId, analysis: PriceAnalysis.Analysis)

  function ProductChangeSize(c: ProductChange): real {
    PriceAnalysis.AbsPct(c.analysis)
  }

  function ProductChangeOf(kept: seq<Record>, id: ProductId): Option<ProductChange> {
    match PriceAnalysis.Analyze(ProductHistory(kept, id))
    case None => None
    case Some(a) => Some(ProductChange(id, a))
  }

  function ProductChangeAt(kept: seq<Record>): ProductId -> Option<ProductChange> {
    id => ProductChangeOf(kept, id)
  }

  /** The analysed products, in key order; a product without a positive price is dropped. */
  function Changes(records: seq<Record>): seq<ProductChange> {
    Choose(Listed(records), ProductChangeAt(Kept(records)))
  }

  /**
   * The export: every product with a positive price, the largest change
   * first; `None` when some record lacks the code, name or category column.
   */
  function PriceExport(records: seq<Record>): Option<seq<ProductChange>> {
    if exists i :: 0 <= i < |records| && IdOf(records[i]).None? then None
    else Some(SortBy(Changes(records), ByRealDesc(ProductChangeSize)))
  }

  /** The records of a run: the order lines of each loaded day's table, day after day. */
  function Collect(days: seq<(string, seq<seq<string>>)>): seq<Record> {
    if |days| == 0 then []
    else Collect(days[..|days| - 1]) + ParseRows(days[|days| - 1].0, days[|days| - 1].1)
  }

  // ---------------------------------------------------------------------
  // Properties: rows and records

  /**
   * `code` is `k` dashes followed by at least one character, all digits
   * in the sense of `str.isdigit()`.
   */
  predicate DashesThenDigits(code: string, k: int) {
    0 <= k < |code| && (forall i :: 0 <= i < k ==> code[i] == '-') && (forall i :: k <= i < |code| ==> IsPyDigit(code[i]))
  }

  /** The order-code test: one or more characters, some leading '-', then digits only. */
  lemma OrderCodeShape(code: string)
    ensures (code != "" && IsDigitText(LStripChar(code, '-'))) <==> exists k :: DashesThenDigits(code, k)
  {
    if code != "" && IsDigitText(LStripChar(code, '-')) {
      StrippedWitness(code);
    }
    if exists k :: DashesThenDigits(code, k) {
      var k :| DashesThenDigits(code, k);
      DigitsAfterDashes(code, k);
    }
  }

  lemma StrippedWitness(code: string)
    requires IsDigitText(LStripChar(code, '-'))
    ensures DashesThenDigits(code, |code| - |LStripChar(code, '-')|)
  {}

  lemma DigitsAfterDashes(code: string, k: int)
    requires DashesThenDigits(code, k)
    ensures code != "" && IsDigitText(LStripChar(code, '-'))
  {
    assert code[k..][0] == code[k];
    LStripDashes(code, k);
  }

  /** Stripping the leading '-' of dashes followed by a non-dash leaves the rest. */
  lemma LStripDashes(code: string, k: nat)
    requires k < |code| && code[k] != '-'
    requires forall i :: 0 <= i < k ==> code[i] == '-'
    ensures LStripChar(code, '-') == code[k..]
  {
    var r := LStripChar(code, '-');
    var m := |code| - |r|;
    assert code[m..] == r;
    assert |r| > 0 ==> r[0] == code[m];
    assert m == k;
  }

  /** Reading a table row by row: an order line adds its record, any other row nothing. */
  lemma ParseRowsSnoc(date: string, rows: seq<seq<string>>, row: seq<string>)
    ensures ParseRows(date, rows + [row]) ==
      ParseRows(date, rows) + (if IsOrderRow(row) then [ToRecord(date, row)] else [])
  {
    FilterConcat(rows, [row], IsOrderRow);
    var f := Filter(rows, IsOrderRow);
    if IsOrderRow(row) {
      assert Filter([row], IsOrderRow) == [row];
      MapSnoc(f, row, RecordOn(date));
    } else {
      assert Filter([row], IsOrderRow) == [];
      assert f + [] == f;
    }
  }

  /** Every parsed record is the record of an order line of the table. */
  lemma ParsedFromRows(date: string, rows: seq<seq<string>>, k: nat)
    requires k < |ParseRows(date, rows)|
    ensures exists j :: 0 <= j < |rows| && IsOrderRow(rows[j]) && ParseRows(date, rows)[k] == ToRecord(date, rows[j])
  {
    var f := Filter(rows, IsOrderRow);
    assert f[k] in rows;
    var j :| 0 <= j < |rows| && rows[j] == f[k];
  }

  /** A parsed record carries every column, so no lookup of it fails. */
  lemma RecordComplete(date: string, cells: seq<string>)
    ensures forall c :: Get(ToRecord(date, cells), c).Some?
  {
    var r := ToRecord(date, cells);
    forall c ensures Get(r, c).Some? {
      match c
      case DateField =>
      case OrderCodeField =>
      case StoreField =>
      case CodeField =>
      case NameField =>
      case SpecField =>
      case QtyField =>
      case UnitField =>
      case PriceField =>
      case SupplyField =>
      case VatField =>
      case TotalField =>
      case CategoryField =>
    }
  }

  /**
   * A parsed record's date is the day read, its numeric cells hold no
   * thousands separator and its store no '■' marker.
   */
  lemma RecordClean(date: string, cells: seq<string>)
    ensures var r := ToRecord(date, cells);
      && r.date == Some(date)
      && ',' !in r.qty.value && ',' !in r.price.value && ',' !in r.supply.value
      && ',' !in r.vat.value && ',' !in r.total.value
      && '■' !in r.store.value
  {}

  lemma RecordIdentified(date: string, cells: seq<string>)
    ensures IdOf(ToRecord(date, cells)).Some?
  {}

  /** A store name without markers is kept. */
  lemma CleanStoreKeeps(s: string)
    requires '■' !in s
    ensures CleanStore(s) == s
  {
    forall i | 0 <= i <= |s| - 2 ensures !OccursAt(s, "■ ", i) {
      assert s[i..i + 2][0] == s[i];
    }
    ContainsAt(s, "■ ");
    ReplaceAbsent(s, "■ ", "");
    ReplaceCharAbsent(s, '■', "");
  }

  /** A store name behind the '■ ' marker loses the marker. */
  lemma CleanStoreMarker(s: string)
    requires '■' !in s
    ensures CleanStore("■ " + s) == s
  {
    var t := "■ " + s;
    assert StartsWith(t, "■ ") && t[2..] == s;
    assert Replace(t, "■ ", "") == "" + Replace(s, "■ ", "") == Replace(s, "■ ", "");
    assert CleanStore(t) == CleanStore(s);
    CleanStoreKeeps(s);
  }

  /** A price printed with thousands separators is read back as its value. */
  lemma CleanNumberGrouped(n: nat)
    requires |NatToString(n)| <= MaxStrDigits
    ensures PyIntOfStr(CleanNumber(Grouped(n))) == Some(n)
  {
    GroupedDigits(n);
    var d := Replace(Grouped(n), ",", "");
    DigitNotSpace(d[0]);
    DigitNotSpace(d[|d| - 1]);
    StripNoSpace(d);
    DigitsRead(d);
  }

  /** A record's unit price: the value of a separated number, 0 for an empty cell. */
  lemma ParsedPrice(date: string, cells: seq<string>, n: nat)
    requires |NatToString(n)| <= MaxStrDigits
    ensures Cell(cells, 7) == Grouped(n) ==> PriceOf(ToRecord(date, cells)) == Some(n)
    ensures Cell(cells, 7) == "" ==> PriceOf(ToRecord(date, cells)) == Some(0)
  {
    var r := ToRecord(date, cells);
    assert r.price == Some(CleanNumber(Cell(cells, 7)));
    if Cell(cells, 7) == Grouped(n) {
      CleanNumberGrouped(n);
      GroupedText(n);
    }
  }

  lemma GroupedText(n: nat)
    ensures CleanNumber(Grouped(n)) != ""
  {
    GroupedDigits(n);
    var d := Replace(Grouped(n), ",", "");
    DigitNotSpace(d[0]);
    DigitNotSpace(d[|d| - 1]);
    StripNoSpace(d);
  }

  // ---------------------------------------------------------------------
  // Properties: grouping

  /** Each group has a distinct key and holds only items of that key, at least one. */
  lemma GroupByKeys<T>(items: seq<T>, key: T -> string)
    ensures var g := GroupBy(items, key);
      && (forall i, j :: 0 <= i < j < |g| ==> g[i].0 != g[j].0)
      && (forall i :: 0 <= i < |g| ==> |g[i].1| > 0)
      && (forall i, x :: 0 <= i < |g| && x in g[i].1 ==> x in items && key(x) == g[i].0)
  {
    var keys := Distinct(Map(items, key));
    var g := GroupBy(items, key);
    forall i | 0 <= i < |g| ensures |g[i].1| > 0 {
      assert keys[i] in Map(items, key);
      var m :| 0 <= m < |items| && Map(items, key)[m] == keys[i];
      GroupKeeps(items, key, keys[i], items[m]);
    }
  }

  /** Every item is in the group of its key. */
  lemma GroupByCovers<T>(items: seq<T>, key: T -> string, k: nat)
    requires k < |items|
    ensures exists i :: (0 <= i < |GroupBy(items, key)| &&
      GroupBy(items, key)[i].0 == key(items[k]) && items[k] in GroupBy(items, key)[i].1)
  {
    var keys := Distinct(Map(items, key));
    DistinctMapCovers(items, key);
    var i :| 0 <= i < |keys| && keys[i] == key(items[k]);
    GroupKeeps(items, key, keys[i], items[k]);
    assert GroupBy(items, key)[i] == (keys[i], Group(items, key, keys[i]));
  }

  /** The groups' sizes add up to the number of items: no item is lost or counted twice. */
  lemma GroupBySizes<T>(items: seq<T>, key: T -> string)
    ensures Sum(GroupBy(items, key), GroupSize) == |items|
  {
    var keys := Distinct(Map(items, key));
    var one := (x: T) => 1;
    var size := (k: string) => |Group(items, key, k)|;
    forall i | 0 <= i < |keys| ensures size(keys[i]) == Sum(Group(items, key, keys[i]), one) {
      SumOnes(Group(items, key, keys[i]));
    }
    DistinctMapCovers(items, key);
    SumByKey(items, one, key, keys, size);
    SumOnes(items);
    SumPointwise(GroupBy(items, key), keys, GroupSize, size);
  }

  /** A record lacking the grouping column (category or store) is filed under '기타'. */
  lemma MissingKeyIsOther(records: seq<Record>, k: nat, c: Column)
    requires k < |records| && Get(records[k], c).None?
    ensures exists i :: (0 <= i < |GroupBy(records, KeyOf(c))| &&
      GroupBy(records, KeyOf(c))[i].0 == Other && records[k] in GroupBy(records, KeyOf(c))[i].1)
  {
    GroupByCovers(records, KeyOf(c), k);
  }

  /** Product codes free of '_' make the file key determine the code and the name. */
  lemma ProductKeySplit(a: Record, b: Record)
    requires '_' !in Field(a, CodeField, "") && '_' !in Field(b, CodeField, "")
    requires ProductKey(a) == ProductKey(b)
    ensures Field(a, CodeField, "") == Field(b, CodeField, "")
    ensures Field(a, NameField, "") == Field(b, NameField, "")
  {
    var ca, cb := Field(a, CodeField, ""), Field(b, CodeField, "");
    var na, nb := Field(a, NameField, ""), Field(b, NameField, "");
    var k := ProductKey(a);
    FirstUnderscore(ca, na);
    FirstUnderscore(cb, nb);
    assert |ca| == |cb|;
    assert ca == k[..|ca|] && cb == k[..|cb|];
    assert na == k[|ca| + 1..];
    assert nb == k[|cb| + 1..];
  }

  /** In `code + "_" + name` with `code` free of '_', the first '_' follows the code. */
  lemma FirstUnderscore(code: string, name: string)
    requires '_' !in code
    ensures (code + "_" + name)[|code|] == '_'
    ensures forall i :: 0 <= i < |code| ==> (code + "_" + name)[i] != '_'
  {
    assert forall i :: 0 <= i < |code| ==> (code + "_" + name)[i] == code[i];
  }

  /** A product file holds exactly its product's records, in date order. */
  lemma ProductFileSorted(records: seq<Record>, k: nat)
    requires k < |ProductFiles(records)|
    ensures var f := ProductFiles(records)[k];
      && f.0 == GroupBy(records, ProductKey)[k].0
      && multiset(f.1) == multiset(Group(records, ProductKey, f.0))
      && Sorted(f.1, ByStr(RecordDate))
  {
    var g := GroupBy(records, ProductKey)[k];
    ByStrPreorder(RecordDate);
    SortBySorted(g.1, ByStr(RecordDate));
  }

  // ---------------------------------------------------------------------
  // Properties: safe file names

  /**
   * Sanitizing keeps the length, replaces exactly the unsafe characters by
   * '_', leaves no unsafe character, changes a safe name not at all and is
   * idempotent.
   */
  lemma SanitizeSafe(s: string, bad: set<char>)
    requires '_' !in bad
    ensures var r := Sanitize(s, bad);
      && |r| == |s|
      && (forall i :: 0 <= i < |s| ==> (s[i] in bad ==> r[i] == '_') && (s[i] !in bad ==> r[i] == s[i]))
      && (forall c :: c in bad ==> c !in r)
      && Sanitize(r, bad) == r
      && ((forall i :: 0 <= i < |s| ==> s[i] !in bad) ==> r == s)
  {
    var r := Sanitize(s, bad);
    assert forall i :: 0 <= i < |r| ==> r[i] !in bad;
  }

  /** Category and store file names hold none of \ / * ? : " < > |. */
  lemma SafeNameSpec(s: string)
    ensures |SafeName(s)| == |s|
    ensures forall c :: c in Unsafe ==> c !in SafeName(s)
    ensures (forall i :: 0 <= i < |s| ==> s[i] !in Unsafe) ==> SafeName(s) == s
  {
    SanitizeSafe(s, Unsafe);
  }

  /**
   * Product file names also hold no parentheses, and are the sanitized key
   * cut to its first 80 characters.
   */
  lemma SafeProductNameSpec(s: string)
    ensures var r := SafeProductName(s);
      && |r| == (if |s| < ProductNameLimit then |s| else ProductNameLimit)
      && r <= Sanitize(s, UnsafeInProduct)
      && (forall c :: c in UnsafeInProduct ==> c !in r)
      && (forall i :: 0 <= i < |r| ==> (s[i] in UnsafeInProduct ==> r[i] == '_') && (s[i] !in UnsafeInProduct ==> r[i] == s[i]))
  {
    var t := Sanitize(s, UnsafeInProduct);
    var r := SafeProductName(s);
    SanitizeSafe(s, UnsafeInProduct);
    assert forall i :: 0 <= i < |r| ==> r[i] == t[i];
  }

  // ---------------------------------------------------------------------
  // Properties: written files

  /** A group whose file name no later group takes is what its file holds. */
  lemma {:induction false} LastWriteWins<T>(groups: seq<(string, seq<T>)>, name: string -> string, i: nat)
    requires i < |groups|
    requires forall j :: i < j < |groups| ==> name(groups[j].0) != name(groups[i].0)
    ensures WriteFiles(groups, name)[name(groups[i].0)] == groups[i].1
  {
    if i < |groups| - 1 {
      var init := groups[..|groups| - 1];
      assert init[i] == groups[i];
      forall j | i < j < |init| ensures name(init[j].0) != name(init[i].0) {
        assert init[j] == groups[j];
      }
      LastWriteWins(init, name, i);
    }
  }

  /** When no two groups share a file name, every group's file holds that group. */
  lemma DistinctNamesKeepGroups<T>(groups: seq<(string, seq<T>)>, name: string -> string)
    requires forall i, j :: 0 <= i < j < |groups| ==> name(groups[i].0) != name(groups[j].0)
    ensures forall i :: 0 <= i < |groups| ==> WriteFiles(groups, name)[name(groups[i].0)] == groups[i].1
  {
    forall i | 0 <= i < |groups| ensures WriteFiles(groups, name)[name(groups[i].0)] == groups[i].1 {
      LastWriteWins(groups, name, i);
    }
  }

  /**
   * Category and store files: when no key holds a character `SafeName`
   * replaces, there is one file per key, named by the key, holding exactly
   * the key's group.
   */
  lemma SafeKeyFiles<T>(items: seq<T>, key: T -> string)
    requires forall x :: x in items ==> SafeText(key(x))
    ensures var g := GroupBy(items, key);
      && (forall i :: 0 <= i < |g| ==> SafeName(g[i].0) == g[i].0)
      && WriteFiles(g, SafeName).Keys == (set i | 0 <= i < |g| :: g[i].0)
      && (forall i :: 0 <= i < |g| ==> WriteFiles(g, SafeName)[SafeName(g[i].0)] == Group(items, key, g[i].0))
  {
    var g := GroupBy(items, key);
    GroupByKeys(items, key);
    forall i | 0 <= i < |g| ensures SafeName(g[i].0) == g[i].0 {
      var x := g[i].1[0];
      assert x in g[i].1;
      SafeNameSpec(g[i].0);
    }
    DistinctNamesKeepGroups(g, SafeName);
  }

  /**
   * Product files: when every product key is short and free of the
   * characters `SafeProductName` replaces, each product's file holds exactly
   * its records, in date order.
   */
  lemma SafeProductFiles(records: seq<Record>)
    requires forall r :: r in records ==> SafeProductText(ProductKey(r))
    ensures var p := ProductFiles(records);
      forall i :: 0 <= i < |p| ==>
        && SafeProductName(p[i].0) == p[i].0
        && multiset(WriteFiles(p, SafeProductName)[SafeProductName(p[i].0)]) == multiset(Group(records, ProductKey, p[i].0))
        && Sorted(WriteFiles(p, SafeProductName)[SafeProductName(p[i].0)], ByStr(RecordDate))
  {
    var p := ProductFiles(records);
    SafeProductNames(records);
    DistinctNamesKeepGroups(p, SafeProductName);
    forall i | 0 <= i < |p|
      ensures multiset(p[i].1) == multiset(Group(records, ProductKey, p[i].0))
      ensures Sorted(p[i].1, ByStr(RecordDate))
    {
      ProductFileSorted(records, i);
    }
  }

  /** Short, safe product keys are their own file names, one per product. */
  lemma SafeProductNames(records: seq<Record>)
    requires forall r :: r in records ==> SafeProductText(ProductKey(r))
    ensures var p := ProductFiles(records);
      && (forall i :: 0 <= i < |p| ==> SafeProductName(p[i].0) == p[i].0)
      && (forall i, j :: 0 <= i < j < |p| ==> SafeProductName(p[i].0) != SafeProductName(p[j].0))
  {
    var g := GroupBy(records, ProductKey);
    var p := ProductFiles(records);
    GroupByKeys(records, ProductKey);
    assert forall i :: 0 <= i < |p| ==> p[i].0 == g[i].0;
    forall i | 0 <= i < |p| ensures SafeProductName(p[i].0) == p[i].0 {
      var x := g[i].1[0];
      assert x in g[i].1;
      SafeProductNameSpec(p[i].0);
    }
  }

  /** Two keys that differ only in an unsafe character share a file: the second group overwrites the first. */
  lemma CollidingKeysOverwrite<T>(x: T, y: T)
    ensures SafeName("a/b") == SafeName("a_b") == "a_b"
    ensures WriteFiles([("a/b", [x]), ("a_b", [y])], SafeName) == map["a_b" := [y]]
  {
    assert SafeName("a/b") == "a_b";
    assert SafeName("a_b") == "a_b";
    var g := [("a/b", [x]), ("a_b", [y])];
    assert g[..1] == [("a/b", [x])];
    assert g[..1][..0] == [];
  }

  /** Product keys that agree on their first 80 characters share a file as well. */
  lemma LongProductKeysCollide(head: string, a: string, b: string)
    requires |head| == ProductNameLimit
    ensures SafeProductName(head + a) == SafeProductName(head + b)
  {
    var t, u := Sanitize(head + a, UnsafeInProduct), Sanitize(head + b, UnsafeInProduct);
    assert forall i :: 0 <= i < ProductNameLimit ==> t[i] == Scrub(UnsafeInProduct)(head[i]) == u[i];
  }

  // ---------------------------------------------------------------------
  // Properties: price export

  lemma ProductChangeOfSpec(kept: seq<Record>, id: ProductId)
    requires ProductChangeOf(kept, id).Some?
    ensures ProductChangeOf(kept, id).value.id == id
    ensures PriceAnalysis.Analyze(ProductHistory(kept, id)) == Some(ProductChangeOf(kept, id).value.analysis)
  {}

  /** A product analysed from the kept records has a kept record with a positive price. */
  lemma PositiveRecord(records: seq<Record>, id: ProductId)
    requires PriceAnalysis.Analyze(ProductHistory(Kept(records), id)).Some?
    ensures exists i :: 0 <= i < |records| && Dated(records[i]) && Id(records[i]) == id && PriceOf(records[i]).value > 0
  {
    var kept := Kept(records);
    var g := Group(kept, Id, id);
    var h := ProductHistory(kept, id);
    PriceAnalysis.AnalyzedIff(h);
    var m :| 0 <= m < |h| && h[m].price > 0;
    assert g[m] in kept;
    assert g[m] in records;
    var i :| 0 <= i < |records| && records[i] == g[m];
  }

  /** A kept record with a positive price gets its product analysed. */
  lemma AnalyzedProduct(records: seq<Record>, i: nat)
    requires i < |records| && Dated(records[i]) && PriceOf(records[i]).value > 0
    ensures PriceAnalysis.Analyze(ProductHistory(Kept(records), Id(records[i]))).Some?
  {
    var kept := Kept(records);
    var id := Id(records[i]);
    var g := Group(kept, Id, id);
    FilterKeeps(records, Dated, records[i]);
    GroupKeeps(kept, Id, id, records[i]);
    var m :| 0 <= m < |g| && g[m] == records[i];
    assert ProductHistory(kept, id)[m].price > 0;
    PriceAnalysis.AnalyzedIff(ProductHistory(kept, id));
  }

  /**
   * Every exported entry is the analysis of its product's kept records; the
   * product has a positive price, and its count includes the records priced 0.
   */
  lemma ExportEntry(records: seq<Record>, x: ProductChange)
    requires PriceExport(records).Some? && x in PriceExport(records).value
    ensures PriceAnalysis.Analyze(ProductHistory(Kept(records), x.id)) == Some(x.analysis)
    ensures x.analysis.count == |Group(Kept(records), Id, x.id)|
    ensures exists i :: 0 <= i < |records| && Dated(records[i]) && Id(records[i]) == x.id && PriceOf(records[i]).value > 0
  {
    var f := ProductChangeAt(Kept(records));
    SortByFrom(Changes(records), ByRealDesc(ProductChangeSize), x);
    ChooseIff(Listed(records), f, x);
    var j :| 0 <= j < |Listed(records)| && f(Listed(records)[j]) == Some(x);
    ProductChangeOfSpec(Kept(records), Listed(records)[j]);
    PositiveRecord(records, x.id);
    PriceAnalysis.AnalysisBounds(ProductHistory(Kept(records), x.id));
  }

  /** Every product with a kept, positively priced record is exported. */
  lemma ExportComplete(records: seq<Record>, i: nat)
    requires PriceExport(records).Some?
    requires i < |records| && Dated(records[i]) && PriceOf(records[i]).value > 0
    ensures exists x :: x in PriceExport(records).value && x.id == Id(records[i])
  {
    var id := Id(records[i]);
    var f := ProductChangeAt(Kept(records));
    var j := ListedAt(records, i);
    assert f(id).Some? by {
      AnalyzedProduct(records, i);
    }
    var x := f(id).value;
    assert x in Changes(records) by {
      ChooseIff(Listed(records), f, x);
    }
    assert x in multiset(PriceExport(records).value);
  }

  /** A product with a priced record is listed. */
  lemma ListedAt(records: seq<Record>, i: nat) returns (j: nat)
    requires i < |records| && Priced(records[i])
    ensures j < |Listed(records)| && Listed(records)[j] == Id(records[i])
  {
    var priced := Filter(records, Priced);
    FilterKeeps(records, Priced, records[i]);
    var m :| 0 <= m < |priced| && priced[m] == records[i];
    assert Map(priced, Id)[m] == Id(records[i]);
    assert Id(records[i]) in Listed(records);
    j :| 0 <= j < |Listed(records)| && Listed(records)[j] == Id(records[i]);
  }

  /** The export lists each product once, the largest change first. */
  lemma ExportOrdered(records: seq<Record>)
    requires PriceExport(records).Some?
    ensures var r := PriceExport(records).value;
      && (forall i, j :: 0 <= i < j < |r| ==> ProductChangeSize(r[i]) >= ProductChangeSize(r[j]))
      && (forall i, j :: 0 <= i < j < |r| ==> r[i].id != r[j].id)
  {
    var f := ProductChangeAt(Kept(records));
    var r := PriceExport(records).value;
    SortByRealDescOrdered(Changes(records), ProductChangeSize);
    forall a, b | f(a).Some? && f(a) == f(b) ensures a == b {
      ProductChangeOfSpec(Kept(records), a);
      ProductChangeOfSpec(Kept(records), b);
    }
    ChooseNoDup(Listed(records), f);
    SortByNoDup(Changes(records), ByRealDesc(ProductChangeSize));
    forall i, j | 0 <= i < j < |r| ensures r[i].id != r[j].id {
      ExportEntry(records, r[i]);
      ExportEntry(records, r[j]);
    }
  }

  /** Every record carries the code, name and category columns. */
  predicate AllIdentified(rs: seq<Record>) {
    forall i :: 0 <= i < |rs| ==> IdOf(rs[i]).Some?
  }

  /** The records read from one table carry every column. */
  lemma ParsedIdentified(date: string, rows: seq<seq<string>>)
    ensures AllIdentified(ParseRows(date, rows))
  {
    var parsed := ParseRows(date, rows);
    forall k | 0 <= k < |parsed| ensures IdOf(parsed[k]).Some? {
      ParsedFromRows(date, rows, k);
      var j :| 0 <= j < |rows| && IsOrderRow(rows[j]) && parsed[k] == ToRecord(date, rows[j]);
      RecordIdentified(date, rows[j]);
    }
  }

  lemma IdentifiedConcat(a: seq<Record>, b: seq<Record>)
    requires AllIdentified(a) && AllIdentified(b)
    ensures AllIdentified(a + b)
  {
    forall i | 0 <= i < |a + b| ensures IdOf((a + b)[i]).Some? {
      if i < |a| {
        assert (a + b)[i] == a[i];
      } else {
        assert (a + b)[i] == b[i - |a|];
      }
    }
  }

  lemma {:induction false} CollectedIdentified(days: seq<(string, seq<seq<string>>)>)
    ensures AllIdentified(Collect(days))
  {
    if |days| > 0 {
      var init := days[..|days| - 1];
      var date, rows := days[|days| - 1].0, days[|days| - 1].1;
      CollectedIdentified(init);
      ParsedIdentified(date, rows);
      IdentifiedConcat(Collect(init), ParseRows(date, rows));
    }
  }

  /** The export runs exactly when every record carries every column. */
  lemma ExportDefined(records: seq<Record>)
    ensures PriceExport(records).Some? <==> AllIdentified(records)
  {}

  /** The records of a run carry every column, so the export always runs on them. */
  lemma CollectedComplete(days: seq<(string, seq<seq<string>>)>)
    ensures forall i :: 0 <= i < |Collect(days)| ==> IdOf(Collect(days)[i]).Some?
    ensures PriceExport(Collect(days)).Some?
  {
    CollectedIdentified(days);
    ExportDefined(Collect(days));
  }
}
