/** `syncWithGoogleSheets` (app.tsx): the sheet setting becomes a CSV address,
    the fetched text is parsed, every row is coerced into a product and the
    new list replaces the old one through `saveData`. The network, the
    clock and the id generator are parameters: `fetch` gives the body of an
    ok response or `None`, `ids(k)` is the id drawn for row `k` and
    `clock(k)` is what `Date.now()` reads while row `k` is built. */
module Sync {
  import opened Wrappers
  import opened Text
  import opened Numbers
  import opened Urls
  import opened Csv
  import opened Types
  import opened Store

  const NoValue: string := "N/A"
  const DefaultName: string := "PRODUCTO"
  const DefaultCategory: string := "GENERAL"

  /** `cols[k]`, a missing cell read as empty: every use below treats
      `undefined` and `''` alike. */
  function Cell(cols: seq<string>, k: nat): string {
    if k < |cols| then cols[k] else []
  }

  /** `(cols[k] || fallback).toUpperCase()`: an empty or missing cell gives
      the fallback, any other cell its own text, upper-cased either way. */
  function TextField(cols: seq<string>, k: nat, fallback: string): (r: string)
    requires fallback != []
    ensures r != [] && IsUpper(r)
    ensures Cell(cols, k) == [] ==> r == Upper(fallback)
    ensures Cell(cols, k) != [] ==> r == Upper(Cell(cols, k)) && |r| == |Cell(cols, k)|
    ensures Cell(cols, k) == [] && IsUpper(fallback) ==> r == fallback
  {
    var v := if Cell(cols, k) == [] then fallback else Cell(cols, k);
    UpperIsUpper(v);
    if IsUpper(fallback) then UpperFixed(fallback); Upper(v) else Upper(v)
  }

  /** One row of the sheet as a product (the object built in the `rows.map`
      callback). Coercion never fails: an empty or missing text cell gives
      `N/A`, `PRODUCTO` or `GENERAL`, text is upper-cased, and an empty
      number cell gives 0. */
  function CoerceRow(cols: seq<string>, id: string, addedAt: int): (p: Product)
    ensures p.id == id && p.addedAt == addedAt
    ensures p.brand != [] && p.name != [] && p.size != [] && p.color != [] && p.category != []
    ensures IsUpper(p.brand) && IsUpper(p.name) && IsUpper(p.size) && IsUpper(p.color) && IsUpper(p.category)
    ensures Cell(cols, 0) != [] ==> p.brand == Upper(Cell(cols, 0))
    ensures Cell(cols, 1) != [] ==> p.name == Upper(Cell(cols, 1))
    ensures Cell(cols, 2) != [] ==> p.size == Upper(Cell(cols, 2))
    ensures Cell(cols, 3) != [] ==> p.color == Upper(Cell(cols, 3))
    ensures Cell(cols, 8) != [] ==> p.category == Upper(Cell(cols, 8))
    ensures Cell(cols, 0) == [] ==> p.brand == NoValue
    ensures Cell(cols, 1) == [] ==> p.name == DefaultName
    ensures Cell(cols, 2) == [] ==> p.size == NoValue
    ensures Cell(cols, 3) == [] ==> p.color == NoValue
    ensures Cell(cols, 8) == [] ==> p.category == DefaultCategory
    ensures p.quantity == IntOrZero(Cell(cols, 4)) && (Cell(cols, 4) == [] ==> p.quantity == 0)
    ensures p.price == RealOrZero(Cell(cols, 5)) && (Cell(cols, 5) == [] ==> p.price == 0.0)
    ensures p.cost == RealOrZero(Cell(cols, 6)) && (Cell(cols, 6) == [] ==> p.cost == 0.0)
    ensures p.image == FixImageUrl(Cell(cols, 7))
  {
    assert IsUpper(NoValue) && IsUpper(DefaultName) && IsUpper(DefaultCategory);
    NoNumeralIsZero([]);
    Product(
      id := id,
      brand := TextField(cols, 0, NoValue),
      name := TextField(cols, 1, DefaultName),
      size := TextField(cols, 2, NoValue),
      color := TextField(cols, 3, NoValue),
      price := RealOrZero(Cell(cols, 5)),
      cost := RealOrZero(Cell(cols, 6)),
      category := TextField(cols, 8, DefaultCategory),
      image := FixImageUrl(Cell(cols, 7)),
      addedAt := addedAt,
      quantity := IntOrZero(Cell(cols, 4)))
  }

  /** `rows.map((cols, idx) => ...)`: row `k` gets id `ids(k)` and timestamp
      `clock(k) + k`. */
  function CoerceRows(rows: seq<seq<string>>, ids: nat -> string, clock: nat -> int): (ps: seq<Product>)
    ensures |ps| == |rows|
    ensures forall k :: 0 <= k < |rows| ==> ps[k] == CoerceRow(rows[k], ids(k), clock(k) + k)
  {
    seq(|rows|, k requires 0 <= k < |rows| => CoerceRow(rows[k], ids(k), clock(k) + k))
  }

  // ---------------------------------------------------------------------------
  // What coercion promises

  lemma UpperFixed(s: string)
    requires IsUpper(s)
    ensures Upper(s) == s
  {
  }

  /** A row with nothing in it gives the default product. */
  lemma EmptyRowDefaults(id: string, addedAt: int)
    ensures var p := CoerceRow([], id, addedAt);
            && p.brand == NoValue && p.name == DefaultName && p.size == NoValue
            && p.color == NoValue && p.category == DefaultCategory
            && p.quantity == 0 && p.price == 0.0 && p.cost == 0.0 && p.image == []
  {
    assert IsUpper(NoValue) && IsUpper(DefaultName) && IsUpper(DefaultCategory);
    UpperFixed(NoValue);
    UpperFixed(DefaultName);
    UpperFixed(DefaultCategory);
    NoNumeralIsZero([]);
  }

  /** A text cell already in upper case is kept exactly as written. */
  lemma UpperCellKept(cols: seq<string>, k: nat, fallback: string)
    requires fallback != [] && k < |cols| && cols[k] != [] && IsUpper(cols[k])
    ensures TextField(cols, k, fallback) == cols[k]
  {
    UpperFixed(cols[k]);
  }

  /** The number columns read back an integer written in decimal: the
      quantity exactly, price and cost as the same value. */
  lemma DecimalCells(cols: seq<string>, k: nat, n: int)
    requires Cell(cols, k) == DecimalString(n)
    ensures IntOrZero(Cell(cols, k)) == n
    ensures RealOrZero(Cell(cols, k)) == n as real
  {
    ParseIntDecimal(n, []);
    assert DecimalString(n) + [] == DecimalString(n);
    ParseFloatDecimal(n);
  }

  /** A sheet may hold a negative count, and it is imported as such: only
      `NaN` and 0 fall back to 0. */
  lemma NegativeQuantityImported(id: string, addedAt: int)
    ensures CoerceRow(["A", "B", "C", "D", "-3"], id, addedAt).quantity == -3
  {
    var cols := ["A", "B", "C", "D", "-3"];
    assert DecimalString(-3) == "-3" by {
      assert NatDigits(3) == "3";
    }
    DecimalCells(cols, 4, -3);
  }

  /** Timestamps strictly increase down the sheet when the clock never runs
      backwards. */
  lemma AddedAtIncreasing(rows: seq<seq<string>>, ids: nat -> string, clock: nat -> int)
    requires forall i: nat, j: nat :: i <= j ==> clock(i) <= clock(j)
    ensures var ps := CoerceRows(rows, ids, clock);
            forall i, j :: 0 <= i < j < |ps| ==> ps[i].addedAt < ps[j].addedAt
  {
  }

  /** Fresh ids give distinct products. */
  lemma IdsDistinct(rows: seq<seq<string>>, ids: nat -> string, clock: nat -> int)
    requires forall i: nat, j: nat :: i != j ==> ids(i) != ids(j)
    ensures var ps := CoerceRows(rows, ids, clock);
            forall i, j :: 0 <= i < j < |ps| ==> ps[i].id != ps[j].id
  {
  }

  // ---------------------------------------------------------------------------
  // The sync command

  datatype Outcome = Synced | MissingSheetId | SourceUnavailable

  datatype SyncResult = SyncResult(session: Session, outcome: Outcome)

  /** The sheet setting, `''` when it is absent. */
  function SheetSetting(data: StoreData): string {
    data.sheetId.GetOr([])
  }

  /** `syncWithGoogleSheets`: without a sheet setting nothing happens; a
      failed or non-ok fetch changes nothing; otherwise the parsed rows,
      coerced, replace the product list (and only it) through `saveData`. */
  function SyncWithSheets(s: Session, fetch: string -> Option<string>, ids: nat -> string, clock: nat -> int): (r: SyncResult)
    ensures r.outcome == MissingSheetId <==> SheetSetting(s.data) == []
    ensures r.outcome == SourceUnavailable <==>
              SheetSetting(s.data) != [] && fetch(SheetCsvUrl(SheetSetting(s.data))).None?
    ensures r.session == s.(data := s.data.(products := r.session.data.products))
    ensures r.outcome != Synced || s.role == Viewer ==> r.session == s
    ensures r.outcome == Synced && s.role == Admin ==>
              r.session.data.products ==
                CoerceRows(ParseCsv(fetch(SheetCsvUrl(SheetSetting(s.data))).value), ids, clock)
  {
    var sheet := SheetSetting(s.data);
    if sheet == [] then SyncResult(s, MissingSheetId)
    else
      match fetch(SheetCsvUrl(sheet))
      case None => SyncResult(s, SourceUnavailable)
      case Some(text) =>
        var products := CoerceRows(ParseCsv(text), ids, clock);
        SyncResult(SaveData(s, s.data.(products := products)), Synced)
  }

  /** After a sync that went through, the list holds exactly one product per
      non-blank line after the header, in the order of the lines. */
  lemma SyncedRows(s: Session, fetch: string -> Option<string>, ids: nat -> string, clock: nat -> int)
    requires s.role == Admin
    requires SyncWithSheets(s, fetch, ids, clock).outcome == Synced
    ensures var text := fetch(SheetCsvUrl(SheetSetting(s.data))).value;
            var lines := NonBlank(SplitLines(text)[1..]);
            var ps := SyncWithSheets(s, fetch, ids, clock).session.data.products;
            && |ps| == |lines|
            && forall k :: 0 <= k < |ps| ==> ps[k] == CoerceRow(ParseLine(lines[k]), ids(k), clock(k) + k)
  {
  }

  const SampleRow: seq<string> := ["NIKE", "AirMax", "42", "BLACK", "5", "100", "60", "", "CALZADO"]

  /** A typical sheet row: brand, name, size, colour, stock, price, cost, no
      image, category. */
  lemma SheetRowExample(id: string, addedAt: int)
    ensures var p := CoerceRow(SampleRow, id, addedAt);
            && p.brand == "NIKE" && p.name == "AIRMAX" && p.category == "CALZADO"
            && p.quantity == 5 && p.price == 100.0 && p.cost == 60.0 && p.image == []
  {
    SampleRowText();
    SampleRowNumbers();
  }

  lemma SampleRowText()
    ensures TextField(SampleRow, 0, NoValue) == "NIKE"
    ensures TextField(SampleRow, 1, DefaultName) == "AIRMAX"
    ensures TextField(SampleRow, 8, DefaultCategory) == "CALZADO"
    ensures FixImageUrl(Cell(SampleRow, 7)) == []
  {
    assert IsUpper("NIKE") && IsUpper("CALZADO");
    UpperCellKept(SampleRow, 0, NoValue);
    UpperCellKept(SampleRow, 8, DefaultCategory);
    assert Upper("AirMax") == "AIRMAX";
  }

  lemma SampleRowNumbers()
    ensures IntOrZero(Cell(SampleRow, 4)) == 5
    ensures RealOrZero(Cell(SampleRow, 5)) == 100.0
    ensures RealOrZero(Cell(SampleRow, 6)) == 60.0
  {
    assert Cell(SampleRow, 4) == DecimalString(5) by {
      assert NatDigits(5) == "5";
    }
    assert Cell(SampleRow, 5) == DecimalString(100) by {
      assert NatDigits(10) == "10" by { assert NatDigits(1) == "1"; }
    }
    assert Cell(SampleRow, 6) == DecimalString(60) by {
      assert NatDigits(6) == "6";
    }
    DecimalCells(SampleRow, 4, 5);
    DecimalCells(SampleRow, 5, 100);
    DecimalCells(SampleRow, 6, 60);
  }
}
