/**
 * The two product exports of backend-app/src/services/importExportService.ts: the
 * Shopify projection (one 8-field row per product, later written by a CSV formatter)
 * and the tab-separated "Excel" text. Both export every stored product when they are
 * given an empty list.
 *
 * Products are the loose objects a lean query returns (`Row`); `fmt` renders a number
 * the way JavaScript prints it.
 */
module ProductExport {
  import opened Wrappers
  import opened Text
  import opened JsValue

  /** `if (!items || items.length === 0) items = await Product.find({}).lean()` */
  function ExportItems(products: seq<Row>, stored: seq<Row>): seq<Row> {
    if |products| == 0 then stored else products
  }

  /* ---------- Shopify ---------- */

  /** One row of the Shopify export. */
  datatype ShopifyRow = ShopifyRow(
    handle: string,
    title: Value,
    body: Value,
    vendor: Value,
    variantSku: Value,
    variantInventoryQty: Value,
    variantPrice: Value,
    tags: string)

  /** The `TypeError`s the projection can throw on a loose document. */
  datatype ExportError =
    | CodeHasNoToLowerCase  // `code` is set but is not a string
    | TagsHaveNoJoin        // `tags` is set but is not an array

  /** The projection of one product, or the error its object literal throws first. */
  function ShopifyRowOf(p: Row, fmt: real -> string): (r: Result<ShopifyRow, ExportError>)
    ensures r.Success? <==>
      (IsNullish(Get(p, "code")) || Get(p, "code").Str?) && (IsNullish(Get(p, "tags")) || Get(p, "tags").Arr?)
    ensures r.Failure? && !IsNullish(Get(p, "code")) && !Get(p, "code").Str? ==> r.error == CodeHasNoToLowerCase
    ensures r.Success? ==>
      && r.value.handle == (if Get(p, "code").Str? then AsciiLower(Get(p, "code").s) else "")
      && r.value.title == Get(p, "name")
      && r.value.body == Coalesce(Get(p, "description"), Str(""))
      && r.value.vendor == Coalesce(Get(p, "brand"), Str(""))
      && r.value.variantSku == Get(p, "code")
      && r.value.variantInventoryQty == Coalesce(Get(p, "stockQty"), Num(0.0))
      && r.value.variantPrice == Coalesce(Get(p, "price"), Str(""))
  {
    var code := Coalesce(Get(p, "code"), Str(""));
    var tags := Coalesce(Get(p, "tags"), Arr([]));
    if !code.Str? then Failure(CodeHasNoToLowerCase)
    else if !tags.Arr? then Failure(TagsHaveNoJoin)
    else Success(ShopifyRow(
      AsciiLower(code.s),
      Get(p, "name"),
      Coalesce(Get(p, "description"), Str("")),
      Coalesce(Get(p, "brand"), Str("")),
      Get(p, "code"),
      Coalesce(Get(p, "stockQty"), Num(0.0)),
      Coalesce(Get(p, "price"), Str("")),
      Join(ItemStrings(tags.items, fmt), ", ")))
  }

  /** `items.map(...)`: the rows in product order, or the first error thrown. */
  function ShopifyRows(items: seq<Row>, fmt: real -> string): Result<seq<ShopifyRow>, ExportError> {
    if items == [] then Success([])
    else match ShopifyRowOf(items[0], fmt)
      case Failure(e) => Failure(e)
      case Success(row) =>
        match ShopifyRows(items[1..], fmt)
        case Failure(e) => Failure(e)
        case Success(rest) => Success([row] + rest)
  }

  /** The rows `exportForShopify` writes into the CSV formatter. */
  function ExportForShopify(products: seq<Row>, stored: seq<Row>, fmt: real -> string): Result<seq<ShopifyRow>, ExportError> {
    ShopifyRows(ExportItems(products, stored), fmt)
  }

  /** The projection succeeds exactly when every product projects, and then gives one row
      per product, in product order. */
  lemma {:induction false} ShopifyRowsPerProduct(items: seq<Row>, fmt: real -> string)
    ensures ShopifyRows(items, fmt).Success? <==>
      forall i :: 0 <= i < |items| ==> ShopifyRowOf(items[i], fmt).Success?
    ensures ShopifyRows(items, fmt).Success? ==>
      |ShopifyRows(items, fmt).value| == |items|
      && forall i :: 0 <= i < |items| ==> ShopifyRows(items, fmt).value[i] == ShopifyRowOf(items[i], fmt).value
  {
    if items != [] {
      ShopifyRowsPerProduct(items[1..], fmt);
      assert forall i :: 1 <= i < |items| ==> items[1..][i - 1] == items[i];
    }
  }

  /** The handle is the code without upper-case ASCII letters: lower-casing it again
      changes nothing, and it is as long as the code. */
  lemma HandleIsLowerCode(p: Row, fmt: real -> string)
    requires ShopifyRowOf(p, fmt).Success? && Get(p, "code").Str?
    ensures var h := ShopifyRowOf(p, fmt).value.handle;
      |h| == |Get(p, "code").s| && AsciiLower(h) == h
      && forall i :: 0 <= i < |h| ==> !('A' <= h[i] <= 'Z')
  {
    var h := ShopifyRowOf(p, fmt).value.handle;
    assert forall i :: 0 <= i < |h| ==> LowerChar(h[i]) == h[i];
  }

  /** A product without code, description, brand, stock or price still exports, with an
      empty handle, "" for the texts and 0 for the inventory. */
  lemma ShopifyDefaults(p: Row, fmt: real -> string)
    requires "code" !in p && "description" !in p && "brand" !in p && "stockQty" !in p && "price" !in p
    requires IsNullish(Get(p, "tags")) || Get(p, "tags").Arr?
    ensures ShopifyRowOf(p, fmt).Success?
    ensures var r := ShopifyRowOf(p, fmt).value;
      r.handle == "" && r.body == Str("") && r.vendor == Str("") && r.variantPrice == Str("")
      && r.variantInventoryQty == Num(0.0) && r.variantSku == Undefined
  {
  }

  /** Tags are the tag strings joined by ", "; no tags give "". */
  lemma ShopifyTags(p: Row, fmt: real -> string, tags: seq<string>)
    requires Get(p, "code").Str? || IsNullish(Get(p, "code"))
    requires Get(p, "tags") == Arr(seq(|tags|, i requires 0 <= i < |tags| => Str(tags[i])))
    ensures ShopifyRowOf(p, fmt).Success? && ShopifyRowOf(p, fmt).value.tags == Join(tags, ", ")
  {
    var items := Get(p, "tags").items;
    TagStrings(items, tags, fmt);
  }

  lemma {:induction false} TagStrings(items: seq<Value>, tags: seq<string>, fmt: real -> string)
    requires items == seq(|tags|, i requires 0 <= i < |tags| => Str(tags[i]))
    ensures ItemStrings(items, fmt) == tags
  {
    if tags != [] {
      TagStrings(items[1..], tags[1..], fmt);
    }
  }

  /** A tag list stored as one string makes the whole export throw. */
  lemma ShopifyTagsAsTextThrows(items: seq<Row>, i: nat, fmt: real -> string)
    requires i < |items| && Get(items[i], "tags").Str?
    ensures ShopifyRows(items, fmt).Failure?
  {
    ShopifyRowsPerProduct(items, fmt);
  }

  /* ---------- Excel ---------- */

  /** The exported columns, in order. */
  const ExcelColumns: seq<string> := ["code", "name", "brand", "category", "price", "volume", "stockQty", "isActive"]

  /** `p[c] ?? ""` as `join` prints it. */
  function Cell(p: Row, c: string, fmt: real -> string): string {
    if IsNullish(Get(p, c)) then "" else ToStr(Get(p, c), fmt)
  }

  /** One product as a line: its eight cells joined by tabs. */
  function ExcelCells(p: Row, fmt: real -> string): seq<string> {
    seq(|ExcelColumns|, j requires 0 <= j < |ExcelColumns| => Cell(p, ExcelColumns[j], fmt))
  }

  function ExcelLine(p: Row, fmt: real -> string): string {
    Join(ExcelCells(p, fmt), "\t")
  }

  function ExcelLines(items: seq<Row>, fmt: real -> string): seq<string> {
    seq(|items|, i requires 0 <= i < |items| => ExcelLine(items[i], fmt))
  }

  function ExcelHeader(): string {
    Join(ExcelColumns, "\t")
  }

  /** `${header}\n${body}` */
  function ExportForExcel(products: seq<Row>, stored: seq<Row>, fmt: real -> string): string {
    ExcelHeader() + "\n" + Join(ExcelLines(ExportItems(products, stored), fmt), "\n")
  }

  /** Both exports read the collection only for an empty request: a non-empty request
      gives the same file whatever is stored, an empty one gives the file of the whole
      collection asked for by name, and nothing is exported only when both are empty. */
  lemma ExportSelection(products: seq<Row>, stored: seq<Row>, other: seq<Row>, fmt: real -> string)
    ensures products != [] ==>
      ExportForExcel(products, stored, fmt) == ExportForExcel(products, other, fmt)
      && ExportForShopify(products, stored, fmt) == ExportForShopify(products, other, fmt)
    ensures stored != [] ==>
      ExportForExcel([], stored, fmt) == ExportForExcel(stored, other, fmt)
      && ExportForShopify([], stored, fmt) == ExportForShopify(stored, other, fmt)
    ensures ExportItems(products, stored) == [] <==> products == [] && stored == []
  {
  }

  /** No cell holds a tab or a newline (nothing is quoted, so those would break the layout). */
  predicate CleanCells(items: seq<Row>, fmt: real -> string) {
    forall i, j :: 0 <= i < |items| && 0 <= j < |ExcelColumns| ==>
      '\t' !in Cell(items[i], ExcelColumns[j], fmt) && '\n' !in Cell(items[i], ExcelColumns[j], fmt)
  }

  lemma ColumnsClean()
    ensures forall j :: 0 <= j < |ExcelColumns| ==> '\t' !in ExcelColumns[j] && '\n' !in ExcelColumns[j]
  {
  }

  lemma JoinCons(x: string, xs: seq<string>, sep: string)
    requires |xs| >= 1
    ensures Join([x] + xs, sep) == x + sep + Join(xs, sep)
  {
    assert ([x] + xs)[1..] == xs;
  }

  /** With clean cells, the text reads back line by line: the header, then one line per
      exported product, each of which splits on tabs into that product's eight cells. */
  lemma ExcelReadsBack(products: seq<Row>, stored: seq<Row>, fmt: real -> string)
    requires |ExportItems(products, stored)| >= 1
    requires CleanCells(ExportItems(products, stored), fmt)
    ensures var items := ExportItems(products, stored);
      var text := ExportForExcel(products, stored, fmt);
      Split(text, '\n') == [ExcelHeader()] + ExcelLines(items, fmt)
      && Split(ExcelHeader(), '\t') == ExcelColumns
      && forall i :: 0 <= i < |items| ==> Split(Split(text, '\n')[i + 1], '\t') == ExcelCells(items[i], fmt)
  {
    var items := ExportItems(products, stored);
    var lines := ExcelLines(items, fmt);
    ColumnsClean();
    SplitJoin(ExcelColumns, '\t');
    LinesReadBack(items, fmt);
    HeaderHasNoNewline();
    JoinCons(ExcelHeader(), lines, "\n");
    SplitJoin([ExcelHeader()] + lines, '\n');
  }

  lemma LinesReadBack(items: seq<Row>, fmt: real -> string)
    requires CleanCells(items, fmt)
    ensures forall i :: 0 <= i < |items| ==>
      '\n' !in ExcelLines(items, fmt)[i] && Split(ExcelLines(items, fmt)[i], '\t') == ExcelCells(items[i], fmt)
  {
    var lines := ExcelLines(items, fmt);
    forall i | 0 <= i < |items| ensures '\n' !in lines[i] && Split(lines[i], '\t') == ExcelCells(items[i], fmt) {
      var cells := ExcelCells(items[i], fmt);
      SplitJoin(cells, '\t');
      NoNewlineInJoin(cells);
    }
  }

  lemma HeaderHasNoNewline()
    ensures '\n' !in ExcelHeader()
  {
    ColumnsClean();
    NoNewlineInJoin(ExcelColumns);
  }

  lemma {:induction false} NoNewlineInJoin(xs: seq<string>)
    requires forall j :: 0 <= j < |xs| ==> '\n' !in xs[j]
    ensures '\n' !in Join(xs, "\t")
  {
    if |xs| > 1 {
      NoNewlineInJoin(xs[1..]);
    }
  }

  /** With no products anywhere the text is the header line and an empty line. */
  lemma ExcelEmpty(fmt: real -> string)
    ensures ExportForExcel([], [], fmt) == ExcelHeader() + "\n"
  {
  }

  /** Without quoting, a tab inside a cell adds columns: that line no longer splits into
      eight cells. */
  lemma ExcelTabInCellBreaksColumns(p: Row, j: nat, fmt: real -> string)
    requires j < |ExcelColumns| && '\t' in Cell(p, ExcelColumns[j], fmt)
    ensures |Split(ExcelLine(p, fmt), '\t')| > |ExcelColumns|
  {
    SplitJoinBreaks(ExcelCells(p, fmt), '\t', j);
  }

  /** A stored product with every column set prints them in column order; e.g. `isActive`
      true prints "true" and a missing brand prints "". */
  lemma ExcelCellValues(p: Row, fmt: real -> string)
    ensures Get(p, "isActive") == Bool(true) ==> ExcelCells(p, fmt)[7] == "true"
    ensures "brand" !in p ==> ExcelCells(p, fmt)[2] == ""
  {
  }
}
