/**
 * The CSV upload middleware (backend-app/src/middleware/csv.middleware.ts): the raw
 * header row is mapped through a constant alias table (drop, rename or keep), the
 * parsed rows are collected in stream order into `req.body.products`, and a parse
 * error answers 400 instead of calling `next`.
 *
 * Tokenising the file is the CSV library's job and is not modelled: the parser is seen
 * through the stream of events it emits.
 */
module CsvMiddleware {
  import opened Wrappers
  import opened Text
  import opened JsValue
  import ProductImport

  /** An entry of the alias table: `false` (drop the column) or a product key. */
  datatype AliasTarget = DropColumn | Field(name: string)

  /** The alias table, keyed by the trimmed, lower-cased header. */
  const Alias: map<string, AliasTarget> := map[
    "" := DropColumn,
    "barcode" := DropColumn,
    "sku" := Field("code"),
    "code" := Field("code"),
    "product name" := Field("name"),
    "brand" := Field("brand"),
    "product category" := Field("category"),
    "price" := Field("price"),
    "ml" := Field("volume"),
    "short description" := Field("shortDescription"),
    "description" := Field("description"),
    "image url" := Field("imageUrl"),
    "tags" := Field("tags"),
    "stock" := Field("stockQty")
  ]

  /** The product fields the alias table renames to. */
  const ProductFields: set<string> := {"code", "name", "brand", "category", "price", "volume",
    "shortDescription", "description", "imageUrl", "tags", "stockQty"}

  /** The key a header is looked up under: `h.trim().toLowerCase()`. */
  function AliasKey(h: string): string {
    AsciiLower(Trim(h))
  }

  /** The header the parser uses for a raw header; `None` is `undefined`, which makes the
      parser ignore the column. */
  function MapHeader(h: string): (r: Option<string>)
    ensures AliasKey(h) !in Alias ==> r == Some(h)
    ensures AliasKey(h) in Alias && Alias[AliasKey(h)].DropColumn? ==> r.None?
    ensures AliasKey(h) in Alias && Alias[AliasKey(h)].Field? ==> r == Some(Alias[AliasKey(h)].name)
  {
    var key := AliasKey(h);
    if key in Alias then
      match Alias[key]
      case DropColumn => None
      case Field(name) => Some(name)
    else Some(h)
  }

  /** `cols.map(...)`: one output header per input header, position by position. */
  function MapHeaders(cols: seq<string>): seq<Option<string>> {
    seq(|cols|, i requires 0 <= i < |cols| => MapHeader(cols[i]))
  }

  /** The drop entries of the alias table are exactly "" and "barcode", and every rename
      targets a product field. */
  lemma AliasShape(k: string)
    ensures (k in Alias && Alias[k].DropColumn?) <==> (k == "" || k == "barcode")
    ensures k in Alias && Alias[k].Field? ==> Alias[k].name in ProductFields
  {
  }

  /** The mapped header row keeps every position; a column is ignored exactly when its
      header is blank or "barcode" (case and padding aside), and every other column is
      named by its raw header or by a product field. */
  lemma MapHeadersShape(cols: seq<string>)
    ensures |MapHeaders(cols)| == |cols|
    ensures forall i :: 0 <= i < |cols| ==>
      (MapHeaders(cols)[i].None? <==> (AliasKey(cols[i]) == "" || AliasKey(cols[i]) == "barcode"))
    ensures forall i :: 0 <= i < |cols| && MapHeaders(cols)[i].Some? ==>
      MapHeaders(cols)[i].value == cols[i] || MapHeaders(cols)[i].value in ProductFields
  {
    forall i | 0 <= i < |cols|
      ensures MapHeaders(cols)[i].None? <==> (AliasKey(cols[i]) == "" || AliasKey(cols[i]) == "barcode")
      ensures MapHeaders(cols)[i].Some? ==> MapHeaders(cols)[i].value == cols[i] || MapHeaders(cols)[i].value in ProductFields
    {
      AliasShape(AliasKey(cols[i]));
    }
  }

  /** Surrounding whitespace and ASCII case do not change which alias a header gets:
      a padded, upper-case header is looked up under the same key as its lower-case core. */
  lemma AliasIgnoresPaddingAndCase(w1: string, core: string, w2: string)
    requires AllWhitespace(w1) && AllWhitespace(w2)
    requires core == [] || (!IsJsWhitespace(core[0]) && !IsJsWhitespace(core[|core| - 1]))
    ensures AliasKey(w1 + core + w2) == AsciiLower(core) == AliasKey(AsciiLower(core))
  {
    AliasKeyOfPadded(w1, core, w2);
    KeyOfLowerCore(core);
  }

  lemma KeyOfLowerCore(core: string)
    requires core == [] || (!IsJsWhitespace(core[0]) && !IsJsWhitespace(core[|core| - 1]))
    ensures AliasKey(AsciiLower(core)) == AsciiLower(core)
  {
    var k := AsciiLower(core);
    LowerKeepsBorders(core);
    TrimNoPadding(k);
    LowerTwice(core);
  }

  lemma AliasKeyOfPadded(w1: string, core: string, w2: string)
    requires AllWhitespace(w1) && AllWhitespace(w2)
    requires core == [] || (!IsJsWhitespace(core[0]) && !IsJsWhitespace(core[|core| - 1]))
    ensures AliasKey(w1 + core + w2) == AsciiLower(core)
  {
    TrimPadded(w1, core, w2);
  }

  lemma LowerKeepsBorders(core: string)
    requires core == [] || (!IsJsWhitespace(core[0]) && !IsJsWhitespace(core[|core| - 1]))
    ensures var k := AsciiLower(core); k == [] || (!IsJsWhitespace(k[0]) && !IsJsWhitespace(k[|k| - 1]))
  {
    if core != [] {
      LowerKeepsNonWhitespace(core[0]);
      LowerKeepsNonWhitespace(core[|core| - 1]);
    }
  }

  lemma LowerKeepsNonWhitespace(c: char)
    requires !IsJsWhitespace(c)
    ensures !IsJsWhitespace(LowerChar(c))
  {
  }

  /** A string without whitespace at its ends is its own trim. */
  lemma TrimNoPadding(s: string)
    requires s == [] || (!IsJsWhitespace(s[0]) && !IsJsWhitespace(s[|s| - 1]))
    ensures Trim(s) == s
  {
    if s != [] {
      TrimStartUnpadded(s);
      TrimEndUnpadded(s);
    }
  }

  /** A header with no whitespace and no upper-case letter is its own key. */
  predicate Plain(h: string) {
    forall i :: 0 <= i < |h| ==> !IsJsWhitespace(h[i]) && !('A' <= h[i] <= 'Z')
  }

  lemma KeyOfPlain(h: string)
    requires Plain(h)
    ensures AliasKey(h) == h
  {
    TrimNoPadding(h);
    assert forall i :: 0 <= i < |h| ==> LowerChar(h[i]) == h[i];
    assert AsciiLower(h) == h;
  }

  /** "SKU" with any surrounding whitespace (" SKU ", say) is looked up as "sku" and
      renamed to `code`. This is the `headers` callback on its own: the parser runs with
      `trim: true`, so in an upload the header row reaches the callback already trimmed. */
  lemma PaddedUpperSkuIsCode(w1: string, w2: string)
    requires AllWhitespace(w1) && AllWhitespace(w2)
    ensures MapHeader(w1 + "SKU" + w2) == Some("code")
  {
    PaddedSkuKey(w1, w2);
    RenamedHeaders(w1 + "SKU" + w2);
  }

  lemma PaddedSkuKey(w1: string, w2: string)
    requires AllWhitespace(w1) && AllWhitespace(w2)
    ensures AliasKey(w1 + "SKU" + w2) == "sku"
  {
    SkuFacts();
    AliasKeyOfPadded(w1, "SKU", w2);
  }

  lemma SkuFacts()
    ensures !IsJsWhitespace("SKU"[0]) && !IsJsWhitespace("SKU"[|"SKU"| - 1])
    ensures AsciiLower("SKU") == "sku"
  {
    LowerLiteral("SKU", "sku");
  }

  lemma LowerLiteral(s: string, lower: string)
    requires |s| == |lower| && forall i :: 0 <= i < |s| ==> LowerChar(s[i]) == lower[i]
    ensures AsciiLower(s) == lower
  {
  }

  /** Headers whose key is "" or "barcode" drop their column. */
  lemma DroppedHeaders(h: string)
    requires AliasKey(h) == "" || AliasKey(h) == "barcode"
    ensures MapHeader(h) == None
  {
    DropEntries();
  }

  lemma DropEntries()
    ensures "" in Alias && Alias[""] == DropColumn
    ensures "barcode" in Alias && Alias["barcode"] == DropColumn
  {
  }

  lemma RenameEntries()
    ensures "sku" in Alias && Alias["sku"] == Field("code")
    ensures "code" in Alias && Alias["code"] == Field("code")
    ensures "ml" in Alias && Alias["ml"] == Field("volume")
    ensures "stock" in Alias && Alias["stock"] == Field("stockQty")
  {
  }

  /** Keys "sku" and "code" both become `code`; "ml" becomes `volume`, "stock" `stockQty`. */
  lemma RenamedHeaders(h: string)
    ensures AliasKey(h) == "sku" || AliasKey(h) == "code" ==> MapHeader(h) == Some("code")
    ensures AliasKey(h) == "ml" ==> MapHeader(h) == Some("volume")
    ensures AliasKey(h) == "stock" ==> MapHeader(h) == Some("stockQty")
  {
    RenameEntries();
  }

  /** A header the table does not know is kept verbatim by the `headers` callback, case
      and padding included; in an upload, `trim: true` has already removed the padding. */
  lemma UnknownHeaderKept(h: string)
    requires AliasKey(h) !in Alias
    ensures MapHeader(h) == Some(h)
  {
  }

  /** For instance "Weight" with any surrounding whitespace leaves the callback exactly as
      it came; an uploaded header row would already be trimmed to "Weight". */
  lemma UnknownHeaderExample(w1: string, w2: string)
    requires AllWhitespace(w1) && AllWhitespace(w2)
    ensures MapHeader(w1 + "Weight" + w2) == Some(w1 + "Weight" + w2)
  {
    PaddedWeightKey(w1, w2);
    WeightKeyKept(w1 + "Weight" + w2);
  }

  lemma PaddedWeightKey(w1: string, w2: string)
    requires AllWhitespace(w1) && AllWhitespace(w2)
    ensures AliasKey(w1 + "Weight" + w2) == "weight"
  {
    WeightFacts();
    AliasKeyOfPadded(w1, "Weight", w2);
  }

  lemma WeightFacts()
    ensures !IsJsWhitespace("Weight"[0]) && !IsJsWhitespace("Weight"[|"Weight"| - 1])
    ensures AsciiLower("Weight") == "weight"
  {
    LowerLiteral("Weight", "weight");
  }

  lemma WeightKeyKept(h: string)
    requires AliasKey(h) == "weight"
    ensures MapHeader(h) == Some(h)
  {
    WeightHasNoAlias();
    UnknownHeaderKept(h);
  }

  lemma WeightHasNoAlias()
    ensures "weight" !in Alias
  {
  }

  /* ---------- the lookup as written: `alias[key]` on a plain object ---------- */

  /** What `alias[key]` reads on an object literal: an own entry, an entry inherited
      from `Object.prototype`, or nothing. */
  datatype Lookup = Missing | Own(target: AliasTarget) | Inherited(member: string)

  /** The lower-case member names every object literal inherits. */
  const PrototypeMembers: set<string> := {"constructor", "__proto__"}

  function AliasLookupAsWritten(key: string): (r: Lookup)
    ensures key in Alias ==> r == Own(Alias[key])
    ensures key !in Alias && key in PrototypeMembers ==> r == Inherited(key)
    ensures key !in Alias && key !in PrototypeMembers ==> r == Missing
  {
    if key in Alias then Own(Alias[key])
    else if key in PrototypeMembers then Inherited(key)
    else Missing
  }

  /** What the mapping lambda returns as written: `undefined`, a string, or the inherited
      member itself (a function or `Object.prototype`), which is truthy and not a string. */
  datatype HeaderAsWritten = Undef | Name(s: string) | InheritedObject(member: string)

  function MapHeaderAsWritten(h: string): HeaderAsWritten {
    match AliasLookupAsWritten(AliasKey(h))
    case Own(DropColumn) => Undef
    case Own(Field(name)) => Name(name)
    case Inherited(m) => InheritedObject(m)
    case Missing => Name(h)
  }

  /** As written, an unknown header "constructor" is not kept: the lookup finds the
      inherited `Object.prototype.constructor`, whereas `MapHeader` keeps it verbatim. */
  lemma ConstructorHeaderCounterexample()
    ensures MapHeaderAsWritten("constructor") == InheritedObject("constructor")
    ensures MapHeader("constructor") == Some("constructor")
  {
    ConstructorIsPlain();
    ConstructorNotAliased();
    assert "constructor" in PrototypeMembers;
  }

  lemma ConstructorIsPlain()
    ensures AliasKey("constructor") == "constructor"
  {
    var s := "constructor";
    assert s[0] == 'c' && s[|s| - 1] == 'r';
    TrimNoPadding(s);
    LowerLiteral(s, s);
  }

  lemma ConstructorNotAliased()
    ensures "constructor" !in Alias
  {
  }

  /** The two agree on every header whose key is not an inherited member name. */
  lemma AsWrittenAgreesElsewhere(h: string)
    requires AliasKey(h) !in PrototypeMembers
    ensures MapHeaderAsWritten(h) == match MapHeader(h) { case None => Undef case Some(s) => Name(s) }
  {
  }

  /* ---------- csvToProducts ---------- */

  /** What the parser stream emits: a row keyed by the mapped headers, or an error
      (carried as `String(err)`). */
  datatype ParseEvent = Data(row: map<string, string>) | ParseError(text: string)

  /** How the middleware finishes: `next()` with the (possibly extended) body, or a 400. */
  datatype Outcome = Next(body: Row) | BadRequest(message: string, error: string)

  /** A parsed CSV row as a product object: every value is a string. */
  function RowValue(row: map<string, string>): Value {
    Obj(map k | k in row :: Str(row[k]))
  }

  /** The row one event contributes: its row for a data event, none for an error. */
  function EventRows(e: ParseEvent): seq<Value> {
    if e.Data? then [RowValue(e.row)] else []
  }

  /** The rows of the data events, in stream order. */
  function Products(events: seq<ParseEvent>): seq<Value> {
    if events == [] then [] else EventRows(events[0]) + Products(events[1..])
  }

  /** The first error the stream emits, which rejects the promise. */
  function FirstError(events: seq<ParseEvent>): (r: Option<string>)
    ensures r.None? <==> forall i :: 0 <= i < |events| ==> events[i].Data?
  {
    if events == [] then None
    else if events[0].ParseError? then Some(events[0].text)
    else FirstError(events[1..])
  }

  /** The middleware: no file means `next()` with the body untouched; a clean parse
      stores the rows in `req.body.products`; a parse error answers 400. */
  method CsvToProducts(file: Option<seq<ParseEvent>>, body: Row) returns (outcome: Outcome)
    ensures file.None? ==> outcome == Next(body)
    ensures file.Some? && FirstError(file.value).None? ==>
      outcome == Next(body["products" := Arr(Products(file.value))])
    ensures file.Some? && FirstError(file.value).Some? ==>
      outcome == BadRequest("Bad CSV format", FirstError(file.value).value)
  {
    if file.None? {
      return Next(body);
    }
    var events := file.value;
    var products: seq<Value> := [];
    var rejected: Option<string> := None;
    for i := 0 to |events|
      invariant products + Products(events[i..]) == Products(events)
      invariant rejected.None? ==> FirstError(events) == FirstError(events[i..])
      invariant rejected.Some? ==> FirstError(events) == rejected
    {
      EventStep(events, i);
      if events[i].Data? {
        var row := RowValue(events[i].row);
        assert products + [row] + Products(events[i + 1..]) == products + ([row] + Products(events[i + 1..]));
        products := products + [row];
      } else if rejected.None? {
        rejected := Some(events[i].text);
      }
    }
    assert events[|events|..] == [];
    assert products + [] == products;
    if rejected.Some? {
      return BadRequest("Bad CSV format", rejected.value);
    }
    outcome := Next(body["products" := Arr(products)]);
  }

  lemma EventStep(events: seq<ParseEvent>, i: nat)
    requires i < |events|
    ensures events[i].Data? ==> Products(events[i..]) == [RowValue(events[i].row)] + Products(events[i + 1..])
    ensures events[i].Data? ==> FirstError(events[i..]) == FirstError(events[i + 1..])
    ensures events[i].ParseError? ==> Products(events[i..]) == Products(events[i + 1..])
    ensures events[i].ParseError? ==> FirstError(events[i..]) == Some(events[i].text)
  {
    assert events[i..][1..] == events[i + 1..];
  }

  /** Stream order is kept: the rows of two stretches of the stream are the rows of the
      first followed by the rows of the second. */
  lemma {:induction false} ProductsAppend(e1: seq<ParseEvent>, e2: seq<ParseEvent>)
    ensures Products(e1 + e2) == Products(e1) + Products(e2)
  {
    if e1 == [] {
      assert e1 + e2 == e2;
    } else {
      assert (e1 + e2)[0] == e1[0];
      assert (e1 + e2)[1..] == e1[1..] + e2;
      ProductsAppend(e1[1..], e2);
      assert Products(e1 + e2) == EventRows(e1[0]) + (Products(e1[1..]) + Products(e2));
    }
  }

  /** Without errors there is one product per event, each holding that event's row. */
  lemma {:induction false} ProductsOnePerRow(events: seq<ParseEvent>)
    requires FirstError(events).None?
    ensures |Products(events)| == |events|
    ensures forall i :: 0 <= i < |events| ==> Products(events)[i] == RowValue(events[i].row)
  {
    if events != [] {
      ProductsOnePerRow(events[1..]);
    }
  }

  /** A CSV row with a `stockQty` column (the "stock" header) can never pass the
      import schema, since the value is text. */
  lemma CsvStockColumnRejectsRow(row: map<string, string>)
    requires "stockQty" in row
    ensures ProductImport.SafeParse(RowValue(row)).None?
  {
    ProductImport.TextStockQtyRejectsRow(RowValue(row).fields);
  }
}
