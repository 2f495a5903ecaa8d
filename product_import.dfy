/**
 * Product import (`importProducts` in backend-app/src/services/importExportService.ts):
 * every row is checked against the import schema (failing rows are skipped, not fatal),
 * cleaned by `tidy`, deduplicated by `code` with the last row winning, and turned into
 * one upsert per code; the store then answers with the records of those codes.
 *
 * The document store is abstract: a map from the `code` value to the stored document.
 * `Number(s)` on a string is the parameter `parseNum` (`None` stands for `NaN`).
 */
module ProductImport {
  import opened Wrappers
  import opened Seqs
  import opened JsValue
  import ProductModel

  /* ---------- 1. the import schema ---------- */

  /** The optional plain-string fields of the schema. */
  const StringKeys: set<string> :=
    {"shortDescription", "description", "brand", "category", "price", "volume", "imageUrl", "aiDescription"}

  /** Every key the schema knows; any other key is stripped from a parsed row. */
  const SchemaKeys: set<string> := {"code", "name", "tags", "attributes", "stockQty", "isActive"} + StringKeys

  /** Whether the value read for `key` satisfies that key's declared type
      (`undefined` is what an absent key reads as). */
  predicate FieldValid(key: string, v: Value) {
    if key == "code" || key == "name" then v.Str? && |v.s| >= 1
    else if key in StringKeys then v.Undefined? || v.Str?
    else if key == "tags" then v.Undefined? || (v.Arr? && forall i :: 0 <= i < |v.items| ==> v.items[i].Str?)
    else if key == "attributes" then v.Undefined? || (v.Obj? && forall k :: k in v.fields ==> v.fields[k].Str?)
    else if key == "stockQty" then v.Undefined? || v.Num?
    else if key == "isActive" then v.Undefined? || v.Bool?
    else true
  }

  /** `productSchema.safeParse(row)`: the row restricted to the schema's keys, or `None`. */
  function SafeParse(row: Value): (r: Option<Row>)
    ensures r.Some? <==> row.Obj? && forall k :: k in SchemaKeys ==> FieldValid(k, Get(row.fields, k))
    ensures r.Some? ==> r.value.Keys == row.fields.Keys * SchemaKeys
    ensures r.Some? ==> forall k :: k in r.value ==> r.value[k] == row.fields[k]
  {
    if row.Obj? && forall k :: k in SchemaKeys ==> FieldValid(k, Get(row.fields, k))
    then Some(map k | k in row.fields && k in SchemaKeys :: row.fields[k])
    else None
  }

  /** A plain `attributes` object becomes a `Map` with the same entries. */
  function WithMapAttributes(doc: Row): (r: Row)
    ensures r.Keys == doc.Keys
    ensures forall k :: k in doc && k != "attributes" ==> r[k] == doc[k]
    ensures ("attributes" in doc && doc["attributes"].Obj?
      && forall k :: k in doc["attributes"].fields ==> doc["attributes"].fields[k].Str?) ==>
        (r["attributes"].StrMap? && r["attributes"].entries.Keys == doc["attributes"].fields.Keys
        && forall k :: k in doc["attributes"].fields ==> doc["attributes"].fields[k] == Str(r["attributes"].entries[k]))
  {
    if "attributes" in doc && doc["attributes"].Obj?
    then doc["attributes" := StrMap(StringEntries(doc["attributes"].fields))]
    else doc
  }

  function StringEntries(fields: map<string, Value>): map<string, string> {
    map k | k in fields && fields[k].Str? :: fields[k].s
  }

  /** The rows that pass the schema, in input order, attributes converted. */
  function Validated(data: seq<Value>): seq<Row> {
    if data == [] then []
    else
      var last := data[|data| - 1];
      Validated(data[..|data| - 1])
      + match SafeParse(last) { case Some(r) => [WithMapAttributes(r)] case None => [] }
  }

  /** The 1-based numbers of the rows that were skipped with a warning. */
  function Skipped(data: seq<Value>): seq<nat> {
    if data == [] then []
    else Skipped(data[..|data| - 1]) + if SafeParse(data[|data| - 1]).None? then [|data|] else []
  }

  /** The `forEach` over the input rows: push what parses, report what does not. */
  method ValidateRows(data: seq<Value>) returns (validated: seq<Row>, skipped: seq<nat>)
    ensures validated == Validated(data) && skipped == Skipped(data)
  {
    validated, skipped := [], [];
    for i := 0 to |data|
      invariant validated == Validated(data[..i]) && skipped == Skipped(data[..i])
    {
      ValidateStep(data, i);
      var parsed := SafeParse(data[i]);
      if parsed.Some? {
        var doc := WithMapAttributes(parsed.value);
        validated := validated + [doc];
      } else {
        skipped := skipped + [i + 1];
      }
    }
    assert data[..|data|] == data;
  }

  lemma ValidateStep(data: seq<Value>, i: nat)
    requires i < |data|
    ensures Validated(data[..i + 1]) == Validated(data[..i])
      + match SafeParse(data[i]) { case Some(r) => [WithMapAttributes(r)] case None => [] }
    ensures Skipped(data[..i + 1]) == Skipped(data[..i]) + if SafeParse(data[i]).None? then [i + 1] else []
  {
    assert data[..i + 1][..i] == data[..i];
  }

  /** Every row is either kept or reported skipped: none is lost. */
  lemma {:induction false} ValidatedAndSkippedCount(data: seq<Value>)
    ensures |Validated(data)| + |Skipped(data)| == |data|
  {
    if data != [] {
      ValidatedAndSkippedCount(data[..|data| - 1]);
    }
  }

  /** Row number `n` is reported skipped exactly when row `n` fails the schema. */
  lemma {:induction false} SkippedIffRejected(data: seq<Value>, n: int)
    ensures n in Skipped(data) <==> 1 <= n <= |data| && SafeParse(data[n - 1]).None?
  {
    if data != [] {
      var p := data[..|data| - 1];
      var last := if SafeParse(data[|data| - 1]).None? then [|data|] else [];
      assert Skipped(data) == Skipped(p) + last;
      SkippedIffRejected(p, n);
      SkippedBounded(p);
      if n == |data| {
        assert n !in Skipped(p);
      } else if 1 <= n < |data| {
        assert data[n - 1] == p[n - 1];
        assert n !in last;
      } else {
        assert n !in last;
      }
    }
  }

  lemma {:induction false} SkippedBounded(data: seq<Value>)
    ensures forall n :: n in Skipped(data) ==> 1 <= n <= |data|
  {
    if data != [] {
      SkippedBounded(data[..|data| - 1]);
    }
  }

  /** Every kept row is a schema row: non-empty string code and name, only schema keys. */
  lemma {:induction false} ValidatedRowsConform(data: seq<Value>, i: nat)
    requires i < |Validated(data)|
    ensures var r := Validated(data)[i];
      r.Keys <= SchemaKeys && "code" in r && r["code"].Str? && r["code"].s != ""
      && "name" in r && r["name"].Str? && r["name"].s != ""
  {
    var p := data[..|data| - 1];
    if i < |Validated(p)| {
      ValidatedRowsConform(p, i);
    } else {
      var row := data[|data| - 1];
      assert FieldValid("code", Get(row.fields, "code"));
      assert FieldValid("name", Get(row.fields, "name"));
    }
  }

  /** The rows survive in order: with no failing row every row is kept, one per input row. */
  lemma {:induction false} AllValidRowsKept(data: seq<Value>)
    requires forall i :: 0 <= i < |data| ==> SafeParse(data[i]).Some?
    ensures |Validated(data)| == |data| && Skipped(data) == []
  {
    if data != [] {
      AllValidRowsKept(data[..|data| - 1]);
    }
  }

  /** A row carrying `stockQty` as text (every CSV value is text) fails the whole row. */
  lemma TextStockQtyRejectsRow(fields: map<string, Value>)
    requires "stockQty" in fields && fields["stockQty"].Str?
    ensures SafeParse(Obj(fields)).None?
  {
    assert !FieldValid("stockQty", Get(fields, "stockQty"));
  }

  /* ---------- 2. tidy ---------- */

  /** The keys `tidy` coerces with `Number(v)`. */
  const NumberKeys: set<string> := {"price", "stockQty"}

  /** `v === "" || v === null || v === undefined` */
  predicate IsEmptyValue(v: Value) {
    v == Str("") || v.Null? || v.Undefined?
  }

  /** `Number(v)` for the values the schema lets through to `price` and `stockQty`;
      `None` stands for `NaN`. */
  function JsNumber(v: Value, parseNum: string -> Option<real>): Option<real> {
    match v
    case Str(s) => parseNum(s)
    case Num(n) => Some(n)
    case Bool(b) => Some(if b then 1.0 else 0.0)
    case Null => Some(0.0)
    case _ => None
  }

  /** What the loop body writes into `clean[k]` for the entry `[k, v]`; `None` means nothing. */
  function Cleaned(k: string, v: Value, parseNum: string -> Option<real>): Option<Value> {
    if IsEmptyValue(v) then None
    else if k in NumberKeys then
      match JsNumber(v, parseNum) { case Some(n) => Some(Num(n)) case None => None }
    else Some(v)
  }

  /** `tidy(doc)`: empty values dropped, numbers coerced, `isActive` defaulted to true. */
  function Tidy(doc: Row, parseNum: string -> Option<real>): Row {
    var clean := map k | k in doc && Cleaned(k, doc[k], parseNum).Some? :: Cleaned(k, doc[k], parseNum).value;
    if "isActive" in clean then clean else clean["isActive" := Bool(true)]
  }

  /** The `for...of` loop of `tidy` over the entries of `doc`. */
  method TidyDoc(doc: Row, parseNum: string -> Option<real>) returns (clean: Row)
    ensures clean == Tidy(doc, parseNum)
  {
    clean := map[];
    var todo := doc.Keys;
    while todo != {}
      invariant todo <= doc.Keys
      invariant clean == map k | k in doc && k !in todo && Cleaned(k, doc[k], parseNum).Some? :: Cleaned(k, doc[k], parseNum).value
      decreases todo
    {
      var k :| k in todo;
      var c := Cleaned(k, doc[k], parseNum);
      if c.Some? {
        clean := clean[k := c.value];
      }
      todo := todo - {k};
    }
    if "isActive" !in clean {
      clean := clean["isActive" := Bool(true)];
    }
  }

  /** After `tidy` no field is "", `null` or `undefined`, and `isActive` is always set:
      to true when the row had no usable value, else to the row's own value. */
  lemma TidyNoEmptyValues(doc: Row, parseNum: string -> Option<real>)
    ensures forall k :: k in Tidy(doc, parseNum) ==> !IsEmptyValue(Tidy(doc, parseNum)[k])
    ensures "isActive" in Tidy(doc, parseNum)
    ensures Tidy(doc, parseNum)["isActive"] ==
      if "isActive" in doc && !IsEmptyValue(doc["isActive"]) then doc["isActive"] else Bool(true)
  {
  }

  /** `price` and `stockQty` become `Number(v)` when that is not `NaN`; otherwise they are gone. */
  lemma TidyNumbers(doc: Row, parseNum: string -> Option<real>, k: string)
    requires k in NumberKeys
    ensures k in Tidy(doc, parseNum) <==>
      k in doc && !IsEmptyValue(doc[k]) && JsNumber(doc[k], parseNum).Some?
    ensures k in Tidy(doc, parseNum) ==> Tidy(doc, parseNum)[k] == Num(JsNumber(doc[k], parseNum).value)
  {
  }

  /** A price text that does not read as a number ("19.99 EUR") is dropped. */
  lemma TidyDropsUnreadablePrice(doc: Row, parseNum: string -> Option<real>)
    requires "price" in doc && doc["price"].Str? && parseNum(doc["price"].s).None?
    ensures "price" !in Tidy(doc, parseNum)
  {
    TidyNumbers(doc, parseNum, "price");
  }

  /** Every other field is copied unchanged exactly when it is not empty. */
  lemma TidyCopiesOtherFields(doc: Row, parseNum: string -> Option<real>, k: string)
    requires k !in NumberKeys && k != "isActive"
    ensures k in Tidy(doc, parseNum) <==> k in doc && !IsEmptyValue(doc[k])
    ensures k in Tidy(doc, parseNum) ==> Tidy(doc, parseNum)[k] == doc[k]
  {
  }

  /** Tidying a tidy document changes nothing. */
  lemma TidyIdempotent(doc: Row, parseNum: string -> Option<real>)
    ensures Tidy(Tidy(doc, parseNum), parseNum) == Tidy(doc, parseNum)
  {
    var t := Tidy(doc, parseNum);
    var tt := Tidy(t, parseNum);
    forall k | k in t ensures k in tt && tt[k] == t[k] {
      assert !IsEmptyValue(t[k]);
      if k in NumberKeys {
        assert t[k].Num?;
      }
    }
    assert tt.Keys == t.Keys;
  }

  /* ---------- 3. deduplicate by code, last one wins ---------- */

  /** `row.code` when it is truthy (a non-empty string after the schema). */
  function CodeOf(row: Row): Option<string> {
    if "code" in row && row["code"].Str? && row["code"].s != "" then Some(row["code"].s) else None
  }

  /** The codes of the rows, one per row that has one, in row order. */
  function Codes(rows: seq<Row>): (r: seq<string>)
    ensures |r| <= |rows|
  {
    if rows == [] then []
    else Codes(rows[..|rows| - 1]) + match CodeOf(rows[|rows| - 1]) { case Some(c) => [c] case None => [] }
  }

  /** A code is listed exactly when some row carries it. */
  lemma {:induction false} CodesMember(rows: seq<Row>, c: string)
    ensures c in Codes(rows) <==> exists j :: 0 <= j < |rows| && CodeOf(rows[j]) == Some(c)
  {
    if rows != [] {
      var p := rows[..|rows| - 1];
      CodesMember(p, c);
      assert forall j :: 0 <= j < |p| ==> p[j] == rows[j];
    }
  }

  /** The index of the last row with code `c`. */
  function LastIndexWithCode(rows: seq<Row>, c: string): (i: nat)
    requires c in Codes(rows)
    ensures i < |rows| && CodeOf(rows[i]) == Some(c)
    ensures forall j :: i < j < |rows| ==> CodeOf(rows[j]) != Some(c)
  {
    var p := rows[..|rows| - 1];
    if CodeOf(rows[|rows| - 1]) == Some(c) then |rows| - 1
    else
      assert c in Codes(p);
      LastIndexWithCode(p, c)
  }

  /** The document kept for code `c`: the tidied last row carrying it. */
  function DocFor(rows: seq<Row>, parseNum: string -> Option<real>, c: string): Row
    requires c in Codes(rows)
  {
    Tidy(rows[LastIndexWithCode(rows, c)], parseNum)
  }

  /** The deduplicated documents: one per distinct code, in order of the code's first
      appearance, each the tidied last row with that code. */
  function Docs(rows: seq<Row>, parseNum: string -> Option<real>): (docs: seq<Row>)
    ensures |docs| == |Distinct(Codes(rows))|
  {
    var order := Distinct(Codes(rows));
    seq(|order|, j requires 0 <= j < |order| => DocFor(rows, parseNum, order[j]))
  }

  lemma CodesStep(rows: seq<Row>, i: nat)
    requires i < |rows|
    ensures CodeOf(rows[i]).None? ==> Codes(rows[..i + 1]) == Codes(rows[..i])
    ensures CodeOf(rows[i]).Some? ==> Codes(rows[..i + 1]) == Codes(rows[..i]) + [CodeOf(rows[i]).value]
  {
    assert rows[..i + 1][..i] == rows[..i];
    var x := Codes(rows[..i]);
    assert x + [] == x;
  }

  lemma LastIndexStep(rows: seq<Row>, i: nat, c: string)
    requires i < |rows| && c in Codes(rows[..i + 1])
    ensures CodeOf(rows[i]) == Some(c) ==> LastIndexWithCode(rows[..i + 1], c) == i
    ensures CodeOf(rows[i]) != Some(c) ==>
      c in Codes(rows[..i]) && LastIndexWithCode(rows[..i + 1], c) == LastIndexWithCode(rows[..i], c)
  {
    assert rows[..i + 1][..i] == rows[..i];
  }

  lemma DocForStep(rows: seq<Row>, parseNum: string -> Option<real>, i: nat, c: string)
    requires i < |rows| && c in Codes(rows[..i + 1])
    ensures CodeOf(rows[i]) == Some(c) ==> DocFor(rows[..i + 1], parseNum, c) == Tidy(rows[i], parseNum)
    ensures CodeOf(rows[i]) != Some(c) ==>
      c in Codes(rows[..i]) && DocFor(rows[..i + 1], parseNum, c) == DocFor(rows[..i], parseNum, c)
  {
    LastIndexStep(rows, i, c);
    assert rows[..i + 1][LastIndexWithCode(rows[..i + 1], c)] == rows[LastIndexWithCode(rows[..i + 1], c)];
    if CodeOf(rows[i]) != Some(c) {
      assert rows[..i][LastIndexWithCode(rows[..i], c)] == rows[LastIndexWithCode(rows[..i], c)];
    }
  }

  /** The state of the dedup loop after the first `i` rows: `order` is the key order of
      the `unique` Map and each entry holds the tidied last row so far with that code. */
  ghost predicate DedupState(rows: seq<Row>, parseNum: string -> Option<real>, i: nat,
                             order: seq<string>, unique: map<string, Row>)
    requires i <= |rows|
  {
    DedupOrder(rows, i, order) && DedupKeys(order, unique) && DedupDocs(rows, parseNum, i, unique)
  }

  ghost predicate DedupOrder(rows: seq<Row>, i: nat, order: seq<string>)
    requires i <= |rows|
  {
    order == Distinct(Codes(rows[..i]))
  }

  ghost predicate DedupKeys(order: seq<string>, unique: map<string, Row>) {
    forall c :: c in unique <==> c in order
  }

  ghost predicate DedupDocs(rows: seq<Row>, parseNum: string -> Option<real>, i: nat, unique: map<string, Row>)
    requires i <= |rows|
  {
    forall c :: c in unique && c in Codes(rows[..i]) ==> unique[c] == DocFor(rows[..i], parseNum, c)
  }

  lemma DedupStepNoCode(rows: seq<Row>, parseNum: string -> Option<real>, i: nat,
                        order: seq<string>, unique: map<string, Row>)
    requires i < |rows| && CodeOf(rows[i]).None?
    requires DedupState(rows, parseNum, i, order, unique)
    ensures DedupState(rows, parseNum, i + 1, order, unique)
  {
    CodesStep(rows, i);
    forall c | c in unique && c in Codes(rows[..i + 1])
      ensures unique[c] == DocFor(rows[..i + 1], parseNum, c)
    {
      DocForStep(rows, parseNum, i, c);
    }
  }

  lemma DedupStepCode(rows: seq<Row>, parseNum: string -> Option<real>, i: nat,
                      order: seq<string>, unique: map<string, Row>, c: string)
    requires i < |rows| && CodeOf(rows[i]) == Some(c)
    requires DedupState(rows, parseNum, i, order, unique)
    ensures DedupState(rows, parseNum, i + 1, if c in unique then order else order + [c],
                       unique[c := Tidy(rows[i], parseNum)])
  {
    DedupStepOrder(rows, i, order, unique, c);
    DedupStepDocs(rows, parseNum, i, unique, c);
    DedupStepKeys(order, unique, c, Tidy(rows[i], parseNum));
  }

  lemma DedupStepKeys(order: seq<string>, unique: map<string, Row>, c: string, doc: Row)
    requires DedupKeys(order, unique)
    ensures DedupKeys(if c in unique then order else order + [c], unique[c := doc])
  {
  }

  lemma DedupStepOrder(rows: seq<Row>, i: nat, order: seq<string>, unique: map<string, Row>, c: string)
    requires i < |rows| && CodeOf(rows[i]) == Some(c)
    requires DedupOrder(rows, i, order) && DedupKeys(order, unique)
    ensures DedupOrder(rows, i + 1, if c in unique then order else order + [c])
  {
    CodesStep(rows, i);
    DistinctSnoc(Codes(rows[..i]), c);
  }

  lemma DedupStepDocs(rows: seq<Row>, parseNum: string -> Option<real>, i: nat,
                      unique: map<string, Row>, c: string)
    requires i < |rows| && CodeOf(rows[i]) == Some(c)
    requires DedupDocs(rows, parseNum, i, unique)
    ensures DedupDocs(rows, parseNum, i + 1, unique[c := Tidy(rows[i], parseNum)])
  {
    var unique' := unique[c := Tidy(rows[i], parseNum)];
    forall c' | c' in unique' && c' in Codes(rows[..i + 1])
      ensures unique'[c'] == DocFor(rows[..i + 1], parseNum, c')
    {
      DocForStep(rows, parseNum, i, c');
    }
  }

  /** The `for...of` loop that fills the `unique` Map: `order` is the Map's key order. */
  method Deduplicate(rows: seq<Row>, parseNum: string -> Option<real>) returns (docs: seq<Row>)
    ensures docs == Docs(rows, parseNum)
  {
    var order: seq<string> := [];
    var unique: map<string, Row> := map[];
    for i := 0 to |rows|
      invariant DedupState(rows, parseNum, i, order, unique)
    {
      var row := rows[i];
      var code := CodeOf(row);
      if code.Some? {
        var c := code.value;
        DedupStepCode(rows, parseNum, i, order, unique, c);
        var t := TidyDoc(row, parseNum);
        if c !in unique {
          order := order + [c];
        }
        unique := unique[c := t];
      } else {
        DedupStepNoCode(rows, parseNum, i, order, unique);
      }
    }
    assert rows[..|rows|] == rows;
    docs := seq(|order|, j requires 0 <= j < |order| => unique[order[j]]);
  }

  /** Tidying keeps a row's code. */
  lemma TidyKeepsCode(row: Row, parseNum: string -> Option<real>, c: string)
    requires CodeOf(row) == Some(c)
    ensures CodeOf(Tidy(row, parseNum)) == Some(c) && Get(Tidy(row, parseNum), "code") == Str(c)
  {
    TidyCopiesOtherFields(row, parseNum, "code");
  }

  /** Dedup gives exactly one document per distinct code: document `j` carries the
      `j`-th distinct code, and its contents are `tidy` of the LAST row with that code. */
  lemma DocsLastWins(rows: seq<Row>, parseNum: string -> Option<real>, j: nat)
    requires j < |Docs(rows, parseNum)|
    ensures var c := Distinct(Codes(rows))[j];
      CodeOf(Docs(rows, parseNum)[j]) == Some(c)
      && exists i :: 0 <= i < |rows| && CodeOf(rows[i]) == Some(c)
           && Docs(rows, parseNum)[j] == Tidy(rows[i], parseNum)
           && forall i' :: i < i' < |rows| ==> CodeOf(rows[i']) != Some(c)
  {
    var c := Distinct(Codes(rows))[j];
    var i := LastIndexWithCode(rows, c);
    TidyKeepsCode(rows[i], parseNum, c);
  }

  /** The documents' codes are pairwise distinct and cover every code of the rows. */
  lemma DocsCodesDistinctAndComplete(rows: seq<Row>, parseNum: string -> Option<real>)
    ensures forall j, k :: 0 <= j < k < |Docs(rows, parseNum)| ==>
      CodeOf(Docs(rows, parseNum)[j]) != CodeOf(Docs(rows, parseNum)[k])
    ensures forall i :: 0 <= i < |rows| && CodeOf(rows[i]).Some? ==>
      exists j :: 0 <= j < |Docs(rows, parseNum)| && CodeOf(Docs(rows, parseNum)[j]) == CodeOf(rows[i])
  {
    var docs := Docs(rows, parseNum);
    var order := Distinct(Codes(rows));
    forall j | 0 <= j < |docs| ensures CodeOf(docs[j]) == Some(order[j]) {
      DocsLastWins(rows, parseNum, j);
    }
    forall i | 0 <= i < |rows| && CodeOf(rows[i]).Some?
      ensures exists j :: 0 <= j < |docs| && CodeOf(docs[j]) == CodeOf(rows[i])
    {
      var c := CodeOf(rows[i]).value;
      CodesMember(rows, c);
      assert c in order;
      var j :| 0 <= j < |order| && order[j] == c;
      assert CodeOf(docs[j]) == Some(c);
    }
  }

  /** Documents are ordered by the first appearance of their code among the rows' codes. */
  lemma DocsFirstAppearanceOrder(rows: seq<Row>, parseNum: string -> Option<real>, j: nat, k: nat)
    requires j < k < |Docs(rows, parseNum)|
    ensures CodeOf(Docs(rows, parseNum)[j]).Some? && CodeOf(Docs(rows, parseNum)[k]).Some?
    ensures FirstIndex(Codes(rows), CodeOf(Docs(rows, parseNum)[j]).value)
          < FirstIndex(Codes(rows), CodeOf(Docs(rows, parseNum)[k]).value)
  {
    DocsLastWins(rows, parseNum, j);
    DocsLastWins(rows, parseNum, k);
    DistinctFirstOccurrenceOrder(Codes(rows), j, k);
  }

  /* ---------- 4. the upsert plan and the store ---------- */

  /** One `updateOne` of the bulk write. */
  datatype UpdateOne = UpdateOne(filterCode: Value, setFields: Row, setOnInsert: Row, upsert: bool)

  /** `docs.map(doc => ({ updateOne: { filter: { code: doc.code }, update: { $set: doc,
      $setOnInsert: { createdAt } }, upsert: true } }))`. The source evaluates `new Date()`
      once per document; the model collapses those dates into the one value `createdAt`. */
  function BulkOps(docs: seq<Row>, createdAt: Value): (ops: seq<UpdateOne>)
    ensures |ops| == |docs|
  {
    seq(|docs|, i requires 0 <= i < |docs| =>
      UpdateOne(Get(docs[i], "code"), docs[i], map["createdAt" := createdAt], true))
  }

  /** The stored products, keyed by their `code` value. */
  type Store = map<Value, Row>

  /** One upsert: `$set` merges the document's fields into the match; with no match a new
      record is made from the filter, the schema defaults of the paths the update does not
      set (mongoose's `setDefaultsOnInsert`), the document and the insert-only fields. */
  function ApplyUpdate(store: Store, op: UpdateOne): Store {
    if op.filterCode in store then store[op.filterCode := store[op.filterCode] + op.setFields]
    else if op.upsert then store[op.filterCode := InsertedRecord(op)]
    else store
  }

  /** The record an upsert inserts when nothing matches its filter. */
  function InsertedRecord(op: UpdateOne): Row {
    map["code" := op.filterCode] + ProductModel.SchemaDefaults + op.setFields + op.setOnInsert
  }

  /** The bulk write, one upsert after another. */
  function ApplyAll(store: Store, ops: seq<UpdateOne>): Store
    decreases |ops|
  {
    if ops == [] then store else ApplyAll(ApplyUpdate(store, ops[0]), ops[1..])
  }

  function Filters(ops: seq<UpdateOne>): set<Value> {
    set i | 0 <= i < |ops| :: ops[i].filterCode
  }

  predicate DistinctFilters(ops: seq<UpdateOne>) {
    forall i, j :: 0 <= i < j < |ops| ==> ops[i].filterCode != ops[j].filterCode
  }

  /** Records whose code is in no operation are untouched by the bulk write. */
  lemma {:induction false} ApplyAllOther(store: Store, ops: seq<UpdateOne>, c: Value)
    requires c !in Filters(ops)
    decreases |ops|
    ensures c in ApplyAll(store, ops) <==> c in store
    ensures c in store ==> ApplyAll(store, ops)[c] == store[c]
  {
    if ops != [] {
      assert c != ops[0].filterCode;
      assert Filters(ops[1..]) <= Filters(ops) by {
        forall x | x in Filters(ops[1..]) ensures x in Filters(ops) {
          var i :| 0 <= i < |ops[1..]| && ops[1..][i].filterCode == x;
          assert ops[i + 1].filterCode == x;
        }
      }
      ApplyAllOther(ApplyUpdate(store, ops[0]), ops[1..], c);
    }
  }

  /** With distinct codes, each record ends up as its own upsert made it, whatever the
      order of the other operations. */
  lemma {:induction false} ApplyAllAt(store: Store, ops: seq<UpdateOne>, i: nat)
    requires DistinctFilters(ops) && i < |ops| && ops[i].upsert
    decreases |ops|
    ensures ops[i].filterCode in ApplyAll(store, ops)
    ensures ApplyAll(store, ops)[ops[i].filterCode] == ApplyUpdate(store, ops[i])[ops[i].filterCode]
  {
    var c := ops[i].filterCode;
    if i == 0 {
      ApplyAllOther(ApplyUpdate(store, ops[0]), ops[1..], c);
    } else {
      assert c != ops[0].filterCode;
      ApplyAllAt(ApplyUpdate(store, ops[0]), ops[1..], i - 1);
    }
  }

  /** `Product.find({ code: { $in: codes } })` */
  function FindByCodes(store: Store, ops: seq<UpdateOne>): (r: map<Value, Row>)
    ensures r.Keys == store.Keys * Filters(ops)
    ensures forall c :: c in r ==> r[c] == store[c]
  {
    map c | c in store && c in Filters(ops) :: store[c]
  }

  /** No two documents share a `code` value. */
  predicate KeyedByCode(docs: seq<Row>) {
    forall j, k :: 0 <= j < k < |docs| ==> Get(docs[j], "code") != Get(docs[k], "code")
  }

  /** For documents with distinct codes, each document's upsert decides its record:
      its fields are set, fields it does not carry survive and no key is added to an
      existing record, and a new record also gets the filter's code, the schema defaults
      of the paths the document lacks and the insert-only `createdAt`. */
  lemma UpsertAt(store: Store, docs: seq<Row>, createdAt: Value, j: nat)
    requires KeyedByCode(docs) && j < |docs| && "createdAt" !in docs[j]
    ensures var c := Get(docs[j], "code");
      var after := ApplyAll(store, BulkOps(docs, createdAt));
      c in after
      && (forall k :: k in docs[j] ==> k in after[c] && after[c][k] == docs[j][k])
      && (c in store ==> forall k :: k in store[c] && k !in docs[j] ==> k in after[c] && after[c][k] == store[c][k])
      && (c in store ==> after[c].Keys == store[c].Keys + docs[j].Keys)
      && (c !in store ==> after[c] == map["code" := c] + ProductModel.SchemaDefaults + docs[j] + map["createdAt" := createdAt])
  {
    BulkOpsDistinct(docs, createdAt);
    ApplyAllAt(store, BulkOps(docs, createdAt), j);
  }

  lemma BulkOpsDistinct(docs: seq<Row>, createdAt: Value)
    requires KeyedByCode(docs)
    ensures DistinctFilters(BulkOps(docs, createdAt))
  {
  }

  /** Upserting documents with distinct codes that lack `createdAt` twice is upserting them once. */
  lemma UpsertTwice(store: Store, docs: seq<Row>, createdAt: Value)
    requires KeyedByCode(docs)
    requires forall j :: 0 <= j < |docs| ==> "createdAt" !in docs[j]
    ensures var ops := BulkOps(docs, createdAt);
      ApplyAll(ApplyAll(store, ops), ops) == ApplyAll(store, ops)
  {
    BulkOpsDistinct(docs, createdAt);
    ApplyAllIdempotent(store, BulkOps(docs, createdAt));
  }

  /* ---------- the pipeline ---------- */

  /** The upsert plan `importProducts` builds for its input (empty for a non-array or
      empty input). */
  function ImportPlan(data: Value, parseNum: string -> Option<real>, createdAt: Value): seq<UpdateOne> {
    if data.Arr? && |data.items| > 0
    then BulkOps(Docs(Validated(data.items), parseNum), createdAt)
    else []
  }

  /** `importProducts(data)`: returns the stored records of the imported codes, the store
      after the bulk write, and the 1-based numbers of the skipped rows. */
  method ImportProducts(data: Value, store: Store, parseNum: string -> Option<real>, createdAt: Value)
    returns (result: map<Value, Row>, newStore: Store, skipped: seq<nat>)
    ensures newStore == ApplyAll(store, ImportPlan(data, parseNum, createdAt))
    ensures result == FindByCodes(newStore, ImportPlan(data, parseNum, createdAt))
    ensures !data.Arr? || |data.items| == 0 ==> result == map[] && newStore == store && skipped == []
    ensures data.Arr? && |data.items| > 0 ==> skipped == Skipped(data.items)
  {
    if !data.Arr? || |data.items| == 0 {
      return map[], store, [];
    }
    var validated;
    validated, skipped := ValidateRows(data.items);
    var docs := Deduplicate(validated, parseNum);
    var ops := BulkOps(docs, createdAt);
    newStore := ApplyAll(store, ops);
    result := FindByCodes(newStore, ops);
  }

  /** The bulk write for deduplicated rows has one upsert per distinct code: filter
      `{ code }`, `$set` the document, `createdAt` only on insert, `upsert: true`. */
  lemma PlanShape(rows: seq<Row>, parseNum: string -> Option<real>, createdAt: Value)
    ensures var ops := BulkOps(Docs(rows, parseNum), createdAt);
      var order := Distinct(Codes(rows));
      |ops| == |order| && DistinctFilters(ops)
      && forall j :: 0 <= j < |ops| ==>
           ops[j].filterCode == Str(order[j]) && ops[j].upsert
           && ops[j].setOnInsert == map["createdAt" := createdAt]
           && ops[j].setFields == Docs(rows, parseNum)[j]
  {
    var docs := Docs(rows, parseNum);
    var order := Distinct(Codes(rows));
    forall j | 0 <= j < |docs| ensures Get(docs[j], "code") == Str(order[j]) {
      TidyKeepsCode(rows[LastIndexWithCode(rows, order[j])], parseNum, order[j]);
    }
  }

  lemma DocsKeyed(rows: seq<Row>, parseNum: string -> Option<real>)
    ensures KeyedByCode(Docs(rows, parseNum))
  {
    PlanShape(rows, parseNum, Undefined);
  }

  lemma CreatedAtNotInSchema()
    ensures "createdAt" !in SchemaKeys && "createdAt" != "isActive"
  {
  }

  /** `tidy` adds no key but `isActive`. */
  lemma TidyKeys(doc: Row, parseNum: string -> Option<real>)
    ensures Tidy(doc, parseNum).Keys <= doc.Keys + {"isActive"}
  {
  }

  /** No deduplicated document carries `createdAt`: the schema strips it. */
  lemma DocsLackCreatedAt(data: seq<Value>, parseNum: string -> Option<real>)
    ensures forall j :: 0 <= j < |Docs(Validated(data), parseNum)| ==> "createdAt" !in Docs(Validated(data), parseNum)[j]
  {
    var rows := Validated(data);
    var order := Distinct(Codes(rows));
    forall j | 0 <= j < |order| ensures "createdAt" !in Docs(rows, parseNum)[j] {
      var i := LastIndexWithCode(rows, order[j]);
      assert Docs(rows, parseNum)[j] == Tidy(rows[i], parseNum);
      ValidatedRowsConform(data, i);
      CreatedAtNotInSchema();
      TidyKeys(rows[i], parseNum);
    }
  }

  /** The filters of that bulk write are exactly the codes of the rows. */
  lemma PlanFilters(rows: seq<Row>, parseNum: string -> Option<real>, createdAt: Value)
    ensures Filters(BulkOps(Docs(rows, parseNum), createdAt)) == set c | c in Codes(rows) :: Str(c)
  {
    var ops := BulkOps(Docs(rows, parseNum), createdAt);
    var order := Distinct(Codes(rows));
    PlanShape(rows, parseNum, createdAt);
    forall v | v in Filters(ops) ensures exists c :: c in Codes(rows) && v == Str(c) {
      var j :| 0 <= j < |ops| && ops[j].filterCode == v;
      assert order[j] in order;
    }
    forall c | c in Codes(rows) ensures Str(c) in Filters(ops) {
      assert c in order;
      var j :| 0 <= j < |order| && order[j] == c;
      assert ops[j].filterCode == Str(c);
    }
  }

  /** The import result is exactly the stored records of the codes of the valid rows. */
  lemma ImportResultCodes(data: Value, store: Store, parseNum: string -> Option<real>, createdAt: Value)
    requires data.Arr? && |data.items| > 0
    ensures var plan := ImportPlan(data, parseNum, createdAt);
      FindByCodes(ApplyAll(store, plan), plan).Keys
        == set c | c in Codes(Validated(data.items)) :: Str(c)
  {
    var rows := Validated(data.items);
    var plan := BulkOps(Docs(rows, parseNum), createdAt);
    assert ImportPlan(data, parseNum, createdAt) == plan;
    PlanShape(rows, parseNum, createdAt);
    PlanFilters(rows, parseNum, createdAt);
    var after := ApplyAll(store, plan);
    forall v | v in Filters(plan) ensures v in after {
      var j :| 0 <= j < |plan| && plan[j].filterCode == v;
      ApplyAllAt(store, plan, j);
    }
  }

  /** Last wins at the store: every field the tidied last row with code `c` carries is the
      stored value after the import; a stored field the row did not carry is kept. */
  lemma ImportLastWins(data: Value, store: Store, parseNum: string -> Option<real>, createdAt: Value, j: nat)
    requires data.Arr? && |data.items| > 0
    requires j < |Docs(Validated(data.items), parseNum)|
    ensures var doc := Docs(Validated(data.items), parseNum)[j];
      var c := Get(doc, "code");
      var after := ApplyAll(store, ImportPlan(data, parseNum, createdAt));
      c in after
      && (forall k :: k in doc ==> k in after[c] && after[c][k] == doc[k])
      && (c in store ==> forall k :: k in store[c] && k !in doc ==> k in after[c] && after[c][k] == store[c][k])
      && (c in store ==> after[c].Keys == store[c].Keys + doc.Keys)
      && (c !in store ==> after[c] == map["code" := c] + ProductModel.SchemaDefaults + doc + map["createdAt" := createdAt])
  {
    var rows := Validated(data.items);
    var docs := Docs(rows, parseNum);
    assert ImportPlan(data, parseNum, createdAt) == BulkOps(docs, createdAt);
    DocsKeyed(rows, parseNum);
    DocsLackCreatedAt(data.items, parseNum);
    UpsertAt(store, docs, createdAt, j);
  }

  /** A product the import inserts gets `stockQty` 0 and `tags` [] unless its row carried
      them (a CSV row never can), and the insert-only `createdAt`. */
  lemma ImportInsertsDefaults(data: Value, store: Store, parseNum: string -> Option<real>, createdAt: Value, j: nat)
    requires data.Arr? && |data.items| > 0
    requires j < |Docs(Validated(data.items), parseNum)|
    requires Get(Docs(Validated(data.items), parseNum)[j], "code") !in store
    ensures var doc := Docs(Validated(data.items), parseNum)[j];
      var c := Get(doc, "code");
      var after := ApplyAll(store, ImportPlan(data, parseNum, createdAt));
      c in after
      && Get(after[c], "stockQty") == (if "stockQty" in doc then doc["stockQty"] else Num(0.0))
      && Get(after[c], "tags") == (if "tags" in doc then doc["tags"] else Arr([]))
      && Get(after[c], "createdAt") == createdAt
  {
    var doc := Docs(Validated(data.items), parseNum)[j];
    ImportLastWins(data, store, parseNum, createdAt, j);
    InsertedFields(Get(doc, "code"), doc, createdAt);
  }

  lemma InsertedFields(c: Value, doc: Row, createdAt: Value)
    ensures var r := map["code" := c] + ProductModel.SchemaDefaults + doc + map["createdAt" := createdAt];
      Get(r, "stockQty") == (if "stockQty" in doc then doc["stockQty"] else Num(0.0))
      && Get(r, "tags") == (if "tags" in doc then doc["tags"] else Arr([]))
      && Get(r, "createdAt") == createdAt
  {
  }

  /** Records whose code is not imported are left exactly as they were. */
  lemma ImportLeavesOthers(data: Value, store: Store, parseNum: string -> Option<real>, createdAt: Value, c: Value)
    requires c in store
    requires !c.Str? || c.s !in Codes(if data.Arr? then Validated(data.items) else [])
    ensures var after := ApplyAll(store, ImportPlan(data, parseNum, createdAt));
      c in after && after[c] == store[c]
  {
    var plan := ImportPlan(data, parseNum, createdAt);
    if data.Arr? && |data.items| > 0 {
      PlanFilters(Validated(data.items), parseNum, createdAt);
    }
    ApplyAllOther(store, plan, c);
  }

  /** A second application of the same plan changes nothing. */
  lemma ApplyAllIdempotent(store: Store, ops: seq<UpdateOne>)
    requires DistinctFilters(ops)
    requires forall i :: 0 <= i < |ops| ==> ops[i].upsert && ops[i].setFields.Keys !! ops[i].setOnInsert.Keys
    ensures ApplyAll(ApplyAll(store, ops), ops) == ApplyAll(store, ops)
  {
    var once := ApplyAll(store, ops);
    var twice := ApplyAll(once, ops);
    forall c | c in Filters(ops) ensures c in once && c in twice && twice[c] == once[c] {
      var i :| 0 <= i < |ops| && ops[i].filterCode == c;
      ReapplyAt(store, ops, i);
    }
    forall c | c !in Filters(ops) ensures (c in twice <==> c in once) && (c in once ==> twice[c] == once[c]) {
      ApplyAllOther(store, ops, c);
      ApplyAllOther(once, ops, c);
    }
    assert twice.Keys == once.Keys;
  }

  /** The record of one operation's code is the same after the plan runs a second time. */
  lemma ReapplyAt(store: Store, ops: seq<UpdateOne>, i: nat)
    requires DistinctFilters(ops) && i < |ops| && ops[i].upsert
    requires ops[i].setFields.Keys !! ops[i].setOnInsert.Keys
    ensures var once := ApplyAll(store, ops); var c := ops[i].filterCode;
      c in once && c in ApplyAll(once, ops) && ApplyAll(once, ops)[c] == once[c]
  {
    var once := ApplyAll(store, ops);
    var op := ops[i];
    ApplyAllAt(store, ops, i);
    ApplyAllAt(once, ops, i);
    if op.filterCode in store {
      MergeTwice(store[op.filterCode], op.setFields);
    } else {
      MergeBeforeDisjoint(map["code" := op.filterCode] + ProductModel.SchemaDefaults, op.setFields, op.setOnInsert);
    }
  }

  lemma MergeTwice(m: Row, a: Row)
    ensures (m + a) + a == m + a
  {
  }

  lemma MergeBeforeDisjoint(m: Row, a: Row, b: Row)
    requires a.Keys !! b.Keys
    ensures (m + a + b) + a == m + a + b
  {
  }

  /** Importing the same rows twice leaves the store as importing them once. */
  lemma ImportIdempotent(data: Value, store: Store, parseNum: string -> Option<real>, createdAt: Value)
    ensures var plan := ImportPlan(data, parseNum, createdAt);
      ApplyAll(ApplyAll(store, plan), plan) == ApplyAll(store, plan)
  {
    if data.Arr? && |data.items| > 0 {
      var docs := Docs(Validated(data.items), parseNum);
      assert ImportPlan(data, parseNum, createdAt) == BulkOps(docs, createdAt);
      DocsKeyed(Validated(data.items), parseNum);
      DocsLackCreatedAt(data.items, parseNum);
      UpsertTwice(store, docs, createdAt);
    }
  }
}
