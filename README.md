# Shampoo tracker: a Dafny model of the product, rating and dashboard core

This project models the core of the shampoo tracker, an inventory app for hair-care products.
It has an Express/MongoDB backend and a React dashboard. Five parts are modelled.

- **Product import and export** (`product_import.dfy`, `product_export.dfy`).
  - Import: rows of an uploaded CSV or a JSON body are checked against the zod product schema and tidied. Empty values are dropped, `price` and `stockQty` become numbers, and `isActive` defaults to true. Rows are de-duplicated by `code`, keeping the last row's contents and the first row's position. The result is upserted into the product collection with `$set` / `$setOnInsert`; a newly inserted product also receives the schema defaults (`stockQty` 0, `tags` []) of the paths its row does not set.
  - Export: the Shopify row projection, and the tab-separated "Excel" text.
- **CSV middleware** (`csv_middleware.dfy`).
  - Raw CSV headers are mapped through the alias table: trimmed, lower-cased, then renamed, dropped or kept.
  - Parsed rows are collected into `req.body.products`. A parse error answers 400 "Bad CSV format".
- **Product model** (`product_model.dfy`).
  - The `handle` slug virtual.
  - The mongoose schema's required paths, the 160-character limit on `shortDescription`, and the defaults `stockQty` 0, `isActive` true and the implicit empty array of `tags`.
- **Ratings and content** (`rating_service.dfy`, `rating_controller.dfy`, `content_service.dfy`).
  - Ratings: one rating per (user, content) pair, upserted. The controller's guard chain answers 401/400/200/500.
  - Content: category validation, then create, read, update and delete over the content collection, as the service evidently intends. As written, the service works on the product model; create and update are modelled both ways (see Findings).
- **Dashboard and product form** (`dashboard.dfy`, `product_form.dfy`).
  - Dashboard: search and category filtering, the category list, counters, and row selection.
  - Product form: its state handlers, the create-mode defaults, the volume field, the custom-category box, and the required-field check before saving.

Supporting modules:
- `wrappers.dfy`: `Option`, `Result`.
- `text.dfy`: JavaScript string operations such as `trim`, ASCII `toLowerCase`, `includes`, `join`, `split`, `parseInt` and integer printing.
- `seqs.dfy`: filtering, subsequences and first-occurrence de-duplication.
- `js_value.dfy`: JavaScript values, `??` and truthiness.

Where the source mutates state, the model does too:
- Collections the services update in place are classes: `RatingService.RatingStore`, `ContentService.ContentStore`, `Dashboard.DashboardState` and `ProductForm.ProductFormState`.
- Loops of the source are methods with loop invariants, each proved equal to a specification function: `ValidateRows`, `TidyDoc`, `Deduplicate` and `CsvToProducts`.

## Model

| member | source | states |
|---|---|---|
| ProductImport.SafeParse | backend-app/src/services/importExportService.ts:5-20 | a row parses exactly when it is an object whose `code`/`name` are non-empty strings and whose optional fields have the schema's types; the result keeps only the schema's keys, with their values |
| ProductImport.WithMapAttributes | backend-app/src/services/importExportService.ts:40-43 | a plain `attributes` object of strings becomes a `Map` with exactly the same entries; every other field and the key set are kept |
| ProductImport.ValidateRows | backend-app/src/services/importExportService.ts:35-48 | the loop pushes exactly the parsed rows, in order, and reports the 1-based numbers of the rejected ones |
| ProductImport.ValidatedAndSkippedCount | backend-app/src/services/importExportService.ts:36-47 | every input row is either kept or reported |
| ProductImport.SkippedIffRejected | backend-app/src/services/importExportService.ts:46 | row number n is reported iff 1 <= n <= length and row n fails the schema |
| ProductImport.ValidatedRowsConform | backend-app/src/services/importExportService.ts:37-44 | each kept row has only schema keys and non-empty string `code` and `name` |
| ProductImport.AllValidRowsKept | backend-app/src/services/importExportService.ts:36-44 | when every row parses, all rows are kept and none is reported |
| ProductImport.TextStockQtyRejectsRow | backend-app/src/services/importExportService.ts:18 | a `stockQty` given as text fails `z.number()` and the whole row is skipped |
| ProductImport.TidyDoc | backend-app/src/services/importExportService.ts:52-65 | the `for…of` loop builds exactly `Tidy(doc)` |
| ProductImport.TidyNoEmptyValues | backend-app/src/services/importExportService.ts:55-63 | no "", null or undefined survives; `isActive` is always present, the row's own value when it has one, else true |
| ProductImport.TidyNumbers | backend-app/src/services/importExportService.ts:56-59 | `price`/`stockQty` are kept iff present, non-empty and `Number(v)` is not NaN, and then hold that number |
| ProductImport.TidyDropsUnreadablePrice | backend-app/src/services/importExportService.ts:57-58 | a price that reads as NaN is dropped, not stored |
| ProductImport.TidyCopiesOtherFields | backend-app/src/services/importExportService.ts:61 | every other non-empty field is copied unchanged, and nothing else appears |
| ProductImport.TidyIdempotent | backend-app/src/services/importExportService.ts:52-65 | tidying a tidied document changes nothing |
| ProductImport.TidyKeepsCode | backend-app/src/services/importExportService.ts:52-69 | tidy keeps a row's code |
| ProductImport.CodesMember | backend-app/src/services/importExportService.ts:68-69 | a code is collected iff some row carries it |
| ProductImport.LastIndexWithCode | backend-app/src/services/importExportService.ts:69 | the index found carries the code and no later row does |
| ProductImport.Deduplicate | backend-app/src/services/importExportService.ts:67-71 | the `Map` loop yields exactly `Docs`: one tidied document per distinct code, in first-appearance order |
| ProductImport.DocsLastWins | backend-app/src/services/importExportService.ts:67-71 | each document is the tidied last row with its code |
| ProductImport.DocsCodesDistinctAndComplete | backend-app/src/services/importExportService.ts:67-71 | no two documents share a code, and every row's code has a document |
| ProductImport.DocsFirstAppearanceOrder | backend-app/src/services/importExportService.ts:67-71 | documents follow the order in which their codes first appear |
| ProductImport.BulkOps | backend-app/src/services/importExportService.ts:74-80 | one upsert operation per document |
| ProductImport.PlanShape | backend-app/src/services/importExportService.ts:74-80 | operation j filters on document j's code, upserts, `$set`s the document and `$setOnInsert`s `createdAt`; filters are distinct |
| ProductImport.ApplyAllOther | backend-app/src/services/importExportService.ts:74-82 | a record whose code no operation names is untouched by the bulk write |
| ProductImport.ApplyAllAt | backend-app/src/services/importExportService.ts:74-82 | with distinct filters, each record is decided by its own operation alone |
| ProductImport.UpsertAt | backend-app/src/services/importExportService.ts:74-80 | an upsert sets every field of the document, keeps an existing record's other fields and adds no other key to it (so `createdAt` only on insert), and creates a missing record from its code, the schema defaults of the paths the document lacks, the document and `createdAt` |
| ProductImport.UpsertTwice | backend-app/src/services/importExportService.ts:74-82 | running the same upserts twice gives the store of running them once |
| ProductImport.ApplyAllIdempotent | backend-app/src/services/importExportService.ts:74-82 | bulk upserts with distinct filters and disjoint `$set`/`$setOnInsert` keys are idempotent |
| ProductImport.FindByCodes | backend-app/src/services/importExportService.ts:88-89 | `find({code: {$in: codes}})` returns exactly the stored records with those codes |
| ProductImport.ImportProducts | backend-app/src/services/importExportService.ts:29-90 | the new store is the bulk write of the plan (inserts include the schema defaults `stockQty` 0 and `tags` []) and the result is the stored records of the imported codes; empty or non-array input returns [] and writes nothing; skipped rows are reported |
| ProductImport.DocsKeyed | backend-app/src/services/importExportService.ts:67-71 | the de-duplicated documents have distinct codes |
| ProductImport.TidyKeys | backend-app/src/services/importExportService.ts:52-65 | tidy adds no key except `isActive` |
| ProductImport.DocsLackCreatedAt | backend-app/src/services/importExportService.ts:5-20 | no document carries `createdAt`, so `$setOnInsert` never clashes with `$set` |
| ProductImport.PlanFilters | backend-app/src/services/importExportService.ts:74-88 | the plan's filters are exactly the codes of the valid rows |
| ProductImport.ImportResultCodes | backend-app/src/services/importExportService.ts:88-89 | the returned records are exactly those of the imported codes |
| ProductImport.ImportLastWins | backend-app/src/services/importExportService.ts:67-82 | after import, the record of each code holds the last row's tidied fields; an existing record keeps the fields the row lacks and gains no other key; a new record is the code, the schema defaults under the row's fields, and `createdAt` |
| ProductImport.ImportInsertsDefaults | backend-app/src/services/importExportService.ts:74-82 | a product the import inserts has `stockQty` 0 and `tags` [] unless its row carried them, and `createdAt` |
| ProductImport.ImportLeavesOthers | backend-app/src/services/importExportService.ts:74-82 | records of codes not in the import are unchanged |
| ProductImport.ImportIdempotent | backend-app/src/services/importExportService.ts:29-89 | importing the same data twice leaves the store as importing it once |
| CsvMiddleware.MapHeader | backend-app/src/middleware/csv.middleware.ts:9-25 | unknown keys keep the raw header, `""`/`barcode` drop the column, aliases rename to their product field |
| CsvMiddleware.MapHeadersShape | backend-app/src/middleware/csv.middleware.ts:44-50 | the header row keeps its length; a column is ignored exactly when its trimmed, lower-cased header is blank or `barcode`; every other column is named by its raw header or by a product field |
| CsvMiddleware.AliasIgnoresPaddingAndCase | backend-app/src/middleware/csv.middleware.ts:46 | surrounding whitespace and ASCII case do not change the alias key |
| CsvMiddleware.PaddedUpperSkuIsCode | backend-app/src/middleware/csv.middleware.ts:13 | a header " SKU " (any padding) becomes `code` in the `headers` callback; with `trim: true` an uploaded header arrives already trimmed |
| CsvMiddleware.DroppedHeaders | backend-app/src/middleware/csv.middleware.ts:11-12 | blank and `barcode` columns are dropped |
| CsvMiddleware.RenamedHeaders | backend-app/src/middleware/csv.middleware.ts:13-24 | `sku`/`code` become `code`, `ml` becomes `volume`, `stock` becomes `stockQty` |
| CsvMiddleware.KeyOfPlain | backend-app/src/middleware/csv.middleware.ts:46 | a header with no whitespace and no upper-case letter is looked up under itself |
| CsvMiddleware.UnknownHeaderKept | backend-app/src/middleware/csv.middleware.ts:49 | the `headers` callback keeps a header with no alias verbatim, padding included (an uploaded header is already trimmed by `trim: true`) |
| CsvMiddleware.UnknownHeaderExample | backend-app/src/middleware/csv.middleware.ts:49 | the callback keeps " Weight " as " Weight "; an upload would hand it "Weight" |
| CsvMiddleware.AliasLookupAsWritten | backend-app/src/middleware/csv.middleware.ts:46 | the object lookup finds own entries, and the inherited prototype members for `constructor`/`__proto__` |
| CsvMiddleware.ConstructorHeaderCounterexample | backend-app/src/middleware/csv.middleware.ts:46-49 | as written, the header "constructor" maps to the inherited function, not to itself |
| CsvMiddleware.AsWrittenAgreesElsewhere | backend-app/src/middleware/csv.middleware.ts:46-49 | for every other header, the code as written and `MapHeader` agree |
| CsvMiddleware.FirstError | backend-app/src/middleware/csv.middleware.ts:56 | there is no error iff every event is a data row |
| CsvMiddleware.CsvToProducts | backend-app/src/middleware/csv.middleware.ts:33-66 | no file: `next` with the body unchanged; clean parse: `products` is every row in stream order; any error: 400 "Bad CSV format" with the first error |
| CsvMiddleware.ProductsAppend | backend-app/src/middleware/csv.middleware.ts:57 | collecting rows distributes over concatenated streams |
| CsvMiddleware.ProductsOnePerRow | backend-app/src/middleware/csv.middleware.ts:57-61 | an error-free stream yields one product per row, row i as product i |
| CsvMiddleware.CsvStockColumnRejectsRow | backend-app/src/middleware/csv.middleware.ts:24 | a CSV `stock` column arrives as text, so the importer's schema rejects every such row |
| ProductExport.ExportSelection | backend-app/src/services/importExportService.ts:110-113 | a non-empty request exports the same file whatever is stored; an empty request exports what naming the whole collection would; nothing is exported only when both are empty |
| ProductExport.ShopifyRowOf | backend-app/src/services/importExportService.ts:115-124 | the row's fields are the lower-cased code, name, description/brand/price defaulting to "", stockQty defaulting to 0; it fails iff `code` is neither nullish nor a string, or `tags` is neither nullish nor an array |
| ProductExport.ShopifyRowsPerProduct | backend-app/src/services/importExportService.ts:115-124 | the projection succeeds iff every product projects, and gives one row per product in order |
| ProductExport.HandleIsLowerCode | backend-app/src/services/importExportService.ts:116 | the handle has the code's length and no upper-case letter |
| ProductExport.ShopifyDefaults | backend-app/src/services/importExportService.ts:116-122 | a product without those fields gets the documented defaults |
| ProductExport.ShopifyTags | backend-app/src/services/importExportService.ts:123 | tags are joined with ", " |
| ProductExport.ShopifyTagsAsTextThrows | backend-app/src/services/importExportService.ts:123 | a product whose `tags` is a string makes the whole export throw |
| ProductExport.ExcelReadsBack | backend-app/src/services/importExportService.ts:163-168 | when no cell holds a tab or newline, splitting the text on newlines gives the header and one line per product, and each line splits into its eight cells |
| ProductExport.ExcelEmpty | backend-app/src/services/importExportService.ts:164-168 | no products gives the header and a newline |
| ProductExport.ExcelTabInCellBreaksColumns | backend-app/src/services/importExportService.ts:165 | a tab inside a cell yields more than eight columns |
| ProductExport.ExcelCellValues | backend-app/src/services/importExportService.ts:165 | `isActive` true prints "true"; a missing brand prints "" |
| ProductModel.KeepSlugChars | backend-app/src/models/productModel.ts:58 | the result is exactly the input's `a-z`, `0-9` and `-` characters, all of them, in their order |
| ProductModel.Handle | backend-app/src/models/productModel.ts:54-59 | no name gives no handle; a handle holds only slug characters |
| ProductModel.HandleIdempotent | backend-app/src/models/productModel.ts:54-59 | the handle of a handle is itself |
| ProductModel.WhitespaceRunBecomesOneHyphen | backend-app/src/models/productModel.ts:57 | a whole run of whitespace becomes exactly one hyphen |
| ProductModel.HandleOfWords | backend-app/src/models/productModel.ts:54-59 | words of letters and digits separated by blank runs become the lower-cased words joined by "-" |
| ProductModel.SchemaErrors | backend-app/src/models/productModel.ts:28-32 | no error iff `code` and `name` are present and non-empty and `shortDescription` has at most 160 characters |
| ProductModel.WithDefaults | backend-app/src/models/productModel.ts:43-49 | undefined `stockQty` becomes 0, undefined `isActive` becomes true and undefined `tags` becomes []; every other path is kept |
| ProductModel.DefaultsUnderDefinedFields | backend-app/src/models/productModel.ts:43-49 | for a document with no undefined value, the defaults are exactly the schema defaults overlaid by the document |
| ProductModel.Save | backend-app/src/models/productModel.ts:24-52 | saving succeeds iff no validator fails, and then stores the defaulted document; otherwise it reports the failures |
| ProductModel.SaveCodeAndNameOnly | backend-app/src/models/productModel.ts:24-52 | a product with only code and name is stored with `stockQty` 0, `isActive` true and `tags` [] |
| ProductModel.DefaultsKeepValidatedPaths | backend-app/src/models/productModel.ts:28-49 | defaults never affect validation |
| ProductModel.MissingCodeOrNameRefused | backend-app/src/models/productModel.ts:28-31 | a missing or empty code or name is refused, naming that path |
| ProductModel.ShortDescriptionBoundary | backend-app/src/models/productModel.ts:32 | 160 characters pass, 161 fail with the max-length error alone |
| RatingService.FindRating | backend-app/src/services/ratingService.ts:9-12 | finds the first rating of the pair, or none iff no rating has that pair |
| RatingService.ByContent | backend-app/src/services/ratingService.ts:29-31 | exactly the ratings of that content, in stored order |
| RatingService.ByUser | backend-app/src/services/ratingService.ts:33-35 | exactly the ratings by that user, in stored order |
| RatingService.RatingStore.RateContent | backend-app/src/services/ratingService.ts:3-27 | an in-range value overwrites the pair's rating or appends one and returns (user, content, value); an out-of-range value is refused and nothing changes; the store keeps one rating per pair, each in [1, 5] |
| RatingService.RatedKeepsRange | backend-app/src/models/ratingModel.ts:14 | rating with an in-range value keeps every stored value within the schema's min 1 and max 5 |
| RatingService.RatingStore.RatingsByContent | backend-app/src/services/ratingService.ts:29-31 | returns the content filter of the stored ratings |
| RatingService.RatingStore.RatingsByUser | backend-app/src/services/ratingService.ts:33-35 | returns the user filter of the stored ratings |
| RatingService.RatedOverwrites | backend-app/src/services/ratingService.ts:14-17 | an existing pair keeps the count; only its value changes |
| RatingService.RatedAdds | backend-app/src/services/ratingService.ts:18-25 | a new pair appends exactly one rating |
| RatingService.RatedHoldsValue | backend-app/src/services/ratingService.ts:16-25 | afterwards the collection holds (user, content, value) |
| RatingService.RatedLeavesOtherPairs | backend-app/src/services/ratingService.ts:9-26 | ratings of every other pair are unchanged, in order |
| RatingService.RatedKeepsUnique | backend-app/src/services/ratingService.ts:9-26 | at most one rating per pair is preserved |
| RatingService.RatedIdempotent | backend-app/src/services/ratingService.ts:9-17 | rating twice with the same value equals rating once |
| RatingController.RateContent | backend-app/src/controllers/ratingController.ts:4-35 | the status is one of 200/400/401/500, and any non-200 answer leaves the ratings unchanged |
| RatingController.RatingsByContent | backend-app/src/controllers/ratingController.ts:37-48 | 200 with exactly that content's ratings, or 500 with the error message |
| RatingController.RatingsByUser | backend-app/src/controllers/ratingController.ts:50-58 | 200 with exactly that user's ratings, or 500 with the error message |
| RatingController.GuardAcceptsExactlyRange | backend-app/src/controllers/ratingController.ts:16 | the guard passes exactly the numbers in [1, 5] |
| RatingController.NoUserIs401 | backend-app/src/controllers/ratingController.ts:11-14 | no user id: 401 "User not authenticated", nothing rated |
| RatingController.BadRatingIs400 | backend-app/src/controllers/ratingController.ts:16-21 | with a user, 400 "Rating must be a number between 1 and 5" iff the rating is not a number in [1, 5] |
| RatingController.AcceptedIsRated | backend-app/src/controllers/ratingController.ts:23-31 | a good rating is stored through the service and returned with 200 |
| RatingController.HalfStarAccepted | backend-app/src/controllers/ratingController.ts:16 | 2.5 passes the guard |
| RatingController.ServiceErrorIs500 | backend-app/src/controllers/ratingController.ts:32-34 | a service failure answers 500 with its message and stores nothing |
| ContentService.CreateChecked | backend-app/src/services/productService.ts:5-35 | a category outside the four is refused with the listing message; an accepted record is exactly the five request fields, stored iff the content schema's required fields are present |
| ContentService.MissingPaths | backend-app/src/models/contentModel.ts:14-22 | no error iff all five required content fields are present |
| ContentService.InvalidCategoryMessageText | backend-app/src/services/productService.ts:20-22 | the message is "Invalid category. Must be one of: game, video, artwork, music" |
| ContentService.CategoryAllowedExactly | backend-app/src/services/productService.ts:9-19 | only the strings "game", "video", "artwork", "music" pass, case-sensitively |
| ContentService.CreateContentAsWritten | backend-app/src/services/productService.ts:3-35 | a bad category fails with the listing message |
| ContentService.CreateContentAsWrittenNeverSucceeds | backend-app/src/services/productService.ts:3-35 | as written every create fails: a good category meets the product schema's required `code` and `name` |
| ContentService.FilledRequestAccepted | backend-app/src/services/productService.ts:5-35 | with the content schema, a request whose five fields are non-empty strings and whose category is one of the four is stored as exactly those five fields |
| ContentService.GameContentCounterexample | backend-app/src/services/productService.ts:26-34 | the test suite's "game" request is refused as written and accepted by the corrected create |
| ContentService.Updated | backend-app/src/services/productService.ts:66-71 | each of the five content fields is overwritten when the update defines it and kept otherwise |
| ContentService.UpdateAsWritten | backend-app/src/services/productService.ts:66-71 | as written, the update keeps only the product schema's paths of the request; every other stored field is kept |
| ContentService.TitleUpdateIgnoredAsWritten | backend-app/src/services/productService.ts:66-71 | as written, an update of the title alone leaves the stored document unchanged, while the intended update overwrites the title |
| ContentService.UpdateIdempotent | backend-app/src/services/productService.ts:66-71 | applying the same update twice equals once |
| ContentService.EmptyUpdateKeeps | backend-app/src/services/productService.ts:66-71 | an update with no content fields changes nothing |
| ContentService.ContentStore.CreateContent | backend-app/src/services/productService.ts:5-35 | a refused request stores nothing; an accepted one is stored under a new id and returned |
| ContentService.ContentStore.GetContentById | backend-app/src/services/productService.ts:62-64 | the record, or none when the id is absent |
| ContentService.ContentStore.UpdateContentById | backend-app/src/services/productService.ts:66-71 | the updated record is stored and returned, or none and no change when the id is absent |
| ContentService.ContentStore.DeleteContentById | backend-app/src/services/productService.ts:73-76 | returns true iff the id was present; the record is gone afterwards |
| Dashboard.Filtered | react-app/src/pages/Dashboard.tsx:213-222 | a product is shown iff it is in the list and matches both the search and the category |
| Dashboard.FilteredIsSubsequence | react-app/src/pages/Dashboard.tsx:213 | the filtered list is an order-preserving subsequence of the products |
| Dashboard.EmptySearchKeepsAll | react-app/src/pages/Dashboard.tsx:213-222 | an empty term with "all" shows every product |
| Dashboard.CategoryFilterExact | react-app/src/pages/Dashboard.tsx:219-220 | a chosen category keeps only products whose category equals it exactly |
| Dashboard.SearchIgnoresTermCase | react-app/src/pages/Dashboard.tsx:214-218 | the term's case does not matter |
| Dashboard.NameMatchFound | react-app/src/pages/Dashboard.tsx:215 | a name containing the term, case aside, matches |
| Dashboard.CategoryList | react-app/src/pages/Dashboard.tsx:226 | exactly the non-empty categories of the products |
| Dashboard.Categories | react-app/src/pages/Dashboard.tsx:225-227 | no duplicates; exactly the non-empty categories present |
| Dashboard.CategoriesInFirstAppearanceOrder | react-app/src/pages/Dashboard.tsx:225-227 | categories follow their first appearance |
| Dashboard.CountersBounded | react-app/src/pages/Dashboard.tsx:230-232 | the active and low-stock counters never exceed the product count |
| Dashboard.CountersOfAppended | react-app/src/pages/Dashboard.tsx:231-232 | one more product raises a counter by one exactly when it is active / has fewer than 10 in stock |
| Dashboard.Toggle | react-app/src/pages/Dashboard.tsx:192-197 | the id flips membership; no other id changes |
| Dashboard.ToggleTwice | react-app/src/pages/Dashboard.tsx:191-200 | toggling the same id twice restores the selection |
| Dashboard.DashboardState.SelectProduct | react-app/src/pages/Dashboard.tsx:191-200 | toggles the id; "select all" is on iff the selection is as large as the filtered list |
| Dashboard.DashboardState.SelectAllToggle | react-app/src/pages/Dashboard.tsx:202-210 | from on: empty selection, off; from off: exactly the filtered ids, on |
| ProductForm.CreateDefaults | react-app/src/components/modals/product-form-modal.tsx:70-89 | price "0", volume "0mL", stockQty 0, isActive true, empty tags, `attributes` an empty plain object, blank name and code |
| ProductForm.VolumeOfNumberText | react-app/src/components/modals/product-form-modal.tsx:286-288 | text starting with an integer, followed by anything but a digit, gives that integer |
| ProductForm.VolumeReadsBack | react-app/src/components/modals/product-form-modal.tsx:104-109 | the stored `"<n>mL"` reads back through `parseInt` as n |
| ProductForm.UnreadableVolumeIsZero | react-app/src/components/modals/product-form-modal.tsx:286-288 | unparsable input stores "0mL" |
| ProductForm.MissingFields | react-app/src/components/modals/product-form-modal.tsx:146-148 | names exactly the blank fields, name before code |
| ProductForm.CustomCategoryText | react-app/src/components/modals/product-form-modal.tsx:244-256 | shows the category iff it is non-empty and not a preset, else "" |
| ProductForm.CustomCategoryExamples | react-app/src/components/modals/product-form-modal.tsx:244-256 | "Hair Oil", "" and undefined show nothing; any other non-empty string shows itself |
| ProductForm.ProductFormState.Reset | react-app/src/components/modals/product-form-modal.tsx:67-91 | update with a product loads it; create loads the defaults |
| ProductForm.ProductFormState.HandleInput | react-app/src/components/modals/product-form-modal.tsx:93-95 | only the named key changes |
| ProductForm.ProductFormState.HandleVolumeChange | react-app/src/components/modals/product-form-modal.tsx:104-109 | only `volume` changes, to `"<n>mL"` |
| ProductForm.ProductFormState.SaveProduct | react-app/src/components/modals/product-form-modal.tsx:139-157 | create mode with blank fields alerts and sends nothing; otherwise POST (create) or PUT (update) to the right URL |
| ProductForm.BlankFormAlertsBoth | react-app/src/components/modals/product-form-modal.tsx:145-156 | a fresh create form names "Product name" then "Product code" |
| ProductForm.BlankIffOnlyWhitespace | react-app/src/components/modals/product-form-modal.tsx:147-148 | a field is blank iff it is only whitespace |
| ProductForm.UrlHasIdOnlyOnUpdate | react-app/src/components/modals/product-form-modal.tsx:140-143 | POST iff create; the URL gets `/<id>` only when updating an existing product |

## Left out

- The CSV library. @fast-csv/parse tokenising and @fast-csv/format quoting are not modelled.
  - The parse is a sequence of events, data rows or errors. Duplicate-header and column-count errors are among the errors; the model does not derive which text yields them.
  - `exportForShopify` ends at the rows it writes into the formatter.
  - The multer upload is not modelled.
- MongoDB and mongoose.
  - Collections are values or class fields. `bulkWrite` is a sequence of single upserts that always succeed. In the code, a failed write (a duplicate `barcode` under the unique index, say) makes the unordered `bulkWrite` reject after the other upserts are applied, so the whole import throws; the model has no write errors because that index is not modelled. The log line, whose `hasWriteErrors.length` is the arity of a method rather than an error count, is left out.
  - `find` results are maps keyed by code, not ordered lists.
  - `populate` of user names and content titles is not modelled.
  - `getAllContent`'s `$lookup`/`$avg` aggregation is not modelled.
  - The unique/sparse `barcode` index is not modelled.
  - ObjectIds are natural numbers issued by a counter, so a malformed id (a cast error in mongoose) cannot be expressed.
  - Casting of values to a path's type is not modelled (say, a numeric string for `stockQty`). Validators see the values as given.
- Timestamps. `new Date()`, `created_at` and mongoose's `timestamps` are not modelled; `createdAt` is an opaque value supplied by the caller.
- Floating point. Numbers are reals. `Number(text)` and number printing are parameters (`parseNum`, `fmt`). NaN appears only as the `None` of `Number(text)`; JS rounding is not modelled. Also not modelled: the dashboard's `totalValue`, the price field's `parseFloat`, and `handlePriceChange`.
- Unicode. `toLowerCase` is ASCII-only, and `includes` compares characters, not UTF-16 units.
- RatingController.RateContent: `req.user.id` on a missing `req.user` throws, which answers 500. The model takes the id as given (`None` for absent). The auth middleware, JWT and bcrypt are not modelled.
- ContentService.ContentStore.GetContentById and ContentService.ContentStore.DeleteContentById: they model the content collection the service means. As written, `findById` and `findByIdAndDelete` run on the product collection, and that as-written lookup and delete are not modelled.
- RatingService.RatingStore.RateContent: database failures other than the range check are left out. The controller takes a failure as a parameter.
- ProductForm.Blank: a non-string `name`/`code` would throw in `trim()`. The model treats it as blank. The form only ever stores strings there.
- The form's `fetch`, its response alert, `generateDescription`, `localStorage` and the other modals are not modelled.
- The Express routes, Swagger, the seed/drop scripts, the product controller and the unused `react-app/shampoo-dashboard.tsx` prototype are not modelled.
- The Excel export. The code writes tab-separated lines with a tab-joined header, and the model follows the code. The model does not describe this export as comma-separated.

## Findings

| source | as written | input that shows it | evidently intended | confidence | as-written member | corrected member |
|---|---|---|---|---|---|---|
| backend-app/src/middleware/csv.middleware.ts:46-49 | `alias[key]` looks up a plain object, so keys inherited from `Object.prototype` are found | a CSV header "constructor" (or "__proto__") | a header without an alias is kept verbatim | not executed | CsvMiddleware.ConstructorHeaderCounterexample | CsvMiddleware.MapHeader |
| backend-app/src/services/productService.ts:3 | `Content` is the product model, whose schema requires `code` and `name` and has no title or URL paths | the content test's request: title, description, category "game", thumbnail_url, content_url | the record is validated by the content schema and stored (the test expects 201) | not executed | ContentService.CreateContentAsWrittenNeverSucceeds | ContentService.CreateChecked |
| backend-app/src/services/productService.ts:70 | `findByIdAndUpdate` runs through the product model, whose strict schema drops the paths it does not declare | `updateContentById(id, {title: "New"})` | the content record's title becomes "New" | not executed | ContentService.TitleUpdateIgnoredAsWritten | ContentService.Updated |
