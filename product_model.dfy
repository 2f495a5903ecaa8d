/**
 * The product document (backend-app/src/models/productModel.ts): the `handle` virtual,
 * a URL slug derived from the name, and the schema's required fields, length limit and
 * defaults applied when a product is saved.
 */
module ProductModel {
  import opened Wrappers
  import opened Text
  import opened Seqs
  import opened JsValue

  /* ---------- the `handle` virtual ---------- */

  /** `.replace(/\s+/g, "-")`: every maximal run of whitespace becomes one hyphen. */
  function CollapseWs(s: string): (r: string)
    decreases |s|
  {
    if s == [] then []
    else if IsJsWhitespace(s[0]) then "-" + CollapseWs(TrimStart(s[1..]))
    else [s[0]] + CollapseWs(s[1..])
  }

  /** The characters `[a-z0-9\-]` the slug keeps. */
  predicate IsSlugChar(c: char) {
    'a' <= c <= 'z' || '0' <= c <= '9' || c == '-'
  }

  /** `.replace(/[^a-z0-9\-]/g, "")` */
  function KeepSlugChars(s: string): (r: string)
    ensures forall i :: 0 <= i < |r| ==> IsSlugChar(r[i])
    ensures |r| <= |s|
    ensures r == Filter(s, IsSlugChar)
  {
    if s == [] then []
    else (if IsSlugChar(s[0]) then [s[0]] else []) + KeepSlugChars(s[1..])
  }

  /** `this.name?.toLowerCase().replace(...).replace(...)`; no name gives no handle. */
  function Handle(name: Option<string>): (r: Option<string>)
    ensures r.None? <==> name.None?
    ensures r.Some? ==> forall i :: 0 <= i < |r.value| ==> IsSlugChar(r.value[i])
  {
    match name
    case None => None
    case Some(n) => Some(KeepSlugChars(CollapseWs(AsciiLower(n))))
  }

  /** A string with no whitespace goes through the hyphen step unchanged. */
  lemma {:induction false} CollapseNoWs(s: string)
    requires forall i :: 0 <= i < |s| ==> !IsJsWhitespace(s[i])
    ensures CollapseWs(s) == s
  {
    if s != [] {
      CollapseNoWs(s[1..]);
      assert [s[0]] + s[1..] == s;
    }
  }

  lemma {:induction false} KeepAllSlugChars(s: string)
    requires forall i :: 0 <= i < |s| ==> IsSlugChar(s[i])
    ensures KeepSlugChars(s) == s
  {
    if s != [] {
      KeepAllSlugChars(s[1..]);
      assert [s[0]] + s[1..] == s;
    }
  }

  lemma LowerOfLower(s: string)
    requires forall i :: 0 <= i < |s| ==> !('A' <= s[i] <= 'Z')
    ensures AsciiLower(s) == s
  {
    assert forall i :: 0 <= i < |s| ==> LowerChar(s[i]) == s[i];
  }

  /** The handle of a handle is itself: a slug already holds only `a-z`, `0-9` and `-`. */
  lemma HandleIdempotent(name: Option<string>)
    ensures Handle(Handle(name)) == Handle(name)
  {
    if name.Some? {
      var h := Handle(name).value;
      LowerOfLower(h);
      CollapseNoWs(h);
      KeepAllSlugChars(h);
    }
  }

  /** One maximal whitespace run between two pieces becomes exactly one hyphen:
      a word, the run, and whatever follows starting with a non-blank. */
  lemma {:induction false} WhitespaceRunBecomesOneHyphen(word: string, run: string, rest: string)
    requires forall i :: 0 <= i < |word| ==> !IsJsWhitespace(word[i])
    requires run != [] && AllWhitespace(run)
    requires rest == [] || !IsJsWhitespace(rest[0])
    ensures CollapseWs(word + run + rest) == word + "-" + CollapseWs(rest)
  {
    if word == [] {
      assert word + run + rest == run + rest;
      assert (run + rest)[1..] == run[1..] + rest;
      TrimStartPadded(run[1..], rest);
      if AllWhitespace(rest) {
        assert rest == [];
      }
    } else {
      assert (word + run + rest)[1..] == word[1..] + run + rest;
      WhitespaceRunBecomesOneHyphen(word[1..], run, rest);
      assert [word[0]] + word[1..] == word;
    }
  }

  /** "Anti Dandruff  Shampoo" becomes "anti-dandruff-shampoo": each blank run is one
      hyphen, and capitals are lowered, not dropped. */
  lemma {:induction false} HandleOfWords(words: seq<string>, runs: seq<string>)
    requires |words| >= 1 && |runs| == |words| - 1
    requires forall k :: 0 <= k < |words| ==> forall i :: 0 <= i < |words[k]| ==> IsAsciiAlnum(words[k][i])
    requires forall k :: 1 <= k < |words| ==> words[k] != []
    requires forall k :: 0 <= k < |runs| ==> runs[k] != [] && AllWhitespace(runs[k])
    ensures Handle(Some(Interleave(words, runs))) == Some(Join(LowerAll(words), "-"))
  {
    var s := Interleave(words, runs);
    LowerInterleave(words, runs);
    CollapseInterleave(LowerAll(words), runs);
    KeepAllSlugChars(Join(LowerAll(words), "-"));
  }

  predicate IsAsciiAlnum(c: char) {
    'a' <= c <= 'z' || 'A' <= c <= 'Z' || '0' <= c <= '9'
  }

  /** The words with the blank runs between them. */
  function Interleave(words: seq<string>, runs: seq<string>): string
    requires |words| >= 1 && |runs| == |words| - 1
  {
    if |words| == 1 then words[0] else words[0] + runs[0] + Interleave(words[1..], runs[1..])
  }

  function LowerAll(words: seq<string>): (r: seq<string>)
    ensures |r| == |words|
    ensures forall k :: 0 <= k < |words| ==> r[k] == AsciiLower(words[k])
  {
    seq(|words|, k requires 0 <= k < |words| => AsciiLower(words[k]))
  }

  lemma {:induction false} LowerInterleave(words: seq<string>, runs: seq<string>)
    requires |words| >= 1 && |runs| == |words| - 1
    requires forall k :: 0 <= k < |runs| ==> AllWhitespace(runs[k])
    ensures AsciiLower(Interleave(words, runs)) == Interleave(LowerAll(words), runs)
  {
    if |words| == 1 {
    } else {
      LowerInterleave(words[1..], runs[1..]);
      assert LowerAll(words[1..]) == LowerAll(words)[1..];
      LowerConcat(words[0] + runs[0], Interleave(words[1..], runs[1..]));
      LowerConcat(words[0], runs[0]);
      LowerOfBlank(runs[0]);
    }
  }

  lemma LowerConcat(a: string, b: string)
    ensures AsciiLower(a + b) == AsciiLower(a) + AsciiLower(b)
  {
  }

  lemma LowerOfBlank(s: string)
    requires AllWhitespace(s)
    ensures AsciiLower(s) == s
  {
    assert forall i :: 0 <= i < |s| ==> LowerChar(s[i]) == s[i];
  }

  lemma {:induction false} CollapseInterleave(words: seq<string>, runs: seq<string>)
    requires |words| >= 1 && |runs| == |words| - 1
    requires forall k :: 0 <= k < |words| ==> forall i :: 0 <= i < |words[k]| ==> IsSlugChar(words[k][i])
    requires forall k :: 1 <= k < |words| ==> words[k] != []
    requires forall k :: 0 <= k < |runs| ==> runs[k] != [] && AllWhitespace(runs[k])
    ensures CollapseWs(Interleave(words, runs)) == Join(words, "-")
    ensures forall i :: 0 <= i < |Join(words, "-")| ==> IsSlugChar(Join(words, "-")[i])
  {
    if |words| == 1 {
      CollapseNoWs(words[0]);
    } else {
      var rest := Interleave(words[1..], runs[1..]);
      CollapseInterleave(words[1..], runs[1..]);
      InterleaveStartsWithWord(words[1..], runs[1..]);
      assert words[0] + runs[0] + rest == words[0] + runs[0] + rest;
      WhitespaceRunBecomesOneHyphen(words[0], runs[0], rest);
    }
  }

  lemma InterleaveStartsWithWord(words: seq<string>, runs: seq<string>)
    requires |words| >= 1 && |runs| == |words| - 1 && words[0] != []
    ensures Interleave(words, runs) != [] && Interleave(words, runs)[0] == words[0][0]
  {
  }

  /* ---------- the schema ---------- */

  /** A validation failure on one path. */
  datatype SchemaError = Required(path: string) | MaxLength(path: string, limit: nat)

  const ShortDescriptionLimit: nat := 160

  /** Mongoose's `required` for a string path: set, not null and not "". */
  predicate Present(v: Value) {
    !IsNullish(v) && v != Str("")
  }

  /** The failures of the schema's validators, in path order. */
  function SchemaErrors(doc: Row): (errs: seq<SchemaError>)
    ensures errs == [] <==>
      Present(Get(doc, "code")) && Present(Get(doc, "name"))
      && !(Get(doc, "shortDescription").Str? && |Get(doc, "shortDescription").s| > ShortDescriptionLimit)
  {
    (if Present(Get(doc, "code")) then [] else [Required("code")])
    + (if Present(Get(doc, "name")) then [] else [Required("name")])
    + (if Get(doc, "shortDescription").Str? && |Get(doc, "shortDescription").s| > ShortDescriptionLimit
       then [MaxLength("shortDescription", ShortDescriptionLimit)] else [])
  }

  /** The schema's defaults: `stockQty` 0, `isActive` true, and the empty array every
      array path such as `tags` gets implicitly. */
  const SchemaDefaults: Row := map["stockQty" := Num(0.0), "isActive" := Bool(true), "tags" := Arr([])]

  /** Defaults fill the defaulted paths that are `undefined`; every other path is kept. */
  function WithDefaults(doc: Row): (r: Row)
    ensures r.Keys == doc.Keys + {"stockQty", "isActive", "tags"}
    ensures Get(r, "stockQty") == if Get(doc, "stockQty").Undefined? then Num(0.0) else doc["stockQty"]
    ensures Get(r, "isActive") == if Get(doc, "isActive").Undefined? then Bool(true) else doc["isActive"]
    ensures Get(r, "tags") == if Get(doc, "tags").Undefined? then Arr([]) else doc["tags"]
    ensures forall k :: k in doc && k != "stockQty" && k != "isActive" && k != "tags" ==> r[k] == doc[k]
  {
    var d1 := if Get(doc, "stockQty").Undefined? then doc["stockQty" := Num(0.0)] else doc;
    var d2 := if Get(d1, "isActive").Undefined? then d1["isActive" := Bool(true)] else d1;
    if Get(d2, "tags").Undefined? then d2["tags" := Arr([])] else d2
  }

  /** For a document none of whose values is `undefined`, the defaults sit under the
      document's own fields, as the insert of an upsert places them. */
  lemma DefaultsUnderDefinedFields(doc: Row)
    requires forall k :: k in doc ==> !doc[k].Undefined?
    ensures WithDefaults(doc) == SchemaDefaults + doc
  {
  }

  /** Saving a document: the defaults are applied, then the validators run. */
  function Save(doc: Row): (r: Result<Row, seq<SchemaError>>)
    ensures r.Success? <==> SchemaErrors(doc) == []
    ensures r.Success? ==> r.value == WithDefaults(doc)
    ensures r.Failure? ==> r.error == SchemaErrors(doc)
  {
    var d := WithDefaults(doc);
    DefaultsKeepValidatedPaths(doc);
    if SchemaErrors(d) == [] then Success(d) else Failure(SchemaErrors(d))
  }

  /** A product saved with only a code and a name is stored with every default. */
  lemma SaveCodeAndNameOnly()
    ensures Save(map["code" := Str("A1"), "name" := Str("Shampoo")])
      == Success(map["code" := Str("A1"), "name" := Str("Shampoo"), "stockQty" := Num(0.0),
                     "isActive" := Bool(true), "tags" := Arr([])])
  {
    var doc := map["code" := Str("A1"), "name" := Str("Shampoo")];
    var stored := map["code" := Str("A1"), "name" := Str("Shampoo"), "stockQty" := Num(0.0),
                      "isActive" := Bool(true), "tags" := Arr([])];
    assert WithDefaults(doc) == stored;
    assert SchemaErrors(doc) == [];
  }

  lemma DefaultsKeepValidatedPaths(doc: Row)
    ensures SchemaErrors(WithDefaults(doc)) == SchemaErrors(doc)
  {
  }

  /** A product without a code, or with an empty name, is refused with that path. */
  lemma MissingCodeOrNameRefused(doc: Row)
    requires !Present(Get(doc, "code")) || !Present(Get(doc, "name"))
    ensures Save(doc).Failure?
    ensures !Present(Get(doc, "code")) ==> Required("code") in Save(doc).error
    ensures !Present(Get(doc, "name")) ==> Required("name") in Save(doc).error
  {
  }

  /** A short description of 161 characters is refused; one of 160 passes that check. */
  lemma ShortDescriptionBoundary(doc: Row, s: string)
    requires Present(Get(doc, "code")) && Present(Get(doc, "name"))
    ensures |s| <= ShortDescriptionLimit ==> Save(doc["shortDescription" := Str(s)]).Success?
    ensures |s| > ShortDescriptionLimit ==>
      Save(doc["shortDescription" := Str(s)]).Failure?
      && Save(doc["shortDescription" := Str(s)]).error == [MaxLength("shortDescription", ShortDescriptionLimit)]
  {
    var d := doc["shortDescription" := Str(s)];
    assert Get(d, "code") == Get(doc, "code") && Get(d, "name") == Get(doc, "name");
  }
}
