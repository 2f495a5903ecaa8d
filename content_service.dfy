/**
 * The content service (backend-app/src/services/productService.ts): `createContent` with its
 * category check, and lookup, update and delete by id over the content collection.
 *
 * The file binds the name `Content` to the product model (productService.ts:3), so every
 * operation of the service works on product documents:
 *  - a created record is validated by the product schema, which requires `code` and `name`;
 *    the content fields never carry those, and every create that passes the category check
 *    is refused (`CreateContentAsWritten`);
 *  - an update passes through the product schema's strict mode, which drops `title`,
 *    `thumbnail_url` and `content_url` (`UpdateAsWritten`);
 *  - lookup and delete by id reach the product collection.
 * `ContentStore` models the service as it evidently means to work: over the content
 * collection, validating against the content schema (backend-app/src/models/contentModel.ts:12-28).
 */
module ContentService {
  import opened Wrappers
  import opened Text
  import opened JsValue
  import ProductModel

  const ValidCategories: seq<string> := ["game", "video", "artwork", "music"]

  /** `Invalid category. Must be one of: ${validCategories.join(", ")}` */
  function InvalidCategoryMessage(): string {
    "Invalid category. Must be one of: " + Join(ValidCategories, ", ")
  }

  /** A content record: the five fields the service copies out of the request. */
  datatype Content = Content(title: Value, description: Value, category: Value,
                             thumbnailUrl: Value, contentUrl: Value)

  datatype CreateError =
    | InvalidCategory(message: string)
    | ValidationFailed(errors: seq<ProductModel.SchemaError>)

  /** `validCategories.includes(category)`: strict equality with one of the four names. */
  predicate CategoryAllowed(category: Value) {
    category.Str? && category.s in ValidCategories
  }

  /** `new Content({ title, description, category, thumbnail_url, content_url })` */
  function ContentOf(data: Row): Content {
    Content(Get(data, "title"), Get(data, "description"), Get(data, "category"),
            Get(data, "thumbnail_url"), Get(data, "content_url"))
  }

  /** The content schema's required paths that are missing, in schema order. */
  function MissingPaths(c: Content): (errs: seq<ProductModel.SchemaError>)
    ensures errs == [] <==>
      ProductModel.Present(c.title) && ProductModel.Present(c.description)
      && ProductModel.Present(c.category) && ProductModel.Present(c.thumbnailUrl)
      && ProductModel.Present(c.contentUrl)
  {
    (if ProductModel.Present(c.title) then [] else [ProductModel.Required("title")])
    + (if ProductModel.Present(c.description) then [] else [ProductModel.Required("description")])
    + (if ProductModel.Present(c.category) then [] else [ProductModel.Required("category")])
    + (if ProductModel.Present(c.thumbnailUrl) then [] else [ProductModel.Required("thumbnail_url")])
    + (if ProductModel.Present(c.contentUrl) then [] else [ProductModel.Required("content_url")])
  }

  /** What `createContent` stores or refuses, with the content schema validating the record. */
  function CreateChecked(data: Row): (r: Result<Content, CreateError>)
    ensures !CategoryAllowed(Get(data, "category")) ==> r == Failure(InvalidCategory(InvalidCategoryMessage()))
    ensures r.Success? ==> r.value == ContentOf(data) && CategoryAllowed(r.value.category)
    ensures CategoryAllowed(Get(data, "category")) ==>
      (r.Success? <==> MissingPaths(ContentOf(data)) == [])
  {
    if !CategoryAllowed(Get(data, "category")) then Failure(InvalidCategory(InvalidCategoryMessage()))
    else
      var c := ContentOf(data);
      if MissingPaths(c) == [] then Success(c) else Failure(ValidationFailed(MissingPaths(c)))
  }

  /** The paths of the product schema (backend-app/src/models/productModel.ts:24-52). */
  const ProductPaths: set<string> := {
    "barcode", "code", "name", "shortDescription", "description", "brand", "category",
    "price", "volume", "imageUrl", "tags", "attributes", "aiDescription", "stockQty", "isActive"}

  /** The document a product model builds from the five content fields: paths outside its
      schema are dropped, and so are undefined values. */
  function AsProductDocument(data: Row): (doc: Row)
    ensures doc.Keys <= {"description", "category"}
  {
    var fields := map["title" := Get(data, "title"), "description" := Get(data, "description"),
                      "category" := Get(data, "category"), "thumbnail_url" := Get(data, "thumbnail_url"),
                      "content_url" := Get(data, "content_url")];
    map k | k in fields && k in ProductPaths && !fields[k].Undefined? :: fields[k]
  }

  /** `createContent` as written: the category check, then a save through the product model. */
  function CreateContentAsWritten(data: Row): (r: Result<Row, CreateError>)
    ensures !CategoryAllowed(Get(data, "category")) ==> r == Failure(InvalidCategory(InvalidCategoryMessage()))
  {
    if !CategoryAllowed(Get(data, "category")) then Failure(InvalidCategory(InvalidCategoryMessage()))
    else match ProductModel.Save(AsProductDocument(data))
      case Success(doc) => Success(doc)
      case Failure(errs) => Failure(ValidationFailed(errs))
  }

  /** As written, no request creates content: a good category meets the product schema's
      required `code` and `name`, which the content fields never supply. */
  lemma CreateContentAsWrittenNeverSucceeds(data: Row)
    ensures CreateContentAsWritten(data).Failure?
    ensures CategoryAllowed(Get(data, "category")) ==>
      CreateContentAsWritten(data).error
        == ValidationFailed([ProductModel.Required("code"), ProductModel.Required("name")])
  {
    var doc := AsProductDocument(data);
    if CategoryAllowed(Get(data, "category")) {
      assert "code" !in doc && "name" !in doc;
      assert !ProductModel.Present(Get(doc, "code"));
      assert !ProductModel.Present(Get(doc, "name"));
    }
  }

  /** A request of the content test suite's shape (category "game", every field filled) is
      refused as written and stored by the corrected create. */
  lemma GameContentCounterexample(title: string, description: string, thumbnail: string, url: string)
    requires title != "" && description != "" && thumbnail != "" && url != ""
    ensures CreateContentAsWritten(ContentRequest(title, description, "game", thumbnail, url)).Failure?
    ensures CreateChecked(ContentRequest(title, description, "game", thumbnail, url)).Success?
  {
    CreateContentAsWrittenNeverSucceeds(ContentRequest(title, description, "game", thumbnail, url));
    GameIsValid();
    FilledRequestAccepted(title, description, "game", thumbnail, url);
  }

  /** With the content schema, a request whose five fields are non-empty strings and whose
      category is one of the four is stored. */
  lemma FilledRequestAccepted(title: string, description: string, category: string,
                              thumbnail: string, url: string)
    requires title != "" && description != "" && thumbnail != "" && url != ""
    requires category in ValidCategories
    ensures CreateChecked(ContentRequest(title, description, category, thumbnail, url))
      == Success(Content(Str(title), Str(description), Str(category), Str(thumbnail), Str(url)))
  {
    var c := ContentOf(ContentRequest(title, description, category, thumbnail, url));
    assert c == Content(Str(title), Str(description), Str(category), Str(thumbnail), Str(url));
    assert category != "" by { assert "" !in ValidCategories; }
    assert MissingPaths(c) == [];
  }

  lemma GameIsValid()
    ensures "game" in ValidCategories
  {
    assert ValidCategories[0] == "game";
  }

  /** A request body carrying the five content fields as strings. */
  function ContentRequest(title: string, description: string, category: string,
                          thumbnail: string, url: string): (data: Row)
    ensures Get(data, "category") == Str(category)
    ensures ContentOf(data) == Content(Str(title), Str(description), Str(category), Str(thumbnail), Str(url))
  {
    map["title" := Str(title), "description" := Str(description), "category" := Str(category),
        "thumbnail_url" := Str(thumbnail), "content_url" := Str(url)]
  }

  /** The refusal message lists the four categories in order. */
  lemma InvalidCategoryMessageText()
    ensures InvalidCategoryMessage() == "Invalid category. Must be one of: game, video, artwork, music"
  {
  }

  /** Only the four names pass, and case matters. */
  lemma CategoryAllowedExactly(category: Value)
    ensures CategoryAllowed(category) <==>
      category in {Str("game"), Str("video"), Str("artwork"), Str("music")}
  {
  }

  /** `findByIdAndUpdate(id, data)`: every content field the request defines is overwritten;
      the update does not run the schema's validators. */
  function Updated(c: Content, data: Row): (u: Content)
    ensures Get(data, "title").Undefined? ==> u.title == c.title
    ensures !Get(data, "title").Undefined? ==> u.title == Get(data, "title")
    ensures Get(data, "description").Undefined? ==> u.description == c.description
    ensures !Get(data, "description").Undefined? ==> u.description == Get(data, "description")
    ensures Get(data, "category").Undefined? ==> u.category == c.category
    ensures !Get(data, "category").Undefined? ==> u.category == Get(data, "category")
    ensures Get(data, "thumbnail_url").Undefined? ==> u.thumbnailUrl == c.thumbnailUrl
    ensures !Get(data, "thumbnail_url").Undefined? ==> u.thumbnailUrl == Get(data, "thumbnail_url")
    ensures Get(data, "content_url").Undefined? ==> u.contentUrl == c.contentUrl
    ensures !Get(data, "content_url").Undefined? ==> u.contentUrl == Get(data, "content_url")
  {
    Content(Keep(c.title, Get(data, "title")), Keep(c.description, Get(data, "description")),
            Keep(c.category, Get(data, "category")), Keep(c.thumbnailUrl, Get(data, "thumbnail_url")),
            Keep(c.contentUrl, Get(data, "content_url")))
  }

  function Keep(current: Value, given: Value): Value {
    if given.Undefined? then current else given
  }

  /** Applying the same update twice is the same as once. */
  lemma UpdateIdempotent(c: Content, data: Row)
    ensures Updated(Updated(c, data), data) == Updated(c, data)
  {
  }

  /** An update with no content fields leaves the record as it was. */
  lemma EmptyUpdateKeeps(c: Content, data: Row)
    requires forall k :: k in data ==> k !in {"title", "description", "category", "thumbnail_url", "content_url"}
    ensures Updated(c, data) == c
  {
  }

  /** `findByIdAndUpdate(id, data)` as written, on a stored product document: the product
      schema's strict mode keeps only the paths it declares, so of the content fields only
      `description` and `category` are written; the validators do not run. */
  function UpdateAsWritten(doc: Row, data: Row): (u: Row)
    ensures u.Keys == doc.Keys + (set k | k in data && k in ProductPaths && !data[k].Undefined?)
    ensures forall k :: k in data && k in ProductPaths && !data[k].Undefined? ==> u[k] == data[k]
    ensures forall k :: k in doc && !(k in data && k in ProductPaths && !data[k].Undefined?) ==> u[k] == doc[k]
  {
    doc + map k | k in data && k in ProductPaths && !data[k].Undefined? :: data[k]
  }

  /** As written, renaming a content record does nothing: `{title: "New"}` leaves the stored
      document as it was, whereas the intended update overwrites the title. */
  lemma TitleUpdateIgnoredAsWritten(doc: Row, c: Content, title: string)
    ensures UpdateAsWritten(doc, map["title" := Str(title)]) == doc
    ensures Updated(c, map["title" := Str(title)]).title == Str(title)
  {
    TitleNotProductPath();
    var data := map["title" := Str(title)];
    assert forall k :: k in data ==> k == "title";
  }

  lemma TitleNotProductPath()
    ensures "title" !in ProductPaths
  {
  }

  /** The content collection; ids are issued from a counter, so a new id is never in use. */
  class ContentStore {
    var contents: map<nat, Content>
    var nextId: nat

    ghost predicate Valid()
      reads this
    {
      forall id :: id in contents ==> id < nextId
    }

    constructor ()
      ensures Valid() && contents == map[]
    {
      contents := map[];
      nextId := 0;
    }

    /** `createContent` with the category check and the content schema's validation. */
    method CreateContent(data: Row) returns (r: Result<(nat, Content), CreateError>)
      requires Valid()
      modifies this
      ensures Valid()
      ensures CreateChecked(data).Failure? ==>
        r == Failure(CreateChecked(data).error) && contents == old(contents)
      ensures CreateChecked(data).Success? ==>
        r.Success? && r.value.1 == CreateChecked(data).value && r.value.0 !in old(contents)
        && contents == old(contents)[r.value.0 := r.value.1]
    {
      var checked := CreateChecked(data);
      match checked {
        case Failure(e) =>
          r := Failure(e);
        case Success(c) =>
          var id := nextId;
          contents := contents[id := c];
          nextId := nextId + 1;
          r := Success((id, c));
      }
    }

    /** `getContentById`: the record, or null when the id is unknown. */
    method GetContentById(id: nat) returns (c: Option<Content>)
      ensures id in contents ==> c == Some(contents[id])
      ensures id !in contents ==> c == None
    {
      if id in contents {
        c := Some(contents[id]);
      } else {
        c := None;
      }
    }

    /** `updateContentById`: the updated record, or null when the id is unknown. */
    method UpdateContentById(id: nat, data: Row) returns (c: Option<Content>)
      requires Valid()
      modifies this
      ensures Valid()
      ensures id in old(contents) ==>
        c == Some(Updated(old(contents)[id], data)) && contents == old(contents)[id := c.value]
      ensures id !in old(contents) ==> c == None && contents == old(contents)
    {
      if id in contents {
        var u := Updated(contents[id], data);
        contents := contents[id := u];
        c := Some(u);
      } else {
        c := None;
      }
    }

    /** `deleteContentById`: true exactly when a record was found and removed. */
    method DeleteContentById(id: nat) returns (deleted: bool)
      requires Valid()
      modifies this
      ensures Valid()
      ensures deleted == (id in old(contents))
      ensures contents == old(contents) - {id}
    {
      deleted := id in contents;
      contents := contents - {id};
    }
  }
}
