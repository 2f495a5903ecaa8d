/**
 * The create/update product form (react-app/src/components/modals/product-form-modal.tsx):
 * the form state and its handlers, the defaults of create mode, the volume field, the custom
 * category box, and what "save" does: an alert naming the missing fields, or a request.
 * The request itself (`fetch`) is not modelled; `SaveProduct` returns the request it would send.
 */
module ProductForm {
  import opened Wrappers
  import opened Text
  import opened JsValue

  datatype FormType = Create | Update

  /** What pressing "save" leads to. */
  datatype SaveAction =
    | Alert(message: string)
    | Send(httpMethod: string, url: string, body: Row)

  /** The six categories offered in the drop-down. */
  const PresetCategories: seq<string> :=
    ["Shampoo", "Conditioner", "Hair Mask", "Hair Oil", "Styling", "Treatment"]

  /** The form of create mode; `createdAt`/`updatedAt` (`new Date()`) are not modelled. */
  function CreateDefaults(): (d: Row)
    ensures Get(d, "price") == Str("0") && Get(d, "volume") == Str("0mL")
    ensures Get(d, "stockQty") == Num(0.0) && Get(d, "isActive") == Bool(true)
    ensures Get(d, "tags") == Arr([]) && Get(d, "attributes") == Obj(map[])
    ensures Get(d, "name") == Str("") && Get(d, "code") == Str("")
  {
    map["_id" := Str("temp"), "barcode" := Str(""), "code" := Str(""), "name" := Str(""),
        "shortDescription" := Str(""), "description" := Str(""), "brand" := Str(""),
        "category" := Str(""), "price" := Str("0"), "volume" := Str("0mL"), "imageUrl" := Str(""),
        "tags" := Arr([]), "attributes" := Obj(map[]), "stockQty" := Num(0.0),
        "isActive" := Bool(true)]
  }

  /** `Number.parseInt(value) || 0`: NaN (no digits) and 0 both give 0. The input has
      `type="number"`, so the `0x` text `parseInt` would read as hexadecimal never arrives. */
  function VolumeOf(input: string): int {
    match ParseInt(input)
    case None => 0
    case Some(v) => v
  }

  /** Text that starts with an integer reads as that integer, whatever follows it
      (as long as it is not another digit). */
  lemma VolumeOfNumberText(n: int, suffix: string)
    requires suffix == [] || !IsDigit(suffix[0])
    ensures VolumeOf(IntToString(n) + suffix) == n
  {
    ParseIntToString(n, suffix);
  }

  /** `${value}mL` */
  function VolumeText(input: string): string {
    IntToString(VolumeOf(input)) + "mL"
  }

  /** The number field shows `Number.parseInt(formData.volume || "0", 10)`: reading the
      stored text back gives the number that was entered. */
  lemma VolumeReadsBack(input: string)
    ensures ParseInt(VolumeText(input)) == Some(VolumeOf(input))
  {
    var n := VolumeOf(input);
    assert "mL"[0] == 'm';
    ParseIntToString(n, "mL");
  }

  /** Unreadable input is stored as "0mL". */
  lemma UnreadableVolumeIsZero(input: string)
    requires ParseInt(input).None?
    ensures VolumeText(input) == "0mL"
  {
    assert NatToString(0) == "0";
  }

  /** A field left blank: not a string, or only whitespace. */
  predicate Blank(v: Value) {
    !(v.Str? && Trim(v.s) != "")
  }

  /** `missingFields`, in the order the form checks them: name, then code. */
  function MissingFields(form: Row): (r: seq<string>)
    ensures "Product name" in r <==> Blank(Get(form, "name"))
    ensures "Product code" in r <==> Blank(Get(form, "code"))
    ensures |r| <= 2 && (r == [] <==> !Blank(Get(form, "name")) && !Blank(Get(form, "code")))
    ensures Blank(Get(form, "name")) ==> r[0] == "Product name"
  {
    (if Blank(Get(form, "name")) then ["Product name"] else [])
      + (if Blank(Get(form, "code")) then ["Product code"] else [])
  }

  function AlertText(missing: seq<string>): string {
    "Please fill in the following required field(s): " + Join(missing, ", ") + "."
  }

  /** The request method: POST when creating, PUT otherwise. */
  function HttpMethod(formType: FormType): string {
    if formType == Create then "POST" else "PUT"
  }

  /** The request URL: `/<id>` only when updating an existing product. */
  function RequestUrl(base: string, formType: FormType, productId: Option<string>): string {
    base + "/api/products" + (if formType == Update && productId.Some? then "/" + productId.value else "")
  }

  /** The text of the custom-category box: the category when it is set and not a preset. */
  function CustomCategoryText(category: Value): (r: Value)
    ensures r != Str("") ==> r == category && Truthy(category)
    ensures category.Str? && category.s in PresetCategories ==> r == Str("")
    ensures category.Str? && category.s != "" && category.s !in PresetCategories ==> r == category
  {
    if Truthy(category) && !(category.Str? && category.s in PresetCategories) then category else Str("")
  }

  /** A preset is never repeated in the custom box; an empty category shows nothing. */
  lemma CustomCategoryExamples(s: string)
    ensures CustomCategoryText(Str("Hair Oil")) == Str("")
    ensures CustomCategoryText(Str("")) == Str("")
    ensures CustomCategoryText(Undefined) == Str("")
    ensures s != "" && s !in PresetCategories ==> CustomCategoryText(Str(s)) == Str(s)
  {
    assert PresetCategories[3] == "Hair Oil";
  }

  /** The modal's form state. */
  class ProductFormState {
    var formData: Row

    constructor ()
      ensures formData == CreateDefaults()
    {
      formData := CreateDefaults();
    }

    /** The effect run when the product, the mode or visibility change. */
    method Reset(formType: FormType, product: Option<Row>)
      modifies this
      ensures formType == Update && product.Some? ==> formData == product.value
      ensures formType == Create ==> formData == CreateDefaults()
      ensures formType == Update && product.None? ==> formData == old(formData)
    {
      if product.Some? && formType == Update {
        formData := product.value;
      } else if formType == Create {
        formData := CreateDefaults();
      }
    }

    /** `handleInput(key, value)`: only `key` changes. */
    method HandleInput(key: string, value: Value)
      modifies this
      ensures Get(formData, key) == value
      ensures forall k :: k != key ==> Get(formData, k) == Get(old(formData), k)
      ensures formData.Keys == old(formData).Keys + {key}
    {
      formData := formData[key := value];
    }

    /** The volume input's change handler. */
    method HandleVolumeChange(input: string)
      modifies this
      ensures formData == old(formData)["volume" := Str(VolumeText(input))]
    {
      formData := formData["volume" := Str(VolumeText(input))];
    }

    /** `saveProduct` up to the request: create mode first collects the blank required
        fields and alerts instead of sending when there are any. */
    method SaveProduct(formType: FormType, productId: Option<string>, base: string)
      returns (action: SaveAction)
      ensures formType == Create && MissingFields(formData) != [] ==>
        action == Alert(AlertText(MissingFields(formData)))
      ensures formType == Update || MissingFields(formData) == [] ==>
        action == Send(HttpMethod(formType), RequestUrl(base, formType, productId), formData)
    {
      var url := RequestUrl(base, formType, productId);
      var httpMethod := HttpMethod(formType);
      if formType == Create {
        var missing: seq<string> := [];
        if Blank(Get(formData, "name")) {
          missing := missing + ["Product name"];
        }
        if Blank(Get(formData, "code")) {
          missing := missing + ["Product code"];
        }
        if |missing| > 0 {
          return Alert("Please fill in the following required field(s): " + Join(missing, ", ") + ".");
        }
      }
      action := Send(httpMethod, url, formData);
    }
  }

  /** A blank create form names both fields, name first. */
  lemma BlankFormAlertsBoth()
    ensures MissingFields(CreateDefaults()) == ["Product name", "Product code"]
  {
    assert Trim("") == "";
  }

  /** Padding around a name does not make it blank, and spaces alone do. */
  lemma BlankIffOnlyWhitespace(s: string)
    ensures Blank(Str(s)) <==> AllWhitespace(s)
  {
    TrimEmptyIff(s);
  }

  /** The URL carries an id exactly when an existing product is updated. */
  lemma UrlHasIdOnlyOnUpdate(base: string, formType: FormType, productId: Option<string>)
    ensures formType == Create ==> RequestUrl(base, Create, productId) == base + "/api/products"
    ensures formType == Update && productId.Some? ==>
      RequestUrl(base, Update, productId) == base + "/api/products/" + productId.value
    ensures HttpMethod(formType) == "POST" <==> formType == Create
  {
  }
}
