/** The form-field handling at the start of product creation: the fields of a
    multipart body become the product data, and a required-field check runs
    before anything is stored. */
module ProductForm {
  import opened Wrappers
  import opened Text
  import opened Js

  /** A body field that may arrive as text or, from a JSON body, as a
      boolean. Only `inStock` is read both ways. */
  datatype FormValue = FText(s: string) | FFlag(b: bool)

  /** The body fields the handler reads; an absent field is `None`. */
  datatype Form = Form(
    name: Option<string>,
    description: Option<string>,
    price: Option<string>,
    category: Option<string>,
    tags: Option<string>,
    variants: Option<string>,
    inventory: Option<string>,
    quantity: Option<string>,
    inStock: Option<FormValue>,
    categoryData: Option<string>)

  /** `parseFloat`, `parseInt` and `JSON.parse`; `parseJson` is `None` where
      `JSON.parse` throws. */
  datatype Parsers = Parsers(
    parseFloat: string -> Number,
    parseInt: string -> Number,
    parseJson: string -> Option<Json>)

  /** JavaScript truthiness of an optional string: absent and empty are
      falsy. */
  predicate Truthy(f: Option<string>) {
    f.Some? && f.value != []
  }

  /** The inventory: the parsed JSON field, or the one built from the
      `quantity` and `inStock` fields. */
  datatype InventoryField = Given(json: Json) | Default(quantity: Number, inStock: bool)

  /** The object handed to product creation. `name`, `description` and
      `category` are passed through as they arrived. */
  datatype ProductData = ProductData(
    name: Option<string>,
    description: Option<string>,
    price: Number,
    category: Option<string>,
    tags: seq<string>,
    variants: Json,
    inventory: InventoryField,
    image: Option<string>,
    categoryData: Option<Json>)

  /** A JSON field that does not parse throws, and the handler answers 400
      with the parser's message; a missing required field answers 400 with
      `MissingRequiredMessage`. */
  datatype FormError = InvalidJson | MissingRequired

  const MissingRequiredMessage := "Please fill all required fields: name, description, price, and category"

  /** `.map(tag => tag.trim()).filter(tag => tag !== '')`. */
  function CleanTags(parts: seq<string>): (r: seq<string>)
    ensures |r| <= |parts|
    ensures forall k :: 0 <= k < |r| ==> r[k] != [] && IsTrimmed(r[k])
  {
    if parts == [] then []
    else (if Trim(parts[0]) == [] then [] else [Trim(parts[0])]) + CleanTags(parts[1..])
  }

  /** The comma-separated `tags` field as a list; absent or empty gives `[]`. */
  function ParseTags(field: Option<string>): (tags: seq<string>)
    ensures !Truthy(field) ==> tags == []
    ensures forall k :: 0 <= k < |tags| ==> tags[k] != [] && IsTrimmed(tags[k])
  {
    if Truthy(field) then CleanTags(Split(field.value, ',')) else []
  }

  /** Trimming takes a slice, so it introduces no character. */
  lemma {:induction false} TrimKeepsAbsent(s: string, c: char)
    requires c !in s
    ensures c !in Trim(s)
  {
    var a :| CoreAt(s, Trim(s), a);
    forall i | 0 <= i < |Trim(s)| ensures Trim(s)[i] != c {
      assert Trim(s)[i] == s[a + i];
    }
  }

  /** A kept tag is the trimmed text of one piece, and keeps no comma. */
  lemma {:induction false} CleanTagsFromPieces(parts: seq<string>, c: char)
    requires forall k :: 0 <= k < |parts| ==> c !in parts[k]
    ensures forall k :: 0 <= k < |CleanTags(parts)| ==> c !in CleanTags(parts)[k]
    decreases |parts|
  {
    if parts != [] {
      TrimKeepsAbsent(parts[0], c);
      CleanTagsFromPieces(parts[1..], c);
      var head := if Trim(parts[0]) == [] then [] else [Trim(parts[0])];
      assert CleanTags(parts) == head + CleanTags(parts[1..]);
    }
  }

  /** No parsed tag contains a comma. */
  lemma {:induction false} ParsedTagsHaveNoComma(field: Option<string>)
    ensures forall k :: 0 <= k < |ParseTags(field)| ==> ',' !in ParseTags(field)[k]
  {
    if Truthy(field) {
      CleanTagsFromPieces(Split(field.value, ','), ',');
    }
  }

  /** Clean pieces pass through unchanged and in order. */
  lemma {:induction false} CleanTagsOfClean(tags: seq<string>)
    requires forall k :: 0 <= k < |tags| ==> tags[k] != [] && IsTrimmed(tags[k])
    ensures CleanTags(tags) == tags
    decreases |tags|
  {
    if tags != [] {
      TrimOfTrimmed(tags[0]);
      CleanTagsOfClean(tags[1..]);
      assert tags == [tags[0]] + tags[1..];
    }
  }

  /** Empty and blank pieces are dropped: cleaning skips them. */
  lemma {:induction false} CleanTagsSkipsBlank(blank: string, rest: seq<string>)
    requires Trim(blank) == []
    ensures CleanTags([blank] + rest) == CleanTags(rest)
  {
    assert ([blank] + rest)[1..] == rest;
  }

  lemma {:induction false} JoinStartsWithFirst(parts: seq<string>, sep: char)
    requires |parts| >= 1
    ensures |Join(parts, sep)| >= |parts[0]|
  {
  }

  /** Tags written back with `join(',')` parse to the same list, for tags
      that are non-empty, trimmed and comma-free, which is what parsing
      produces. */
  lemma {:induction false} TagsRoundTrip(tags: seq<string>)
    requires forall k :: 0 <= k < |tags| ==> tags[k] != [] && IsTrimmed(tags[k]) && ',' !in tags[k]
    ensures ParseTags(Some(Join(tags, ','))) == tags
  {
    if tags != [] {
      JoinStartsWithFirst(tags, ',');
      SplitJoin(tags, ',');
      CleanTagsOfClean(tags);
    }
  }

  /** Parsing is idempotent through `join(',')`. */
  lemma {:induction false} ParseTagsStable(field: Option<string>)
    ensures ParseTags(Some(Join(ParseTags(field), ','))) == ParseTags(field)
  {
    ParsedTagsHaveNoComma(field);
    TagsRoundTrip(ParseTags(field));
  }

  /** `parseFloat(req.body.price)`: an absent price parses to `NaN`. */
  function ParsePrice(field: Option<string>, p: Parsers): (n: Number)
    ensures field.None? ==> n == NaN
  {
    if field.None? then NaN else p.parseFloat(field.value)
  }

  /** The inventory built without an `inventory` field: the quantity parsed
      from `quantity`, `'0'` when that is absent or empty; `inStock` true
      exactly for the text `'true'` or the boolean `true`. */
  function DefaultInventory(form: Form, p: Parsers): (inv: InventoryField)
    ensures inv.Default?
    ensures inv.inStock <==> form.inStock == Some(FText("true")) || form.inStock == Some(FFlag(true))
    ensures !Truthy(form.quantity) ==> inv.quantity == p.parseInt("0")
    ensures Truthy(form.quantity) ==> inv.quantity == p.parseInt(form.quantity.value)
  {
    var raw := if Truthy(form.quantity) then form.quantity.value else "0";
    Default(p.parseInt(raw), form.inStock == Some(FText("true")) || form.inStock == Some(FFlag(true)))
  }

  /** A field `JSON.parse`d when truthy, with a default when not: `None` when
      the parse throws. */
  function ParseJsonField(field: Option<string>, default: Json, p: Parsers): (r: Option<Json>)
    ensures !Truthy(field) ==> r == Some(default)
    ensures Truthy(field) ==> r == p.parseJson(field.value)
  {
    if Truthy(field) then p.parseJson(field.value) else Some(default)
  }

  /** `categoryData`: the parsed JSON when it parses, otherwise the raw
      text; absent when the field is falsy. It never makes the request
      fail. */
  function CategoryData(field: Option<string>, p: Parsers): (r: Option<Json>)
    ensures r.Some? <==> Truthy(field)
    ensures Truthy(field) && p.parseJson(field.value).None? ==> r == Some(JString(field.value))
    ensures Truthy(field) && p.parseJson(field.value).Some? ==> r == p.parseJson(field.value)
  {
    if !Truthy(field) then None
    else match p.parseJson(field.value)
      case Some(j) => Some(j)
      case None => Some(JString(field.value))
  }

  /** The JSON fields parse (in the order the object literal evaluates
      them). */
  predicate JsonFieldsParse(form: Form, p: Parsers) {
    && ParseJsonField(form.variants, JArray([]), p).Some?
    && (Truthy(form.inventory) ==> p.parseJson(form.inventory.value).Some?)
  }

  /** The required-field check on the built data: `name`, `description` and
      `category` truthy, and the parsed price truthy (neither 0 nor NaN). */
  predicate HasRequired(form: Form, p: Parsers) {
    Truthy(form.name) && Truthy(form.description) && NumberIsTruthy(ParsePrice(form.price, p)) && Truthy(form.category)
  }

  /** Lines 21-58 of `createProduct`. `uploaded` is the URL the image upload
      returned, present only when a file came with the request. The upload
      itself happens before any of this and is not undone on a refusal. */
  function BuildProductData(form: Form, uploaded: Option<string>, p: Parsers): (r: Result<ProductData, FormError>)
    ensures r == Err(InvalidJson) <==> !JsonFieldsParse(form, p)
    ensures r == Err(MissingRequired) <==> JsonFieldsParse(form, p) && !HasRequired(form, p)
    ensures r.Ok? <==> JsonFieldsParse(form, p) && HasRequired(form, p)
    ensures r.Ok? ==>
              && r.value.name == form.name && r.value.description == form.description
              && r.value.category == form.category
              && r.value.price == ParsePrice(form.price, p)
              && r.value.tags == ParseTags(form.tags)
              && Some(r.value.variants) == ParseJsonField(form.variants, JArray([]), p)
              && r.value.image == uploaded
              && r.value.categoryData == CategoryData(form.categoryData, p)
              && (Truthy(form.inventory) ==> r.value.inventory == Given(p.parseJson(form.inventory.value).value))
              && (!Truthy(form.inventory) ==> r.value.inventory == DefaultInventory(form, p))
  {
    var price := ParsePrice(form.price, p);
    var tags := ParseTags(form.tags);
    match ParseJsonField(form.variants, JArray([]), p)
    case None => Err(InvalidJson)
    case Some(variants) =>
      var inventory :=
        if Truthy(form.inventory) then
          match p.parseJson(form.inventory.value)
          case None => None
          case Some(j) => Some(Given(j))
        else Some(DefaultInventory(form, p));
      if inventory.None? then Err(InvalidJson)
      else
        var data := ProductData(form.name, form.description, price, form.category, tags, variants,
                                inventory.value, uploaded, None);
        var data := if Truthy(form.categoryData) then data.(categoryData := CategoryData(form.categoryData, p)) else data;
        if !HasRequired(form, p) then Err(MissingRequired) else Ok(data)
  }

  /** A price that parses to 0 is refused like a missing one, although the
      product schema itself would accept a price of 0. */
  lemma {:induction false} ZeroPriceRefused(form: Form, uploaded: Option<string>, p: Parsers)
    requires JsonFieldsParse(form, p)
    requires form.price.Some? && p.parseFloat(form.price.value) == Finite(0.0)
    ensures BuildProductData(form, uploaded, p) == Err(MissingRequired)
  {
  }

  /** A form with no JSON fields and no `categoryData` is accepted exactly
      when the required fields are there; its variants are `[]`, its tags
      are parsed from the text, and its inventory is the default one. */
  lemma {:induction false} PlainFormDefaults(form: Form, uploaded: Option<string>, p: Parsers)
    requires form.variants.None? && form.inventory.None? && form.categoryData.None?
    requires HasRequired(form, p)
    ensures var r := BuildProductData(form, uploaded, p);
      && r.Ok?
      && r.value.variants == JArray([])
      && r.value.inventory == DefaultInventory(form, p)
      && r.value.categoryData.None?
      && r.value.image == uploaded
  {
  }

  /** Without an upload there is no image; the image never depends on the
      form. */
  lemma {:induction false} ImageOnlyWhenUploaded(form: Form, uploaded: Option<string>, p: Parsers)
    requires BuildProductData(form, uploaded, p).Ok?
    ensures BuildProductData(form, uploaded, p).value.image.Some? <==> uploaded.Some?
  {
  }
}
