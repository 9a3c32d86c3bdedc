/** The product document: its shape and the rules its schema enforces when a
    product is written. */
module ProductModel {
  import opened Wrappers
  import opened Text
  import opened Js

  type ProductId = nat

  /** A variant; the source's field `type` is `kind` here. */
  datatype Variant = Variant(kind: string, value: string)

  datatype Inventory = Inventory(quantity: int, inStock: bool)

  /** Prices are whole minor units. */
  datatype Product = Product(
    name: string,
    description: string,
    price: int,
    category: string,
    tags: seq<string>,
    variants: seq<Variant>,
    inventory: Inventory,
    categoryData: Option<Json>,
    image: Option<string>)

  /** A `required` string field rejects the empty string. */
  predicate Present(s: string) {
    s != []
  }

  predicate VariantValid(v: Variant) {
    Present(v.kind) && Present(v.value)
  }

  predicate InventoryValid(inv: Inventory) {
    inv.quantity >= 0
  }

  /** The schema's rules for a stored product. The name is stored trimmed; the
      price may be 0; `tags` and `variants` are required arrays, which an empty
      array satisfies; nothing relates `inStock` to `quantity`. */
  predicate ProductValid(p: Product) {
    && Present(p.name) && IsTrimmed(p.name)
    && Present(p.description)
    && p.price >= 0
    && Present(p.category)
    && (forall k :: 0 <= k < |p.variants| ==> VariantValid(p.variants[k]))
    && InventoryValid(p.inventory)
  }

  /** The schema's setters, which run on every document written: the name
      is trimmed. Nothing else changes. */
  function ApplySetters(p: Product): (r: Product)
    ensures IsTrimmed(r.name)
    ensures r.(name := p.name) == p
    ensures exists a :: CoreAt(p.name, r.name, a)
  {
    p.(name := Trim(p.name))
  }

  /** A stored product is a fixed point of the setters, so the setters are
      idempotent. */
  lemma {:induction false} SettersKeepStored(p: Product)
    requires ProductValid(p)
    ensures ApplySetters(p) == p
  {
    TrimOfTrimmed(p.name);
  }

  lemma {:induction false} SettersIdempotent(p: Product)
    ensures ApplySetters(ApplySetters(p)) == ApplySetters(p)
  {
    TrimIdempotent(p.name);
  }

  /** The setters make a product valid exactly when, apart from the bare
      trimmed-name rule, it already met the schema with its name trimmed. */
  lemma {:induction false} SettersValid(p: Product)
    ensures ProductValid(ApplySetters(p)) <==>
      && Present(Trim(p.name))
      && Present(p.description) && p.price >= 0 && Present(p.category)
      && (forall k :: 0 <= k < |p.variants| ==> VariantValid(p.variants[k]))
      && InventoryValid(p.inventory)
  {
  }

  /** A name with a leading space is stored trimmed. */
  lemma {:induction false} SettersTrimName()
    ensures var p := Product(" Mug", "A mug", 0, "Kitchen", [], [], Inventory(1, true), None, None);
      ApplySetters(p).name == "Mug" && ProductValid(ApplySetters(p))
  {
    var p := Product(" Mug", "A mug", 0, "Kitchen", [], [], Inventory(1, true), None, None);
    TrimStartOfTrimmed(" Mug"[1..]);
    TrimEndOfTrimmed("Mug");
    assert TrimStart(" Mug") == "Mug";
    assert "Mug"[0] == 'M' && "Mug"[2] == 'g';
  }

  /** `inStock` is stored independently of `quantity`: the schema admits an
      empty product flagged in stock and a stocked product flagged out. */
  lemma InStockIndependentOfQuantity()
    ensures exists p :: ProductValid(p) && p.inventory.quantity == 0 && p.inventory.inStock
    ensures exists p :: ProductValid(p) && p.inventory.quantity > 0 && !p.inventory.inStock
  {
    var p := Product("Mug", "A mug", 0, "Kitchen", [], [], Inventory(0, true), None, None);
    assert p.name[0] == 'M' && p.name[|p.name| - 1] == 'g';
    assert ProductValid(p);
    var q := p.(inventory := Inventory(3, false));
    assert ProductValid(q);
  }

  /** Replacing the inventory of a valid product by a valid one gives a valid
      product: the other rules do not look at it. */
  lemma WithInventoryValid(p: Product, inv: Inventory)
    requires ProductValid(p) && InventoryValid(inv)
    ensures ProductValid(p.(inventory := inv))
  {
  }
}
