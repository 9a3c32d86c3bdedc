/** The product service: the product collection and the operations on it
    (create, get, update, delete by id, search, and the inventory update). */
module Catalog {
  import opened Wrappers
  import opened Text
  import opened Js
  import opened ProductModel

  datatype CatalogError =
    | InsufficientQuantity  // 'Insufficient quantity available in inventory'
    | ValidationFailed      // the schema rejected the written document

  /** The search filter: the term occurs, ignoring case and read as literal
      text, in the name, the description, the category or some tag. */
  predicate MatchesTerm(p: Product, term: string) {
    || ContainsIgnoringCase(p.name, term)
    || ContainsIgnoringCase(p.description, term)
    || ContainsIgnoringCase(p.category, term)
    || exists k | 0 <= k < |p.tags| :: ContainsIgnoringCase(p.tags[k], term)
  }

  /** `searchProductsService`: the products that match, unchanged. */
  function Search(products: map<ProductId, Product>, term: string): (r: map<ProductId, Product>)
    ensures forall id :: id in r <==> id in products && MatchesTerm(products[id], term)
    ensures forall id :: id in r ==> r[id] == products[id]
  {
    map id | id in products && MatchesTerm(products[id], term) :: products[id]
  }

  /** An empty term selects every product. */
  lemma SearchWithEmptyTerm(products: map<ProductId, Product>)
    ensures Search(products, []) == products
  {
    forall id | id in products ensures MatchesTerm(products[id], []) {
      ContainsEmpty(Lower(products[id].name));
    }
  }

  /** The search is case-insensitive in the term. */
  lemma SearchIgnoresCaseOfTerm(products: map<ProductId, Product>, term: string)
    ensures Search(products, Lower(term)) == Search(products, term)
  {
    forall id | id in products ensures MatchesTerm(products[id], Lower(term)) == MatchesTerm(products[id], term) {
      MatchesLoweredTerm(products[id], term);
    }
  }

  lemma MatchesLoweredTerm(p: Product, term: string)
    ensures MatchesTerm(p, Lower(term)) == MatchesTerm(p, term)
  {
    LowerIdempotent(term);
    assert Lower(Lower(term)) == Lower(term);
  }

  /** A product whose name, description, category or some tag contains the
      term literally is found. */
  lemma SearchFindsLiteralOccurrence(products: map<ProductId, Product>, id: ProductId, term: string)
    requires id in products
    requires var p := products[id];
      || Contains(p.name, term) || Contains(p.description, term) || Contains(p.category, term)
      || exists k | 0 <= k < |p.tags| :: Contains(p.tags[k], term)
    ensures id in Search(products, term)
  {
    var p := products[id];
    if Contains(p.name, term) {
      ContainsIgnoringCaseOfContains(p.name, term);
    } else if Contains(p.description, term) {
      ContainsIgnoringCaseOfContains(p.description, term);
    } else if Contains(p.category, term) {
      ContainsIgnoringCaseOfContains(p.category, term);
    } else {
      var k :| 0 <= k < |p.tags| && Contains(p.tags[k], term);
      ContainsIgnoringCaseOfContains(p.tags[k], term);
    }
  }

  /** The fields an update body may carry; an absent field is left alone. */
  datatype ProductPatch = ProductPatch(
    name: Option<string>,
    description: Option<string>,
    price: Option<int>,
    category: Option<string>,
    tags: Option<seq<string>>,
    variants: Option<seq<Variant>>,
    inventory: Option<Inventory>,
    categoryData: Option<Json>,
    image: Option<string>)

  const NoChanges := ProductPatch(None, None, None, None, None, None, None, None, None)

  /** The update validators, which check only the fields the patch sets
      (after the trim setter has run on the name). */
  predicate PatchValid(patch: ProductPatch) {
    && (patch.name.Some? ==> Present(Trim(patch.name.value)))
    && (patch.description.Some? ==> Present(patch.description.value))
    && (patch.price.Some? ==> patch.price.value >= 0)
    && (patch.category.Some? ==> Present(patch.category.value))
    && (patch.variants.Some? ==> forall k :: 0 <= k < |patch.variants.value| ==> VariantValid(patch.variants.value[k]))
    && (patch.inventory.Some? ==> InventoryValid(patch.inventory.value))
  }

  function Pick<T>(patched: Option<T>, current: T): T {
    if patched.Some? then patched.value else current
  }

  /** `$set` of the given fields; the name goes through the trim setter. */
  function ApplyPatch(p: Product, patch: ProductPatch): Product {
    Product(
      if patch.name.Some? then Trim(patch.name.value) else p.name,
      Pick(patch.description, p.description),
      Pick(patch.price, p.price),
      Pick(patch.category, p.category),
      Pick(patch.tags, p.tags),
      Pick(patch.variants, p.variants),
      Pick(patch.inventory, p.inventory),
      if patch.categoryData.Some? then patch.categoryData else p.categoryData,
      if patch.image.Some? then patch.image else p.image)
  }

  /** A patch that sets nothing leaves the product as it was. */
  lemma ApplyNoChanges(p: Product)
    ensures ApplyPatch(p, NoChanges) == p
  {
  }

  /** A valid patch applied to a valid product gives a valid product, and it
      sets exactly the fields it names. */
  lemma ApplyPatchPreservesValidity(p: Product, patch: ProductPatch)
    requires ProductValid(p) && PatchValid(patch)
    ensures ProductValid(ApplyPatch(p, patch))
    ensures patch.price.Some? ==> ApplyPatch(p, patch).price == patch.price.value
    ensures patch.price.None? ==> ApplyPatch(p, patch).price == p.price
    ensures patch.inventory.None? ==> ApplyPatch(p, patch).inventory == p.inventory
  {
    if patch.name.Some? {
      TrimIdempotent(patch.name.value);
    }
  }

  /** The generic update can leave `inStock` out of line with `quantity`. */
  lemma UpdateCanDesyncInStock(p: Product)
    requires ProductValid(p)
    ensures var patch := NoChanges.(inventory := Some(Inventory(0, true)));
      PatchValid(patch) && ProductValid(ApplyPatch(p, patch))
      && ApplyPatch(p, patch).inventory.quantity == 0 && ApplyPatch(p, patch).inventory.inStock
  {
  }

  /** The stock rule of `updateProductInventoryService`: refuse when fewer than
      `ordered` units are left; otherwise take them and recompute `inStock`
      from the new quantity, whatever the flag was before. */
  function SellFromInventory(inv: Inventory, ordered: int): (r: Option<Inventory>)
    ensures r.None? <==> inv.quantity < ordered
    ensures r.Some? ==> r.value.quantity == inv.quantity - ordered
                        && (r.value.inStock <==> r.value.quantity > 0)
  {
    if inv.quantity < ordered then None
    else Some(Inventory(inv.quantity - ordered, inv.quantity - ordered > 0))
  }

  /** Selling never takes the stock below zero. */
  lemma SellKeepsInventoryValid(inv: Inventory, ordered: int)
    requires InventoryValid(inv)
    ensures SellFromInventory(inv, ordered).Some? ==> InventoryValid(SellFromInventory(inv, ordered).value)
  {
  }

  /** The product collection. `nextId` stands for the id generator: every
      stored id is below it. */
  class ProductCollection {
    var products: map<ProductId, Product>
    var nextId: nat

    ghost predicate Valid()
      reads this
    {
      forall id :: id in products ==> id < nextId && ProductValid(products[id])
    }

    constructor ()
      ensures Valid() && products == map[] && nextId == 0
    {
      products := map[];
      nextId := 0;
    }

    /** `getProductByIdService`: the stored product, or None for an absent id. */
    function Find(id: ProductId): (r: Option<Product>)
      reads this
      ensures r.Some? <==> id in products
      ensures r.Some? ==> r.value == products[id]
    {
      if id in products then Some(products[id]) else None
    }

    /** `product.save()` for a product that was loaded from the collection. */
    method Save(id: ProductId, p: Product)
      requires Valid() && id in products && ProductValid(p)
      modifies this
      ensures Valid()
      ensures products == old(products)[id := p] && nextId == old(nextId)
    {
      products := products[id := p];
    }

    /** `createProductService`: the setters run, then the validators; a
        product they accept is inserted under a fresh id and returned as
        stored. */
    method Create(p: Product) returns (r: Result<(ProductId, Product), CatalogError>)
      requires Valid()
      modifies this
      ensures Valid()
      ensures !ProductValid(ApplySetters(p)) ==>
                r == Err(ValidationFailed) && products == old(products) && nextId == old(nextId)
      ensures ProductValid(ApplySetters(p)) ==>
                && r == Ok((old(nextId), ApplySetters(p))) && old(nextId) !in old(products)
                && products == old(products)[old(nextId) := ApplySetters(p)] && nextId == old(nextId) + 1
    {
      var q := ApplySetters(p);
      if !ProductValid(q) {
        return Err(ValidationFailed);
      }
      var id := nextId;
      products := products[id := q];
      nextId := nextId + 1;
      r := Ok((id, q));
    }

    /** `updateProductService`: the update validators run first; an absent id
        gives None; otherwise the patch is applied to that product only. */
    method Update(id: ProductId, patch: ProductPatch) returns (r: Result<Option<Product>, CatalogError>)
      requires Valid()
      modifies this
      ensures Valid() && nextId == old(nextId)
      ensures !PatchValid(patch) ==> r == Err(ValidationFailed) && products == old(products)
      ensures PatchValid(patch) && id !in old(products) ==> r == Ok(None) && products == old(products)
      ensures PatchValid(patch) && id in old(products) ==>
                var updated := ApplyPatch(old(products)[id], patch);
                r == Ok(Some(updated)) && products == old(products)[id := updated]
    {
      if !PatchValid(patch) {
        return Err(ValidationFailed);
      }
      if id !in products {
        return Ok(None);
      }
      var updated := ApplyPatch(products[id], patch);
      ApplyPatchPreservesValidity(products[id], patch);
      products := products[id := updated];
      r := Ok(Some(updated));
    }

    /** `deleteProductService`: remove that entry and return it, or None. */
    method Delete(id: ProductId) returns (r: Option<Product>)
      requires Valid()
      modifies this
      ensures Valid() && nextId == old(nextId)
      ensures r == (if id in old(products) then Some(old(products)[id]) else None)
      ensures products == old(products) - {id}
    {
      r := Find(id);
      products := products - {id};
    }

    /** `updateProductInventoryService`: None and no change for an absent id;
        an error and no change when the stock is short; otherwise the quantity
        drops by `ordered` and `inStock` becomes `quantity > 0`. */
    method UpdateInventory(id: ProductId, ordered: int) returns (r: Result<Option<Product>, CatalogError>)
      requires Valid()
      modifies this
      ensures Valid() && nextId == old(nextId)
      ensures id !in old(products) ==> r == Ok(None) && products == old(products)
      ensures id in old(products) && old(products)[id].inventory.quantity < ordered ==>
                r == Err(InsufficientQuantity) && products == old(products)
      ensures id in old(products) && old(products)[id].inventory.quantity >= ordered ==>
                var p := old(products)[id];
                var sold := p.(inventory := SellFromInventory(p.inventory, ordered).value);
                r == Ok(Some(sold)) && products == old(products)[id := sold]
    {
      var found := Find(id);
      if found.None? {
        return Ok(None);
      }
      var product := found.value;
      if product.inventory.quantity < ordered {
        return Err(InsufficientQuantity);
      }
      var quantity := product.inventory.quantity - ordered;
      product := product.(inventory := Inventory(quantity, quantity > 0));
      Save(id, product);
      r := Ok(Some(product));
    }
  }
}
