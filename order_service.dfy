/** The order service: placing an order against the product collection,
    listing a user's orders, setting an order's status and cancelling it.

    Placement works item by item, as the service does: for each requested
    line it reads the product, checks the stock, records a snapshot, and saves
    the decremented product at once. A failure at one line leaves the earlier
    lines' decrements in place, and the order itself is only validated after
    the loop. `ReserveAll` is that loop as a function of the product map and
    the lines; `RestoreAll` is the cancellation loop. */
module OrderService {
  import opened Wrappers
  import opened EmailPattern
  import opened ProductModel
  import opened UserModel
  import opened OrderModel
  import opened Catalog

  /** One requested `{ productId, quantity }`. The service does not check
      the quantity; only `Order.create` does, after the stock was taken. */
  datatype LineRequest = LineRequest(productId: ProductId, quantity: int)

  datatype PlaceError =
    | ProductNotFound(productId: ProductId)  // 'Product with ID … not found'
    | OutOfStock(productName: string)        // '… is out of stock or insufficient quantity'
    | OrderRejected                          // the order schema refused the new order

  datatype CancelError =
    | OrderNotFound  // 'Order not found'
    | NotPending     // 'Only pending orders can be cancelled'

  datatype StatusError = InvalidStatus  // the status enum validator refused the value

  type Stock = map<ProductId, Product>

  /** The snapshot of a product that goes into the order. */
  function Snapshot(id: ProductId, p: Product, quantity: int): OrderItem {
    OrderItem(id, p.name, p.price, quantity, p.image)
  }

  /** The placement's stock rule: take `n` units, and clear `inStock` when the
      quantity lands on exactly 0; the flag is never set. */
  function TakeStock(inv: Inventory, n: int): (r: Inventory)
    ensures r.quantity == inv.quantity - n
    ensures r.inStock <==> inv.inStock && r.quantity != 0
  {
    var q := inv.quantity - n;
    Inventory(q, if q == 0 then false else inv.inStock)
  }

  /** `q` is `p` with only the inventory changed. */
  predicate SameListing(p: Product, q: Product) {
    q == p.(inventory := q.inventory)
  }

  datatype Step = Step(stock: Stock, item: OrderItem)

  /** One pass of the placement loop. */
  function ReserveLine(stock: Stock, line: LineRequest): (r: Result<Step, PlaceError>)
    ensures r.Err? && r.error.ProductNotFound? ==>
              r.error.productId == line.productId && line.productId !in stock
    ensures r.Err? && r.error.OutOfStock? ==>
              && line.productId in stock && r.error.productName == stock[line.productId].name
              && (!stock[line.productId].inventory.inStock || stock[line.productId].inventory.quantity < line.quantity)
    ensures r.Err? ==> !r.error.OrderRejected?
    ensures r.Ok? <==> line.productId in stock && stock[line.productId].inventory.inStock
                       && stock[line.productId].inventory.quantity >= line.quantity
  {
    var id := line.productId;
    if id !in stock then Err(ProductNotFound(id))
    else
      var p := stock[id];
      if !p.inventory.inStock || p.inventory.quantity < line.quantity then Err(OutOfStock(p.name))
      else Ok(Step(stock[id := p.(inventory := TakeStock(p.inventory, line.quantity))],
                   Snapshot(id, p, line.quantity)))
  }

  /** The state after the loop: the product map as saved, and either the
      snapshot items or the error the loop stopped with. */
  datatype Reservation = Reservation(stock: Stock, outcome: Result<seq<OrderItem>, PlaceError>)

  /** One iteration of the placement loop; an earlier failure has already
      left the loop. */
  function ReserveStep(prev: Reservation, line: LineRequest): (r: Reservation)
    ensures r.stock.Keys == prev.stock.Keys
    ensures forall id :: id in prev.stock ==> SameListing(prev.stock[id], r.stock[id])
    ensures r.outcome.Ok? <==> prev.outcome.Ok? && ReserveLine(prev.stock, line).Ok?
    ensures r.outcome.Ok? ==> |r.outcome.value| == |prev.outcome.value| + 1
    ensures r.outcome.Err? ==> !r.outcome.error.OrderRejected? || prev.outcome == r.outcome
  {
    if prev.outcome.Err? then prev
    else match ReserveLine(prev.stock, line)
      case Err(e) => Reservation(prev.stock, Err(e))
      case Ok(step) => Reservation(step.stock, Ok(prev.outcome.value + [step.item]))
  }

  /** The effect of a successful step on the stock and the items. */
  lemma {:induction false} StepTakesStock(prev: Reservation, line: LineRequest)
    requires ReserveStep(prev, line).outcome.Ok?
    ensures var id := line.productId;
      && prev.outcome.Ok?
      && id in prev.stock
      && prev.stock[id].inventory.inStock
      && prev.stock[id].inventory.quantity >= line.quantity
      && ReserveStep(prev, line) == Reservation(
           prev.stock[id := prev.stock[id].(inventory := TakeStock(prev.stock[id].inventory, line.quantity))],
           Ok(prev.outcome.value + [Snapshot(id, prev.stock[id], line.quantity)]))
  {
  }

  /** The placement loop over `lines`, in the order given. */
  function ReserveAll(stock: Stock, lines: seq<LineRequest>): (r: Reservation)
    ensures r.stock.Keys == stock.Keys
    ensures forall id :: id in stock ==> SameListing(stock[id], r.stock[id])
    ensures r.outcome.Ok? ==> |r.outcome.value| == |lines|
    ensures r.outcome.Err? ==> !r.outcome.error.OrderRejected?
    decreases |lines|
  {
    if |lines| == 0 then Reservation(stock, Ok([]))
    else ReserveStep(ReserveAll(stock, lines[..|lines| - 1]), lines[|lines| - 1])
  }

  lemma {:induction false} ReserveExtend(stock: Stock, lines: seq<LineRequest>, line: LineRequest)
    ensures ReserveAll(stock, lines + [line]) == ReserveStep(ReserveAll(stock, lines), line)
  {
    assert (lines + [line])[..|lines|] == lines;
  }

  lemma {:induction false} ReservePrefix(stock: Stock, lines: seq<LineRequest>, i: nat)
    requires i < |lines|
    ensures ReserveAll(stock, lines[..i + 1]) == ReserveStep(ReserveAll(stock, lines[..i]), lines[i])
  {
    assert lines[..i + 1][..i] == lines[..i];
  }

  /** A failure at line `i` is the outcome of the whole placement. */
  lemma {:induction false} ReserveStopsAt(stock: Stock, lines: seq<LineRequest>, i: nat)
    requires i < |lines| && ReserveAll(stock, lines[..i + 1]).outcome.Err?
    ensures ReserveAll(stock, lines) == ReserveAll(stock, lines[..i + 1])
  {
    var head, tail := lines[..i + 1], lines[i + 1..];
    assert head + tail == lines;
    ReserveFailureSticks(stock, head, tail);
  }

  /** The total requested for product `id`; repeated ids add up. */
  function Requested(lines: seq<LineRequest>, id: ProductId): int {
    if |lines| == 0 then 0
    else Requested(lines[..|lines| - 1], id)
         + (if lines[|lines| - 1].productId == id then lines[|lines| - 1].quantity else 0)
  }

  /** Whether some line asks for product `id`. */
  predicate Mentions(lines: seq<LineRequest>, id: ProductId) {
    exists k :: 0 <= k < |lines| && lines[k].productId == id
  }

  lemma {:induction false} MentionsPrefix(lines: seq<LineRequest>, id: ProductId)
    requires |lines| > 0
    ensures Mentions(lines, id) <==>
              Mentions(lines[..|lines| - 1], id) || lines[|lines| - 1].productId == id
  {
    var prefix := lines[..|lines| - 1];
    if Mentions(prefix, id) {
      var k :| 0 <= k < |prefix| && prefix[k].productId == id;
      assert lines[k] == prefix[k];
    }
    if Mentions(lines, id) {
      var k :| 0 <= k < |lines| && lines[k].productId == id;
      if k < |prefix| {
        assert prefix[k] == lines[k];
      }
    }
  }

  /** The product and quantity of each item, as lines. */
  function ItemLines(items: seq<OrderItem>): (lines: seq<LineRequest>)
    ensures |lines| == |items|
    ensures forall k :: 0 <= k < |items| ==> lines[k] == LineRequest(items[k].productId, items[k].quantity)
  {
    if |items| == 0 then []
    else ItemLines(items[..|items| - 1]) + [LineRequest(items[|items| - 1].productId, items[|items| - 1].quantity)]
  }

  /** Once a line fails, later lines are never looked at. */
  lemma {:induction false} ReserveFailureSticks(stock: Stock, xs: seq<LineRequest>, ys: seq<LineRequest>)
    requires ReserveAll(stock, xs).outcome.Err?
    ensures ReserveAll(stock, xs + ys) == ReserveAll(stock, xs)
    decreases |ys|
  {
    if |ys| == 0 {
      assert xs + ys == xs;
    } else {
      var ys' := ys[..|ys| - 1];
      assert xs + ys == (xs + ys') + [ys[|ys| - 1]];
      ReserveFailureSticks(stock, xs, ys');
      ReserveExtend(stock, xs + ys', ys[|ys| - 1]);
    }
  }

  /** The flag `inStock` is never raised by placement. */
  lemma {:induction false} ReserveNeverRestocks(stock: Stock, lines: seq<LineRequest>)
    ensures var r := ReserveAll(stock, lines);
      forall id :: id in stock && r.stock[id].inventory.inStock ==> stock[id].inventory.inStock
    decreases |lines|
  {
    if |lines| > 0 {
      var prev := ReserveAll(stock, lines[..|lines| - 1]);
      ReserveNeverRestocks(stock, lines[..|lines| - 1]);
      if ReserveAll(stock, lines).outcome.Ok? {
        StepTakesStock(prev, lines[|lines| - 1]);
      }
    }
  }

  /** Placement keeps every quantity non-negative: a line only takes what the
      product has (and a negative request adds to it). */
  lemma {:induction false} ReserveKeepsQuantitiesNonNegative(stock: Stock, lines: seq<LineRequest>)
    requires forall id :: id in stock ==> stock[id].inventory.quantity >= 0
    ensures forall pid :: pid in ReserveAll(stock, lines).stock ==>
              ReserveAll(stock, lines).stock[pid].inventory.quantity >= 0
    decreases |lines|
  {
    if |lines| > 0 {
      var prev := ReserveAll(stock, lines[..|lines| - 1]);
      ReserveKeepsQuantitiesNonNegative(stock, lines[..|lines| - 1]);
      assert forall id :: id in prev.stock ==> prev.stock[id].inventory.quantity >= 0;
      var r := ReserveAll(stock, lines);
      if r.outcome.Ok? {
        var line := lines[|lines| - 1];
        StepTakesStock(prev, line);
        forall id | id in r.stock ensures r.stock[id].inventory.quantity >= 0 {
          assert id in prev.stock;
          if id == line.productId {
            var inv := prev.stock[id].inventory;
            assert inv.quantity >= line.quantity;
            assert r.stock[id].inventory == TakeStock(inv, line.quantity);
          } else {
            assert prev.stock[id].inventory.quantity >= 0;
            assert r.stock[id] == prev.stock[id];
          }
        }
      } else {
        assert r.stock == prev.stock;
      }
    }
  }

  /** Line `k`'s product exists and was in stock, and item `k` copies its
      name, price and image with the requested quantity. */
  lemma {:induction false} SnapshotAt(stock: Stock, lines: seq<LineRequest>, k: nat)
    requires ReserveAll(stock, lines).outcome.Ok? && k < |lines|
    ensures var items := ReserveAll(stock, lines).outcome.value;
      && lines[k].productId in stock
      && stock[lines[k].productId].inventory.inStock
      && items[k] == Snapshot(lines[k].productId, stock[lines[k].productId], lines[k].quantity)
    decreases |lines|
  {
    var prefix := lines[..|lines| - 1];
    var last := lines[|lines| - 1];
    var prev := ReserveAll(stock, prefix);
    StepTakesStock(prev, last);
    var items := ReserveAll(stock, lines).outcome.value;
    assert items == prev.outcome.value + [Snapshot(last.productId, prev.stock[last.productId], last.quantity)];
    if k < |lines| - 1 {
      assert lines[k] == prefix[k];
      assert items[k] == prev.outcome.value[k];
      SnapshotAt(stock, prefix, k);
    } else {
      ReserveNeverRestocks(stock, prefix);
      var p, q := stock[last.productId], prev.stock[last.productId];
      assert SameListing(p, q);
      assert p.name == q.name && p.price == q.price && p.image == q.image;
    }
  }

  /** On success there is one item per line, in request order; each line's
      product exists and was in stock, and its item copies that product's
      name, price and image with the requested quantity. */
  lemma {:induction false} ReserveSnapshots(stock: Stock, lines: seq<LineRequest>)
    requires ReserveAll(stock, lines).outcome.Ok?
    ensures var items := ReserveAll(stock, lines).outcome.value;
      && |items| == |lines|
      && (forall k :: 0 <= k < |lines| ==>
            && lines[k].productId in stock
            && stock[lines[k].productId].inventory.inStock
            && items[k] == Snapshot(lines[k].productId, stock[lines[k].productId], lines[k].quantity))
      && ItemLines(items) == lines
  {
    var items := ReserveAll(stock, lines).outcome.value;
    forall k | 0 <= k < |lines|
      ensures lines[k].productId in stock && stock[lines[k].productId].inventory.inStock
      ensures items[k] == Snapshot(lines[k].productId, stock[lines[k].productId], lines[k].quantity)
    {
      SnapshotAt(stock, lines, k);
    }
    assert ItemLines(items) == lines;
  }

  /** On success each product's quantity dropped by the total requested for
      it, duplicates accumulating. */
  lemma {:induction false} ReserveAccounting(stock: Stock, lines: seq<LineRequest>)
    requires ReserveAll(stock, lines).outcome.Ok?
    ensures var r := ReserveAll(stock, lines);
      forall id :: id in stock ==>
        r.stock[id].inventory.quantity == stock[id].inventory.quantity - Requested(lines, id)
    decreases |lines|
  {
    if |lines| > 0 {
      var prev := ReserveAll(stock, lines[..|lines| - 1]);
      StepTakesStock(prev, lines[|lines| - 1]);
      ReserveAccounting(stock, lines[..|lines| - 1]);
    }
  }

  /** On success a product no line asks for is left as it was. */
  lemma {:induction false} ReserveUntouched(stock: Stock, lines: seq<LineRequest>, id: ProductId)
    requires ReserveAll(stock, lines).outcome.Ok?
    requires id in stock && !Mentions(lines, id)
    ensures ReserveAll(stock, lines).stock[id] == stock[id]
    decreases |lines|
  {
    if |lines| > 0 {
      var prefix := lines[..|lines| - 1];
      StepTakesStock(ReserveAll(stock, prefix), lines[|lines| - 1]);
      MentionsPrefix(lines, id);
      ReserveUntouched(stock, prefix, id);
    }
  }

  /** On success every ordered product ends with `inStock` exactly when its
      quantity is not 0. */
  lemma {:induction false} ReserveInStockFlag(stock: Stock, lines: seq<LineRequest>, id: ProductId)
    requires ReserveAll(stock, lines).outcome.Ok?
    requires id in stock && Mentions(lines, id)
    ensures var inv := ReserveAll(stock, lines).stock[id].inventory;
      inv.inStock <==> inv.quantity != 0
    decreases |lines|
  {
    var prefix := lines[..|lines| - 1];
    var last := lines[|lines| - 1];
    StepTakesStock(ReserveAll(stock, prefix), last);
    MentionsPrefix(lines, id);
    if last.productId != id {
      ReserveInStockFlag(stock, prefix, id);
    }
  }

  /** No rollback: when placement fails at line `k`, the stock is exactly as
      the first `k` lines left it, and line `k` is the one that failed. */
  lemma {:induction false} ReserveFailureKeepsEarlierLines(stock: Stock, lines: seq<LineRequest>)
    requires ReserveAll(stock, lines).outcome.Err?
    ensures var r := ReserveAll(stock, lines);
      exists k :: 0 <= k < |lines| && FailsAt(stock, lines, k)
    decreases |lines|
  {
    var prefix := lines[..|lines| - 1];
    var prev := ReserveAll(stock, prefix);
    if prev.outcome.Err? {
      ReserveFailureKeepsEarlierLines(stock, prefix);
      var k :| 0 <= k < |prefix| && FailsAt(stock, prefix, k);
      assert prefix[..k] == lines[..k] && prefix[k] == lines[k];
      assert FailsAt(stock, lines, k);
    } else {
      assert FailsAt(stock, lines, |lines| - 1);
    }
  }

  /** Placement of `lines` stops at line `k`: the first `k` lines succeeded,
      the stock is as they left it, and line `k` gave the error. */
  predicate FailsAt(stock: Stock, lines: seq<LineRequest>, k: nat)
    requires k < |lines|
  {
    var r := ReserveAll(stock, lines);
    var before := ReserveAll(stock, lines[..k]);
    && r.outcome.Err?
    && before.outcome.Ok?
    && before.stock == r.stock
    && ReserveLine(r.stock, lines[k]) == Err(r.outcome.error)
  }

  /** Consequently a failed placement leaves the products decremented by what
      the lines before the failing one requested. */
  lemma {:induction false} FailedPlacementKeepsDecrements(stock: Stock, lines: seq<LineRequest>)
    requires ReserveAll(stock, lines).outcome.Err?
    ensures var r := ReserveAll(stock, lines);
      exists k :: 0 <= k < |lines| && forall id :: id in stock ==>
        r.stock[id].inventory.quantity == stock[id].inventory.quantity - Requested(lines[..k], id)
  {
    ReserveFailureKeepsEarlierLines(stock, lines);
    var k :| 0 <= k < |lines| && FailsAt(stock, lines, k);
    ReserveAccounting(stock, lines[..k]);
  }

  /** The error says why: an unknown id that some line asks for, or the name
      of a product some line asks for more of than it has (or that is out of
      stock) at that point. */
  lemma {:induction false} ReserveErrorCause(stock: Stock, lines: seq<LineRequest>)
    requires ReserveAll(stock, lines).outcome.Err?
    ensures var e := ReserveAll(stock, lines).outcome.error;
      && (e.ProductNotFound? ==> e.productId !in stock && Mentions(lines, e.productId))
      && (e.OutOfStock? ==> exists k :: 0 <= k < |lines| && lines[k].productId in stock
                                 && stock[lines[k].productId].name == e.productName)
  {
    ReserveFailureKeepsEarlierLines(stock, lines);
    var r := ReserveAll(stock, lines);
    var k :| 0 <= k < |lines| && FailsAt(stock, lines, k);
    if r.outcome.error.OutOfStock? {
      assert SameListing(stock[lines[k].productId], r.stock[lines[k].productId]);
    }
  }

  /** A line for a product that does not exist makes placement fail. */
  lemma {:induction false} MissingProductFails(stock: Stock, lines: seq<LineRequest>, k: nat)
    requires k < |lines| && lines[k].productId !in stock
    ensures ReserveAll(stock, lines).outcome.Err?
  {
    if ReserveAll(stock, lines).outcome.Ok? {
      ReserveSnapshots(stock, lines);
    }
  }

  /** Snapshots of valid products form a valid order exactly when there is
      at least one, the email has the required shape, and every quantity is at
      least 1. */
  lemma {:induction false} SnapshotOrderValidity(stock: Stock, lines: seq<LineRequest>, items: seq<OrderItem>, id: OrderId,
                              userId: UserId, email: string, shipping: Option<ShippingAddress>)
    requires forall pid :: pid in stock ==> ProductValid(stock[pid])
    requires |items| == |lines|
    requires forall k :: 0 <= k < |lines| ==>
               (lines[k].productId in stock
                && items[k] == Snapshot(lines[k].productId, stock[lines[k].productId], lines[k].quantity))
    ensures OrderValid(NewOrder(id, userId, email, items, Total(items), shipping)) <==>
              |lines| > 0 && IsEmailShaped(email) && forall k :: 0 <= k < |lines| ==> lines[k].quantity >= 1
  {
    var o := NewOrder(id, userId, email, items, Total(items), shipping);
    if OrderValid(o) {
      forall k | 0 <= k < |lines| ensures lines[k].quantity >= 1 {
        assert ItemValid(o.items[k]);
      }
    }
    if |lines| > 0 && IsEmailShaped(email) && forall k :: 0 <= k < |lines| ==> lines[k].quantity >= 1 {
      forall k | 0 <= k < |items| ensures ItemValid(items[k]) {
        assert ProductValid(stock[lines[k].productId]);
      }
      TotalNonNegative(items);
    }
  }

  /** With every product valid and the stock taken, `Order.create` accepts
      the order exactly when there is a line, the email has the required
      shape, and every requested quantity is at least 1. */
  lemma {:induction false} PlacedOrderValidity(stock: Stock, lines: seq<LineRequest>, id: OrderId, userId: UserId,
                            email: string, shipping: Option<ShippingAddress>)
    requires forall pid :: pid in stock ==> ProductValid(stock[pid])
    requires ReserveAll(stock, lines).outcome.Ok?
    ensures var items := ReserveAll(stock, lines).outcome.value;
      OrderValid(NewOrder(id, userId, email, items, Total(items), shipping)) <==>
        |lines| > 0 && IsEmailShaped(email) && forall k :: 0 <= k < |lines| ==> lines[k].quantity >= 1
  {
    ReserveSnapshots(stock, lines);
    SnapshotOrderValidity(stock, lines, ReserveAll(stock, lines).outcome.value, id, userId, email, shipping);
  }

  /** The quantity gap: a line with a negative quantity passes the stock
      check and raises the stored quantity before `Order.create` refuses the
      order. */
  lemma {:induction false} NegativeQuantityChangesStock()
    ensures var p := Product("Mug", "A mug", 500, "Kitchen", [], [], Inventory(2, true), None, None);
      var r := ReserveAll(map[0 := p], [LineRequest(0, -3)]);
      && r.outcome.Ok?
      && r.stock[0].inventory.quantity == 5
      && !OrderValid(NewOrder(0, 0, "a@b.co", r.outcome.value, Total(r.outcome.value), None))
  {
    var p := Product("Mug", "A mug", 500, "Kitchen", [], [], Inventory(2, true), None, None);
    ReserveExtend(map[0 := p], [], LineRequest(0, -3));
    assert [] + [LineRequest(0, -3)] == [LineRequest(0, -3)];
    var r := ReserveAll(map[0 := p], [LineRequest(0, -3)]);
    assert r.outcome.value == [Snapshot(0, p, -3)];
  }

  /** One pass of the cancellation loop: a product that still exists gets the
      quantity back and is flagged in stock; a deleted product is skipped. */
  function RestoreLine(stock: Stock, item: OrderItem): Stock {
    if item.productId !in stock then stock
    else
      var p := stock[item.productId];
      stock[item.productId := p.(inventory := Inventory(p.inventory.quantity + item.quantity, true))]
  }

  /** The cancellation loop over the order's items. */
  function RestoreAll(stock: Stock, items: seq<OrderItem>): Stock {
    if |items| == 0 then stock
    else RestoreLine(RestoreAll(stock, items[..|items| - 1]), items[|items| - 1])
  }

  lemma {:induction false} RestorePrefix(stock: Stock, items: seq<OrderItem>, i: nat)
    requires i < |items|
    ensures RestoreAll(stock, items[..i + 1]) == RestoreLine(RestoreAll(stock, items[..i]), items[i])
  {
    assert items[..i + 1][..i] == items[..i];
  }

  /** Cancellation leaves the set of products as it was, adds each item's
      quantity back to each product that still exists, flags those products
      in stock, and changes nothing else. */
  lemma {:induction false} RestoreAccounting(stock: Stock, items: seq<OrderItem>)
    ensures var r := RestoreAll(stock, items);
      && r.Keys == stock.Keys
      && forall id :: id in stock ==>
           && SameListing(stock[id], r[id])
           && r[id].inventory.quantity == stock[id].inventory.quantity + Requested(ItemLines(items), id)
           && (r[id].inventory.inStock <==> stock[id].inventory.inStock || Mentions(ItemLines(items), id))
    decreases |items|
  {
    if |items| > 0 {
      var prefix := items[..|items| - 1];
      RestoreAccounting(stock, prefix);
      var lines := ItemLines(items);
      assert lines[..|lines| - 1] == ItemLines(prefix);
      forall id | id in stock
        ensures Mentions(lines, id) <==> Mentions(ItemLines(prefix), id) || items[|items| - 1].productId == id
      {
        MentionsPrefix(lines, id);
      }
    }
  }

  /** Cancelling right after placing restores the product map exactly: the
      quantities come back, and the ordered products, which placement found in
      stock, are flagged in stock again. */
  lemma {:induction false} CancelUndoesPlacement(stock: Stock, lines: seq<LineRequest>)
    requires ReserveAll(stock, lines).outcome.Ok?
    ensures RestoreAll(ReserveAll(stock, lines).stock, ReserveAll(stock, lines).outcome.value) == stock
  {
    var r := ReserveAll(stock, lines);
    var back := RestoreAll(r.stock, r.outcome.value);
    RestoreAccounting(r.stock, r.outcome.value);
    forall id | id in stock ensures back[id] == stock[id] {
      RestoredProduct(stock, lines, id);
    }
  }

  lemma {:induction false} RestoredProduct(stock: Stock, lines: seq<LineRequest>, id: ProductId)
    requires ReserveAll(stock, lines).outcome.Ok? && id in stock
    ensures var r := ReserveAll(stock, lines);
      id in RestoreAll(r.stock, r.outcome.value) && RestoreAll(r.stock, r.outcome.value)[id] == stock[id]
  {
    var r := ReserveAll(stock, lines);
    var items := r.outcome.value;
    ReserveSnapshots(stock, lines);
    ReserveAccounting(stock, lines);
    RestoreAccounting(r.stock, items);
    var back := RestoreAll(r.stock, items);
    assert ItemLines(items) == lines;
    var p, q, b := stock[id], r.stock[id], back[id];
    var n := Requested(lines, id);
    assert q.inventory.quantity == p.inventory.quantity - n;
    assert b.inventory.quantity == q.inventory.quantity + n;
    if Mentions(lines, id) {
      var k :| 0 <= k < |lines| && lines[k].productId == id;
      assert p.inventory.inStock;
      assert b.inventory.inStock;
    } else {
      ReserveUntouched(stock, lines, id);
      assert b.inventory.inStock == p.inventory.inStock;
    }
    ListingBack(p, q, b);
  }

  /** Two listing-preserving steps that end at the starting inventory end at
      the starting product. */
  lemma {:induction false} ListingBack(p: Product, q: Product, b: Product)
    requires SameListing(p, q) && SameListing(q, b)
    requires b.inventory.quantity == p.inventory.quantity && b.inventory.inStock == p.inventory.inStock
    ensures b == p
  {
    assert b.inventory == p.inventory;
  }

  /** `getUserOrdersService`: that user's orders, newest first. */
  function UserOrders(orders: seq<Order>, userId: UserId): (r: seq<Order>)
    ensures forall k :: 0 <= k < |r| ==> r[k].userId == userId && r[k] in orders
    ensures forall k :: 0 <= k < |orders| && orders[k].userId == userId ==> orders[k] in r
  {
    if |orders| == 0 then []
    else
      var last := orders[|orders| - 1];
      var older := UserOrders(orders[..|orders| - 1], userId);
      assert forall k :: 0 <= k < |orders| - 1 ==> orders[k] == orders[..|orders| - 1][k];
      if last.userId == userId then [last] + older else older
  }

  /** Later orders have larger ids. */
  predicate IdsIncreasing(orders: seq<Order>) {
    forall j, k :: 0 <= j < k < |orders| ==> orders[j].id < orders[k].id
  }

  lemma {:induction false} UserOrdersBelow(orders: seq<Order>, userId: UserId, bound: nat)
    requires forall k :: 0 <= k < |orders| ==> orders[k].id < bound
    ensures forall k :: 0 <= k < |UserOrders(orders, userId)| ==> UserOrders(orders, userId)[k].id < bound
    decreases |orders|
  {
    if |orders| > 0 {
      var prefix := orders[..|orders| - 1];
      assert forall k :: 0 <= k < |prefix| ==> prefix[k] == orders[k];
      UserOrdersBelow(prefix, userId, bound);
    }
  }

  /** The user's orders come newest first. */
  lemma {:induction false} UserOrdersNewestFirst(orders: seq<Order>, userId: UserId)
    requires IdsIncreasing(orders)
    ensures forall j, k :: 0 <= j < k < |UserOrders(orders, userId)| ==>
              UserOrders(orders, userId)[j].id > UserOrders(orders, userId)[k].id
    decreases |orders|
  {
    if |orders| > 0 {
      var prefix := orders[..|orders| - 1];
      var last := orders[|orders| - 1];
      assert forall k :: 0 <= k < |prefix| ==> prefix[k] == orders[k];
      assert IdsIncreasing(prefix);
      UserOrdersNewestFirst(prefix, userId);
      var older := UserOrders(prefix, userId);
      UserOrdersBelow(prefix, userId, last.id);
      var r := UserOrders(orders, userId);
      if last.userId == userId {
        assert r == [last] + older;
        forall j, k | 0 <= j < k < |r| ensures r[j].id > r[k].id {
          assert r[k] == older[k - 1];
          if j > 0 {
            assert r[j] == older[j - 1];
          }
        }
      }
    }
  }

  /** The last position holding order `id`. The collection's ids increase,
      so it is the only one. */
  function FindOrder(orders: seq<Order>, id: OrderId): (r: Option<nat>)
    ensures r.None? <==> forall k :: 0 <= k < |orders| ==> orders[k].id != id
    ensures r.Some? ==> r.value < |orders| && orders[r.value].id == id
    ensures r.Some? ==> forall k :: r.value < k < |orders| ==> orders[k].id != id
  {
    if |orders| == 0 then None
    else if orders[|orders| - 1].id == id then Some(|orders| - 1)
    else FindOrder(orders[..|orders| - 1], id)
  }

  /** The order collection. `nextId` stands for the id generator. */
  class OrderCollection {
    var orders: seq<Order>
    var nextId: nat

    ghost predicate Valid()
      reads this
    {
      && (forall k :: 0 <= k < |orders| ==> orders[k].id < nextId && OrderValid(orders[k]))
      && IdsIncreasing(orders)
    }

    constructor ()
      ensures Valid() && orders == [] && nextId == 0
    {
      orders := [];
      nextId := 0;
    }

    /** `Order.create` once the order passed validation. */
    method Insert(o: Order)
      requires Valid() && OrderValid(o) && o.id == nextId
      modifies this
      ensures Valid()
      ensures orders == old(orders) + [o] && nextId == old(nextId) + 1
    {
      orders := orders + [o];
      nextId := nextId + 1;
    }

    /** Replace the order at position `k` by one with the same id. */
    method SetAt(k: nat, o: Order)
      requires Valid() && k < |orders| && o.id == orders[k].id && OrderValid(o)
      modifies this
      ensures Valid()
      ensures orders == old(orders)[k := o] && nextId == old(nextId)
    {
      orders := orders[k := o];
    }

    /** `updateOrderStatusService`: the enum validator runs first; an unknown
        id gives None; otherwise only that order's status changes. No
        transition order is enforced. */
    method UpdateStatus(id: OrderId, status: string) returns (r: Result<Option<Order>, StatusError>)
      requires Valid()
      modifies this
      ensures Valid() && nextId == old(nextId)
      ensures ParseStatus(status).None? ==> r == Err(InvalidStatus) && orders == old(orders)
      ensures ParseStatus(status).Some? && FindOrder(old(orders), id).None? ==> r == Ok(None) && orders == old(orders)
      ensures ParseStatus(status).Some? && FindOrder(old(orders), id).Some? ==>
                var k := FindOrder(old(orders), id).value;
                var updated := old(orders)[k].(status := ParseStatus(status).value);
                r == Ok(Some(updated)) && orders == old(orders)[k := updated]
    {
      var parsed := ParseStatus(status);
      if parsed.None? {
        return Err(InvalidStatus);
      }
      var found := FindOrder(orders, id);
      if found.None? {
        return Ok(None);
      }
      var updated := orders[found.value].(status := parsed.value);
      orders := orders[found.value := updated];
      r := Ok(Some(updated));
    }
  }

  /** One iteration of the item loop of `createOrderService`: look the
      product up, check it, and save it decremented. */
  method TakeLine(catalog: ProductCollection, line: LineRequest) returns (r: Result<OrderItem, PlaceError>)
    requires catalog.Valid()
    modifies catalog
    ensures catalog.Valid() && catalog.nextId == old(catalog.nextId)
    ensures ReserveLine(old(catalog.products), line) ==
              match r
              case Ok(item) => Ok(Step(catalog.products, item))
              case Err(e) => Err(e)
    ensures r.Err? ==> catalog.products == old(catalog.products)
  {
    var found := catalog.Find(line.productId);
    if found.None? {
      return Err(ProductNotFound(line.productId));
    }
    var product := found.value;
    if !product.inventory.inStock || product.inventory.quantity < line.quantity {
      return Err(OutOfStock(product.name));
    }
    var quantity := product.inventory.quantity - line.quantity;
    var inventory := product.inventory.(quantity := quantity);
    if quantity == 0 {
      inventory := inventory.(inStock := false);
    }
    WithInventoryValid(product, inventory);
    catalog.Save(line.productId, product.(inventory := inventory));
    r := Ok(OrderItem(line.productId, product.name, product.price, line.quantity, product.image));
  }

  /** The item loop of `createOrderService`: each requested product in turn,
      saved as soon as it is decremented. */
  method ReserveStock(catalog: ProductCollection, lines: seq<LineRequest>)
    returns (outcome: Result<seq<OrderItem>, PlaceError>, totalAmount: int)
    requires catalog.Valid()
    modifies catalog
    ensures catalog.Valid() && catalog.nextId == old(catalog.nextId)
    ensures ReserveAll(old(catalog.products), lines) == Reservation(catalog.products, outcome)
    ensures outcome.Ok? ==> totalAmount == Total(outcome.value)
  {
    ghost var start := catalog.products;
    totalAmount := 0;
    var items: seq<OrderItem> := [];
    var i := 0;
    while i < |lines|
      invariant 0 <= i <= |lines|
      invariant catalog.Valid() && catalog.nextId == old(catalog.nextId)
      invariant ReserveAll(start, lines[..i]) == Reservation(catalog.products, Ok(items))
      invariant totalAmount == Total(items)
      modifies catalog
    {
      ReservePrefix(start, lines, i);
      var taken := TakeLine(catalog, lines[i]);
      if taken.Err? {
        outcome := Err(taken.error);
        ReserveStopsAt(start, lines, i);
        return;
      }
      var item := taken.value;
      TotalAppend(items, item);
      items := items + [item];
      totalAmount := totalAmount + item.price * item.quantity;
      i := i + 1;
    }
    assert lines[..|lines|] == lines;
    outcome := Ok(items);
  }

  /** `createOrderService`. The stock ends as `ReserveAll` leaves it, also when
      placement fails; the order is created only if every line succeeded and
      the order schema accepts the result, with status pending and the total
      of its snapshot items. */
  method PlaceOrder(catalog: ProductCollection, book: OrderCollection, userId: UserId, email: string,
                    lines: seq<LineRequest>, shipping: Option<ShippingAddress>)
    returns (r: Result<Order, PlaceError>)
    requires catalog.Valid() && book.Valid()
    modifies catalog, book
    ensures catalog.Valid() && book.Valid() && catalog.nextId == old(catalog.nextId)
    ensures catalog.products == ReserveAll(old(catalog.products), lines).stock
    ensures ReserveAll(old(catalog.products), lines).outcome.Err? ==>
              && r == Err(ReserveAll(old(catalog.products), lines).outcome.error)
              && book.orders == old(book.orders) && book.nextId == old(book.nextId)
    ensures ReserveAll(old(catalog.products), lines).outcome.Ok? ==>
              var items := ReserveAll(old(catalog.products), lines).outcome.value;
              var o := NewOrder(old(book.nextId), userId, email, items, Total(items), shipping);
              if OrderValid(o) then
                r == Ok(o) && book.orders == old(book.orders) + [o] && book.nextId == old(book.nextId) + 1
              else
                r == Err(OrderRejected) && book.orders == old(book.orders) && book.nextId == old(book.nextId)
  {
    var outcome, totalAmount := ReserveStock(catalog, lines);
    if outcome.Err? {
      return Err(outcome.error);
    }
    var order := NewOrder(book.nextId, userId, email, outcome.value, totalAmount, shipping);
    if !OrderValid(order) {
      return Err(OrderRejected);
    }
    book.Insert(order);
    r := Ok(order);
  }

  /** One iteration of the restore loop of `cancelOrderService`: a product
      that still exists gets the quantity back and is flagged in stock. */
  method GiveBack(catalog: ProductCollection, item: OrderItem)
    requires catalog.Valid() && item.quantity >= 0
    modifies catalog
    ensures catalog.Valid() && catalog.nextId == old(catalog.nextId)
    ensures catalog.products == RestoreLine(old(catalog.products), item)
  {
    var product := catalog.Find(item.productId);
    if product.Some? {
      var p := product.value;
      var inventory := Inventory(p.inventory.quantity + item.quantity, true);
      WithInventoryValid(p, inventory);
      catalog.Save(item.productId, p.(inventory := inventory));
    }
  }

  /** The restore loop of `cancelOrderService`, over the order's items. */
  method RestoreStock(catalog: ProductCollection, items: seq<OrderItem>)
    requires catalog.Valid()
    requires forall k :: 0 <= k < |items| ==> items[k].quantity >= 0
    modifies catalog
    ensures catalog.Valid() && catalog.nextId == old(catalog.nextId)
    ensures catalog.products == RestoreAll(old(catalog.products), items)
  {
    ghost var start := catalog.products;
    var i := 0;
    while i < |items|
      invariant 0 <= i <= |items|
      invariant catalog.Valid() && catalog.nextId == old(catalog.nextId)
      invariant catalog.products == RestoreAll(start, items[..i])
      modifies catalog
    {
      RestorePrefix(start, items, i);
      GiveBack(catalog, items[i]);
      i := i + 1;
    }
    assert items[..|items|] == items;
  }

  /** `cancelOrderService`: the order must exist and belong to the user
      (otherwise 'Order not found', whoever owns it) and be pending; then each
      item's quantity goes back to its product if that still exists, and the
      order is marked cancelled. */
  method CancelOrder(catalog: ProductCollection, book: OrderCollection, id: OrderId, userId: UserId)
    returns (r: Result<Order, CancelError>)
    requires catalog.Valid() && book.Valid()
    modifies catalog, book
    ensures catalog.Valid() && book.Valid()
    ensures catalog.nextId == old(catalog.nextId) && book.nextId == old(book.nextId)
    ensures var found := FindOrder(old(book.orders), id);
      if found.None? || old(book.orders)[found.value].userId != userId then
        r == Err(OrderNotFound) && catalog.products == old(catalog.products) && book.orders == old(book.orders)
      else
        var o := old(book.orders)[found.value];
        if o.status != Pending then
          r == Err(NotPending) && catalog.products == old(catalog.products) && book.orders == old(book.orders)
        else
          var cancelled := o.(status := Cancelled);
          && r == Ok(cancelled)
          && catalog.products == RestoreAll(old(catalog.products), o.items)
          && book.orders == old(book.orders)[found.value := cancelled]
  {
    var found := FindOrder(book.orders, id);
    if found.None? || book.orders[found.value].userId != userId {
      return Err(OrderNotFound);
    }
    var order := book.orders[found.value];
    if order.status != Pending {
      return Err(NotPending);
    }
    assert OrderValid(order);
    RestoreStock(catalog, order.items);
    var cancelled := order.(status := Cancelled);
    book.SetAt(found.value, cancelled);
    r := Ok(cancelled);
  }
}
