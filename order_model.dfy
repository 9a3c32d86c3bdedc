/** The order document: the item snapshot, the status enum and the rules the
    schema enforces when an order is created or its status is set. */
module OrderModel {
  import opened Wrappers
  import opened EmailPattern
  import opened ProductModel
  import opened UserModel

  type OrderId = nat

  datatype Status = Pending | Processing | Shipped | Delivered | Cancelled

  function StatusName(s: Status): string {
    match s
    case Pending => "pending"
    case Processing => "processing"
    case Shipped => "shipped"
    case Delivered => "delivered"
    case Cancelled => "cancelled"
  }

  /** Membership in the status enum. */
  function ParseStatus(s: string): (r: Option<Status>)
    ensures r.Some? <==> s in {"pending", "processing", "shipped", "delivered", "cancelled"}
    ensures r.Some? ==> StatusName(r.value) == s
  {
    if s == "pending" then Some(Pending)
    else if s == "processing" then Some(Processing)
    else if s == "shipped" then Some(Shipped)
    else if s == "delivered" then Some(Delivered)
    else if s == "cancelled" then Some(Cancelled)
    else None
  }

  lemma ParseStatusName(s: Status)
    ensures ParseStatus(StatusName(s)) == Some(s)
  {
  }

  /** The status a new order gets. */
  const DefaultStatus: Status := Pending

  /** A copy of the product's data at purchase time. */
  datatype OrderItem = OrderItem(
    productId: ProductId,
    name: string,
    price: int,
    quantity: int,
    image: Option<string>)

  datatype ShippingAddress = ShippingAddress(
    address: Option<string>,
    city: Option<string>,
    country: Option<string>,
    phone: Option<string>)

  /** An order. `userId` is always present (the field is required); the
      shipping address and each of its parts are optional. The id stands for
      the creation time: later orders have larger ids. */
  datatype Order = Order(
    id: OrderId,
    userId: UserId,
    email: string,
    items: seq<OrderItem>,
    totalAmount: int,
    status: Status,
    shippingAddress: Option<ShippingAddress>)

  predicate ItemValid(it: OrderItem) {
    it.name != [] && it.price >= 0 && it.quantity >= 1
  }

  /** The schema's rules: email of the required shape, at least one item,
      every item valid, a non-negative total. */
  predicate OrderValid(o: Order) {
    && IsEmailShaped(o.email)
    && |o.items| > 0
    && (forall k :: 0 <= k < |o.items| ==> ItemValid(o.items[k]))
    && o.totalAmount >= 0
  }

  /** The amount an order's items come to. */
  function Total(items: seq<OrderItem>): int {
    if |items| == 0 then 0
    else Total(items[..|items| - 1]) + items[|items| - 1].price * items[|items| - 1].quantity
  }

  /** Items with non-negative prices and quantities never total below zero. */
  lemma {:induction false} TotalNonNegative(items: seq<OrderItem>)
    requires forall k :: 0 <= k < |items| ==> items[k].price >= 0 && items[k].quantity >= 0
    ensures Total(items) >= 0
  {
    if |items| > 0 {
      TotalNonNegative(items[..|items| - 1]);
      var last := items[|items| - 1];
      assert last.price * last.quantity >= 0;
    }
  }

  /** Appending an item adds its price times its quantity. */
  lemma TotalAppend(items: seq<OrderItem>, item: OrderItem)
    ensures Total(items + [item]) == Total(items) + item.price * item.quantity
  {
    assert (items + [item])[..|items|] == items;
  }

  /** The order `Order.create` builds: the given fields, status defaulted. */
  function NewOrder(id: OrderId, userId: UserId, email: string, items: seq<OrderItem>,
                    totalAmount: int, shipping: Option<ShippingAddress>): (o: Order)
    ensures o.status == DefaultStatus
  {
    Order(id, userId, email, items, totalAmount, DefaultStatus, shipping)
  }
}
