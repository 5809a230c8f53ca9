/**
 * The orders controller: checkout (`CreateOrder`) turns the caller's cart into an
 * order with frozen prices, decrements stock and clears the cart; `GetOrders`,
 * `GetOrder` and `GetAllOrders` read orders back, newest first.
 */
module Orders {
  import opened Results
  import opened Seqs
  import opened Store
  import Cart
  import Int32

  datatype OrderItemDto = OrderItemDto(productId: int, productName: string, quantity: int, price: int)

  datatype OrderDto = OrderDto(id: int, totalAmount: int, status: string, createdAt: int, items: seq<OrderItemDto>)

  function DtoStamp(d: OrderDto): int { d.createdAt }

  function ItemCost(oi: OrderItem): int { oi.quantity * oi.price }

  function ItemsOf(s: Store, orderId: int): (r: seq<OrderItem>)
    ensures forall oi :: oi in r <==> oi in s.orderItems && oi.orderId == orderId
  {
    Filter(s.orderItems, ItemOf(orderId))
  }

  function ItemDtos(products: map<int, Product>, items: seq<OrderItem>): (r: seq<OrderItemDto>)
    requires forall oi :: oi in items ==> oi.productId in products
    ensures |r| == |items|
    ensures forall i :: 0 <= i < |items| ==>
      r[i] == OrderItemDto(items[i].productId, products[items[i].productId].name, items[i].quantity, items[i].price)
  {
    if |items| == 0 then []
    else
      var oi := items[0];
      [OrderItemDto(oi.productId, products[oi.productId].name, oi.quantity, oi.price)] + ItemDtos(products, items[1..])
  }

  /** An order as the API shows it: its items joined with the live product names. */
  function OrderDtoOf(s: Store, o: Order): OrderDto
    requires OrderItemRefsExist(s)
  {
    OrderDto(o.id, o.totalAmount, o.status, o.createdAt, ItemDtos(s.products, ItemsOf(s, o.id)))
  }

  function OrderDtos(s: Store, orders: seq<Order>): (r: seq<OrderDto>)
    requires OrderItemRefsExist(s)
    ensures |r| == |orders|
    ensures forall i :: 0 <= i < |orders| ==> r[i] == OrderDtoOf(s, orders[i])
  {
    if |orders| == 0 then [] else [OrderDtoOf(s, orders[0])] + OrderDtos(s, orders[1..])
  }

  // ---------------------------------------------------------------------
  // Reading orders back.

  /** Order rows ranked by `OrderByDescending(o => o.CreatedAt)`: the table is kept in creation order. */
  function NewestFirst(orders: seq<Order>): (r: seq<Order>)
    ensures |r| == |orders|
    ensures forall o :: o in r <==> o in orders
    ensures Increasing(orders, OrderStamp) ==> Decreasing(r, OrderStamp)
  {
    var r := Reverse(orders);
    assert forall o :: o in orders ==> o in r by {
      forall o | o in orders ensures o in r {
        var k :| 0 <= k < |orders| && orders[k] == o;
        assert r[|orders| - 1 - k] == o;
      }
    }
    assert Increasing(orders, OrderStamp) ==> Decreasing(r, OrderStamp) by {
      if Increasing(orders, OrderStamp) {
        ReverseDecreasing(orders, OrderStamp);
      }
    }
    r
  }

  /** GET /orders/all (managers): every order, newest first. */
  function GetAllOrders(s: Store): (r: seq<OrderDto>)
    requires OrderItemRefsExist(s)
    ensures |r| == |s.orders|
    ensures forall o :: o in s.orders ==> OrderDtoOf(s, o) in r
    ensures forall d :: d in r ==> exists o :: o in s.orders && d == OrderDtoOf(s, o)
    ensures OrdersWellFormed(s) ==> Decreasing(r, DtoStamp)
  {
    Listing(s, s.orders)
  }

  /** GET /orders (customers): the caller's orders, newest first. */
  function GetOrders(s: Store, userId: int): (r: seq<OrderDto>)
    requires OrderItemRefsExist(s)
    ensures forall o :: o in s.orders && o.userId == userId ==> OrderDtoOf(s, o) in r
    ensures forall d :: d in r ==> exists o :: o in s.orders && o.userId == userId && d == OrderDtoOf(s, o)
    ensures OrdersWellFormed(s) ==> Decreasing(r, DtoStamp)
  {
    var mine := Filter(s.orders, PlacedBy(userId));
    assert OrdersWellFormed(s) ==> Increasing(mine, OrderStamp) by {
      if OrdersWellFormed(s) {
        FilterIncreasing(s.orders, PlacedBy(userId), OrderStamp);
      }
    }
    Listing(s, mine)
  }

  /** The DTOs of `orders`, newest first. */
  function Listing(s: Store, orders: seq<Order>): (r: seq<OrderDto>)
    requires OrderItemRefsExist(s)
    ensures |r| == |orders|
    ensures forall o :: o in orders ==> OrderDtoOf(s, o) in r
    ensures forall d :: d in r ==> exists o :: o in orders && d == OrderDtoOf(s, o)
    ensures Increasing(orders, OrderStamp) ==> Decreasing(r, DtoStamp)
  {
    var ranked := NewestFirst(orders);
    var r := OrderDtos(s, ranked);
    assert forall o :: o in orders ==> OrderDtoOf(s, o) in r by {
      forall o | o in orders ensures OrderDtoOf(s, o) in r {
        var k :| 0 <= k < |ranked| && ranked[k] == o;
        assert r[k] == OrderDtoOf(s, o);
      }
    }
    assert forall d :: d in r ==> exists o :: o in orders && d == OrderDtoOf(s, o) by {
      forall d | d in r ensures exists o :: o in orders && d == OrderDtoOf(s, o) {
        var k :| 0 <= k < |r| && r[k] == d;
        assert ranked[k] in orders;
      }
    }
    r
  }

  /** The order `id` if the caller placed it. */
  function Mine(userId: int, id: int): Order -> bool { (o: Order) => o.id == id && o.userId == userId }

  /**
   * GET /orders/{id}: the caller's own order with that id; an order that does not
   * exist and one placed by somebody else are both reported as not found.
   */
  function GetOrder(s: Store, userId: int, id: int): (r: Result<OrderDto>)
    requires OrderItemRefsExist(s)
    ensures r.Ok? <==> exists o :: o in s.orders && o.id == id && o.userId == userId
    ensures r.Ok? ==> exists o :: o in s.orders && o.id == id && o.userId == userId && r.value == OrderDtoOf(s, o)
    ensures r.Err? ==> r.error == NotFound(OrderNotFound)
  {
    match First(s.orders, Mine(userId, id))
    case None => Err(NotFound(OrderNotFound))
    case Some(o) => Ok(OrderDtoOf(s, o))
  }

  // ---------------------------------------------------------------------
  // Checkout.

  /** How many units of `productId` the lines ask for in total. */
  function QuantityOf(lines: seq<CartItem>, productId: int): int
  {
    if |lines| == 0 then 0
    else (if lines[0].productId == productId then lines[0].quantity else 0) + QuantityOf(lines[1..], productId)
  }

  /** The first line whose product has less stock than the line's quantity. */
  function Shortage(products: map<int, Product>, lines: seq<CartItem>): (r: Option<CartItem>)
    requires forall ci :: ci in lines ==> ci.productId in products
    ensures r.Some? ==> r.value in lines && products[r.value.productId].stock < r.value.quantity
    ensures r.None? ==> forall ci :: ci in lines ==> products[ci.productId].stock >= ci.quantity
  {
    if |lines| == 0 then None
    else if products[lines[0].productId].stock < lines[0].quantity then Some(lines[0])
    else Shortage(products, lines[1..])
  }

  /** One order item per cart line, priced at the product's price at checkout. */
  function OrderLines(products: map<int, Product>, lines: seq<CartItem>, orderId: int, firstId: int): (r: seq<OrderItem>)
    requires forall ci :: ci in lines ==> ci.productId in products
    ensures |r| == |lines|
    ensures forall oi :: oi in r ==> oi.orderId == orderId && firstId <= oi.id < firstId + |lines|
    ensures forall i :: 0 <= i < |lines| ==>
      r[i] == OrderItem(firstId + i, orderId, lines[i].productId, lines[i].quantity, products[lines[i].productId].price)
  {
    if |lines| == 0 then []
    else
      var ci := lines[0];
      [OrderItem(firstId, orderId, ci.productId, ci.quantity, products[ci.productId].price)]
        + OrderLines(products, lines[1..], orderId, firstId + 1)
  }

  /** `cartItem.Product.Stock -= cartItem.Quantity` for every line in turn. */
  function Decrement(products: map<int, Product>, lines: seq<CartItem>): (r: map<int, Product>)
    requires forall ci :: ci in lines ==> ci.productId in products
    ensures r.Keys == products.Keys
    ensures forall pid :: pid in products ==>
      r[pid] == products[pid].(stock := products[pid].stock - QuantityOf(lines, pid))
    decreases |lines|
  {
    if |lines| == 0 then products
    else
      var ci := lines[0];
      var p := products[ci.productId];
      Decrement(products[ci.productId := p.(stock := p.stock - ci.quantity)], lines[1..])
  }

  /** Checkout can go through: the caller's cart is not empty and every line is within its product's stock. */
  predicate CanCheckOut(s: Store, userId: int)
    requires CartItemRefsExist(s)
  {
    CartOf(s, userId) != [] &&
    forall ci :: ci in CartOf(s, userId) ==> s.products[ci.productId].stock >= ci.quantity
  }

  /**
   * POST /orders. An empty cart is refused; then the first line whose product
   * lacks stock is refused, naming that product; otherwise a "Pending" order for
   * the cart's value is created with one item per line, stock is decremented and
   * the caller's cart is cleared.
   */
  function CreateOrder(s: Store, userId: int): (r: Result<Reply<OrderDto>>)
    requires CartItemRefsExist(s) && OrderItemRefsExist(s)
    ensures CartOf(s, userId) == [] ==> r == Err(BadRequest(CartEmpty))
    ensures r.Ok? <==> CanCheckOut(s, userId)
    ensures r.Err? && CartOf(s, userId) != [] ==>
      exists ci :: ci in CartOf(s, userId) && s.products[ci.productId].stock < ci.quantity &&
                   r.error == BadRequest(InsufficientStockOf(s.products[ci.productId].name))
    ensures r.Ok? ==>
      && r.value.next == CheckedOut(s, userId)
      && r.value.body.id == s.nextId
      && r.value.body.status == Pending
      && r.value.body.totalAmount == LinesTotal(s.products, CartOf(s, userId))
  {
    var lines := CartOf(s, userId);
    if |lines| == 0 then Err(BadRequest(CartEmpty))
    else match Shortage(s.products, lines)
      case Some(ci) => Err(BadRequest(InsufficientStockOf(s.products[ci.productId].name)))
      case None =>
        var s' := CheckedOut(s, userId);
        CheckoutItemRefs(s, userId);
        Ok(Reply(s', OrderDtoOf(s', Order(s.nextId, userId, LinesTotal(s.products, lines), Pending, s.clock))))
  }

  /** The store checkout commits: the new order and its items, decremented stock, the caller's cart cleared. */
  function CheckedOut(s: Store, userId: int): (r: Store)
    requires CartItemRefsExist(s)
    ensures r.orders == s.orders + [Order(s.nextId, userId, LinesTotal(s.products, CartOf(s, userId)), Pending, s.clock)]
    ensures r.orderItems == s.orderItems + OrderLines(s.products, CartOf(s, userId), s.nextId, s.nextId + 1)
    ensures r.cartItems == Cart.ClearCart(s, userId).cartItems
    ensures r.products == Decrement(s.products, CartOf(s, userId))
    ensures r.users == s.users && r.categories == s.categories
    ensures r.nextId == s.nextId + 1 + |CartOf(s, userId)| && r.clock == s.clock + 1
  {
    var lines := CartOf(s, userId);
    var order := Order(s.nextId, userId, LinesTotal(s.products, lines), Pending, s.clock);
    var r := s.(
      products := Decrement(s.products, lines),
      cartItems := Cart.ClearCart(s, userId).cartItems,
      orders := s.orders + [order],
      orderItems := s.orderItems + OrderLines(s.products, lines, order.id, s.nextId + 1),
      nextId := s.nextId + 1 + |lines|,
      clock := s.clock + 1);
    r
  }

  /** Every item checkout files, old or new, names an existing order. */
  lemma CheckoutItemRefs(s: Store, userId: int)
    requires CartItemRefsExist(s) && OrderItemRefsExist(s)
    ensures OrderItemRefsExist(CheckedOut(s, userId))
  {
    var r := CheckedOut(s, userId);
    var order := Order(s.nextId, userId, LinesTotal(s.products, CartOf(s, userId)), Pending, s.clock);
    assert order in r.orders;
    forall oi | oi in r.orderItems ensures HasOrder(r.orders, oi.orderId) && oi.productId in r.products {
      if oi in s.orderItems {
        var o :| o in s.orders && o.id == oi.orderId;
        assert o in r.orders;
      }
    }
  }

  // ---------------------------------------------------------------------
  // What checkout does, in a well-formed store.

  /** The caller's lines name pairwise different products (one line per product). */
  lemma LinesDistinct(s: Store, userId: int)
    requires Valid(s)
    ensures forall i, j :: 0 <= i < j < |CartOf(s, userId)| ==>
      CartOf(s, userId)[i].productId != CartOf(s, userId)[j].productId
  {
    var lines := CartOf(s, userId);
    FilterIncreasing(s.cartItems, OwnedBy(userId), CartItemKey);
    forall i, j | 0 <= i < j < |lines| ensures lines[i].productId != lines[j].productId {
      assert lines[i] in lines && lines[j] in lines;
      assert lines[i].id < lines[j].id;
    }
  }

  lemma {:induction false} QuantityOfLine(lines: seq<CartItem>, k: int)
    requires 0 <= k < |lines|
    requires forall i, j :: 0 <= i < j < |lines| ==> lines[i].productId != lines[j].productId
    ensures QuantityOf(lines, lines[k].productId) == lines[k].quantity
    decreases |lines|
  {
    if k == 0 {
      QuantityOfAbsent(lines[1..], lines[0].productId);
    } else {
      QuantityOfLine(lines[1..], k - 1);
    }
  }

  lemma {:induction false} QuantityOfAbsent(lines: seq<CartItem>, productId: int)
    requires forall ci :: ci in lines ==> ci.productId != productId
    ensures QuantityOf(lines, productId) == 0
    decreases |lines|
  {
    if |lines| > 0 {
      assert forall ci :: ci in lines[1..] ==> ci in lines;
      QuantityOfAbsent(lines[1..], productId);
    }
  }

  lemma {:induction false} OrderLinesCost(products: map<int, Product>, lines: seq<CartItem>, orderId: int, firstId: int)
    requires forall ci :: ci in lines ==> ci.productId in products
    ensures Sum(OrderLines(products, lines, orderId, firstId), ItemCost) == LinesTotal(products, lines)
    decreases |lines|
  {
    if |lines| > 0 {
      var items := OrderLines(products, lines, orderId, firstId);
      assert items[1..] == OrderLines(products, lines[1..], orderId, firstId + 1);
      OrderLinesCost(products, lines[1..], orderId, firstId + 1);
    }
  }

  /**
   * The new order has exactly one item per cart line, with the line's product and
   * quantity and the product's price at checkout, so the items add up to the
   * cart's value, which is also the cart summary's `TotalAmount`.
   */
  lemma CheckoutItems(s: Store, userId: int)
    requires CartItemRefsExist(s) && OrderItemRefsExist(s) && IdsIssued(s)
    ensures |ItemsOf(CheckedOut(s, userId), s.nextId)| == |CartOf(s, userId)|
    ensures forall i :: 0 <= i < |CartOf(s, userId)| ==>
      var item := ItemsOf(CheckedOut(s, userId), s.nextId)[i];
      var line := CartOf(s, userId)[i];
      item.productId == line.productId && item.quantity == line.quantity && item.price == s.products[line.productId].price
    ensures Sum(ItemsOf(CheckedOut(s, userId), s.nextId), ItemCost) == LinesTotal(s.products, CartOf(s, userId))
    ensures Cart.TotalAmount(Cart.Summary(s, userId)) == LinesTotal(s.products, CartOf(s, userId))
  {
    OldItemsNotUnder(s, s.nextId);
    CheckoutLines(s, userId);
    Cart.SummaryTotals(s, userId);
  }

  /** `CheckoutItems` once the new order's id is known to be unused. */
  lemma CheckoutLines(s: Store, userId: int)
    requires CartItemRefsExist(s)
    requires forall oi :: oi in s.orderItems ==> oi.orderId != s.nextId
    ensures |ItemsOf(CheckedOut(s, userId), s.nextId)| == |CartOf(s, userId)|
    ensures forall i :: 0 <= i < |CartOf(s, userId)| ==>
      var item := ItemsOf(CheckedOut(s, userId), s.nextId)[i];
      var line := CartOf(s, userId)[i];
      item.productId == line.productId && item.quantity == line.quantity && item.price == s.products[line.productId].price
    ensures Sum(ItemsOf(CheckedOut(s, userId), s.nextId), ItemCost) == LinesTotal(s.products, CartOf(s, userId))
  {
    var added := OrderLines(s.products, CartOf(s, userId), s.nextId, s.nextId + 1);
    NewItemsAdded(s, userId);
    OrderLinesCost(s.products, CartOf(s, userId), s.nextId, s.nextId + 1);
  }

  lemma NewItemsAdded(s: Store, userId: int)
    requires CartItemRefsExist(s)
    requires forall oi :: oi in s.orderItems ==> oi.orderId != s.nextId
    ensures ItemsOf(CheckedOut(s, userId), s.nextId) == OrderLines(s.products, CartOf(s, userId), s.nextId, s.nextId + 1)
  {
    var added := OrderLines(s.products, CartOf(s, userId), s.nextId, s.nextId + 1);
    CheckedOutRows(s, userId);
    ItemsUnderNewId(s.orderItems, added, s.nextId);
  }

  /**
   * The reply to a successful checkout lists one item per cart line, and its
   * total is what the cart summary showed just before.
   */
  lemma CreateOrderReply(s: Store, userId: int)
    requires CartItemRefsExist(s) && OrderItemRefsExist(s) && IdsIssued(s)
    requires CanCheckOut(s, userId)
    ensures var body := CreateOrder(s, userId).value.body;
      var lines := CartOf(s, userId);
      && |body.items| == |lines|
      && (forall i :: 0 <= i < |lines| ==>
            body.items[i].productId == lines[i].productId && body.items[i].quantity == lines[i].quantity &&
            body.items[i].price == s.products[lines[i].productId].price)
      && body.totalAmount == Cart.TotalAmount(Cart.Summary(s, userId))
  {
    CreateOrderBody(s, userId);
    CheckoutItems(s, userId);
  }

  /** The reply's body in terms of the committed store. */
  lemma CreateOrderBody(s: Store, userId: int)
    requires CartItemRefsExist(s) && OrderItemRefsExist(s)
    requires CanCheckOut(s, userId)
    ensures OrderItemRefsExist(CheckedOut(s, userId))
    ensures var s' := CheckedOut(s, userId);
      && CreateOrder(s, userId).value.body.items == ItemDtos(s'.products, ItemsOf(s', s.nextId))
      && CreateOrder(s, userId).value.body.totalAmount == LinesTotal(s.products, CartOf(s, userId))
  {
    CheckoutItemRefs(s, userId);
  }

  /** No stored item belongs to an id not yet issued. */
  lemma OldItemsNotUnder(s: Store, orderId: int)
    requires OrderItemRefsExist(s) && IdsIssued(s) && orderId >= s.nextId
    ensures forall oi :: oi in s.orderItems ==> oi.orderId != orderId
  {
    forall oi | oi in s.orderItems ensures oi.orderId != orderId {
      var o :| o in s.orders && o.id == oi.orderId;
    }
  }

  lemma ItemsUnderNewId(before: seq<OrderItem>, added: seq<OrderItem>, orderId: int)
    requires forall oi :: oi in before ==> oi.orderId != orderId
    requires forall oi :: oi in added ==> oi.orderId == orderId
    ensures Filter(before + added, ItemOf(orderId)) == added
  {
    FilterConcat(before, added, ItemOf(orderId));
    FilterNone(before, ItemOf(orderId));
    FilterAll(added, ItemOf(orderId));
  }

  /**
   * Each purchased product's stock drops by exactly its line's quantity and stays
   * non-negative; every other product, and every other field, is unchanged.
   */
  lemma CheckoutStock(s: Store, userId: int)
    requires Valid(s)
    requires CanCheckOut(s, userId)
    ensures var s' := CheckedOut(s, userId);
      && s'.products.Keys == s.products.Keys
      && (forall ci :: ci in CartOf(s, userId) ==>
            && s'.products[ci.productId] == s.products[ci.productId].(stock := s.products[ci.productId].stock - ci.quantity)
            && s'.products[ci.productId].stock >= 0)
      && (forall pid :: pid in s.products && (forall ci :: ci in CartOf(s, userId) ==> ci.productId != pid) ==>
            s'.products[pid] == s.products[pid])
  {
    var lines := CartOf(s, userId);
    LinesDistinct(s, userId);
    forall ci | ci in lines ensures QuantityOf(lines, ci.productId) == ci.quantity {
      var k :| 0 <= k < |lines| && lines[k] == ci;
      QuantityOfLine(lines, k);
    }
    forall pid | pid in s.products && (forall ci :: ci in lines ==> ci.productId != pid)
      ensures QuantityOf(lines, pid) == 0
    {
      QuantityOfAbsent(lines, pid);
    }
  }

  /** Afterwards the caller's cart is empty and every other user's cart is untouched. */
  lemma CheckoutClearsOnlyCallersCart(s: Store, userId: int)
    requires CartItemRefsExist(s) && OrderItemRefsExist(s)
    requires CanCheckOut(s, userId)
    ensures var s' := CheckedOut(s, userId);
      && CartOf(s', userId) == []
      && forall other :: other != userId ==> CartOf(s', other) == CartOf(s, other)
  {
    var s' := CheckedOut(s, userId);
    assert s'.cartItems == Cart.ClearCart(s, userId).cartItems;
    assert CartOf(s', userId) == CartOf(Cart.ClearCart(s, userId), userId);
    forall other | other != userId ensures CartOf(s', other) == CartOf(s, other) {
      assert CartOf(s', other) == CartOf(Cart.ClearCart(s, userId), other);
    }
  }

  /** Checkout by a registered user keeps the store well formed. */
  lemma CreateOrderPreservesValid(s: Store, userId: int)
    requires Valid(s) && userId in s.users
    ensures CreateOrder(s, userId).Ok? ==> Valid(CreateOrder(s, userId).value.next)
  {
    if CreateOrder(s, userId).Ok? {
      CheckoutStock(s, userId);
      CheckoutCatalog(s, userId);
      CheckoutIds(s, userId);
      CheckoutOrders(s, userId);
      CheckoutRefs(s, userId);
      Cart.ClearCartPreservesValid(s, userId);
      var s' := CheckedOut(s, userId);
      assert CartWellFormed(s') && CartItemRefsExist(s') by {
        assert s'.cartItems == Cart.ClearCart(s, userId).cartItems;
      }
    }
  }

  lemma CheckoutCatalog(s: Store, userId: int)
    requires Valid(s)
    requires CanCheckOut(s, userId)
    ensures CatalogWellFormed(CheckedOut(s, userId)) && ProductCategoriesExist(CheckedOut(s, userId))
  {
    var s' := CheckedOut(s, userId);
    var lines := CartOf(s, userId);
    CheckoutStock(s, userId);
    forall pid | pid in s'.products
      ensures s'.products[pid].price >= 1 && 0 <= s'.products[pid].stock <= Int32.MaxInt32
      ensures s'.products[pid].categoryId in s'.categories
    {
      if exists ci :: ci in lines && ci.productId == pid {
        var ci :| ci in lines && ci.productId == pid;
        assert ci in s.cartItems;
      }
    }
  }

  lemma CheckoutIds(s: Store, userId: int)
    requires IdsIssued(s) && CartItemRefsExist(s)
    ensures IdsIssued(CheckedOut(s, userId))
  {
    var s' := CheckedOut(s, userId);
    var added := OrderLines(s.products, CartOf(s, userId), s.nextId, s.nextId + 1);
    CheckedOutRows(s, userId);
    assert forall oi :: oi in added ==> 1 <= oi.id < s'.nextId;
    assert forall ci :: ci in s'.cartItems ==> ci in s.cartItems;
  }

  /** The rows checkout appends, as facts a caller can use without unfolding `CheckedOut`. */
  lemma CheckedOutRows(s: Store, userId: int)
    requires CartItemRefsExist(s)
    ensures CheckedOut(s, userId).orderItems == s.orderItems + OrderLines(s.products, CartOf(s, userId), s.nextId, s.nextId + 1)
    ensures CheckedOut(s, userId).orders == s.orders + [Order(s.nextId, userId, LinesTotal(s.products, CartOf(s, userId)), Pending, s.clock)]
    ensures forall ci :: ci in CheckedOut(s, userId).cartItems <==> ci in s.cartItems && ci.userId != userId
  {
  }

  lemma CheckoutOrders(s: Store, userId: int)
    requires Valid(s)
    requires CanCheckOut(s, userId)
    ensures OrdersWellFormed(CheckedOut(s, userId))
  {
    var s' := CheckedOut(s, userId);
    forall i, j | 0 <= i < j < |s'.orders|
      ensures s'.orders[i].id < s'.orders[j].id && s'.orders[i].createdAt < s'.orders[j].createdAt
    {
      if j == |s.orders| {
        assert s'.orders[i] in s.orders;
      }
    }
  }

  lemma CheckoutRefs(s: Store, userId: int)
    requires Valid(s) && userId in s.users
    requires CanCheckOut(s, userId)
    ensures OrderUsersExist(CheckedOut(s, userId)) && OrderItemRefsExist(CheckedOut(s, userId))
  {
    var s' := CheckedOut(s, userId);
    assert forall o :: o in s'.orders ==> o in s.orders || o.userId == userId;
  }


  /**
   * The order checkout replies with is what the caller reads back afterwards:
   * `GetOrder` by its id returns it, and it heads the caller's `GetOrders` list.
   */
  lemma CreatedOrderReadable(s: Store, userId: int)
    requires CartItemRefsExist(s) && OrderItemRefsExist(s) && IdsIssued(s)
    requires CanCheckOut(s, userId)
    ensures var reply := CreateOrder(s, userId).value;
      && GetOrder(reply.next, userId, reply.body.id) == Ok(reply.body)
      && |GetOrders(reply.next, userId)| > 0
      && GetOrders(reply.next, userId)[0] == reply.body
  {
    CreatedOrderFound(s, userId);
    CreatedOrderFirst(s, userId);
  }

  /** `GetOrder` by the new id finds the new order. */
  lemma CreatedOrderFound(s: Store, userId: int)
    requires CartItemRefsExist(s) && OrderItemRefsExist(s) && IdsIssued(s)
    requires CanCheckOut(s, userId)
    ensures var reply := CreateOrder(s, userId).value;
      GetOrder(reply.next, userId, reply.body.id) == Ok(reply.body)
  {
    var s' := CheckedOut(s, userId);
    var order := Order(s.nextId, userId, LinesTotal(s.products, CartOf(s, userId)), Pending, s.clock);
    CheckedOutRows(s, userId);
    CheckoutItemRefs(s, userId);
    assert forall o :: o in s.orders ==> !Mine(userId, s.nextId)(o);
    FirstAppend(s.orders, order, Mine(userId, s.nextId));
  }

  /** The new order heads the caller's list. */
  lemma CreatedOrderFirst(s: Store, userId: int)
    requires CartItemRefsExist(s) && OrderItemRefsExist(s)
    requires CanCheckOut(s, userId)
    ensures var reply := CreateOrder(s, userId).value;
      |GetOrders(reply.next, userId)| > 0 && GetOrders(reply.next, userId)[0] == reply.body
  {
    var s' := CheckedOut(s, userId);
    var order := Order(s.nextId, userId, LinesTotal(s.products, CartOf(s, userId)), Pending, s.clock);
    CheckedOutRows(s, userId);
    CheckoutItemRefs(s, userId);
    var mine := Filter(s.orders, PlacedBy(userId));
    FilterConcat(s.orders, [order], PlacedBy(userId));
    FilterAll([order], PlacedBy(userId));
    assert Filter(s'.orders, PlacedBy(userId)) == mine + [order];
    assert NewestFirst(mine + [order])[0] == order;
  }
}
