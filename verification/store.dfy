/**
 * The persistence store behind the shop API: the six tables of the data context,
 * the uniqueness and foreign-key rules it declares, and the invariants the
 * controllers maintain on top of them.
 *
 * Money is in integer minor units (kopecks). Identity values of every table are
 * drawn from one counter `nextId`; the model relies only on their freshness.
 * `clock` stands for `DateTime.UtcNow`: every new order takes the current value
 * and advances it.
 */
module Store {
  import opened Results
  import opened Seqs
  import Int32

  datatype User = User(username: string, email: string, passwordHash: string, role: string)

  datatype Category = Category(name: string, description: string)

  datatype Product = Product(
    name: string,
    description: string,
    price: int,
    stock: int,
    imageUrl: Option<string>,
    categoryId: int)

  datatype CartItem = CartItem(id: int, userId: int, productId: int, quantity: int)

  datatype Order = Order(id: int, userId: int, totalAmount: int, status: string, createdAt: int)

  datatype OrderItem = OrderItem(id: int, orderId: int, productId: int, quantity: int, price: int)

  datatype Store = Store(
    users: map<int, User>,
    categories: map<int, Category>,
    products: map<int, Product>,
    cartItems: seq<CartItem>,
    orders: seq<Order>,
    orderItems: seq<OrderItem>,
    nextId: int,
    clock: int)

  /** A successful action: the store it commits and the body it answers with. */
  datatype Reply<R> = Reply(next: Store, body: R)

  const Pending: string := "Pending"
  const Completed: string := "Completed"
  const Cancelled: string := "Cancelled"

  // Row keys and row selectors, used with the sequence helpers.

  function CartItemKey(ci: CartItem): int { ci.id }
  function OrderKey(o: Order): int { o.id }
  function OrderStamp(o: Order): int { o.createdAt }

  function OwnedBy(userId: int): CartItem -> bool { (ci: CartItem) => ci.userId == userId }
  function NotOwnedBy(userId: int): CartItem -> bool { (ci: CartItem) => ci.userId != userId }
  function PlacedBy(userId: int): Order -> bool { (o: Order) => o.userId == userId }
  function ItemOf(orderId: int): OrderItem -> bool { (oi: OrderItem) => oi.orderId == orderId }

  /** The caller's cart lines, in table order. */
  function CartOf(s: Store, userId: int): (r: seq<CartItem>)
    ensures forall ci :: ci in r <==> ci in s.cartItems && ci.userId == userId
  {
    Filter(s.cartItems, OwnedBy(userId))
  }

  /** The value of cart lines at the current product prices: the sum of price × quantity. */
  function LinesTotal(products: map<int, Product>, lines: seq<CartItem>): int
    requires forall ci :: ci in lines ==> ci.productId in products
  {
    if |lines| == 0 then 0
    else products[lines[0].productId].price * lines[0].quantity + LinesTotal(products, lines[1..])
  }

  /** Writes `row` back over the cart row with the same id (change tracking of one entity). */
  function Save(items: seq<CartItem>, row: CartItem): (r: seq<CartItem>)
    ensures |r| == |items|
    ensures forall i :: 0 <= i < |items| ==> r[i] == (if items[i].id == row.id then row else items[i])
  {
    Map(items, (ci: CartItem) => if ci.id == row.id then row else ci)
  }

  /** What `Save` does to the rows, seen as a collection. */
  lemma SaveRows(items: seq<CartItem>, row: CartItem)
    requires exists ci :: ci in items && ci.id == row.id
    ensures row in Save(items, row)
    ensures forall ci :: ci in Save(items, row) ==> ci == row || (ci in items && ci.id != row.id)
    ensures forall ci :: ci in items && ci.id != row.id ==> ci in Save(items, row)
    ensures Increasing(items, CartItemKey) ==> Increasing(Save(items, row), CartItemKey)
  {
    var r := Save(items, row);
    var old_ :| old_ in items && old_.id == row.id;
    var k :| 0 <= k < |items| && items[k] == old_;
    assert r[k] == row;
    forall ci | ci in items && ci.id != row.id ensures ci in r {
      var j :| 0 <= j < |items| && items[j] == ci;
      assert r[j] == ci;
    }
  }

  ghost predicate HasOrder(orders: seq<Order>, orderId: int) {
    exists o :: o in orders && o.id == orderId
  }

  /** The ids of the products filed under category `categoryId`. */
  function ProductsIn(products: map<int, Product>, categoryId: int): (r: set<int>)
    ensures forall pid :: pid in r <==> pid in products && products[pid].categoryId == categoryId
  {
    set pid | pid in products && products[pid].categoryId == categoryId
  }

  // ---------------------------------------------------------------------
  // Rules declared on the data context (unique indexes and foreign keys).

  ghost predicate UniqueEmails(users: map<int, User>) {
    forall a, b :: a in users && b in users && users[a].email == users[b].email ==> a == b
  }

  ghost predicate UniqueUsernames(users: map<int, User>) {
    forall a, b :: a in users && b in users && users[a].username == users[b].username ==> a == b
  }

  ghost predicate ProductCategoriesExist(s: Store) {
    forall pid :: pid in s.products ==> s.products[pid].categoryId in s.categories
  }

  ghost predicate CartItemRefsExist(s: Store) {
    forall ci :: ci in s.cartItems ==> ci.userId in s.users && ci.productId in s.products
  }

  ghost predicate OrderUsersExist(s: Store) {
    forall o :: o in s.orders ==> o.userId in s.users
  }

  ghost predicate OrderItemRefsExist(s: Store) {
    forall oi :: oi in s.orderItems ==> HasOrder(s.orders, oi.orderId) && oi.productId in s.products
  }

  ghost predicate DbConstraints(s: Store) {
    && UniqueEmails(s.users)
    && UniqueUsernames(s.users)
    && ProductCategoriesExist(s)
    && CartItemRefsExist(s)
    && OrderUsersExist(s)
    && OrderItemRefsExist(s)
  }

  // ---------------------------------------------------------------------
  // Invariants the controllers maintain.

  /** Every identity value in use is positive and below the counter. */
  ghost predicate IdsIssued(s: Store) {
    && s.nextId >= 1
    && (forall id :: id in s.users ==> 1 <= id < s.nextId)
    && (forall id :: id in s.categories ==> 1 <= id < s.nextId)
    && (forall id :: id in s.products ==> 1 <= id < s.nextId)
    && (forall ci :: ci in s.cartItems ==> 1 <= ci.id < s.nextId)
    && (forall o :: o in s.orders ==> 1 <= o.id < s.nextId)
    && (forall oi :: oi in s.orderItems ==> 1 <= oi.id < s.nextId)
  }

  /** No unique index enforces one line per (user, product): only the lookup in `AddToCart` does. */
  ghost predicate OneLinePerProduct(items: seq<CartItem>) {
    forall a, b :: a in items && b in items && a.userId == b.userId && a.productId == b.productId ==> a == b
  }

  ghost predicate CartWellFormed(s: Store) {
    && Increasing(s.cartItems, CartItemKey)
    && OneLinePerProduct(s.cartItems)
    && (forall ci :: ci in s.cartItems ==> 1 <= ci.quantity <= Int32.MaxInt32)
  }

  ghost predicate CatalogWellFormed(s: Store) {
    forall pid :: pid in s.products ==>
      s.products[pid].price >= 1 && 0 <= s.products[pid].stock <= Int32.MaxInt32
  }

  ghost predicate OrdersWellFormed(s: Store) {
    && Increasing(s.orders, OrderKey)
    && Increasing(s.orders, OrderStamp)
    && (forall o :: o in s.orders ==> o.createdAt < s.clock)
  }

  ghost predicate Valid(s: Store) {
    && DbConstraints(s)
    && IdsIssued(s)
    && CartWellFormed(s)
    && CatalogWellFormed(s)
    && OrdersWellFormed(s)
  }

  /** A store with no rows; the seeded catalogue is built on top of it. */
  function Empty(): (s: Store)
    ensures Valid(s)
    ensures s.users == map[] && s.products == map[] && s.cartItems == []
  {
    Store(map[], map[], map[], [], [], [], 1, 0)
  }

  /** A change confined to the cart rows and the id counter keeps the store valid once the cart rows are well formed. */
  lemma CartChangeValid(s: Store, s': Store)
    requires Valid(s)
    requires s' == s.(cartItems := s'.cartItems, nextId := s'.nextId) && s'.nextId >= s.nextId
    requires CartItemRefsExist(s') && CartWellFormed(s')
    requires forall ci :: ci in s'.cartItems ==> 1 <= ci.id < s'.nextId
    ensures Valid(s')
  {
  }

  /** A change confined to the catalogue tables and the id counter keeps the store valid once the catalogue is well formed and still holds every product a row refers to. */
  lemma CatalogChangeValid(s: Store, s': Store)
    requires Valid(s)
    requires s' == s.(products := s'.products, categories := s'.categories, nextId := s'.nextId) && s'.nextId >= s.nextId
    requires ProductCategoriesExist(s') && CatalogWellFormed(s')
    requires forall id :: id in s'.products ==> 1 <= id < s'.nextId
    requires forall id :: id in s'.categories ==> 1 <= id < s'.nextId
    requires forall ci :: ci in s.cartItems ==> ci.productId in s'.products
    requires forall oi :: oi in s.orderItems ==> oi.productId in s'.products
    ensures Valid(s')
  {
  }
}
