/**
 * The delete rules the data context declares and its seed data. No controller
 * deletes users or orders; these transitions state what the database does when
 * such a row is removed: a user's cart lines go with the user (cascade) but a
 * user with orders cannot be removed (restrict), and an order's items go with
 * the order (cascade). Product and category deletion live with their controllers.
 */
module DbRules {
  import opened Results
  import opened Seqs
  import opened Store

  predicate HasOrders(s: Store, userId: int) {
    exists o :: o in s.orders && o.userId == userId
  }

  /** Removing user `userId`: restricted by its orders, cascading to its cart lines. */
  function DeleteUser(s: Store, userId: int): (r: Result<Store>)
    requires userId in s.users
    ensures r.Err? <==> HasOrders(s, userId)
    ensures r.Err? ==> r.error == ServerError(ForeignKeyViolation)
    ensures r.Ok? ==>
      && r.value == s.(users := s.users - {userId}, cartItems := r.value.cartItems)
      && (forall ci :: ci in r.value.cartItems <==> ci in s.cartItems && ci.userId != userId)
  {
    if HasOrders(s, userId) then Err(ServerError(ForeignKeyViolation))
    else Ok(s.(users := s.users - {userId}, cartItems := Filter(s.cartItems, NotOwnedBy(userId))))
  }

  lemma DeleteUserPreservesValid(s: Store, userId: int)
    requires Valid(s) && userId in s.users
    ensures DeleteUser(s, userId).Ok? ==> Valid(DeleteUser(s, userId).value)
  {
    if DeleteUser(s, userId).Ok? {
      var s' := DeleteUser(s, userId).value;
      FilterIncreasing(s.cartItems, NotOwnedBy(userId), CartItemKey);
      assert OrderUsersExist(s');
    }
  }

  function NotOrder(orderId: int): Order -> bool { (o: Order) => o.id != orderId }
  function ItemNotOf(orderId: int): OrderItem -> bool { (oi: OrderItem) => oi.orderId != orderId }

  /** Removing order `orderId`: its items go with it; nothing else changes. */
  function DeleteOrder(s: Store, orderId: int): (r: Store)
    ensures r == s.(orders := r.orders, orderItems := r.orderItems)
    ensures forall o :: o in r.orders <==> o in s.orders && o.id != orderId
    ensures forall oi :: oi in r.orderItems <==> oi in s.orderItems && oi.orderId != orderId
  {
    s.(orders := Filter(s.orders, NotOrder(orderId)), orderItems := Filter(s.orderItems, ItemNotOf(orderId)))
  }

  lemma DeleteOrderPreservesValid(s: Store, orderId: int)
    requires Valid(s)
    ensures Valid(DeleteOrder(s, orderId))
  {
    var s' := DeleteOrder(s, orderId);
    FilterIncreasing(s.orders, NotOrder(orderId), OrderKey);
    FilterIncreasing(s.orders, NotOrder(orderId), OrderStamp);
    forall oi | oi in s'.orderItems ensures HasOrder(s'.orders, oi.orderId) {
      var o :| o in s.orders && o.id == oi.orderId;
      assert o in s'.orders;
    }
  }

  /** Once its order is gone, an item can no longer be found under that order. */
  lemma DeleteOrderCascades(s: Store, orderId: int)
    ensures forall oi :: oi in DeleteOrder(s, orderId).orderItems ==> oi.orderId != orderId
    ensures !HasOrder(DeleteOrder(s, orderId).orders, orderId)
  {
  }

  // ---------------------------------------------------------------------
  // Seed data: three categories and eight products, prices in kopecks.

  function SeedCategories(): map<int, Category> {
    map[
      1 := Category("Товары для собак", "Всё необходимое для ваших собак"),
      2 := Category("Товары для кошек", "Всё необходимое для ваших кошек"),
      3 := Category("Товары для птиц", "Всё необходимое для ваших птиц")]
  }

  function SeedProducts(): map<int, Product> {
    map[
      1 := Product("Корм для собак премиум", "Высококачественный корм для собак", 150000, 50, None, 1),
      2 := Product("Игрушка для собак", "Прочная игрушка для активных игр", 35000, 100, None, 1),
      3 := Product("Поводок и ошейник", "Комплект поводок + ошейник", 80000, 30, None, 1),
      4 := Product("Корм для кошек", "Сбалансированный корм для кошек", 120000, 60, None, 2),
      5 := Product("Когтеточка", "Удобная когтеточка для котов", 90000, 25, None, 2),
      6 := Product("Лоток для кошек", "Закрытый лоток с фильтром", 150000, 20, None, 2),
      7 := Product("Корм для попугаев", "Витаминизированный корм", 40000, 80, None, 3),
      8 := Product("Клетка для птиц", "Просторная клетка", 250000, 15, None, 3)]
  }

  /** The seeded store: every seeded product is filed under a seeded category, priced above zero and in stock. */
  function Seed(): (s: Store)
    ensures Valid(s)
    ensures s.categories.Keys == {1, 2, 3} && s.products.Keys == {1, 2, 3, 4, 5, 6, 7, 8}
    ensures forall pid :: pid in s.products ==> s.products[pid].price > 0 && s.products[pid].stock >= 0
  {
    Store(map[], SeedCategories(), SeedProducts(), [], [], [], 9, 0)
  }

  /** Each seeded category holds the products the seed files under it. */
  lemma SeedCounts()
    ensures ProductsIn(SeedProducts(), 1) == {1, 2, 3}
    ensures ProductsIn(SeedProducts(), 2) == {4, 5, 6}
    ensures ProductsIn(SeedProducts(), 3) == {7, 8}
  {
    var ps := SeedProducts();
    assert ps.Keys == {1, 2, 3, 4, 5, 6, 7, 8};
    assert forall pid :: pid in ps ==> ps[pid].categoryId == (if pid <= 3 then 1 else if pid <= 6 then 2 else 3);
  }
}
