/**
 * The admin orders page's pure helpers: the revenue fold over the listed
 * orders and the mapping of an order status to its label and chip colour.
 * The orders are the `OrderDto`s the orders endpoint answers with.
 */
module OrdersView {
  import opened Seqs
  import opened Store
  import Orders

  /** Only pending and completed orders count as revenue; cancelled ones do not. */
  predicate Earning(o: Orders.OrderDto) {
    o.status == Pending || o.status == Completed
  }

  function Amount(o: Orders.OrderDto): int { o.totalAmount }

  /** An order's share of the revenue: its amount when it counts, nothing otherwise. */
  function Share(o: Orders.OrderDto): int { if Earning(o) then o.totalAmount else 0 }

  /** `getTotalRevenue`: filter to the earning orders, then sum their amounts. */
  function Revenue(orders: seq<Orders.OrderDto>): (r: int)
    ensures |orders| == 0 ==> r == 0
  {
    Sum(Filter(orders, Earning), Amount)
  }

  /** The filter-then-sum fold equals the per-order share summed over the whole list. */
  lemma {:induction false} RevenueIsSumOfShares(orders: seq<Orders.OrderDto>)
    ensures Revenue(orders) == Sum(orders, Share)
    decreases |orders|
  {
    if |orders| > 0 {
      RevenueIsSumOfShares(orders[1..]);
      assert orders == [orders[0]] + orders[1..];
      FilterConcat([orders[0]], orders[1..], Earning);
      assert Filter([orders[0]], Earning) == (if Earning(orders[0]) then [orders[0]] else []) + Filter([orders[0]][1..], Earning);
      SumConcat(Filter([orders[0]], Earning), Filter(orders[1..], Earning), Amount);
    }
  }

  /** Revenue of two lists shown together is the sum of their revenues. */
  lemma RevenueAdditive(a: seq<Orders.OrderDto>, b: seq<Orders.OrderDto>)
    ensures Revenue(a + b) == Revenue(a) + Revenue(b)
  {
    FilterConcat(a, b, Earning);
    SumConcat(Filter(a, Earning), Filter(b, Earning), Amount);
  }

  /** A cancelled order, wherever it is appended, adds nothing to the revenue. */
  lemma CancelledAddsNothing(orders: seq<Orders.OrderDto>, o: Orders.OrderDto)
    requires o.status == Cancelled
    ensures Revenue(orders + [o]) == Revenue(orders)
  {
    RevenueAdditive(orders, [o]);
    assert Filter([o], Earning) == [];
  }

  /** An earning order appended to the list adds exactly its amount. */
  lemma EarningAddsAmount(orders: seq<Orders.OrderDto>, o: Orders.OrderDto)
    requires Earning(o)
    ensures Revenue(orders + [o]) == Revenue(orders) + o.totalAmount
  {
    RevenueAdditive(orders, [o]);
    assert Filter([o], Earning) == [o];
    assert Sum([o], Amount) == o.totalAmount + Sum([o][1..], Amount);
  }

  /** Orders whose amounts are not negative give a revenue that is not negative. */
  lemma RevenueNonNegative(orders: seq<Orders.OrderDto>)
    requires forall o :: o in orders ==> o.totalAmount >= 0
    ensures Revenue(orders) >= 0
  {
    SumNonNegative(Filter(orders, Earning), Amount);
  }

  /** `getStatusText`: the three known statuses get their Russian labels; any other string is shown as is. */
  function StatusText(status: string): (r: string)
    ensures status == Pending ==> r == "В обработке"
    ensures status == Completed ==> r == "Выполнен"
    ensures status == Cancelled ==> r == "Отменён"
    ensures status != Pending && status != Completed && status != Cancelled ==> r == status
  {
    if status == Pending then "В обработке"
    else if status == Completed then "Выполнен"
    else if status == Cancelled then "Отменён"
    else status
  }

  /** The three known statuses are told apart by their labels. */
  lemma StatusTextDistinct()
    ensures StatusText(Pending) != StatusText(Completed)
    ensures StatusText(Completed) != StatusText(Cancelled)
    ensures StatusText(Pending) != StatusText(Cancelled)
  {
  }

  datatype Colour = Warning | Success | Error | Default

  /** `getStatusColor`: pending is a warning, completed a success, cancelled an error, anything else the default. */
  function StatusColor(status: string): (r: Colour)
    ensures r == Default <==> status != Pending && status != Completed && status != Cancelled
    ensures r == Warning <==> status == Pending
    ensures r == Success <==> status == Completed
    ensures r == Error <==> status == Cancelled
  {
    if status == Pending then Warning
    else if status == Completed then Success
    else if status == Cancelled then Error
    else Default
  }

  /** A status counts towards revenue exactly when its chip is a warning or a success. */
  lemma EarningByColour(o: Orders.OrderDto)
    ensures Earning(o) <==> StatusColor(o.status) in {Warning, Success}
  {
  }
}
