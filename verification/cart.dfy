/**
 * The cart controller: `GetCart`, `AddToCart`, `UpdateCartItem`, `RemoveFromCart`
 * and `ClearCart`, each scoped to the calling user, and the cart DTOs with their
 * computed totals.
 */
module Cart {
  import opened Results
  import opened Seqs
  import opened Store
  import Int32

  datatype CartItemDto = CartItemDto(
    id: int,
    productId: int,
    productName: string,
    productPrice: int,
    productImageUrl: Option<string>,
    quantity: int)

  /** `CartItemDto.TotalPrice`. */
  function TotalPrice(line: CartItemDto): int { line.productPrice * line.quantity }

  function LineQuantity(line: CartItemDto): int { line.quantity }

  datatype CartSummary = CartSummary(items: seq<CartItemDto>)

  /** `CartSummaryDto.TotalAmount`: the lines' total prices added up. */
  function TotalAmount(c: CartSummary): int { Sum(c.items, TotalPrice) }

  /** `CartSummaryDto.TotalItems`: the lines' quantities added up. */
  function TotalItems(c: CartSummary): int { Sum(c.items, LineQuantity) }

  datatype AddToCartDto = AddToCartDto(productId: int, quantity: int)

  datatype UpdateCartItemDto = UpdateCartItemDto(quantity: int)

  /** `[Range(1, int.MaxValue)]`, declared on the quantity of both request bodies. */
  predicate ValidQuantity(q: int) {
    1 <= q <= Int32.MaxInt32
  }

  /** A cart line as the API shows it, joined with its live product. */
  function LineDto(products: map<int, Product>, ci: CartItem): CartItemDto
    requires ci.productId in products
  {
    var p := products[ci.productId];
    CartItemDto(ci.id, ci.productId, p.name, p.price, p.imageUrl, ci.quantity)
  }

  function LineDtos(products: map<int, Product>, lines: seq<CartItem>): (r: seq<CartItemDto>)
    requires forall ci :: ci in lines ==> ci.productId in products
    ensures |r| == |lines|
    ensures forall i :: 0 <= i < |lines| ==> r[i] == LineDto(products, lines[i])
  {
    if |lines| == 0 then [] else [LineDto(products, lines[0])] + LineDtos(products, lines[1..])
  }

  // Row selectors for the lookups the controller performs.

  function LineFor(userId: int, productId: int): CartItem -> bool {
    (ci: CartItem) => ci.userId == userId && ci.productId == productId
  }

  function OwnedRow(userId: int, id: int): CartItem -> bool {
    (ci: CartItem) => ci.id == id && ci.userId == userId
  }

  function OtherThan(id: int): CartItem -> bool {
    (ci: CartItem) => ci.id != id
  }

  /**
   * The summary GET /cart builds: one line per cart row of the caller, joined
   * with its live product.
   */
  function Summary(s: Store, userId: int): (r: CartSummary)
    requires CartItemRefsExist(s)
    ensures |r.items| == |CartOf(s, userId)|
    ensures forall i :: 0 <= i < |r.items| ==>
      var ci := CartOf(s, userId)[i];
      var p := s.products[ci.productId];
      && r.items[i].id == ci.id
      && r.items[i].productId == ci.productId
      && r.items[i].quantity == ci.quantity
      && r.items[i].productName == p.name
      && r.items[i].productPrice == p.price
      && r.items[i].productImageUrl == p.imageUrl
  {
    CartSummary(LineDtos(s.products, CartOf(s, userId)))
  }

  function ItemQuantity(ci: CartItem): int { ci.quantity }

  /**
   * GET /cart. `TotalItems` is LINQ's checked `int` sum, evaluated when the
   * summary is serialised, so a cart whose quantities take a partial sum out of
   * the 32-bit range cannot be read: the request fails with a server error.
   */
  function GetCart(s: Store, userId: int): (r: Result<CartSummary>)
    requires CartItemRefsExist(s)
    ensures r.Ok? <==> CheckedSum(CartOf(s, userId), ItemQuantity, 0).Some?
    ensures r.Ok? ==> r.value == Summary(s, userId) && Int32.InRange(TotalItems(r.value))
    ensures r.Err? ==> r.error == ServerError(ArithmeticOverflow)
  {
    LineDtosQuantities(s.products, CartOf(s, userId));
    if CheckedSum(CartOf(s, userId), ItemQuantity, 0).None? then Err(ServerError(ArithmeticOverflow))
    else Ok(Summary(s, userId))
  }

  /** A cart without negative lines (every well-formed one) can be read iff its quantities add up to at most `int.MaxValue`. */
  lemma GetCartNonNegative(s: Store, userId: int)
    requires CartItemRefsExist(s)
    requires forall ci :: ci in CartOf(s, userId) ==> ci.quantity >= 0
    ensures GetCart(s, userId).Ok? <==> Sum(CartOf(s, userId), ItemQuantity) <= Int32.MaxInt32
  {
    CheckedSumNonNegative(CartOf(s, userId), ItemQuantity, 0);
  }

  /**
   * POST /cart. Rejects a missing product, then a quantity above the stock; then
   * merges into the caller's existing line for the product (rejecting a merged
   * quantity above the stock) or appends a new line.
   */
  function AddToCart(s: Store, userId: int, dto: AddToCartDto): (r: Result<Reply<CartItemDto>>)
    ensures !ValidQuantity(dto.quantity) ==> r == Err(BadRequest(ValidationFailed))
    ensures ValidQuantity(dto.quantity) && dto.productId !in s.products ==>
      r == Err(NotFound(ProductNotFound))
    ensures ValidQuantity(dto.quantity) && dto.productId in s.products &&
            s.products[dto.productId].stock < dto.quantity ==>
      r == Err(BadRequest(InsufficientStock))
    ensures r.Ok? ==>
      && dto.productId in s.products
      && r.value.body.productId == dto.productId
      && r.value.body.quantity <= s.products[dto.productId].stock
      && r.value.next == s.(cartItems := r.value.next.cartItems, nextId := r.value.next.nextId)
  {
    if !ValidQuantity(dto.quantity) then Err(BadRequest(ValidationFailed))
    else if dto.productId !in s.products then Err(NotFound(ProductNotFound))
    else
      var product := s.products[dto.productId];
      if product.stock < dto.quantity then Err(BadRequest(InsufficientStock))
      else match First(s.cartItems, LineFor(userId, dto.productId))
        case Some(existing) =>
          var quantity := existing.quantity + dto.quantity;
          if product.stock < quantity then Err(BadRequest(InsufficientStock))
          else
            var line := existing.(quantity := quantity);
            Ok(Reply(s.(cartItems := Save(s.cartItems, line)), LineDto(s.products, line)))
        case None =>
          var line := CartItem(s.nextId, userId, dto.productId, dto.quantity);
          Ok(Reply(s.(cartItems := s.cartItems + [line], nextId := s.nextId + 1), LineDto(s.products, line)))
  }

  /** Merging into the caller's existing line for the product. */
  lemma AddToCartMerges(s: Store, userId: int, dto: AddToCartDto, existing: CartItem)
    requires Valid(s)
    requires existing in s.cartItems && existing.userId == userId && existing.productId == dto.productId
    ensures AddToCart(s, userId, dto).Ok? <==>
      && ValidQuantity(dto.quantity)
      && dto.productId in s.products
      && existing.quantity + dto.quantity <= s.products[dto.productId].stock
    ensures var r := AddToCart(s, userId, dto);
      r.Ok? ==>
        && r.value.body.quantity == existing.quantity + dto.quantity
        && r.value.next.nextId == s.nextId
        && |r.value.next.cartItems| == |s.cartItems|
        && existing.(quantity := existing.quantity + dto.quantity) in r.value.next.cartItems
        && existing !in r.value.next.cartItems
        && (forall ci :: ci in s.cartItems && ci != existing ==> ci in r.value.next.cartItems)
        && (forall ci :: ci in r.value.next.cartItems && ci.id != existing.id ==> ci in s.cartItems)
  {
    var found := First(s.cartItems, LineFor(userId, dto.productId));
    assert found.Some? && found.value == existing;
    var line := existing.(quantity := existing.quantity + dto.quantity);
    SaveRows(s.cartItems, line);
    forall ci | ci in s.cartItems && ci != existing ensures ci.id != existing.id {
      var i :| 0 <= i < |s.cartItems| && s.cartItems[i] == ci;
      var j :| 0 <= j < |s.cartItems| && s.cartItems[j] == existing;
      assert i != j;
    }
  }

  /** With no line for the product yet, a new line with exactly the requested quantity is appended. */
  lemma AddToCartAppends(s: Store, userId: int, dto: AddToCartDto)
    requires forall ci :: ci in s.cartItems ==> !(ci.userId == userId && ci.productId == dto.productId)
    ensures AddToCart(s, userId, dto).Ok? <==>
      ValidQuantity(dto.quantity) && dto.productId in s.products &&
      dto.quantity <= s.products[dto.productId].stock
    ensures var r := AddToCart(s, userId, dto);
      r.Ok? ==>
        && r.value.next.cartItems == s.cartItems + [CartItem(s.nextId, userId, dto.productId, dto.quantity)]
        && r.value.next.nextId == s.nextId + 1
  {
    var found := First(s.cartItems, LineFor(userId, dto.productId));
    assert found.None?;
  }

  /** A successful `AddToCart` by a registered user keeps the store well formed, in particular one line per (user, product). */
  lemma AddToCartPreservesValid(s: Store, userId: int, dto: AddToCartDto)
    requires Valid(s) && userId in s.users
    ensures AddToCart(s, userId, dto).Ok? ==> Valid(AddToCart(s, userId, dto).value.next)
  {
    var r := AddToCart(s, userId, dto);
    if r.Ok? {
      var found := First(s.cartItems, LineFor(userId, dto.productId));
      if found.Some? {
        MergeKeepsValid(s, userId, dto, found.value);
      } else {
        AppendKeepsValid(s, userId, dto);
      }
    }
  }

  lemma MergeKeepsValid(s: Store, userId: int, dto: AddToCartDto, existing: CartItem)
    requires Valid(s)
    requires existing in s.cartItems && existing.userId == userId && existing.productId == dto.productId
    requires AddToCart(s, userId, dto).Ok?
    ensures Valid(AddToCart(s, userId, dto).value.next)
  {
    AddToCartMerges(s, userId, dto, existing);
    var s' := AddToCart(s, userId, dto).value.next;
    var line := existing.(quantity := existing.quantity + dto.quantity);
    SaveRows(s.cartItems, line);
    assert s'.cartItems == Save(s.cartItems, line);
    forall a, b | a in s'.cartItems && b in s'.cartItems && a.userId == b.userId && a.productId == b.productId
      ensures a == b
    {
    }
    assert CartWellFormed(s');
    CartChangeValid(s, s');
  }

  lemma AppendKeepsValid(s: Store, userId: int, dto: AddToCartDto)
    requires Valid(s) && userId in s.users
    requires forall ci :: ci in s.cartItems ==> !(ci.userId == userId && ci.productId == dto.productId)
    requires AddToCart(s, userId, dto).Ok?
    ensures Valid(AddToCart(s, userId, dto).value.next)
  {
    AddToCartAppends(s, userId, dto);
    var s' := AddToCart(s, userId, dto).value.next;
    var line := CartItem(s.nextId, userId, dto.productId, dto.quantity);
    assert s'.cartItems == s.cartItems + [line];
    forall ci | ci in s'.cartItems ensures ci in s.cartItems || ci == line { }
    forall i, j | 0 <= i < j < |s'.cartItems| ensures s'.cartItems[i].id < s'.cartItems[j].id {
      if j == |s.cartItems| {
        assert s'.cartItems[i] in s.cartItems;
      }
    }
    assert CartWellFormed(s');
    CartChangeValid(s, s');
  }

  /**
   * PUT /cart/{id}. NotFound unless the row exists and belongs to the caller;
   * BadRequest when the new quantity exceeds the product's stock; otherwise the
   * quantity is set exactly.
   */
  function UpdateCartItem(s: Store, userId: int, id: int, dto: UpdateCartItemDto): (r: Result<Store>)
    requires CartItemRefsExist(s)
    ensures !ValidQuantity(dto.quantity) ==> r == Err(BadRequest(ValidationFailed))
    ensures ValidQuantity(dto.quantity) && (forall ci :: ci in s.cartItems ==> !OwnedRow(userId, id)(ci)) ==>
      r == Err(NotFound(CartItemNotFound))
    ensures r.Err? ==> r.error in {BadRequest(ValidationFailed), NotFound(CartItemNotFound), BadRequest(InsufficientStock)}
    ensures r.Ok? ==>
      && r.value == s.(cartItems := r.value.cartItems)
      && exists ci :: ci in s.cartItems && ci.id == id && ci.userId == userId &&
                      dto.quantity <= s.products[ci.productId].stock &&
                      r.value.cartItems == Save(s.cartItems, ci.(quantity := dto.quantity))
  {
    if !ValidQuantity(dto.quantity) then Err(BadRequest(ValidationFailed))
    else match First(s.cartItems, OwnedRow(userId, id))
      case None => Err(NotFound(CartItemNotFound))
      case Some(item) =>
        if s.products[item.productId].stock < dto.quantity then Err(BadRequest(InsufficientStock))
        else Ok(s.(cartItems := Save(s.cartItems, item.(quantity := dto.quantity))))
  }

  /** The owned row gets exactly the new quantity, within stock, and no other row changes. */
  lemma UpdateCartItemExact(s: Store, userId: int, id: int, dto: UpdateCartItemDto, item: CartItem)
    requires Valid(s)
    requires item in s.cartItems && item.id == id && item.userId == userId
    ensures UpdateCartItem(s, userId, id, dto).Ok? <==>
      ValidQuantity(dto.quantity) && dto.quantity <= s.products[item.productId].stock
    ensures var r := UpdateCartItem(s, userId, id, dto);
      r.Ok? ==>
        && item.(quantity := dto.quantity) in r.value.cartItems
        && (forall ci :: ci in s.cartItems && ci.id != id ==> ci in r.value.cartItems)
        && (forall ci :: ci in r.value.cartItems ==> ci == item.(quantity := dto.quantity) || (ci in s.cartItems && ci.id != id))
  {
    var found := First(s.cartItems, OwnedRow(userId, id));
    assert found.Some?;
    var i :| 0 <= i < |s.cartItems| && s.cartItems[i] == found.value;
    var j :| 0 <= j < |s.cartItems| && s.cartItems[j] == item;
    assert i == j;
    SaveRows(s.cartItems, item.(quantity := dto.quantity));
  }

  lemma UpdateCartItemPreservesValid(s: Store, userId: int, id: int, dto: UpdateCartItemDto)
    requires Valid(s)
    ensures UpdateCartItem(s, userId, id, dto).Ok? ==> Valid(UpdateCartItem(s, userId, id, dto).value)
  {
    var r := UpdateCartItem(s, userId, id, dto);
    if r.Ok? {
      var item := First(s.cartItems, OwnedRow(userId, id)).value;
      UpdateCartItemExact(s, userId, id, dto, item);
      var s' := r.value;
      var line := item.(quantity := dto.quantity);
      SaveRows(s.cartItems, line);
      forall a, b | a in s'.cartItems && b in s'.cartItems && a.userId == b.userId && a.productId == b.productId
        ensures a == b
      {
      }
      assert CartWellFormed(s');
      CartChangeValid(s, s');
    }
  }

  /** DELETE /cart/{id}: removes exactly the caller's row with that id. */
  function RemoveFromCart(s: Store, userId: int, id: int): (r: Result<Store>)
    ensures r.Ok? <==> exists ci :: ci in s.cartItems && ci.id == id && ci.userId == userId
    ensures r.Err? ==> r.error == NotFound(CartItemNotFound)
    ensures r.Ok? ==>
      && r.value == s.(cartItems := r.value.cartItems)
      && (forall ci :: ci in r.value.cartItems <==> ci in s.cartItems && ci.id != id)
  {
    match First(s.cartItems, OwnedRow(userId, id))
    case None => Err(NotFound(CartItemNotFound))
    case Some(_) => Ok(s.(cartItems := Filter(s.cartItems, OtherThan(id))))
  }

  /** Removing the same row a second time fails with NotFound. */
  lemma RemoveTwiceFails(s: Store, userId: int, id: int)
    requires RemoveFromCart(s, userId, id).Ok?
    ensures RemoveFromCart(RemoveFromCart(s, userId, id).value, userId, id) == Err(NotFound(CartItemNotFound))
  {
  }

  lemma RemoveFromCartPreservesValid(s: Store, userId: int, id: int)
    requires Valid(s)
    ensures RemoveFromCart(s, userId, id).Ok? ==> Valid(RemoveFromCart(s, userId, id).value)
  {
    FilterIncreasing(s.cartItems, OtherThan(id), CartItemKey);
  }

  /** DELETE /cart: removes all and only the caller's rows. */
  function ClearCart(s: Store, userId: int): (r: Store)
    ensures r == s.(cartItems := r.cartItems)
    ensures CartOf(r, userId) == []
    ensures forall other :: other != userId ==> CartOf(r, other) == CartOf(s, other)
    ensures forall ci :: ci in r.cartItems <==> ci in s.cartItems && ci.userId != userId
  {
    var r := s.(cartItems := Filter(s.cartItems, NotOwnedBy(userId)));
    FilterNone(r.cartItems, OwnedBy(userId));
    forall other | other != userId ensures CartOf(r, other) == CartOf(s, other) {
      FilterFilter(s.cartItems, NotOwnedBy(userId), OwnedBy(other));
    }
    r
  }

  lemma {:induction false} ClearCartIdempotent(s: Store, userId: int)
    ensures ClearCart(ClearCart(s, userId), userId) == ClearCart(s, userId)
  {
    FilterFilter(s.cartItems, NotOwnedBy(userId), NotOwnedBy(userId));
  }

  lemma ClearCartPreservesValid(s: Store, userId: int)
    requires Valid(s)
    ensures Valid(ClearCart(s, userId))
  {
    FilterIncreasing(s.cartItems, NotOwnedBy(userId), CartItemKey);
  }

  // ---------------------------------------------------------------------
  // Summary totals.

  lemma {:induction false} LineDtosTotals(products: map<int, Product>, lines: seq<CartItem>)
    requires forall ci :: ci in lines ==> ci.productId in products
    ensures Sum(LineDtos(products, lines), TotalPrice) == LinesTotal(products, lines)
    decreases |lines|
  {
    if |lines| > 0 {
      assert LineDtos(products, lines)[1..] == LineDtos(products, lines[1..]);
      LineDtosTotals(products, lines[1..]);
    }
  }

  lemma {:induction false} LineDtosQuantities(products: map<int, Product>, lines: seq<CartItem>)
    requires forall ci :: ci in lines ==> ci.productId in products
    ensures Sum(LineDtos(products, lines), LineQuantity) == Sum(lines, ItemQuantity)
    decreases |lines|
  {
    if |lines| > 0 {
      assert LineDtos(products, lines)[1..] == LineDtos(products, lines[1..]);
      LineDtosQuantities(products, lines[1..]);
    }
  }

  /**
   * The summary's `TotalAmount` is the cart's value at live prices and its
   * `TotalItems` the cart's quantities added up; an empty cart sums to zero.
   */
  lemma SummaryTotals(s: Store, userId: int)
    requires CartItemRefsExist(s)
    ensures TotalAmount(Summary(s, userId)) == LinesTotal(s.products, CartOf(s, userId))
    ensures TotalItems(Summary(s, userId)) == Sum(CartOf(s, userId), ItemQuantity)
    ensures CartOf(s, userId) == [] ==> TotalAmount(Summary(s, userId)) == 0 && TotalItems(Summary(s, userId)) == 0
  {
    LineDtosTotals(s.products, CartOf(s, userId));
    LineDtosQuantities(s.products, CartOf(s, userId));
  }

  /** Every line has quantity at least 1, so `TotalItems` is at least the number of lines. */
  lemma {:induction false} TotalItemsAtLeastLines(items: seq<CartItemDto>)
    requires forall line :: line in items ==> line.quantity >= 1
    ensures TotalItems(CartSummary(items)) >= |items|
    decreases |items|
  {
    if |items| > 0 {
      assert forall line :: line in items[1..] ==> line in items;
      TotalItemsAtLeastLines(items[1..]);
    }
  }

  /** Both summary totals are additive over the lines. */
  lemma SummaryAdditive(a: seq<CartItemDto>, b: seq<CartItemDto>)
    ensures TotalAmount(CartSummary(a + b)) == TotalAmount(CartSummary(a)) + TotalAmount(CartSummary(b))
    ensures TotalItems(CartSummary(a + b)) == TotalItems(CartSummary(a)) + TotalItems(CartSummary(b))
  {
    SumConcat(a, b, TotalPrice);
    SumConcat(a, b, LineQuantity);
  }

  /** In a well-formed store the caller's summary counts at least one item per line. */
  lemma CartItemsCounted(s: Store, userId: int)
    requires Valid(s)
    ensures TotalItems(Summary(s, userId)) >= |Summary(s, userId).items|
  {
    var c := Summary(s, userId);
    forall line | line in c.items ensures line.quantity >= 1 {
      var i :| 0 <= i < |c.items| && c.items[i] == line;
      assert CartOf(s, userId)[i] in CartOf(s, userId);
    }
    TotalItemsAtLeastLines(c.items);
  }

  /** In a well-formed store a cart of at most one line can always be read. */
  lemma SingleLineReadable(s: Store, userId: int)
    requires Valid(s) && |CartOf(s, userId)| <= 1
    ensures GetCart(s, userId) == Ok(Summary(s, userId))
  {
    var lines := CartOf(s, userId);
    assert forall ci :: ci in lines ==> ci in s.cartItems;
    if |lines| == 1 {
      assert lines[0] in s.cartItems;
      assert Sum(lines, ItemQuantity) == lines[0].quantity + Sum(lines[1..], ItemQuantity);
    }
    GetCartNonNegative(s, userId);
  }

  /** A well-formed store: two products with the largest stock, each fully in the user's cart. */
  function LargeCartStore(): (s: Store)
    ensures Valid(s)
  {
    Store(
      map[1 := User("buyer", "buyer@example.com", "h", "User")],
      map[2 := Category("Dogs", "")],
      map[3 := Product("Bone", "", 100, Int32.MaxInt32, None, 2), 4 := Product("Ball", "", 100, Int32.MaxInt32, None, 2)],
      [CartItem(5, 1, 3, Int32.MaxInt32), CartItem(6, 1, 4, Int32.MaxInt32)],
      [], [], 7, 0)
  }

  /**
   * Every line of that cart is within its stock, yet the quantities add up past
   * `int.MaxValue`, so GET /cart fails for it.
   */
  lemma LargeCartUnreadable()
    ensures forall ci :: ci in CartOf(LargeCartStore(), 1) ==> ci.quantity <= LargeCartStore().products[ci.productId].stock
    ensures GetCart(LargeCartStore(), 1) == Err(ServerError(ArithmeticOverflow))
  {
    var s := LargeCartStore();
    FilterAll(s.cartItems, OwnedBy(1));
    assert CartOf(s, 1) == s.cartItems;
    assert Sum(s.cartItems, ItemQuantity) == 2 * Int32.MaxInt32;
    GetCartNonNegative(s, 1);
  }

  // ---------------------------------------------------------------------
  // The merge as written: `existingCartItem.Quantity += dto.Quantity` is unchecked
  // 32-bit arithmetic, so a large merge wraps to a negative quantity that passes
  // the stock comparison and is saved.

  function AddToCartAsWritten(s: Store, userId: int, dto: AddToCartDto): (r: Result<Reply<CartItemDto>>)
    ensures r.Ok? ==> dto.productId in s.products && r.value.body.quantity <= s.products[dto.productId].stock
  {
    if !ValidQuantity(dto.quantity) then Err(BadRequest(ValidationFailed))
    else if dto.productId !in s.products then Err(NotFound(ProductNotFound))
    else
      var product := s.products[dto.productId];
      if product.stock < dto.quantity then Err(BadRequest(InsufficientStock))
      else match First(s.cartItems, LineFor(userId, dto.productId))
        case Some(existing) =>
          var quantity := Int32.Wrap(existing.quantity + dto.quantity);
          if product.stock < quantity then Err(BadRequest(InsufficientStock))
          else
            var line := existing.(quantity := quantity);
            Ok(Reply(s.(cartItems := Save(s.cartItems, line)), LineDto(s.products, line)))
        case None =>
          var line := CartItem(s.nextId, userId, dto.productId, dto.quantity);
          Ok(Reply(s.(cartItems := s.cartItems + [line], nextId := s.nextId + 1), LineDto(s.products, line)))
  }

  /** Where the merged quantity fits in 32 bits, the code as written and the model agree. */
  lemma AsWrittenAgreesWithoutOverflow(s: Store, userId: int, dto: AddToCartDto)
    requires forall ci :: ci in s.cartItems ==> Int32.InRange(ci.quantity + dto.quantity)
    ensures AddToCartAsWritten(s, userId, dto) == AddToCart(s, userId, dto)
  {
  }

  /** A well-formed store: one product with the largest stock, already fully in the user's cart. */
  function OverflowStore(): (s: Store)
    ensures Valid(s)
  {
    Store(
      map[1 := User("buyer", "buyer@example.com", "h", "User")],
      map[2 := Category("Dogs", "")],
      map[3 := Product("Bone", "", 100, Int32.MaxInt32, None, 2)],
      [CartItem(4, 1, 3, Int32.MaxInt32)],
      [], [], 5, 0)
  }

  /** Adding two more: the code as written saves a negative quantity; the model refuses. */
  lemma MergeOverflowAccepted()
    ensures var r := AddToCartAsWritten(OverflowStore(), 1, AddToCartDto(3, 2));
      r.Ok? && r.value.body.quantity < 0 && CartItem(4, 1, 3, r.value.body.quantity) in r.value.next.cartItems
    ensures AddToCart(OverflowStore(), 1, AddToCartDto(3, 2)) == Err(BadRequest(InsufficientStock))
  {
    var s := OverflowStore();
    var found := First(s.cartItems, LineFor(1, 3));
    assert found == Some(CartItem(4, 1, 3, Int32.MaxInt32));
    assert Int32.Wrap(Int32.MaxInt32 + 2) == Int32.MinInt32 + 1;
    SaveRows(s.cartItems, CartItem(4, 1, 3, Int32.MinInt32 + 1));
  }
}
