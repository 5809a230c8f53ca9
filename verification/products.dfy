/**
 * The products controller and its request DTOs: the catalogue listing with an
 * optional category filter, creation behind a category check, the partial
 * update ("patch") and deletion, which the data context restricts while any
 * cart line or order item still refers to the product.
 */
module Products {
  import opened Results
  import opened Store
  import Int32

  datatype ProductDto = ProductDto(
    id: int,
    name: string,
    description: string,
    price: int,
    stock: int,
    imageUrl: Option<string>,
    categoryId: int,
    categoryName: string)

  datatype CreateProductDto = CreateProductDto(
    name: string,
    description: string,
    price: int,
    stock: int,
    imageUrl: Option<string>,
    categoryId: int)

  /** Every field optional: `None` is a field the request left out (or sent as null). */
  datatype UpdateProductDto = UpdateProductDto(
    name: Option<string>,
    description: Option<string>,
    price: Option<int>,
    stock: Option<int>,
    imageUrl: Option<string>,
    categoryId: Option<int>)

  // ---------------------------------------------------------------------
  // Data annotations on the DTOs.

  /** `char.IsWhiteSpace`: the Unicode space separators, line and paragraph separators and the controls U+0009..U+000D, U+0085. */
  predicate IsWhiteSpace(c: char) {
    || ('\U{9}' <= c <= '\U{D}') || c == ' ' || c == '\U{85}' || c == '\U{A0}' || c == '\U{1680}'
    || ('\U{2000}' <= c <= '\U{200A}') || c == '\U{2028}' || c == '\U{2029}' || c == '\U{202F}' || c == '\U{205F}'
    || c == '\U{3000}'
  }

  /** `string.IsNullOrWhiteSpace` for a present string: empty or white space only. */
  predicate Blank(s: string) {
    forall i :: 0 <= i < |s| ==> IsWhiteSpace(s[i])
  }

  /** `[Required]` on a string: a string that is not blank (an absent one binds as empty). */
  predicate Required(s: string) {
    !Blank(s)
  }

  /** `[MaxLength(n)]`, which lets an absent value through. */
  predicate AtMost(s: Option<string>, n: int) {
    s.Some? ==> |s.value| <= n
  }

  /** `[Range(0.01, double.MaxValue)]` on a price in kopecks. */
  predicate ValidPrice(price: int) {
    price >= 1
  }

  /** `[Range(0, int.MaxValue)]` on a stock level. */
  predicate ValidStock(stock: int) {
    0 <= stock <= Int32.MaxInt32
  }

  predicate ValidCreate(dto: CreateProductDto) {
    && Required(dto.name) && |dto.name| <= 200
    && |dto.description| <= 1000
    && ValidPrice(dto.price)
    && ValidStock(dto.stock)
    && AtMost(dto.imageUrl, 500)
  }

  predicate ValidUpdate(dto: UpdateProductDto) {
    && AtMost(dto.name, 200)
    && AtMost(dto.description, 1000)
    && (dto.price.Some? ==> ValidPrice(dto.price.value))
    && (dto.stock.Some? ==> ValidStock(dto.stock.value))
    && AtMost(dto.imageUrl, 500)
  }

  /** Each update field, when present, obeys the bound it has in the create request. */
  lemma ValidUpdateAsCreate(dto: UpdateProductDto, base: CreateProductDto)
    requires ValidUpdate(dto) && ValidCreate(base)
    requires dto.name.Some? ==> Required(dto.name.value)
    ensures ValidCreate(CreateProductDto(
      Or(dto.name, base.name), Or(dto.description, base.description), Or(dto.price, base.price),
      Or(dto.stock, base.stock), if dto.imageUrl.Some? then dto.imageUrl else base.imageUrl, Or(dto.categoryId, base.categoryId)))
  {
  }

  function Or<T>(o: Option<T>, default: T): (r: T)
    ensures o.Some? ==> r == o.value
    ensures o.None? ==> r == default
  {
    if o.Some? then o.value else default
  }

  // ---------------------------------------------------------------------
  // Queries.

  /** A product as the API shows it, with its category's name. */
  function ProductDtoOf(s: Store, id: int): (r: ProductDto)
    requires id in s.products && s.products[id].categoryId in s.categories
    ensures r.id == id && r.categoryName == s.categories[s.products[id].categoryId].name
    ensures Row(r) == s.products[id]
  {
    var p := s.products[id];
    ProductDto(id, p.name, p.description, p.price, p.stock, p.imageUrl, p.categoryId, s.categories[p.categoryId].name)
  }

  /** The product row a DTO shows. */
  function Row(d: ProductDto): Product {
    Product(d.name, d.description, d.price, d.stock, d.imageUrl, d.categoryId)
  }

  /** GET /products[?categoryId=c]: the products of category `c`, or all of them. */
  function GetProducts(s: Store, categoryId: Option<int>): (r: set<ProductDto>)
    requires ProductCategoriesExist(s)
    ensures forall d :: d in r ==> d.id in s.products && d == ProductDtoOf(s, d.id)
    ensures forall d :: d in r && categoryId.Some? ==> d.categoryId == categoryId.value
    ensures forall id :: id in s.products && (categoryId.None? || s.products[id].categoryId == categoryId.value) ==>
      ProductDtoOf(s, id) in r
  {
    set id | id in s.products && (categoryId.None? || s.products[id].categoryId == categoryId.value) :: ProductDtoOf(s, id)
  }

  /** Filtering by a category is filtering the full listing by that category. */
  lemma GetProductsByCategory(s: Store, c: int)
    requires ProductCategoriesExist(s)
    ensures GetProducts(s, Some(c)) == set d | d in GetProducts(s, None) && d.categoryId == c
  {
    var all := GetProducts(s, None);
    forall d | d in all && d.categoryId == c ensures d in GetProducts(s, Some(c)) {
      assert ProductDtoOf(s, d.id) in GetProducts(s, Some(c));
    }
  }

  /** The filtered listing shows exactly the products the category's `ProductCount` counts. */
  lemma ListingMatchesProductCount(s: Store, c: int)
    requires ProductCategoriesExist(s)
    ensures (set d | d in GetProducts(s, Some(c)) :: d.id) == ProductsIn(s.products, c)
  {
    var listed := set d | d in GetProducts(s, Some(c)) :: d.id;
    forall id | id in ProductsIn(s.products, c) ensures id in listed {
      assert ProductDtoOf(s, id) in GetProducts(s, Some(c));
    }
  }

  /** GET /products/{id}. */
  function GetProduct(s: Store, id: int): (r: Result<ProductDto>)
    requires ProductCategoriesExist(s)
    ensures r.Ok? <==> id in s.products
    ensures r.Ok? ==> r.value.id == id && Row(r.value) == s.products[id]
    ensures r.Err? ==> r.error == NotFound(ProductNotFound)
  {
    if id !in s.products then Err(NotFound(ProductNotFound)) else Ok(ProductDtoOf(s, id))
  }

  // ---------------------------------------------------------------------
  // Creation.

  /** The row a create request describes. */
  function NewProduct(dto: CreateProductDto): Product {
    Product(dto.name, dto.description, dto.price, dto.stock, dto.imageUrl, dto.categoryId)
  }

  /**
   * POST /products. A request failing its annotations is refused before the
   * action; a category that does not exist is refused next; otherwise one
   * product with the request's fields is added under a fresh id.
   */
  function CreateProduct(s: Store, dto: CreateProductDto): (r: Result<Reply<ProductDto>>)
    requires ProductCategoriesExist(s)
    ensures !ValidCreate(dto) ==> r == Err(BadRequest(ValidationFailed))
    ensures ValidCreate(dto) && dto.categoryId !in s.categories ==> r == Err(BadRequest(CategoryNotFound))
    ensures r.Ok? <==> ValidCreate(dto) && dto.categoryId in s.categories
    ensures r.Ok? ==>
      && r.value.body.id == s.nextId
      && r.value.next == s.(products := r.value.next.products, nextId := s.nextId + 1)
      && r.value.next.products == s.products[r.value.body.id := NewProduct(dto)]
      && Row(r.value.body) == NewProduct(dto)
  {
    if !ValidCreate(dto) then Err(BadRequest(ValidationFailed))
    else if dto.categoryId !in s.categories then Err(BadRequest(CategoryNotFound))
    else
      var s' := s.(products := s.products[s.nextId := NewProduct(dto)], nextId := s.nextId + 1);
      Ok(Reply(s', ProductDtoOf(s', s.nextId)))
  }

  /** A created product is what reading it back by its id returns, and it takes no existing product's id. */
  lemma CreateThenGet(s: Store, dto: CreateProductDto)
    requires ProductCategoriesExist(s) && IdsIssued(s)
    requires CreateProduct(s, dto).Ok?
    ensures var reply := CreateProduct(s, dto).value;
      && reply.body.id !in s.products
      && ProductCategoriesExist(reply.next)
      && GetProduct(reply.next, reply.body.id) == Ok(reply.body)
      && |reply.next.products| == |s.products| + 1
  {
  }

  lemma CreateProductPreservesValid(s: Store, dto: CreateProductDto)
    requires Valid(s)
    ensures CreateProduct(s, dto).Ok? ==> Valid(CreateProduct(s, dto).value.next)
  {
    if CreateProduct(s, dto).Ok? {
      CatalogChangeValid(s, CreateProduct(s, dto).value.next);
    }
  }

  // ---------------------------------------------------------------------
  // Partial update.

  /** A name or description in the request replaces the stored one only if it is non-null and non-empty. */
  predicate Overwrites(o: Option<string>) {
    o.Some? && o.value != ""
  }

  /** The in-memory assignments of `UpdateProduct`, field by field. */
  function Patch(p: Product, dto: UpdateProductDto): (r: Product)
    ensures r.name == (if Overwrites(dto.name) then dto.name.value else p.name)
    ensures r.description == (if Overwrites(dto.description) then dto.description.value else p.description)
    ensures r.price == Or(dto.price, p.price) && r.stock == Or(dto.stock, p.stock)
    ensures r.imageUrl == (if dto.imageUrl.Some? then dto.imageUrl else p.imageUrl)
    ensures r.categoryId == Or(dto.categoryId, p.categoryId)
  {
    Product(
      if Overwrites(dto.name) then dto.name.value else p.name,
      if Overwrites(dto.description) then dto.description.value else p.description,
      Or(dto.price, p.price),
      Or(dto.stock, p.stock),
      if dto.imageUrl.Some? then dto.imageUrl else p.imageUrl,
      Or(dto.categoryId, p.categoryId))
  }

  const NoChange := UpdateProductDto(None, None, None, None, None, None)

  /** A request with every field absent changes nothing; so does one whose name and description are empty. */
  lemma PatchNothing(p: Product, dto: UpdateProductDto)
    requires dto.price.None? && dto.stock.None? && dto.imageUrl.None? && dto.categoryId.None?
    requires dto.name.None? || dto.name == Some("")
    requires dto.description.None? || dto.description == Some("")
    ensures Patch(p, dto) == p
    ensures Patch(p, NoChange) == p
  {
  }

  /** Applying the same request twice is applying it once. */
  lemma PatchIdempotent(p: Product, dto: UpdateProductDto)
    ensures Patch(Patch(p, dto), dto) == Patch(p, dto)
  {
  }

  /** Of two successive requests, the later one wins each field it sets. */
  function Then(a: UpdateProductDto, b: UpdateProductDto): UpdateProductDto {
    UpdateProductDto(
      if Overwrites(b.name) then b.name else a.name,
      if Overwrites(b.description) then b.description else a.description,
      if b.price.Some? then b.price else a.price,
      if b.stock.Some? then b.stock else a.stock,
      if b.imageUrl.Some? then b.imageUrl else a.imageUrl,
      if b.categoryId.Some? then b.categoryId else a.categoryId)
  }

  lemma PatchCompose(p: Product, a: UpdateProductDto, b: UpdateProductDto)
    ensures Patch(Patch(p, a), b) == Patch(p, Then(a, b))
  {
  }

  /**
   * PUT /products/{id}. A request failing its annotations is refused; a missing
   * product is not found; a category id naming no category is refused, and then
   * the fields already assigned in memory are never saved; otherwise the patched
   * product is saved and nothing else changes.
   */
  function UpdateProduct(s: Store, id: int, dto: UpdateProductDto): (r: Result<Store>)
    ensures !ValidUpdate(dto) ==> r == Err(BadRequest(ValidationFailed))
    ensures ValidUpdate(dto) && id !in s.products ==> r == Err(NotFound(ProductNotFound))
    ensures ValidUpdate(dto) && id in s.products && dto.categoryId.Some? && dto.categoryId.value !in s.categories ==>
      r == Err(BadRequest(CategoryNotFound))
    ensures r.Ok? <==>
      ValidUpdate(dto) && id in s.products && (dto.categoryId.Some? ==> dto.categoryId.value in s.categories)
    ensures r.Ok? ==> r.value == s.(products := s.products[id := Patch(s.products[id], dto)])
  {
    if !ValidUpdate(dto) then Err(BadRequest(ValidationFailed))
    else if id !in s.products then Err(NotFound(ProductNotFound))
    else
      var patched := Patch(s.products[id], dto);
      if dto.categoryId.Some? && dto.categoryId.value !in s.categories then Err(BadRequest(CategoryNotFound))
      else Ok(s.(products := s.products[id := patched]))
  }

  /** Sending the same update twice leaves the store as sending it once. */
  lemma UpdateProductIdempotent(s: Store, id: int, dto: UpdateProductDto)
    requires UpdateProduct(s, id, dto).Ok?
    ensures UpdateProduct(UpdateProduct(s, id, dto).value, id, dto) == UpdateProduct(s, id, dto)
  {
    var s' := UpdateProduct(s, id, dto).value;
    PatchIdempotent(s.products[id], dto);
    assert s'.products[id := Patch(s'.products[id], dto)] == s'.products;
  }

  lemma UpdateProductPreservesValid(s: Store, id: int, dto: UpdateProductDto)
    requires Valid(s)
    ensures UpdateProduct(s, id, dto).Ok? ==> Valid(UpdateProduct(s, id, dto).value)
  {
    if UpdateProduct(s, id, dto).Ok? {
      CatalogChangeValid(s, UpdateProduct(s, id, dto).value);
    }
  }

  // ---------------------------------------------------------------------
  // Deletion.

  /** Some cart line or order item still refers to the product (both foreign keys are `Restrict`). */
  predicate Referenced(s: Store, id: int) {
    (exists ci :: ci in s.cartItems && ci.productId == id) || (exists oi :: oi in s.orderItems && oi.productId == id)
  }

  /**
   * DELETE /products/{id}. A missing product is not found; a product still
   * referenced makes the save fail on the foreign key (a server error);
   * otherwise exactly that product is removed.
   */
  function DeleteProduct(s: Store, id: int): (r: Result<Store>)
    ensures id !in s.products ==> r == Err(NotFound(ProductNotFound))
    ensures id in s.products && Referenced(s, id) ==> r == Err(ServerError(ForeignKeyViolation))
    ensures r.Ok? <==> id in s.products && !Referenced(s, id)
    ensures r.Ok? ==>
      && r.value == s.(products := r.value.products)
      && r.value.products.Keys == s.products.Keys - {id}
      && forall pid :: pid in r.value.products ==> r.value.products[pid] == s.products[pid]
  {
    if id !in s.products then Err(NotFound(ProductNotFound))
    else if Referenced(s, id) then Err(ServerError(ForeignKeyViolation))
    else Ok(s.(products := s.products - {id}))
  }

  /** After a successful delete the product reads as not found, and a second delete fails. */
  lemma DeleteThenGet(s: Store, id: int)
    requires ProductCategoriesExist(s)
    requires DeleteProduct(s, id).Ok?
    ensures ProductCategoriesExist(DeleteProduct(s, id).value)
    ensures GetProduct(DeleteProduct(s, id).value, id) == Err(NotFound(ProductNotFound))
    ensures DeleteProduct(DeleteProduct(s, id).value, id) == Err(NotFound(ProductNotFound))
  {
  }

  lemma DeleteProductPreservesValid(s: Store, id: int)
    requires Valid(s)
    ensures DeleteProduct(s, id).Ok? ==> Valid(DeleteProduct(s, id).value)
  {
    if DeleteProduct(s, id).Ok? {
      CatalogChangeValid(s, DeleteProduct(s, id).value);
    }
  }
}
