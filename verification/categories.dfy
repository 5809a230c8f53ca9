/**
 * The categories controller: listing with per-category product counts,
 * creation, the partial update of name and description, and deletion, which is
 * refused while the category still has products.
 */
module Categories {
  import opened Results
  import opened Store
  import Products

  datatype CategoryDto = CategoryDto(id: int, name: string, description: string, productCount: int)

  datatype CreateCategoryDto = CreateCategoryDto(name: string, description: string)

  datatype UpdateCategoryDto = UpdateCategoryDto(name: Option<string>, description: Option<string>)

  /** A category as the API shows it: `ProductCount` is the number of products filed under it. */
  function CategoryDtoOf(s: Store, id: int): (r: CategoryDto)
    requires id in s.categories
    ensures r.id == id && r.name == s.categories[id].name && r.description == s.categories[id].description
    ensures r.productCount == |ProductsIn(s.products, id)|
    ensures r.productCount == 0 <==> forall pid :: pid in s.products ==> s.products[pid].categoryId != id
  {
    var n := |ProductsIn(s.products, id)|;
    assert n == 0 ==> ProductsIn(s.products, id) == {};
    assert (forall pid :: pid in s.products ==> s.products[pid].categoryId != id) ==> ProductsIn(s.products, id) == {};
    CategoryDto(id, s.categories[id].name, s.categories[id].description, n)
  }

  /** GET /categories. */
  function GetCategories(s: Store): (r: set<CategoryDto>)
    ensures forall d :: d in r ==> d.id in s.categories && d == CategoryDtoOf(s, d.id)
    ensures forall id :: id in s.categories ==> CategoryDtoOf(s, id) in r
  {
    set id | id in s.categories :: CategoryDtoOf(s, id)
  }

  /** GET /categories/{id}. */
  function GetCategory(s: Store, id: int): (r: Result<CategoryDto>)
    ensures r.Ok? <==> id in s.categories
    ensures r.Ok? ==> r.value == CategoryDtoOf(s, id)
    ensures r.Err? ==> r.error == NotFound(CategoryNotFound)
  {
    if id !in s.categories then Err(NotFound(CategoryNotFound)) else Ok(CategoryDtoOf(s, id))
  }

  /** POST /categories: one new category under a fresh id, reported with no products. */
  function CreateCategory(s: Store, dto: CreateCategoryDto): (r: Reply<CategoryDto>)
    ensures r.body == CategoryDto(s.nextId, dto.name, dto.description, 0)
    ensures r.next == s.(categories := r.next.categories, nextId := s.nextId + 1)
    ensures r.next.categories == s.categories[s.nextId := Category(dto.name, dto.description)]
  {
    Reply(s.(categories := s.categories[s.nextId := Category(dto.name, dto.description)], nextId := s.nextId + 1),
          CategoryDto(s.nextId, dto.name, dto.description, 0))
  }

  /** Reading a new category back gives what creation answered: a fresh id holds no products yet. */
  lemma CreateThenGet(s: Store, dto: CreateCategoryDto)
    requires ProductCategoriesExist(s) && IdsIssued(s)
    ensures var reply := CreateCategory(s, dto);
      && reply.body.id !in s.categories
      && GetCategory(reply.next, reply.body.id) == Ok(reply.body)
  {
    var reply := CreateCategory(s, dto);
    assert forall pid :: pid in reply.next.products ==> reply.next.products[pid].categoryId != s.nextId;
  }

  lemma CreateCategoryPreservesValid(s: Store, dto: CreateCategoryDto)
    requires Valid(s)
    ensures Valid(CreateCategory(s, dto).next)
  {
    CatalogChangeValid(s, CreateCategory(s, dto).next);
  }

  /** PUT /categories/{id}: a non-null, non-empty name or description replaces the stored one. */
  function UpdateCategory(s: Store, id: int, dto: UpdateCategoryDto): (r: Result<Store>)
    ensures r.Ok? <==> id in s.categories
    ensures r.Err? ==> r.error == NotFound(CategoryNotFound)
    ensures r.Ok? ==>
      && r.value == s.(categories := r.value.categories)
      && r.value.categories.Keys == s.categories.Keys
      && (forall c :: c in s.categories && c != id ==> r.value.categories[c] == s.categories[c])
      && r.value.categories[id].name == (if Products.Overwrites(dto.name) then dto.name.value else s.categories[id].name)
      && r.value.categories[id].description ==
           (if Products.Overwrites(dto.description) then dto.description.value else s.categories[id].description)
  {
    if id !in s.categories then Err(NotFound(CategoryNotFound))
    else
      var c := s.categories[id];
      var c' := Category(
        if Products.Overwrites(dto.name) then dto.name.value else c.name,
        if Products.Overwrites(dto.description) then dto.description.value else c.description);
      Ok(s.(categories := s.categories[id := c']))
  }

  /** An update that sets nothing (absent or empty fields) leaves the store as it was; any update is idempotent. */
  lemma UpdateCategoryNoChange(s: Store, id: int, dto: UpdateCategoryDto)
    requires id in s.categories
    ensures !Products.Overwrites(dto.name) && !Products.Overwrites(dto.description) ==> UpdateCategory(s, id, dto) == Ok(s)
    ensures UpdateCategory(UpdateCategory(s, id, dto).value, id, dto) == UpdateCategory(s, id, dto)
  {
    var s' := UpdateCategory(s, id, dto).value;
    assert !Products.Overwrites(dto.name) && !Products.Overwrites(dto.description) ==> s.categories[id := s.categories[id]] == s.categories;
    assert s'.categories[id := s'.categories[id]] == s'.categories;
  }

  lemma UpdateCategoryPreservesValid(s: Store, id: int, dto: UpdateCategoryDto)
    requires Valid(s)
    ensures UpdateCategory(s, id, dto).Ok? ==> Valid(UpdateCategory(s, id, dto).value)
  {
    if UpdateCategory(s, id, dto).Ok? {
      CatalogChangeValid(s, UpdateCategory(s, id, dto).value);
    }
  }

  /** `category.Products.Any()`. */
  predicate HasProducts(s: Store, id: int) {
    exists pid :: pid in s.products && s.products[pid].categoryId == id
  }

  /**
   * DELETE /categories/{id}: a missing category is not found; one that still has
   * products is refused; otherwise exactly that category is removed.
   */
  function DeleteCategory(s: Store, id: int): (r: Result<Store>)
    ensures id !in s.categories ==> r == Err(NotFound(CategoryNotFound))
    ensures id in s.categories && HasProducts(s, id) ==> r == Err(BadRequest(CategoryHasProducts))
    ensures r.Ok? <==> id in s.categories && forall pid :: pid in s.products ==> s.products[pid].categoryId != id
    ensures r.Ok? ==> r.value == s.(categories := s.categories - {id})
  {
    if id !in s.categories then Err(NotFound(CategoryNotFound))
    else if HasProducts(s, id) then Err(BadRequest(CategoryHasProducts))
    else Ok(s.(categories := s.categories - {id}))
  }

  /** Deletion succeeds exactly when the category's listed `ProductCount` is zero. */
  lemma DeleteIffNoProducts(s: Store, id: int)
    requires id in s.categories
    ensures DeleteCategory(s, id).Ok? <==> CategoryDtoOf(s, id).productCount == 0
  {
  }

  lemma DeleteCategoryPreservesValid(s: Store, id: int)
    requires Valid(s)
    ensures DeleteCategory(s, id).Ok? ==> Valid(DeleteCategory(s, id).value)
  {
    if DeleteCategory(s, id).Ok? {
      CatalogChangeValid(s, DeleteCategory(s, id).value);
    }
  }
}
