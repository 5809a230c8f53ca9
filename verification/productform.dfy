/**
 * The admin product dialog's form: the rules on each field, the values the
 * dialog opens with, and the create and update requests it sends. Prices are
 * in kopecks, so the form's rouble bounds 0.01 and 1000000 are 1 and
 * 100000000. The image-URL pattern is the parameter `urlOk`.
 */
module ProductForm {
  import opened Results
  import opened Forms
  import opened Store
  import Products

  /** The form's fields; an emptied number input is `None`. */
  datatype Form = Form(
    name: string,
    description: string,
    price: Option<int>,
    stock: Option<int>,
    imageUrl: string,
    categoryId: int)

  const MaxPrice: int := 100000000
  const MaxStock: int := 100000

  predicate NameOk(f: Form) { Text(f.name, true, 2, 200) }

  predicate DescriptionOk(f: Form) { Text(f.description, false, 0, 1000) }

  predicate PriceOk(f: Form) { Number(f.price, 1, MaxPrice) }

  predicate StockOk(f: Form) { Number(f.stock, 0, MaxStock) }

  /** The category select: `required` lets a number through, `min: 1` refuses the placeholder 0. */
  predicate CategoryOk(f: Form) { f.categoryId >= 1 }

  /** The URL pattern is not applied to an empty value. */
  predicate ImageUrlOk(f: Form, urlOk: string -> bool) { f.imageUrl != "" ==> urlOk(f.imageUrl) }

  predicate Valid(f: Form, urlOk: string -> bool) {
    NameOk(f) && DescriptionOk(f) && PriceOk(f) && StockOk(f) && CategoryOk(f) && ImageUrlOk(f, urlOk)
  }

  /** The form a "create" opens: empty text, price and stock 0, the first listed category or 0 if there is none. */
  function CreateForm(categoryIds: seq<int>): (r: Form)
    ensures r.name == "" && r.description == "" && r.imageUrl == ""
    ensures r.price == Some(0) && r.stock == Some(0)
    ensures r.categoryId == if |categoryIds| > 0 then categoryIds[0] else 0
  {
    Form("", "", Some(0), Some(0), "", if |categoryIds| > 0 then categoryIds[0] else 0)
  }

  /** The form an "edit" opens: the product's values, a missing image URL shown as empty. */
  function EditForm(p: Products.ProductDto): (r: Form)
    ensures r.name == p.name && r.description == p.description
    ensures r.price == Some(p.price) && r.stock == Some(p.stock) && r.categoryId == p.categoryId
    ensures r.imageUrl == if p.imageUrl.Some? then p.imageUrl.value else ""
  {
    Form(p.name, p.description, Some(p.price), Some(p.stock), if p.imageUrl.Some? then p.imageUrl.value else "", p.categoryId)
  }

  /** A submitted form passes each of its bounds. */
  lemma ValidMeans(f: Form, urlOk: string -> bool)
    ensures Valid(f, urlOk) <==>
      && 2 <= |f.name| <= 200
      && |f.description| <= 1000
      && f.price.Some? && 1 <= f.price.value <= MaxPrice
      && f.stock.Some? && 0 <= f.stock.value <= MaxStock
      && f.categoryId >= 1
      && (f.imageUrl != "" ==> urlOk(f.imageUrl))
  {
    RequiredText(f.name, 2, 200);
  }

  /** The create form cannot be sent as it opens: its price of 0 fails the price rule until a price is typed in. */
  lemma CreateFormNeedsPrice(categoryIds: seq<int>, price: int)
    ensures !PriceOk(CreateForm(categoryIds))
    ensures PriceOk(CreateForm(categoryIds).(price := Some(price))) <==> 1 <= price <= MaxPrice
  {
  }

  /** The create request: the form's fields, the image URL sent as typed (empty included). */
  function CreatePayload(f: Form): (r: Products.CreateProductDto)
    requires f.price.Some? && f.stock.Some?
    ensures Products.NewProduct(r) == Product(f.name, f.description, f.price.value, f.stock.value, Some(f.imageUrl), f.categoryId)
  {
    Products.CreateProductDto(f.name, f.description, f.price.value, f.stock.value, Some(f.imageUrl), f.categoryId)
  }

  /** The update request: every field of the form, each present. */
  function UpdatePayload(f: Form): (r: Products.UpdateProductDto)
    requires f.price.Some? && f.stock.Some?
    ensures r.name == Some(f.name) && r.description == Some(f.description) && r.imageUrl == Some(f.imageUrl)
    ensures r.price == f.price && r.stock == f.stock && r.categoryId == Some(f.categoryId)
  {
    Products.UpdateProductDto(Some(f.name), Some(f.description), f.price, f.stock, Some(f.imageUrl), Some(f.categoryId))
  }

  /**
   * The form's bounds are at least as strict as the server's on price, stock
   * and lengths: a submitted form whose name is not white space only and whose
   * image URL is at most 500 long makes valid create and update requests.
   */
  lemma FormWithinServerBounds(f: Form, urlOk: string -> bool)
    requires Valid(f, urlOk)
    requires Products.Required(f.name) && |f.imageUrl| <= 500
    ensures Products.ValidCreate(CreatePayload(f))
    ensures Products.ValidUpdate(UpdatePayload(f))
  {
  }

  /** The form's bounds on price and stock alone imply the server's. */
  lemma NumberBoundsWithinServer(f: Form)
    requires PriceOk(f) && StockOk(f)
    ensures Products.ValidPrice(f.price.value) && Products.ValidStock(f.stock.value)
  {
  }

  /** A name of two spaces passes the form but not the server's `[Required]`. */
  lemma BlankNameGap(urlOk: string -> bool)
    ensures var f := Form("  ", "", Some(100), Some(1), "", 1);
      Valid(f, urlOk) && !Products.ValidCreate(CreatePayload(f))
  {
    var f := Form("  ", "", Some(100), Some(1), "", 1);
    assert Products.Blank(f.name) by {
      assert forall i :: 0 <= i < |f.name| ==> f.name[i] == ' ';
    }
  }

  /**
   * Saving an edit form unchanged gives the product back, except that a missing
   * image URL becomes the empty string: the form always sends one.
   */
  lemma EditUnchanged(p: Products.ProductDto)
    ensures Products.Patch(Products.Row(p), UpdatePayload(EditForm(p))) ==
      Products.Row(p).(imageUrl := Some(if p.imageUrl.Some? then p.imageUrl.value else ""))
  {
  }
}
