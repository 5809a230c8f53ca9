# Pet shop: a Dafny model of the shop API and its client-side rules

This project models the pet shop. The server is an ASP.NET API with a catalogue of categories and products, per-user carts, checkout into orders, and registration and login. The client is a React application.

On the server side the model is a state machine over an immutable `Store`:
- users, categories and products are maps keyed by id;
- cart lines, orders and order items are sequences in id order;
- one identity counter `nextId` issues all ids;
- a `clock` stands for the current time.

Every controller action is a pure function. It takes the caller's id as a parameter. It returns either an error or the store it commits, together with the body it answers with. An error means that nothing is saved: the request's data context is dropped. Money is in integer kopecks.

Request DTOs that fail their data annotations are refused before the action runs. The model writes that refusal as `BadRequest(ValidationFailed)`.

On the client side the model covers:
- the auth slice's reducers;
- the admin revenue fold and the status labels;
- the carousel's index arithmetic;
- the registration, product and category forms, with their rules and the requests they send.

Module layout:
- `Results`, `Int32`: errors, results, options, and 32-bit integers (`results.dfy`).
- `Seqs`: the LINQ-style helpers `Where`, `FirstOrDefault`, `Sum` and `Select`, and ordering facts (`seqs.dfy`).
- `Store`: the tables, the rules the data context declares, and the invariant `Valid` the actions maintain (`store.dfy`).
- `Cart`, `Orders`, `Products`, `Categories`, `Auth`: one module per controller.
- `DbRules`: the delete rules for users and orders, and the seed data.
- `AuthSlice`, `OrdersView`, `Carousel`, `Forms`, `RegisterForm`, `ProductForm`, `CategoryForm`: the client.

## Behaviour worth knowing

- A registration with a used e-mail or username gives 400 `BadRequest` (`PetShop.API/Controllers/AuthController.cs:18-26`).
- Deleting a category that still has products gives 400 `BadRequest` (`PetShop.API/Controllers/CategoriesController.cs:119-122`).
- Removing a cart line that is already gone gives 404 `NotFound`, so a second removal fails (`PetShop.API/Controllers/CartController.cs:143-149`).
- Deleting a product that a cart line or an order item still refers to is not checked by the controller (`PetShop.API/Controllers/ProductsController.cs:160-173`). The database's restrict rule makes the save fail, and the model writes that failure as `ServerError(ForeignKeyViolation)`.
- `TotalItems` is a checked `int` sum (`PetShop.API/DTOs/CartDtos.cs:37`). A cart whose quantities take a partial sum out of int range cannot be read, and GET /cart fails with a server error.
- Checkout saves twice, so it is not all-or-nothing (see Left out).

## Model

| member | source | states |
|---|---|---|
| Cart.Summary | PetShop.API/Controllers/CartController.cs:28-45 | One line per cart row of the caller, with that row's id, product and quantity and the product's current name, price and image URL |
| Cart.GetCart | PetShop.API/DTOs/CartDtos.cs:37 | GET /cart answers the summary iff the checked sum of the caller's quantities never leaves the int range. The answered TotalItems is then within int range. Otherwise it is a server error |
| Cart.GetCartNonNegative | PetShop.API/DTOs/CartDtos.cs:37 | For a cart without negative lines, which includes every well-formed one, GET /cart succeeds iff the quantities add up to at most int.MaxValue |
| Seqs.CheckedSum | PetShop.API/DTOs/CartDtos.cs:37 | LINQ's `int` Sum: when it succeeds, its value is the mathematical sum and lies within int range |
| Seqs.CheckedSumNonNegative | PetShop.API/DTOs/CartDtos.cs:37 | Over non-negative values, the checked sum fails exactly when the total passes int.MaxValue |
| Seqs.PartialSumOverflow | PetShop.API/DTOs/CartDtos.cs:37 | A partial sum out of range fails the sum even when the total is back in range: int.MaxValue, 1, -1 |
| Cart.AddToCart | PetShop.API/Controllers/CartController.cs:52-108 | Checks run in this order: invalid quantity, missing product (NotFound), quantity above stock (BadRequest). On success the answered quantity never exceeds the stock, and only cart rows and the counter change |
| Cart.AddToCartMerges | PetShop.API/Controllers/CartController.cs:70-81 | With an existing line for the product, success happens exactly when old + new quantity fits the stock. The line then holds the sum, no other row changes, and no row is added |
| Cart.AddToCartAppends | PetShop.API/Controllers/CartController.cs:83-93 | Without a line for the product, success appends exactly one new line with the requested quantity under a fresh id |
| Cart.AddToCartPreservesValid | PetShop.API/Controllers/CartController.cs:69-93 | A successful add keeps the store well formed, including one line per (user, product) and every quantity in 1..int.MaxValue |
| Cart.UpdateCartItem | PetShop.API/Controllers/CartController.cs:112-135 | A row that is missing or not the caller's gives NotFound. A quantity above stock gives BadRequest. On success exactly the owned row gets the new quantity, within stock |
| Cart.UpdateCartItemExact | PetShop.API/Controllers/CartController.cs:116-132 | For an owned row, success iff the quantity is valid and within stock. Afterwards that row holds the new quantity and every other row is as before |
| Cart.UpdateCartItemPreservesValid | PetShop.API/Controllers/CartController.cs:126-132 | A successful update keeps the store well formed |
| Cart.RemoveFromCart | PetShop.API/Controllers/CartController.cs:139-155 | Success iff the caller owns a row with that id. Then exactly that row is removed. Otherwise NotFound |
| Cart.RemoveTwiceFails | PetShop.API/Controllers/CartController.cs:143-149 | Removing the same row a second time gives NotFound |
| Cart.RemoveFromCartPreservesValid | PetShop.API/Controllers/CartController.cs:151-152 | A removal keeps the store well formed |
| Cart.ClearCart | PetShop.API/Controllers/CartController.cs:159-171 | Afterwards the caller's cart is empty, every other user's cart is unchanged, and nothing but cart rows changes |
| Cart.ClearCartIdempotent | PetShop.API/Controllers/CartController.cs:163-168 | Clearing twice is clearing once |
| Cart.ClearCartPreservesValid | PetShop.API/Controllers/CartController.cs:163-168 | Clearing keeps the store well formed |
| Cart.LineDtosTotals | PetShop.API/DTOs/CartDtos.cs:13-36 | The sum of the lines' TotalPrice (price × quantity) is the cart's value at current prices |
| Cart.SummaryTotals | PetShop.API/DTOs/CartDtos.cs:33-37 | A summary's TotalAmount is the cart's value, and its TotalItems is the cart's quantities added up. An empty cart has TotalAmount 0 and TotalItems 0 |
| Cart.TotalItemsAtLeastLines | PetShop.API/DTOs/CartDtos.cs:21-37 | When every line has quantity at least 1, TotalItems is at least the number of lines |
| Cart.SummaryAdditive | PetShop.API/DTOs/CartDtos.cs:36-37 | TotalAmount and TotalItems are additive over the lines |
| Cart.CartItemsCounted | PetShop.API/DTOs/CartDtos.cs:22-37 | In a well-formed store, the caller's TotalItems is at least its number of lines |
| Cart.SingleLineReadable | PetShop.API/DTOs/CartDtos.cs:37 | In a well-formed store, a cart of at most one line can always be read |
| Cart.LargeCartUnreadable | PetShop.API/DTOs/CartDtos.cs:37 | A well-formed cart with two lines of int.MaxValue, each within its stock, makes GET /cart fail |
| Cart.AddToCartAsWritten | PetShop.API/Controllers/CartController.cs:73-81 | The merge with 32-bit wrap-around, as the code computes it. Its answered quantity still passes the stock comparison |
| Cart.AsWrittenAgreesWithoutOverflow | PetShop.API/Controllers/CartController.cs:76 | Where no merged quantity leaves the 32-bit range, the code as written and the model agree |
| Cart.MergeOverflowAccepted | PetShop.API/Controllers/CartController.cs:76-81 | On a concrete well-formed store, the code as written saves a negative quantity. The model refuses the same request |
| Orders.NewestFirst | PetShop.API/Controllers/OrdersController.cs:62 | The same orders, each exactly once, in strictly decreasing creation time |
| Orders.GetAllOrders | PetShop.API/Controllers/OrdersController.cs:26-49 | Every order appears once as its DTO, newest first |
| Orders.GetOrders | PetShop.API/Controllers/OrdersController.cs:54-80 | Exactly the caller's orders, newest first |
| Orders.GetOrder | PetShop.API/Controllers/OrdersController.cs:85-115 | Success iff the order exists and belongs to the caller; then it answers that order's DTO. Otherwise NotFound |
| Orders.Shortage | PetShop.API/Controllers/OrdersController.cs:136-142 | Finds a line whose product lacks stock iff one exists |
| Orders.OrderLines | PetShop.API/Controllers/OrdersController.cs:156-166 | One order item per cart line, in line order, with the line's product and quantity and the product's price at checkout |
| Orders.Decrement | PetShop.API/Controllers/OrdersController.cs:169 | Every product's stock drops by the total quantity the lines ask for it; nothing else changes |
| Orders.CreateOrder | PetShop.API/Controllers/OrdersController.cs:120-199 | An empty cart gives BadRequest. A line above stock gives BadRequest naming that line's product. Otherwise: success, a "Pending" order under a fresh id, total = Σ price × quantity over the caller's cart |
| Orders.CheckedOut | PetShop.API/Controllers/OrdersController.cs:145-175 | The committed store: the new order and its items are appended, stock is decremented, the caller's cart is cleared, users and categories are untouched |
| Orders.LinesDistinct | PetShop.API/Controllers/CartController.cs:70-71 | In a well-formed store, no product appears on two lines of one cart |
| Orders.OrderLinesCost | PetShop.API/Controllers/OrdersController.cs:148-163 | Σ quantity × price over the new items equals the order total |
| Orders.CheckoutItems | PetShop.API/Controllers/OrdersController.cs:156-166 | The items filed under the new order match the cart line for line. They add up to the total, which is also the cart summary's TotalAmount |
| Orders.CreateOrderReply | PetShop.API/Controllers/OrdersController.cs:177-198 | The answered order lists one item per cart line, and its total is what the cart summary showed |
| Orders.CheckoutStock | PetShop.API/Controllers/OrdersController.cs:136-170 | Each purchased product's stock drops by exactly its line quantity and stays ≥ 0. Other products are unchanged |
| Orders.CheckoutClearsOnlyCallersCart | PetShop.API/Controllers/OrdersController.cs:125-173 | After checkout the caller's cart is empty and other users' carts are untouched |
| Orders.CreateOrderPreservesValid | PetShop.API/Controllers/OrdersController.cs:120-199 | A successful checkout by a registered user keeps the store well formed |
| Orders.CreatedOrderReadable | PetShop.API/Controllers/OrdersController.cs:178-198 | Afterwards, GetOrder by the new id answers exactly the reply's order, and the caller's order list is not empty |
| Products.ValidUpdateAsCreate | PetShop.API/DTOs/ProductDtos.cs:41-59 | Each update field, when present, obeys its create bound: overlaying a valid update on a valid create request stays valid |
| Products.ProductDtoOf | PetShop.API/Controllers/ProductsController.cs:56-66 | The DTO shows exactly the stored row and its category's name |
| Products.GetProducts | PetShop.API/Controllers/ProductsController.cs:17-41 | With a category id, exactly that category's products; without one, all products |
| Products.GetProductsByCategory | PetShop.API/Controllers/ProductsController.cs:21-24 | The filtered listing is the full listing restricted to the category |
| Products.ListingMatchesProductCount | PetShop.API/Controllers/ProductsController.cs:21-24 | The filtered listing shows exactly the products the category's ProductCount counts |
| Products.GetProduct | PetShop.API/Controllers/ProductsController.cs:45-69 | Success iff the product exists, answering its stored row. Otherwise NotFound |
| Products.CreateProduct | PetShop.API/Controllers/ProductsController.cs:74-112 | An invalid request is refused, then a missing category (BadRequest). Otherwise exactly one product with the request's fields is added under a fresh id |
| Products.CreateThenGet | PetShop.API/Controllers/ProductsController.cs:83-111 | The new id was unused; reading it back gives the created product; one more product than before |
| Products.CreateProductPreservesValid | PetShop.API/Controllers/ProductsController.cs:83-94 | A successful create keeps the store well formed |
| Products.Patch | PetShop.API/Controllers/ProductsController.cs:126-150 | Name and description are overwritten only by non-null, non-empty values. Price, stock and category are overwritten only when supplied. The image URL is overwritten whenever non-null, including by "" |
| Products.PatchNothing | PetShop.API/Controllers/ProductsController.cs:126-140 | A request with every field absent, or with only empty names and descriptions, leaves the product unchanged |
| Products.PatchIdempotent | PetShop.API/Controllers/ProductsController.cs:126-150 | Applying the same request twice equals applying it once |
| Products.PatchCompose | PetShop.API/Controllers/ProductsController.cs:126-150 | Two successive requests act as one where the later request wins each field it sets |
| Products.UpdateProduct | PetShop.API/Controllers/ProductsController.cs:117-155 | Checks run in this order: invalid request, missing product (NotFound), missing category (BadRequest, with nothing of the patch saved). On success only that product changes, to the patched row |
| Products.UpdateProductIdempotent | PetShop.API/Controllers/ProductsController.cs:126-152 | Sending the same update twice leaves the store as sending it once |
| Products.UpdateProductPreservesValid | PetShop.API/Controllers/ProductsController.cs:142-152 | A successful update keeps the store well formed |
| Products.DeleteProduct | PetShop.API/Controllers/ProductsController.cs:160-173 | A missing product gives NotFound. A product a cart line or order item refers to is refused by the restrict rule. Otherwise exactly that product is removed |
| Products.DeleteThenGet | PetShop.API/Controllers/ProductsController.cs:162-167 | After a delete, the product reads as not found and a second delete gives NotFound |
| Products.DeleteProductPreservesValid | PetShop.API/Data/ApplicationDbContext.cs:45-67 | A successful delete keeps the store well formed: no row refers to a removed product |
| Categories.CategoryDtoOf | PetShop.API/Controllers/CategoriesController.cs:46-52 | ProductCount is the number of products filed under the category, and it is 0 iff none are |
| Categories.GetCategories | PetShop.API/Controllers/CategoriesController.cs:17-31 | Exactly one DTO per stored category |
| Categories.GetCategory | PetShop.API/Controllers/CategoriesController.cs:35-55 | Success iff the category exists. Otherwise NotFound |
| Categories.CreateCategory | PetShop.API/Controllers/CategoriesController.cs:60-80 | Adds exactly one category under a fresh id and reports ProductCount 0 |
| Categories.CreateThenGet | PetShop.API/Controllers/CategoriesController.cs:62-79 | Reading the new category back gives the reply, since no product refers to the fresh id |
| Categories.CreateCategoryPreservesValid | PetShop.API/Controllers/CategoriesController.cs:62-69 | Creation keeps the store well formed |
| Categories.UpdateCategory | PetShop.API/Controllers/CategoriesController.cs:85-103 | A missing id gives NotFound. Otherwise only non-empty name and description overwrite, and nothing else changes |
| Categories.UpdateCategoryNoChange | PetShop.API/Controllers/CategoriesController.cs:94-98 | An update that sets nothing leaves the store as it was; any update is idempotent |
| Categories.UpdateCategoryPreservesValid | PetShop.API/Controllers/CategoriesController.cs:94-100 | An update keeps the store well formed |
| Categories.DeleteCategory | PetShop.API/Controllers/CategoriesController.cs:108-128 | A missing id gives NotFound. A category with products gives BadRequest and removes nothing. Otherwise exactly that category is removed |
| Categories.DeleteIffNoProducts | PetShop.API/Controllers/CategoriesController.cs:119-122 | Deletion succeeds iff the listed ProductCount is 0 |
| Categories.DeleteCategoryPreservesValid | PetShop.API/Data/ApplicationDbContext.cs:33-37 | A delete keeps every product's category existing |
| Auth.Register | PetShop.API/Controllers/AuthController.cs:15-57 | Checks run in this order: used e-mail, then used username, then a role other than User/Manager, each a BadRequest. Otherwise exactly one user with the given fields and hash(password) is added |
| Auth.RegisterKeepsUnique | PetShop.API/Controllers/AuthController.cs:35-44 | A registration adds one user under an unused id and keeps e-mails and usernames unique |
| Auth.RegisterPreservesValid | PetShop.API/Data/ApplicationDbContext.cs:25-31 | A registration keeps the store well formed |
| Auth.UserByEmail | PetShop.API/Controllers/AuthController.cs:63 | Finds a user iff one has that e-mail, and the one found has it |
| Auth.Login | PetShop.API/Controllers/AuthController.cs:60-87 | Success iff a user has the e-mail and the password verifies. Every failure is the same Unauthorized answer. On success it answers the matched user's id, username, e-mail and role |
| Auth.RegisterThenLogin | PetShop.API/Controllers/AuthController.cs:35-86 | Logging in with the registered e-mail and password answers the registered profile |
| Auth.RegisterTwiceFails | PetShop.API/Controllers/AuthController.cs:18-21 | A second registration with the same e-mail gives BadRequest |
| DbRules.DeleteUser | PetShop.API/Data/ApplicationDbContext.cs:39-55 | A user with orders cannot be removed (restrict). Otherwise the user goes, and so do exactly its cart lines (cascade) |
| DbRules.DeleteUserPreservesValid | PetShop.API/Data/ApplicationDbContext.cs:39-55 | Removing a user keeps the store well formed |
| DbRules.DeleteOrder | PetShop.API/Data/ApplicationDbContext.cs:57-61 | Removing an order removes exactly its items; nothing else changes |
| DbRules.DeleteOrderPreservesValid | PetShop.API/Data/ApplicationDbContext.cs:57-61 | Removing an order keeps the store well formed |
| DbRules.DeleteOrderCascades | PetShop.API/Data/ApplicationDbContext.cs:57-61 | No item of a removed order remains |
| DbRules.Seed | PetShop.API/Data/ApplicationDbContext.cs:73-98 | The seeded store is well formed: categories 1..3, products 1..8, each filed under a seeded category with price > 0 and stock ≥ 0 |
| DbRules.SeedCounts | PetShop.API/Data/ApplicationDbContext.cs:83-97 | The seed files products 1-3, 4-6 and 7-8 under categories 1, 2 and 3 |
| OrdersView.Revenue | src/components/admin/AllOrdersView.tsx:62-66 | An empty list has revenue 0 |
| OrdersView.RevenueIsSumOfShares | src/components/admin/AllOrdersView.tsx:62-66 | Revenue is the sum over all orders of the amount of each pending or completed order; other orders count 0 |
| OrdersView.RevenueAdditive | src/components/admin/AllOrdersView.tsx:63-65 | Revenue is additive over list concatenation |
| OrdersView.CancelledAddsNothing | src/components/admin/AllOrdersView.tsx:64 | Appending a cancelled order leaves revenue unchanged |
| OrdersView.EarningAddsAmount | src/components/admin/AllOrdersView.tsx:64-65 | Appending a pending or completed order adds exactly its amount |
| OrdersView.RevenueNonNegative | src/components/admin/AllOrdersView.tsx:62-66 | Non-negative amounts give non-negative revenue |
| OrdersView.StatusText | src/components/admin/AllOrdersView.tsx:49-60 | The three statuses get their labels; any other string is returned unchanged |
| OrdersView.StatusTextDistinct | src/components/admin/AllOrdersView.tsx:49-60 | The three labels are distinct |
| OrdersView.StatusColor | src/components/admin/AllOrdersView.tsx:36-47 | 'default' iff the status is unknown; warning, success and error exactly for Pending, Completed and Cancelled |
| OrdersView.EarningByColour | src/components/admin/AllOrdersView.tsx:36-65 | An order counts towards revenue iff its chip is warning or success |
| Carousel.JsRem | src/widgets/image-carousel/ui/image-carousel.tsx:22-26 | JavaScript's `%`: a = q·n + r with q the quotient truncated toward zero. The remainder has the sign of the dividend and is smaller than the divisor in size |
| Carousel.Next | src/widgets/image-carousel/ui/image-carousel.tsx:21-23 | Keeps the index in [0, 3). Steps forward, and from the last slide back to the first |
| Carousel.Prev | src/widgets/image-carousel/ui/image-carousel.tsx:25-27 | Keeps the index in [0, 3), including from 0. Steps back, and from the first slide to the last |
| Carousel.GoTo | src/widgets/image-carousel/ui/image-carousel.tsx:17-19 | The index becomes exactly the chosen one |
| Carousel.PrevNextInverse | src/widgets/image-carousel/ui/image-carousel.tsx:21-27 | Prev after Next, and Next after Prev, return the original index |
| Carousel.ForwardIsRotation | src/widgets/image-carousel/ui/image-carousel.tsx:9-23 | k timer ticks or next steps from slide i land on slide (i + k) mod 3 |
| Carousel.ForwardAllTheWay | src/widgets/image-carousel/ui/image-carousel.tsx:21-23 | Three next steps return to the start |
| AuthSlice.InitializeStateAsWritten | src/features/auth/model/auth-slice.ts:17-41 | Authenticated only when both the token and the user string are stored and non-empty. A parse error clears both keys |
| AuthSlice.NullUserBreaksInvariant | src/features/auth/model/auth-slice.ts:22-28 | With token "t" and user "null" stored, the state is authenticated with no user |
| AuthSlice.InitializeState | src/features/auth/model/auth-slice.ts:17-41 | The state is consistent. Authenticated iff both keys are non-empty and the user parses to a user; then it holds that user and token. A parse error clears both keys |
| AuthSlice.InitializeStateAgrees | src/features/auth/model/auth-slice.ts:17-41 | Unless the stored user is JSON null, the corrected start-up equals the code as written |
| AuthSlice.SetCredentials | src/features/auth/model/auth-slice.ts:47-55 | Sets the user and token and makes the state authenticated. Writes both keys; every other key is untouched |
| AuthSlice.Logout | src/features/auth/model/auth-slice.ts:56-64 | User and token become null and authenticated false. Both keys are removed; every other key is untouched |
| AuthSlice.LogoutIdempotent | src/features/auth/model/auth-slice.ts:56-64 | Logging out twice is logging out once |
| AuthSlice.ReducersKeepConsistent | src/features/auth/model/auth-slice.ts:10-64 | Authenticated ⇔ user present ⇔ token present, after start-up and after either reducer |
| AuthSlice.ReloadAfterLogout | src/features/auth/model/auth-slice.ts:17-64 | A reload after logout starts unauthenticated, in both the written and the corrected start-up |
| AuthSlice.ReloadAfterSetCredentials | src/features/auth/model/auth-slice.ts:17-55 | A reload after storing credentials restores the same state, when the token is not empty and parsing returns the stored user |
| AuthSlice.EmptyTokenNotRestored | src/features/auth/model/auth-slice.ts:22 | An empty token is stored but a reload is unauthenticated |
| RegisterForm.RoleName | src/pages/RegisterPage.tsx:176-181 | The select sends only "User" or "Manager" |
| RegisterForm.IsEmailMatchesPattern | src/pages/RegisterPage.tsx:123-129 | The direct e-mail check accepts exactly the strings of the regex: a non-empty local part from [A-Za-z0-9._%+-], one '@', a non-empty domain from [A-Za-z0-9.-], a '.', then at least 2 ASCII letters |
| RegisterForm.IsEmailSound | src/pages/RegisterPage.tsx:126 | What `IsEmail` accepts matches the pattern |
| RegisterForm.IsEmailComplete | src/pages/RegisterPage.tsx:126 | What the pattern matches, `IsEmail` accepts |
| RegisterForm.ValidMeans | src/pages/RegisterPage.tsx:103-164 | A submittable form has a username of 3..50, a matching e-mail, a password of 6..100, and a confirmation equal to the password |
| RegisterForm.InitialForm | src/pages/RegisterPage.tsx:42-44 | The form opens with role "User" and cannot be submitted empty |
| RegisterForm.Payload | src/pages/RegisterPage.tsx:47-51 | The request carries the form's username, e-mail, password and role |
| RegisterForm.PayloadDropsConfirmation | src/pages/RegisterPage.tsx:50 | The confirmation never reaches the request |
| RegisterForm.FormRoleAccepted | src/pages/RegisterPage.tsx:176-181 | The server refuses a form's request only for a used e-mail or username, never for its role |
| ProductForm.CreateForm | src/components/admin/ProductsManagement.tsx:76-83 | The create form opens with empty text, price and stock 0, and the first listed category (0 if there is none) |
| ProductForm.EditForm | src/components/admin/ProductsManagement.tsx:66-73 | The edit form opens with the product's values; a missing image URL is shown as empty |
| ProductForm.ValidMeans | src/components/admin/ProductsManagement.tsx:197-291 | A submittable form has a name of 2..200, a description ≤ 1000, price within [0.01, 1000000], stock within [0, 100000], category ≥ 1, and a URL matching the pattern when given |
| ProductForm.CreateFormNeedsPrice | src/components/admin/ProductsManagement.tsx:76-83 | The create form as it opens fails the price rule. Typing in a price passes it iff the price lies within bounds |
| ProductForm.CreatePayload | src/components/admin/ProductsManagement.tsx:98-99 | The create request adds a product with the form's fields; the image URL is sent as typed |
| ProductForm.UpdatePayload | src/components/admin/ProductsManagement.tsx:95-96 | The update request carries every form field as present |
| ProductForm.FormWithinServerBounds | src/components/admin/ProductsManagement.tsx:197-261 | A submittable form whose name is not blank and whose URL is ≤ 500 makes valid create and update requests |
| ProductForm.NumberBoundsWithinServer | src/components/admin/ProductsManagement.tsx:231-261 | The form's price and stock bounds imply the server's |
| ProductForm.BlankNameGap | src/components/admin/ProductsManagement.tsx:197-207 | A two-space name passes the form but not the server's [Required] |
| ProductForm.EditUnchanged | src/components/admin/ProductsManagement.tsx:64-96 | Saving an unchanged edit form gives the product back, except that a missing image URL becomes "" |
| CategoryForm.ValidMeans | src/features/admin/ui/categories-management.tsx:175-198 | A submittable form has a name of 2..100 and a description ≤ 500 |
| CategoryForm.Open | src/features/admin/ui/categories-management.tsx:51-60 | Opening with a category edits its values; opening without one creates from an empty form |
| CategoryForm.Close | src/features/admin/ui/categories-management.tsx:62-66 | Closing hides the dialog, clears the target and resets the form to empty name and description |
| CategoryForm.CloseForgets | src/features/admin/ui/categories-management.tsx:62-66 | Closing forgets everything typed, and the next create opens empty |
| CategoryForm.BlankInvalid | src/features/admin/ui/categories-management.tsx:175-185 | The empty form cannot be submitted |
| CategoryForm.Submit | src/features/admin/ui/categories-management.tsx:68-76 | Without a target the save creates; with one it updates that category with both fields present |
| CategoryForm.EditSaves | src/features/admin/ui/categories-management.tsx:70-72 | A valid edit always renames. The description is replaced only when the form's is non-empty |
| CategoryForm.DeleteEnabledMatchesServer | src/features/admin/ui/categories-management.tsx:155 | The delete button is enabled iff the server would delete the category |

## Left out

- Routing, `[Authorize]` role checks and claim parsing in `GetUserId`: the caller's id is a parameter, and access control is assumed.
- Async queries, `Include`, and change tracking: each action is one atomic transition.
- Checkout saves twice (`PetShop.API/Controllers/OrdersController.cs:153,175`), so a crash in between leaves an order without items. Concurrent checkouts can race on stock. Neither is expressible in a sequential model.
- Password hashing, password checking and token issuance (the JWT service) are not part of this model.
  - Hashing and checking are the parameters `hash` and `verify`.
  - `Auth.RegisterThenLogin` takes `verify(p, hash(p))` as a hypothesis.
  - Tokens are not modelled.
- Money is kept in integer kopecks, so sub-kopeck decimal prices and decimal overflow are not modelled. `CartItemDto.TotalPrice` and `TotalAmount` are unbounded integers.
- `DateTime.UtcNow` is the store's `clock`: each order takes it and advances it. "Newest first" therefore ranks by creation order.
- Identity values come from one counter shared by all tables. The model relies only on their freshness, and does not model the per-table counters or the identity seeding after the seed rows.
- The category and registration request DTOs and their data annotations are not part of this model. `Categories.CreateCategory`, `Categories.UpdateCategory` and `Auth.Register` accept any strings.
- Database collation: e-mail and username uniqueness is exact string equality.
- Products.GetProducts: answers a set, since the listing has no `OrderBy` and its row order is unspecified.
- Categories.GetCategories: answers a set, for the same reason.
- Cart.Summary: lists the caller's lines in id order. The query has no `OrderBy` (`PetShop.API/Controllers/CartController.cs:28-40`), so the order the source answers is unspecified. The same holds for the cart that checkout loads (`PetShop.API/Controllers/OrdersController.cs:125-128`), and so for the order of the new order's items.
- Cart.GetCart: the checked sum runs over the lines in id order. With mixed signs, which partial sums leave int range depends on that order, and the source's order is unspecified. Only a negative line, which only the as-written merge produces, can tell the orders apart.
- Orders.Decrement: stock is an unbounded integer. In the code, `Stock -= Quantity` is unchecked and would wrap if a negative line pushed the stock past `int.MaxValue`. Only the as-written merge can produce such a line, and the model's merge never does.
- Orders.GetOrder: lists an order's items in id order. The same applies to Orders.GetOrders, Orders.GetAllOrders and Orders.CreateOrder. The `OrderItems` navigation they read (`PetShop.API/Controllers/OrdersController.cs:38-44`, `104-110`, `189-195`) has no defined order.
- Auth.Login: requires unique e-mails, which the unique index guarantees. Which duplicate `FirstOrDefault` would pick is not modelled.
- Products.ValidCreate: the `[Required]` on the numeric fields is always met by a value type, so it is not stated.
- Client rendering, MUI layout, `window.confirm`, timers (`setInterval`, `setTimeout`) and RTK Query clients are left out. The carousel's timer tick is `Carousel.Next`.
- `localStorage` is a map parameter, and exceptions from `setItem` are not modelled.
- `JSON.parse` and `JSON.stringify` are the parameters `parse` and `stringify`. A parse gives an error, null, or a user; JSON values of other shapes (a number, a string) are not modelled.
- The image-URL pattern (`src/components/admin/ProductsManagement.tsx:290`) is the abstract predicate `urlOk`.
- Number inputs are integers in minor units, so a fractional stock or a sub-kopeck price typed into the form is not modelled.
- Which categories the product form's select offers is not modelled; only the `min: 1` rule is.
- String lengths count characters. JavaScript's `length` counts UTF-16 code units, and characters outside the Basic Multilingual Plane are not distinguished.
- Carousel.GoTo: does not check the index; the dots only pass 0..2.
- Client-side product sorting uses locale-dependent `localeCompare`, and is left out.
- Duplicates of the logic modelled here are left out: the status mapping in the orders page, the e-mail pattern on the login page, the older category management component, and the cart pages' quantity guards.
- The code has no order status transitions, so none are modelled.

## Findings

| source | as written | input that shows it | evidently intended | confidence | as-written member | corrected member |
|---|---|---|---|---|---|---|
| PetShop.API/Controllers/CartController.cs:76-81 | `existingCartItem.Quantity += dto.Quantity` is unchecked 32-bit arithmetic. A large merge wraps to a negative quantity, which passes `product.Stock < existingCartItem.Quantity` and is saved | Product stock 2147483647, the caller's line already holds 2147483647, add 2: the saved quantity is -2147483647 | Refuse the merge when the true sum exceeds the stock, so every line keeps a quantity within 1..stock | not executed; high that it wraps (default unchecked context) | Cart.AddToCartAsWritten, Cart.MergeOverflowAccepted | Cart.AddToCart (with Cart.AddToCartPreservesValid) |
| src/features/auth/model/auth-slice.ts:22-28 | With a truthy token and user string, the parsed user is used without a null check, so a stored user "null" gives `user: null` with `isAuthenticated: true` | Storage `{ token: "t", user: "null" }` | Authenticated ⇔ user present ⇔ token present; a null user counts as no session | not executed; medium (the app itself never stores "null") | AuthSlice.InitializeStateAsWritten, AuthSlice.NullUserBreaksInvariant | AuthSlice.InitializeState (with AuthSlice.ReducersKeepConsistent) |
| PetShop.API/DTOs/CartDtos.cs:37 | `TotalItems => Items.Sum(i => i.Quantity)` is LINQ's checked `int` sum. Each line is within int range and its stock, but the lines together are not bounded, so reading the summary throws once a partial sum leaves int range | Two products with stock 2147483647, and the caller's cart holding 2147483647 of each: GET /cart fails with 500, and keeps failing until the cart changes | The cart stays readable: the summary reports its total count without overflowing | not executed; high that the sum throws (`Enumerable.Sum` over `int` is checked) | Cart.GetCart, Cart.LargeCartUnreadable | Cart.Summary (with Cart.SummaryTotals) |
