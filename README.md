# Book marketplace domain layer in Dafny

This project models the sequential domain layer of a peer-to-peer book marketplace. Users and
publishers list books for sale or lease. Buyers browse and search a catalogue, put books in a
cart, check out, rate the seller once an order is delivered and review the books they bought.
The repository holds two near-identical backends, `backend/` and `backend1/`, and two
single-page clients, `frontend/` and `frontend1/`. The model covers the parts of them that
decide something:

- the cart: the Mongoose cart document with its `pre('save')` total, both `addToCart` policies
  (`backend1` rejects a book already in the cart, `backend` merges into the matching item),
  and item update and removal;
- checkout and the rental lifecycle: `createOrder` (cart snapshot, book status change, cart
  deletion), `updateOrderStatus`, `completeRental` and `getOrder`;
- reputation: `rateUser` with its one-shot `hasRated` gate and integer running average, and
  book reviews with their `post('save')` aggregate;
- the catalogue query of `getAllBooks`: the filter it builds step by step and the sort it
  picks, and the uploader stamping of `addBook` and `bulkAddBooks`;
- the Book, Order, Cart and Review schemas: enums, defaults, ranges and the
  "required when the listing type says so" rules;
- the input validators of `backend1/utils/validators.js` and the older copy in
  `backend/utils/validators.js`;
- the client helpers: the cart summary total, `getInitials`, `validateForm` and
  `getErrorMessage`, the publisher sign-up guard chain and its payload, and the publisher
  profile whitelist.

## How the model is built

- Every source file of the core is one module. `Common` holds `Option`, `Result`, the error
  kinds and the JavaScript values a request body carries. `Text` holds trimming, splitting,
  joining and ASCII case mapping.
- The database is the class `Store.Db`. Books, carts and orders are `map` fields keyed by
  id. Users, publishers and reviews are `seq` fields, because `findOne` returns the first
  match in insertion order. A counter `nextId` stands in for fresh `ObjectId`s.
- Each controller action is a `method` that `modifies db`. It is proved against a function
  of the old database state that returns the response and the new state
  (`ensures (r, db.Snapshot()) == AddRejecting(old(db.Snapshot()), ...)`). What the source
  promises is proved about that function: error cases, what changes, what stays, and that the
  store invariant `Store.Valid` is kept.
- `Store.Valid` is what the schemas guarantee of every stored document. Books satisfy the
  book schema. A cart belongs to the user it is filed under, its items are valid and its
  total is the fold of its items. Order items satisfy the order item schema. Reviews satisfy
  the review schema, and (user, book) is unique among them. Every id is below the counter.
- Errors are `AppError(status, message)` for the source's `AppError`, `SchemaError(paths)`
  for a Mongoose validation error, `DuplicateKey(field)` for a unique-index violation, and
  `RuntimeError(message)` for a JavaScript `TypeError` (a property read on `null` or
  `undefined`).
- Mongoose validates a document before it writes it, so a write that fails validation leaves
  the database as it was.
- Money and dates are integers: prices in the currency's units, dates in milliseconds since
  the epoch. The current time is a parameter `now`.
- Where the two copies of the validators, the two `addToCart`s or the client and server
  totals differ or agree, lemmas state the difference or the agreement.

## Model

| member | source | states |
|---|---|---|
| CartSchema.ItemErrors | backend1/models/Cart.js:4-39 | An item fails validation exactly when it breaks a schema rule: quantity at least 1, type `purchase` or `rent`, both rental dates for a rent item, a price. The quantity path fails exactly when the quantity is below 1, and the price path exactly when there is no price. |
| CartSchema.ItemsErrors | backend1/models/Cart.js:47 | The cart's items produce no failing path exactly when every item is valid. |
| CartSchema.Prefixed | backend1/models/Cart.js:47 | Each item's failing paths are numbered with its index. It adds no path and drops none. |
| CartSchema.CeilDivBounds | backend1/models/Cart.js:60 | `Math.ceil(a / b)` for positive `b` is the least `q` with `a <= q * b`. |
| CartSchema.DaysBounds | backend1/models/Cart.js:60 | The day count of a rental is the number of started days: the span is more than `days - 1` whole days and at most `days` days. |
| CartSchema.TotalAppend | backend1/models/Cart.js:57-66 | Appending a valid item to valid items raises the total by exactly that item's contribution: `price * quantity` for a purchase, `price * days * quantity` for a rent. |
| CartSchema.TotalPrepend | backend1/models/Cart.js:57-66 | Putting an item in front raises the total by the same contribution. The fold is a plain sum, so order does not matter. |
| CartSchema.TotalConcat | backend1/models/Cart.js:57-66 | The total of two item lists joined together is the sum of their totals. |
| CartSchema.SaveCart | backend1/models/Cart.js:57-66 | `cart.save()` succeeds exactly when every item is valid. A failure lists every failing path (at least one). A success has `totalAmount` equal to the fold over the items, and the items, id and owner are unchanged. |
| CartSchema.NewCart | backend1/models/Cart.js:41-54 | `Cart.create({ user, items: [] })` gives a saved cart of that user with no items and total 0. |
| CartSchema.FindItem | backend1/controllers/cartController.js:110-113 | `cart.items.id(itemId)` finds the first item with that id, and finds nothing exactly when no item has it. |
| CartSchema.RemoveItem | backend1/controllers/cartController.js:138 | The filter keeps exactly the items whose id differs, and never adds one. It is the identity when no item has the id. It keeps valid items valid. |
| CartSchema.RemoveItemSingle | backend1/controllers/cartController.js:138 | A one-item cart loses its item exactly when the item has the id. |
| CartSchema.RemoveItemConcat | backend1/controllers/cartController.js:138 | Removing from a concatenation concatenates the two removals, so the surviving items keep their order and their multiplicity. |
| CartSchema.RemoveItemCommutes | backend1/controllers/cartController.js:138 | Removing two ids gives the same cart in either order: the filter keeps the survivors in their original order. |
| CartSummary.CalculateTotal | frontend/src/components/cart/cartSummary.js:4-15 | The client total of an empty cart is 0. |
| CartSummary.ReduceIsAccPlusTotal | frontend/src/components/cart/cartSummary.js:5-14 | The client's `reduce` started at any accumulator adds the server's total of the items to it. |
| CartSummary.ClientTotalMatchesServer | frontend/src/components/cart/cartSummary.js:4-15 | The total the client shows equals the `totalAmount` the server's pre-save hook computes for the same items (backend1/models/Cart.js:57-66). |
| CartSummary.Displayed | frontend/src/components/cart/cartSummary.js:25-35 | The "Subtotal" and the "Total" show the same figure, the saved cart's `totalAmount`. |
| CartController.GetCart | backend1/controllers/cartController.js:7-24 | `getCart` answers 404 "No cart found for this user" exactly when the user has no cart. Otherwise it returns the user's stored cart, which is saved and owned by that user. |
| CartController.PairIsDuplicate | backend1/controllers/cartController.js:43-47 | The duplicate query finds every cart that already holds the book under the requested type. |
| CartController.DuplicateWithoutPair | backend1/controllers/cartController.js:43-47 | The query also fires on a cart that holds the book only under the other type, while some other item has the requested type. The two array conditions match different elements. |
| CartController.AppendItem | backend1/controllers/cartController.js:64-90 | Once the checks pass, the cart is found or created. One item is appended after the unchanged old items. It has a fresh id, quantity 1 whatever was asked, the lease `perDay` price for rent and the sale price otherwise, and rental dates only for rent. A failing save keeps the old items. Only the user's cart changes. |
| CartController.AppendItemKeepsValid | backend1/controllers/cartController.js:64-90 | The append keeps the store invariant. |
| CartController.AddRejecting | backend1/controllers/cartController.js:26-99 | A missing book gives 404, a book that is not available gives 400, and a duplicate query hit gives 400 "This book is already in your cart". Each of these leaves the database unchanged. The add succeeds only past all three checks, and then it is the append. |
| CartController.AddRejectingKeepsValid | backend1/controllers/cartController.js:26-99 | The rejecting add keeps the store invariant on every path: success, refusal and failed save. |
| CartController.AddToCart | backend1/controllers/cartController.js:26-99 | The method's response and new database are those of `AddRejecting`. |
| CartController.PushItem | backend1/controllers/cartController.js:64-90 | The method's response and new database are those of `AppendItem`. |
| CartController.UpdatedItem | backend1/controllers/cartController.js:115-118 | The item keeps its id, book, type and price. The quantity changes only when the new one is truthy. The rental dates change only when dates were sent and the item is a rent item. |
| CartController.UpdateItem | backend1/controllers/cartController.js:101-128 | A missing cart gives 404 "Cart not found" and a missing item 404 "Cart item not found". A failure leaves the database unchanged. A success replaces exactly the first item with that id by its update and saves the cart. Only that user's cart changes. |
| CartController.UpdateTouchesOnlyItem | backend1/controllers/cartController.js:110-118 | After an update the cart has the same length. Every item with another id is unchanged. Every item keeps its id, book, type and price. |
| CartController.UpdateItemKeepsValid | backend1/controllers/cartController.js:101-128 | The update keeps the store invariant. |
| CartController.UpdateCartItem | backend1/controllers/cartController.js:101-128 | The method's response and new database are those of `UpdateItem`. |
| CartController.RemoveSpec | backend1/controllers/cartController.js:130-147 | Without a cart the answer is 404 and nothing changes. Otherwise the cart keeps, in order, every item whose id differs, and is saved. On a valid store the removal always succeeds. Only that user's cart changes. |
| CartController.RemoveAbsentIsNoOp | backend1/controllers/cartController.js:138 | Removing an id no item has returns the stored cart and leaves the database unchanged. |
| CartController.RemoveKeepsValid | backend1/controllers/cartController.js:130-147 | The removal keeps the store invariant. |
| CartController.RemoveFromCart | backend1/controllers/cartController.js:130-147 | The method's response and new database are those of `RemoveSpec`. |
| CartMerge.ListingError | backend/controllers/cartController.js:40-46 | There is no error exactly when a rent is asked of a book offered for lease (or both) and a purchase of a book offered for sale (or both). An error is a 400. |
| CartMerge.FindPair | backend/controllers/cartController.js:61-63 | `findIndex` finds the first item with that (book, type), and finds nothing exactly when the cart has none. |
| CartMerge.Merged | backend/controllers/cartController.js:65-69 | The merged item's quantity is the old quantity plus the requested one. A rent item takes the request's rental dates. Id, book, type and price stay as they were. |
| CartMerge.MergeItem | backend/controllers/cartController.js:48-80 | When the cart holds the (book, type), a success replaces exactly that item by its merge, and needs a requested quantity. Otherwise a success appends one new item after the unchanged old ones. It has a fresh id, the requested quantity (1 when none was sent) and the book's price. A failing save keeps the old items. Only the user's cart changes. |
| CartMerge.AddMerging | backend/controllers/cartController.js:26-88 | A missing book gives 404, an unavailable book 400, and a type the listing does not offer 400. Each leaves the database unchanged. A success implies the book is available and offers the type, and past the checks the add is the merge. |
| CartMerge.MergeKeepsPairsUnique | backend/controllers/cartController.js:61-78 | After the merging add, the user's cart holds at most one item per (book, type). |
| CartMerge.MergeItemKeepsValid | backend/controllers/cartController.js:48-80 | The merge keeps the store invariant. |
| CartMerge.MergeOrPushKeepsValid | backend/controllers/cartController.js:61-80 | The merge-or-push step on an existing cart keeps the store invariant. |
| CartMerge.OtherCartsKeepPairs | backend/controllers/cartController.js:48-80 | When only one cart changes and it keeps unique pairs, every cart keeps them. |
| CartMerge.AddMergingKeepsMergeValid | backend/controllers/cartController.js:26-88 | The merging add keeps the invariant of this backend's carts: the store invariant, and at most one item per (book, type) in every cart. |
| CartMerge.UpdateKeepsMergeValid | backend/controllers/cartController.js:90-117 | The update keeps that invariant: it changes no item's book or type. |
| CartMerge.PairsUniqueTail | backend/controllers/cartController.js:61-78 | A list with unique pairs splits into a first item unlike every later one, and a rest with unique pairs. |
| CartMerge.PairsUniqueCons | backend/controllers/cartController.js:61-78 | Such a first item and such a rest join back into a list with unique pairs. |
| CartMerge.RemoveKeepsPairsUnique | backend/controllers/cartController.js:127 | The removal filter keeps unique pairs. |
| CartMerge.RemoveKeepsMergeValid | backend/controllers/cartController.js:119-136 | The removal keeps the invariant of this backend's carts. |
| CartMerge.SecondAddMerges | backend/controllers/cartController.js:65-69 | Unlike `backend1`, adding a (book, type) the cart already holds is accepted. The cart keeps its length, and that item's quantity grows by the requested amount. |
| CartMerge.AddToCart | backend/controllers/cartController.js:26-88 | The method's response and new database are those of `AddMerging`. |
| CartMerge.MergeInto | backend/controllers/cartController.js:48-80 | The method's response and new database are those of `MergeItem`. |
| CartMerge.MergeOrPushInto | backend/controllers/cartController.js:58-80 | The method's response and new database are those of the merge-or-push step. |
| Store.EnsureCart | backend1/controllers/cartController.js:64-73 | After the step the user has a cart: the old one if there was one, otherwise a new empty saved cart stored at once. |
| Store.StoreCart | backend1/controllers/cartController.js:90 | `cart.save()` with new items stores the cart with its recomputed total exactly when the items are valid. Otherwise the stored cart is unchanged and the error lists the failing paths. |
| Store.StoreCartKeepsValid | backend1/controllers/cartController.js:90 | Saving items whose ids are all below the counter keeps the store invariant. |
| Store.StoreReplacedKeepsValid | backend/controllers/cartController.js:66-80 | Saving the cart with one item replaced by one with the same id keeps the store invariant. |
| Store.StoreAppendedKeepsValid | backend1/controllers/cartController.js:87-90 | Saving the cart with one freshly numbered item appended keeps the store invariant. |
| Store.EnsuredAppendKeepsValid | backend1/controllers/cartController.js:64-90 | Finding or creating the user's cart and saving it with one item appended, numbered with the counter, keeps the store invariant. |
| Store.PutCartKeepsValid | backend1/controllers/cartController.js:67-73 | Storing a saved cart of the user whose ids are below the counter keeps the store invariant. |
| Store.Db.CartFor | backend1/controllers/cartController.js:64-73 | The method's new database is that of `EnsureCart`, and it returns the user's cart. |
| Store.Db.SaveCartItems | backend1/controllers/cartController.js:90 | The method's response and new database are those of `StoreCart`. |
| OrderSchema.ParseOrderStatus | backend/models/Order.js:56-60 | A status name is accepted exactly when it is one of the six listed names, and it parses back to that name. |
| OrderSchema.OrderStatusRoundTrip | backend/models/Order.js:56-60 | Every order status parses back from its name. |
| OrderSchema.ParsePaymentMethod | backend/models/Order.js:82-86 | A payment method is accepted exactly when it is one of the four listed names. |
| OrderSchema.OrderItemErrors | backend/models/Order.js:4-43 | An order item produces no failing path exactly when it is valid: quantity at least 1, type `purchase` or `rent`, both rental dates for a rent item, a price. |
| OrderSchema.OrderItemsErrors | backend/models/Order.js:51 | The items produce no failing path exactly when every item is valid. |
| OrderSchema.CreateOrderDoc | backend/models/Order.js:45-93 | `Order.create` succeeds exactly when the payment method is one of the four and every item is valid. A failure is a validation error with at least one path, and names `paymentMethod` when that is wrong. A success is a valid order with the given id, owner, items and amount, status pending, `hasRated` false, no rating and payment status pending. |
| OrderSchema.SaveOrder | backend/models/Order.js:45-93 | `order.save()` writes the order as it is exactly when it is valid: valid items, and a rating, if any, in [0, 100]. Otherwise it is a validation error. |
| OrderController.OrderLineCases | backend/controllers/orderController.js:21-66 | A missing book throws a `TypeError` (it is read in the log before the 404 check). A book whose uploader account is gone gives 400 "No uploader found for book: <title>". A rent item without dates gives 400 "Rental duration is required for book: <title>". An accepted line copies book, uploader, quantity, price and type and is not completed. A rent line keeps the end date and takes `now` for a missing start date. A purchase line has no dates. |
| OrderController.Lines | backend/controllers/orderController.js:21 | There is one line per cart item, in cart order. |
| OrderController.StoredCartHasDates | backend/controllers/orderController.js:55-64 | For a stored cart item the rental-duration check never fires, and the line keeps the cart item's dates. |
| OrderController.SameListingValid | backend/controllers/orderController.js:89-100 | A book that differs from a valid book only in status, current transaction and rental info is valid too. |
| OrderController.MarkBook | backend/controllers/orderController.js:89-101 | After `updateBookStatus` a book is rented for a rent line and sold otherwise, and the order is its current transaction. A rent line records who rents it and from when to when. A purchase line keeps the rental info. Nothing else changes. |
| OrderController.MarkBooks | backend/controllers/orderController.js:104 | Marking every line keeps the set of stored books, and changes only their transaction fields. |
| OrderController.MarkBooksUntouched | backend/controllers/orderController.js:104 | A book no line names is left exactly as it was. |
| OrderController.MarkBooksTouched | backend/controllers/orderController.js:104 | A book some line names is no longer available, and the order is its current transaction. Availability is not checked again at checkout. |
| OrderController.LastLineDecides | backend/controllers/orderController.js:104 | When a book appears on several lines, the last one decides whether it is rented or sold. |
| OrderController.RelistKeepsValid | backend/controllers/orderController.js:89-104 | Changing only the books' transaction fields keeps the store invariant. |
| OrderController.NewOrderKeepsValid | backend/controllers/orderController.js:69-75 | Storing a valid new order under the counter keeps the store invariant. |
| OrderController.DropCartKeepsValid | backend/controllers/orderController.js:106 | Deleting a cart keeps the store invariant. |
| OrderController.CreateOrderSpec | backend/controllers/orderController.js:8-114 | No cart, or an empty one, gives 400 "No items in cart". Every failure leaves the database unchanged. A success implies a non-empty cart. |
| OrderController.PlacedOrder | backend/controllers/orderController.js:21-75 | A placed order takes the counter as its id and belongs to the user. It has one line per cart item, each the line built from that item. Its amount is the cart's `totalAmount`. It is pending, unrated, with payment pending, and its lines are valid. |
| OrderController.PlacedOrderStored | backend/controllers/orderController.js:69-106 | After checkout the database holds the new order and the marked books, the cart is gone and the counter has moved on. Nothing else changes. |
| OrderController.OrderTotalIsCartTotal | backend/controllers/orderController.js:72 | The order's amount is the fold of the cart items it was made from (backend1/models/Cart.js:57-66). |
| OrderController.CreateOrderKeepsValid | backend/controllers/orderController.js:8-114 | Checkout keeps the store invariant. |
| OrderController.CreateOrder | backend/controllers/orderController.js:8-114 | The method's response and new database are those of `CreateOrderSpec`. |
| OrderController.CheckoutRefused | backend/controllers/orderController.js:69-75 | Once the lines are built, an order document that fails validation is the response and nothing is written. |
| OrderController.CheckoutResponse | backend/controllers/orderController.js:69-75 | A valid order document is the response. |
| OrderController.CheckoutWrites | backend/controllers/orderController.js:69-106 | Then it is stored, its books are marked, the cart is deleted and the counter moves on. |
| OrderController.PlaceOrder | backend/controllers/orderController.js:69-106 | The method answers `Order.create` of the lines and the cart's amount. On failure nothing changes. On success the order is stored, the books marked and the cart deleted. |
| OrderController.BuildLines | backend/controllers/orderController.js:21-67 | Building the lines one by one gives all of them, or the failure of the first item that throws. |
| OrderController.MarkOrderedBooks | backend/controllers/orderController.js:89-104 | The method changes only the books, and they become what `MarkBooks` gives. |
| OrderController.GetOrder | backend/controllers/orderController.js:153-169 | `getOrder` finds an order exactly when it exists and belongs to the caller. Otherwise the answer is 404 "Order not found". On a valid store it returns the stored order under its own id. |
| OrderController.UpdateStatusSpec | backend/controllers/orderController.js:171-198 | A status outside pending, processing, shipped, delivered and cancelled gives 400, and an unknown order 404. Failures change nothing. A success changes only that order's status, to the requested one. |
| OrderController.ProcessingNeverSaved | backend/controllers/orderController.js:176-187 | `processing` passes the controller's list but not the schema's enumeration (backend/models/Order.js:58). That update always fails validation on `status` and changes nothing. |
| OrderController.AnyStatusMayFollow | backend/controllers/orderController.js:176-187 | There is no transition check: a stored valid order that was delivered can go back to pending. |
| OrderController.UpdateStatusKeepsValid | backend/controllers/orderController.js:171-198 | The status update keeps the store invariant. |
| OrderController.UpdateOrderStatus | backend/controllers/orderController.js:171-198 | The method's response and new database are those of `UpdateStatusSpec`. |
| OrderController.FindRental | backend/controllers/orderController.js:208-210 | The search finds the first rent line for the book, and finds nothing exactly when the order has none. |
| OrderController.ReturnBook | backend/controllers/orderController.js:217-221 | The book, if stored, becomes available with no transaction and no rental info. Every other book is unchanged, and a missing book stays missing. |
| OrderController.CompleteRentalSpec | backend/controllers/orderController.js:200-231 | An unknown order gives 404 "Order not found", and an order without a rent line for the book 404 "Rental item not found". Otherwise the book is returned and the line is marked completed. The order is saved only when it is still valid, but the book stays returned either way. A success answers "Rental completed successfully". |
| OrderController.CompletedRentalIsAvailable | backend/controllers/orderController.js:217-221 | After a completed rental the book is available, with no transaction and no rental info. |
| OrderController.RentThenReturn | backend/controllers/orderController.js:89-101 | Renting an available book at checkout makes it rented. Completing the rental gives back exactly the book as it was before checkout (backend/controllers/orderController.js:217-221). |
| OrderController.CompleteRentalKeepsValid | backend/controllers/orderController.js:200-231 | Completing a rental keeps the store invariant. |
| OrderController.CompleteRental | backend/controllers/orderController.js:200-231 | The method's response and new database are those of `CompleteRentalSpec`. |
| BookSchema.ParseGenre | backend/models/Book.js:22-42 | A genre is accepted exactly when it is one of the 15 listed names, and it parses back to that name. |
| BookSchema.GenreNameParses | backend/models/Book.js:22-42 | Every genre's name is listed and parses back to that genre. |
| BookSchema.ParseUploaderType | backend/models/Book.js:55-59 | An uploader type is accepted exactly when it is `User` or `Publisher`, case included. |
| BookSchema.ParseStatus | backend/models/Book.js:74-78 | A status is accepted exactly when it is `available`, `rented` or `sold`. Only `available` means available. |
| BookSchema.ParseListingType | backend/models/Book.js:79-83 | A listing type is accepted exactly when it is `sale`, `lease` or `both`. |
| BookSchema.FailingPaths | backend/models/Book.js:3-117 | A path is reported exactly when it is one of the paths checked and it fails its rule. |
| BookSchema.BookDocErrors | backend/models/Book.js:3-117 | The error lists exactly the failing paths of the input. |
| BookSchema.AllPathsListed | backend/models/Book.js:3-117 | The paths validated are all the paths with a rule. |
| BookSchema.PublisherNeverRequired | backend/models/Book.js:43-49 | `publisher` is never the reason a book is refused. The condition compares with the lower-case `publisher`, which the `uploaderType` enum already refuses. |
| BookSchema.PassesEveryPath | backend/models/Book.js:3-117 | The schema accepts an input exactly when no path fails. |
| BookSchema.CreateBook | backend/models/Book.js:3-117 | `Book.create` succeeds exactly when no path fails its `required`, `enum`, `min` or `max` rule. A failure is a validation error listing every failing path. |
| BookSchema.CreatedBook | backend/models/Book.js:64-116 | A created book is valid, has the given id and no rental info, and keeps the uploader, uploader type and publisher it was given. It takes the defaults for what the input leaves out: status available, rating 0, `minDuration` 1 and `createdAt` now. |
| BookSchema.PassesUnfolded | backend/models/Book.js:3-117 | An accepted input has non-blank isbn, title and author and a non-empty description. Its rating, if given, is in [0, 5]. A sale or both listing has a sale price. A lease or both listing has a `perDay` price and lease terms. |
| BookSchema.CastValid | backend/models/Book.js:3-117 | An accepted input builds a valid book: the trimmed required strings are present, the rating is in [0, 5], and the listing type's price and lease terms are there. |
| BookSchema.CastValidText | backend/models/Book.js:4-63 | The book's isbn, title and author are present and trimmed, and its description is present. |
| BookSchema.CastValidOffer | backend/models/Book.js:64-112 | The book's rating is in [0, 5]. It has the prices and lease terms its listing type requires. |
| BookSchema.NamesParse | backend/models/Book.js:22-83 | The genre, uploader type, status and listing type of a stored book parse back from their names. |
| BookSchema.ToInputPasses | backend/models/Book.js:3-117 | The fields of a valid book pass every path of the schema. |
| BookSchema.ToInputCasts | backend/models/Book.js:3-117 | Casting a valid book's own fields gives that book back. |
| BookSchema.CreateBookRoundTrip | backend/models/Book.js:3-117 | Every valid book not in a transaction is exactly what `Book.create` builds from its own fields. The validation accepts it, and the trim setters and defaults change nothing. |
| BookController.Stamp | backend1/controllers/bookController.js:19-27 | The caller becomes the uploader. The uploader type is `Publisher` for a publisher and `User` otherwise. The publisher is the caller for a publisher and the body's publisher otherwise. The body's other fields are kept. |
| BookController.Isbns | backend/models/Book.js:4-9 | The isbn index holds the isbn of every stored book. |
| BookController.AddBookSpec | backend1/controllers/bookController.js:6-44 | An unparsable `bookData` gives 400 "Invalid book data format". A body that fails the schema gives that validation error, and a taken isbn gives a duplicate-key error. Failures change nothing. The add succeeds exactly when the stamped body passes and its isbn is free, and then the book is stored under the counter. |
| BookController.AddBookStamps | backend1/controllers/bookController.js:19-36 | The stored book names the caller as uploader. It is a Publisher upload exactly when the caller is a publisher, whatever the body says. Its publisher is the caller in that case and the body's publisher otherwise. |
| BookController.AddBookKeepsValid | backend1/controllers/bookController.js:6-44 | Adding a book keeps the store invariant and the isbn index unique. |
| BookController.InsertFreshKeepsValid | backend1/controllers/bookController.js:36 | Storing a valid book under the counter, with an isbn no stored book has, keeps the store invariant and the isbn index unique. |
| BookController.AddBook | backend1/controllers/bookController.js:6-44 | The method's response and new database are those of `AddBookSpec`. |
| BookController.BulkDocs | backend1/controllers/bookController.js:51-58 | There is one document per input book, in order. Each is stamped with the publisher and numbered from the counter. |
| BookController.InsertOrdered | backend1/controllers/bookController.js:58 | An ordered `insertMany` stops only on a taken isbn, and reports that as a duplicate-key error. |
| BookController.InsertOneKeepsIsbns | backend1/controllers/bookController.js:58 | Inserting a document whose isbn is not taken keeps the isbn index unique. |
| BookController.FreshIdsTail | backend1/controllers/bookController.js:58 | Once the first document is stored, the rest still have fresh, distinct ids. |
| BookController.InsertOrderedSpec | backend1/controllers/bookController.js:58 | An ordered insert keeps every stored book. It adds only documents of the batch, under their own ids, and all of them when it succeeds. It keeps the isbn index unique. |
| BookController.BulkAddSpec | backend1/controllers/bookController.js:46-66 | A caller who is not a publisher gets 403 "Only publishers can use bulk upload". A body without `books` throws a `TypeError`. A batch with an invalid document gives that document's validation error. All three change nothing. A success returns one book per input. |
| BookController.BulkAddStamps | backend1/controllers/bookController.js:51-58 | A successful batch stores every book under consecutive new ids, each with the publisher as uploader and publisher and uploader type `Publisher`. The books already stored stay as they were. |
| BookController.InsertBatchStoresAll | backend1/controllers/bookController.js:58 | A batch the ordered insert takes whole is stored under its ids, next to the books already there. |
| BookController.BulkIdsFresh | backend1/controllers/bookController.js:58 | Documents numbered from the counter have fresh, distinct ids. |
| BookController.BulkAddKeepsValid | backend1/controllers/bookController.js:46-66 | A batch keeps the store invariant and the isbn index unique, whether it is inserted whole, in part or not at all. |
| BookController.InsertBatchKeepsValid | backend1/controllers/bookController.js:58 | However far the ordered insert gets, it keeps the store invariant and the isbn index unique. |
| BookController.StoppedAtStep | backend1/controllers/bookController.js:58 | Storing the first document and then the first `i` of the rest means the first `i + 1` documents are stored and none after them. |
| BookController.StoppedAtStart | backend1/controllers/bookController.js:58 | Before any document is inserted, the stored books hold none of a batch with fresh ids. |
| BookController.StopsAtStep | backend1/controllers/bookController.js:58 | An ordered insert of the rest that stops after `i` documents, once the first is stored, is an insert of the whole batch that stops after `i + 1`: the same documents stored, the same refusal, the same taken isbn. |
| BookController.InsertOrderedStops | backend1/controllers/bookController.js:58 | An ordered insert ends at some `i`. The result holds the stored books and exactly the first `i` documents, and none from `i` on. It is refused exactly when `i` is short of the end, and then document `i`'s isbn is among the books stored so far. |
| BookController.BulkDocsNumbered | backend1/controllers/bookController.js:51-56 | The documents of a validated batch are numbered from the counter. |
| BookController.BulkAddPartial | backend1/controllers/bookController.js:46-66 | A validated batch from a publisher changes only the books and moves the counter past the whole batch. It stores the documents before the first taken isbn and none from it on. It answers the duplicate-key error exactly when it stopped short. |
| BookController.BulkAddBooks | backend1/controllers/bookController.js:46-66 | The method's response and new database are those of `BulkAddSpec`. |
| BookController.Param | backend1/controllers/bookController.js:125-128 | A parameter is dropped exactly when it is absent or blank. Otherwise it is used trimmed. |
| BookController.ListingKinds | backend1/controllers/bookController.js:166-169 | `sale` stands for the listings that offer sale (`sale`, `both`) and `lease` for those that offer lease (`lease`, `both`). Any other word stands for exactly `both`. |
| BookController.MatchesConcat | backend1/controllers/bookController.js:129-176 | Joining two condition lists with `$and` matches exactly the books both match. |
| BookController.MatchesOne | backend1/controllers/bookController.js:129-176 | A one-condition list matches exactly the books that satisfy that condition. |
| BookController.SearchHit | backend1/controllers/bookController.js:133-138 | The search condition holds exactly when title, author, isbn or description contains the term, case aside. |
| BookController.SearchStepMatches | backend1/controllers/bookController.js:125-144 | The search step adds a condition exactly when the term is not blank, and then matches exactly the books whose fields contain it. |
| BookController.GenreStepMatches | backend1/controllers/bookController.js:147-159 | The genre step filters exactly when the trimmed genre is non-empty and not `all`, and then demands that genre exactly. |
| BookController.ListingStepMatches | backend1/controllers/bookController.js:162-179 | The listing-type step filters exactly when the trimmed type is non-empty and not `all`, and then demands one of the listing types that word stands for. |
| BookController.BuildFilter | backend1/controllers/bookController.js:114-179 | The filter built step by step matches a book exactly when the book is available and every parameter given wants it. It starts with the status condition and has at most four conditions. |
| BookController.FilterMeaning | backend1/controllers/bookController.js:114-179 | The status condition followed by the three steps matches exactly the wanted books. |
| BookController.MoreParametersFewerBooks | backend1/controllers/bookController.js:129-176 | The conditions are conjoined. A query that keeps every filtering parameter of another and may add more never shows more books. |
| BookController.AllFiltersNothing | backend1/controllers/bookController.js:125-179 | A blank search and `all` for genre and listing type show every available book. |
| BookController.CatalogOnlyAvailable | backend1/controllers/bookController.js:118-121 | Every book the catalogue shows is stored and available. |
| BookController.GetAllBooks | backend1/controllers/bookController.js:107-232 | `getAllBooks` returns exactly the books the filter wants, with the sort keys it picks. |
| BookController.SortToken | backend1/controllers/bookController.js:185 | The sort token is never empty: a missing or blank `sortBy` becomes `date_desc`. |
| BookController.SortSpec | backend1/controllers/bookController.js:185-205 | The sort has one or two keys, all in the same direction, which is 1 or -1. |
| BookController.OtherFieldsNewestFirst | backend1/controllers/bookController.js:189-205 | Every field but price, rating and popularity sorts newest first, `date_asc` included. |
| BookController.DefaultNewestFirst | backend1/controllers/bookController.js:185-191 | With no sort parameter, or a blank one, the newest books come first. |
| BookController.DateDescSplits | backend1/controllers/bookController.js:185-186 | The default token splits into the field `date` and the order `desc`. |
| BookController.DirectionOnlyFromDesc | backend1/controllers/bookController.js:187 | For price, rating and popularity the keys descend exactly when the order token is `desc`. |
| BookController.PriceKeyFromRawListingType | backend1/controllers/bookController.js:193-196 | The price sort uses `price.lease.perMonth` exactly when the raw, untrimmed listing-type parameter is `lease`, and `price.sale` otherwise. |
| BookController.BuildSort | backend1/controllers/bookController.js:185-205 | The sort object built by the default and the `switch` is `SortSpec`. |
| ReviewSchema.ReviewErrors | backend1/models/Review.js:4-34 | A new review produces no failing path exactly when its rating is in [1, 5], its trimmed text is non-empty and at most 500 characters, and its order type is `purchase` or `rent`. |
| ReviewSchema.TrimmedTextValid | backend1/models/Review.js:21-26 | A non-blank text whose trimmed form fits is stored trimmed, non-empty and within 500 characters. |
| ReviewSchema.CreateReviewDoc | backend1/models/Review.js:4-34 | `Review.create` succeeds exactly when the rating, text and order type pass. A failure lists the failing paths. A success is a valid review carrying exactly the given user, book, rating, trimmed text and order type, stamped with the creation time. |
| ReviewSchema.ForBook | backend1/models/Review.js:44 | `$match: { book }` keeps exactly the reviews of that book. |
| ReviewSchema.RatingSumBounds | backend1/models/Review.js:15-20 | Valid ratings sum to between one and five times their number. |
| ReviewSchema.BookStats | backend1/models/Review.js:42-55 | The aggregation has no row exactly when no review is of the book. Otherwise its count is the number of the book's reviews, which is positive, and its average is their rating sum over that count. |
| ReviewSchema.QuotientInRange | backend1/models/Review.js:49 | A sum between one and five times a positive count, divided by the count, lies in [1, 5]. |
| ReviewSchema.AverageInRange | backend1/models/Review.js:40-61 | When every review is valid, the average the hook writes lies in [1, 5], inside the book schema's [0, 5]. |
| ReviewSchema.PrependNewest | backend1/controllers/reviewController.js:45 | A review no older than any of a newest-first list can go in front of it. |
| ReviewSchema.Insert | backend1/controllers/reviewController.js:45 | Inserting a review into a newest-first list keeps it newest first, and adds exactly that review. |
| ReviewSchema.SortNewestFirst | backend1/controllers/reviewController.js:45 | The sort gives a newest-first permutation of the reviews. |
| ReviewSchema.BookReviews | backend1/controllers/reviewController.js:43-45 | `Review.find({ book }).sort('-createdAt')` gives exactly the book's reviews, each as often as stored, newest first. |
| ReviewSchema.AppendKeepsUnique | backend1/models/Review.js:37 | Appending a review for a (user, book) pair that has none keeps the pairs unique. |
| ReviewController.WithStats | backend1/models/Review.js:56-59 | The hook writes the average and the count onto the book, and changes nothing else of it. |
| ReviewController.PostSave | backend1/models/Review.js:40-61 | The hook never changes the reviews. With no row the book is left unchanged. With a row and no stored book it throws a `TypeError`. |
| ReviewController.CreateReviewSpec | backend1/controllers/reviewController.js:8-38 | Without a delivered order of the user that has an item for the book and an item of the order type (possibly different items), the answer is 403 and nothing changes. An invalid review gives its validation error and changes nothing. A second review for the same pair fails and changes nothing. Only a qualifying, valid, first review is stored, appended under the counter, and a success returns it. |
| ReviewController.ForBookAppend | backend1/models/Review.js:44 | Appending a review adds it to its own book's share of the reviews and to no other. |
| ReviewController.StatsAfterCreate | backend1/models/Review.js:40-61 | After a successful review, the book's count is one more than before and equals its number of reviews. Its rating is the mean of those reviews' ratings. Every other book is unchanged. |
| ReviewController.MissingBookStillSaves | backend1/models/Review.js:40-61 | A review of a book that is no longer stored fails the request with a `TypeError`, yet the review stays stored. |
| ReviewController.SecondReviewRefused | backend1/models/Review.js:37 | Once a review for a (user, book) pair is stored, a second one for that pair is refused, whatever it says, and changes nothing. |
| ReviewController.WithStatsKeepsValid | backend1/models/Review.js:55-60 | Writing the aggregation onto a book keeps the store invariant. |
| ReviewController.StatsKeepBookValid | backend1/models/Review.js:56-59 | An average in [1, 5] written onto a valid book keeps it valid. |
| ReviewController.AppendReviewKeepsValid | backend1/models/Review.js:37 | Storing a valid review under the counter, for a pair without one, keeps the store invariant. |
| ReviewController.CreateReviewKeepsValid | backend1/controllers/reviewController.js:8-38 | Creating a review keeps the store invariant. |
| ReviewController.CreateReview | backend1/controllers/reviewController.js:8-38 | The method's response and new database are those of `CreateReviewSpec`. |
| ReviewController.GetBookReviews | backend1/controllers/reviewController.js:40-54 | `getBookReviews` returns exactly the book's reviews, each as often as stored, newest first. |
| ReviewController.FindReview | backend1/controllers/reviewController.js:59-63 | The lookup finds the first review with that id written by that user, and finds nothing exactly when there is none. |
| ReviewController.UpdateErrors | backend1/controllers/reviewController.js:64-67 | The update validators pass exactly when a given rating is in [1, 5] and a given text trims to a non-empty text of at most 500 characters. |
| ReviewController.Patch | backend1/controllers/reviewController.js:64 | The update sets only the rating and the text that were given, the text trimmed. Id, user, book, order type and creation time stay. |
| ReviewController.UpdateReviewSpec | backend1/controllers/reviewController.js:56-81 | Invalid values give a validation error. A review not matching both id and user gives 404 "Review not found". Failures change nothing. A success replaces exactly that review by its patch. |
| ReviewController.UpdateOnlyTarget | backend1/controllers/reviewController.js:59-73 | An update changes only the targeted review. No other review, no book and no other collection changes, so the book's average is not refreshed. |
| ReviewController.UpdateReviewKeepsValid | backend1/controllers/reviewController.js:56-81 | The update keeps the store invariant. |
| ReviewController.UpdateReview | backend1/controllers/reviewController.js:56-81 | The method's response and new database are those of `UpdateReviewSpec`. |
| ReviewController.RemoveAt | backend1/controllers/reviewController.js:84-87 | Deleting one review keeps the others, in order, and removes exactly that one. |
| ReviewController.DeleteReviewSpec | backend1/controllers/reviewController.js:83-97 | The answer is 404 with no change exactly when no review matches both id and user. Otherwise exactly that review is removed, and the book's average is not refreshed. |
| ReviewController.RemoveAtKeepsReviews | backend1/models/Review.js:37 | Removing a review keeps the rest valid, their pairs unique and their ids below the counter. No review with the removed pair remains. |
| ReviewController.DeleteReviewKeepsValid | backend1/controllers/reviewController.js:83-97 | Deleting keeps the store invariant and frees the pair, so the user may review that book again. |
| ReviewController.DeleteReview | backend1/controllers/reviewController.js:83-97 | The method's response and new database are those of `DeleteReviewSpec`. |
| UserController.PutIf | backend1/controllers/userController.js:30 | A present string field is stored under its key. An absent one leaves the document as it was. |
| UserController.SignupFields | backend1/controllers/userController.js:30 | `User.create(req.body)` stores the body's email and phone as given. |
| UserController.DuplicateMessage | backend1/controllers/userController.js:21-28 | The duplicate branch answers "Email already registered" exactly when the account found has the requested email, and the phone message otherwise. |
| UserController.RegisterSpec | backend1/controllers/userController.js:16-30 | Once the body is valid, the sign-up succeeds exactly when no user has the email or the phone. It then appends the new account under the counter. A failure changes nothing. |
| UserController.SignupSpec | backend1/controllers/userController.js:8-54 | An invalid body gives 400 with the validation errors joined by ", ". A failure changes nothing. A success implies a valid body whose email and phone no user has, and appends the new account. |
| UserController.PresentWhenValid | backend1/controllers/userController.js:11-14 | A body that passes validation carries every required field. |
| UserController.SignupKeepsUnique | backend1/controllers/userController.js:16-30 | Sign-up never registers an email or a phone number twice. |
| UserController.DuplicateReportsWhatMatched | backend1/controllers/userController.js:21-28 | "Phone number already registered" is reported only when some user has that phone but another email. |
| UserController.Signup | backend1/controllers/userController.js:8-54 | The method's response and new database are those of `SignupSpec`. |
| UserController.Register | backend1/controllers/userController.js:16-30 | The method's response and new database are those of `RegisterSpec`. |
| UserController.WithoutPassword | backend1/controllers/userController.js:98 | `select('-password')` drops exactly the password and keeps every other field. |
| UserController.PlainUpdates | backend1/controllers/userController.js:91-98 | The plain part of the update holds exactly the top-level keys that are not operators and have primitive values, with those values. |
| UserController.CastUpdate | backend1/controllers/userController.js:91-98 | The fields the update writes are the plain keys and the fields named in `$set`. A plain key wins over a `$set` entry of the same name. |
| UserController.UpdateProfileSpec | backend1/controllers/userController.js:77-113 | A body with a top-level `password`, `role` or `email` key gives 400 "Cannot update restricted fields". Otherwise an unknown user gives 404. Failures change nothing. A success writes the fields of the cast update over the user's and returns the account without its password. |
| UserController.ProfileRestrictedFields | backend1/controllers/userController.js:80-98 | After a successful update, a restricted field named in `$set` holds the `$set` value. Any other restricted field is as it was. Every other account is as it was. |
| UserController.SetBypassesRestriction | backend1/controllers/userController.js:80-98 | The body `{"$set": {"role": "admin"}}` passes the check as written, and the reader's role becomes "admin". |
| UserController.CorrectedUpdateProfileSpec | backend1/controllers/userController.js:80-88 | The corrected check refuses with 400 when a restricted field is a top-level key or among the fields the update writes. Otherwise it answers as `UpdateProfileSpec`. |
| UserController.CorrectedKeepsRestricted | backend1/controllers/userController.js:80-98 | With the corrected check, a successful update leaves the password, role and email, and every other account, as they were. |
| UserController.UpdateProfile | backend1/controllers/userController.js:77-113 | The method's response and new database are those of `UpdateProfileSpec`. |
| UserController.Round | backend1/controllers/userController.js:175 | `Math.round` gives the nearest integer, halves rounded up. |
| UserController.NewScore | backend1/controllers/userController.js:173-175 | The new score is `(score * count + rating) / (count + 1)` rounded to the nearest integer, halves up. |
| UserController.QuotientBounds | backend1/controllers/userController.js:175 | A number in [0, 100 d] divided by a positive d lies in [0, 100]. |
| UserController.ScoreInRange | backend1/controllers/userController.js:173-175 | A score and a rating in [0, 100] give a new score in [0, 100]. |
| UserController.MulBounds | backend1/controllers/userController.js:175 | A score in [0, 100] times a count lies in [0, 100 * count]. |
| UserController.SameRatingKeepsScore | backend1/controllers/userController.js:175 | Rating a seller with the score they already have leaves the score as it is. |
| UserController.RateGate | backend1/controllers/userController.js:122-171 | A falsy rating (0 included) or order id gives 400 "Rating and orderId are required". An order that is not the caller's, not delivered or already rated gives 400 "Invalid order or already rated". A seller who uploaded none of its books gives 400 "Uploader not found in this order". A missing seller gives 404 "Seller not found". Rating may proceed exactly past these four checks. |
| UserController.Rated | backend1/controllers/userController.js:173-182 | The seller's score becomes the new score and the count goes up by one. A missing score or count counts as 0. |
| UserController.RateSpec | backend1/controllers/userController.js:115-197 | A refused rating gives the check's error and changes nothing. A success answers "Rating submitted successfully". It updates the seller's score and count, and marks the order rated with that rating. Nothing else changes. A rating that passes the check always succeeds. |
| UserController.ZeroRatingRefused | backend1/controllers/userController.js:125-127 | A rating of 0 is refused outright, whatever the order. |
| UserController.RateOnce | backend1/controllers/userController.js:130-149 | After a successful rating, a second rating on the same order, of any seller, is refused with "Invalid order or already rated" and changes nothing. |
| UserController.RateKeepsValid | backend1/controllers/userController.js:178-187 | Rating keeps the store invariant. The order's items are untouched. |
| UserController.RatedSellerInRange | backend1/controllers/userController.js:173-182 | A seller with a score in [0, 100], rated within [0, 100], keeps a score in [0, 100] and has one more rating. |
| UserController.RateUser | backend1/controllers/userController.js:115-197 | The method's response and new database are those of `RateSpec`. |
| PublisherController.CastEmail | backend1/models/Publisher.js:6-12 | The `lowercase` and `trim` setters never lengthen an email. |
| PublisherController.PublisherDoc | backend1/controllers/publisherController.js:27 | The stored publisher has the new id, the email lowercased and trimmed, the name trimmed and the password replaced by its hash. `confirmPassword` is not stored. |
| PublisherController.PresentWhenValid | backend1/controllers/publisherController.js:8-11 | A body that passes validation carries every required field. |
| PublisherController.DuplicateMessageAsWritten | backend1/controllers/publisherController.js:18-25 | The duplicate branch as written answers "Email already registered" exactly when the publisher found holds the email exactly as it came in the request, and "Publisher name already exists" otherwise. |
| PublisherController.DuplicateMessage | backend1/controllers/publisherController.js:18-25 | The corrected branch answers "Email already registered" exactly when the publisher found holds the email as the query matched it, lowercased and trimmed. |
| PublisherController.NameBlamedOnlyWhenNameMatches | backend1/controllers/publisherController.js:13-25 | With that comparison, "Publisher name already exists" is given only when the name matched and the email did not. |
| PublisherController.CastEmailExample | backend1/models/Publisher.js:6-12 | "A@b.co" is stored and queried as "a@b.co". |
| PublisherController.RegisteredFoundByCastEmail | backend1/controllers/publisherController.js:13-16 | A publisher stored as "a@b.co" is found by a sign-up with "A@b.co". |
| PublisherController.OtherIsTrimmed | backend1/models/Publisher.js:19-25 | A name without surrounding blanks is stored as given. |
| PublisherController.AsWrittenMissesTheEmail | backend1/controllers/publisherController.js:18-25 | The source's comparison of the stored email with the raw request email says the name exists for that publisher. |
| PublisherController.NameBlamedForCaseOfEmail | backend1/controllers/publisherController.js:13-25 | The source blames the publisher name when only the email matched, differing from the stored one in case. |
| PublisherController.RegisterSpec | backend1/controllers/publisherController.js:13-27 | Once the body is valid, the sign-up succeeds exactly when no publisher has the email or the name. It then appends the new document under the counter. A duplicate gives 400 with the message the branch computes as written and changes nothing. |
| PublisherController.SignupSpec | backend1/controllers/publisherController.js:6-51 | An invalid body gives 400 with the validation errors joined by ", ". A valid body found as a duplicate gives 400 with the message the branch computes as written. A valid body with no duplicate succeeds. A failure changes nothing. A success implies a valid body whose email and name no publisher has, and appends the new document. |
| PublisherController.SignupKeepsUnique | backend1/models/Publisher.js:6-25 | Sign-up keeps the email and the publisher name unique among publishers. |
| PublisherController.Signup | backend1/controllers/publisherController.js:6-51 | The method's response and new database are those of `SignupSpec`. |
| PublisherController.Register | backend1/controllers/publisherController.js:13-27 | The method's response and new database are those of `RegisterSpec`. |
| PublisherController.Allowed | backend1/controllers/publisherController.js:99-110 | The update holds exactly the five whitelisted keys the body defines, with the body's values. |
| PublisherController.AllowedUpdates | backend1/controllers/publisherController.js:99-110 | The loop that deletes the undefined keys builds exactly `Allowed(body)`. |
| PublisherController.Profile | backend1/controllers/publisherController.js:125-138 | The returned profile keeps the listed keys the account has, and never the password. |
| PublisherController.UpdateProfileSpec | backend1/controllers/publisherController.js:83-123 | A body with `email`, `publisherName`, `password` or `role` gives 400 "Cannot update restricted fields (email, publisherName, password, role)". Otherwise an unknown publisher gives 404 "Publisher not found". Failures change nothing. A success merges the allowed update into the caller's document and returns its profile. |
| PublisherController.ProfileChangesOnlyAllowed | backend1/controllers/publisherController.js:99-119 | A field outside the defined whitelisted ones keeps its presence and value, and every other publisher is untouched. |
| PublisherController.ProfileWritesAllowed | backend1/controllers/publisherController.js:99-119 | A whitelisted field the body defines is written with the body's value. |
| PublisherController.UpdateProfile | backend1/controllers/publisherController.js:83-143 | The method's response and new database are those of `UpdateProfileSpec`. |
| Validators.IndexOf | backend1/utils/validators.js:20 | The first occurrence of a character, or the length when it does not occur. |
| Validators.EmailTestIsPattern | backend1/utils/validators.js:20 | The scan that tests an email accepts exactly the language of `/^[^\s@]+@[^\s@]+\.[^\s@]+$/`. |
| Validators.EmailValidator | backend1/utils/validators.js:18-27 | An email is valid exactly when it matches the pattern, and exactly then the message is empty. |
| Validators.PasswordValidator | backend1/utils/validators.js:29-77 | A falsy password gives "Password is required". Otherwise it is valid exactly when it passes every rule, and the message lists the failed rules joined by ", ". |
| Validators.PasswordMessageExplains | backend1/utils/validators.js:29-77 | A rejected password always comes with a message. |
| Validators.PhoneValidator | backend1/utils/validators.js:79-86 | A phone number is valid exactly when it matches the phone pattern. |
| Validators.ZipcodeValidator | backend1/utils/validators.js:88-95 | A zipcode is valid exactly when it is 5 or 6 digits. |
| Validators.NameValidator | backend1/utils/validators.js:97-105 | A name is valid exactly when it is present with at least 2 characters once trimmed. Otherwise the message names the field. |
| Validators.AddressValidator | backend1/utils/validators.js:107-115 | An address is valid exactly when it has at least 5 characters once trimmed. |
| Validators.IsbnValidator | backend1/utils/validators.js:118-129 | An ISBN is valid exactly when it matches the ISBN pattern. |
| Validators.AuthorValidator | backend1/utils/validators.js:131-139 | An author is valid exactly when it has at least 2 characters once trimmed. |
| Validators.GenreValidator | backend1/utils/validators.js:141-159 | A genre is valid exactly when it is one of the fifteen listed. |
| Validators.DescriptionValidator | backend1/utils/validators.js:188-196 | A description is valid exactly when it has at least 10 characters once trimmed. |
| Validators.ConditionValidator | backend1/utils/validators.js:226-240 | A condition is valid exactly when it is one of the five listed. |
| Validators.PriceValidator | backend1/utils/validators.js:161-186 | A lease listing without `price.lease` throws. Otherwise the price is valid exactly when a sale listing has a positive sale price and a lease listing has a positive monthly price and consistent durations. |
| Validators.ZeroMinDurationAccepted | backend1/utils/validators.js:173-179 | A minimum duration of 0 is not flagged, since 0 is falsy. |
| Validators.LeaseTermsValidator | backend1/utils/validators.js:198-224 | Listings that are not for lease always pass. For lease listings the terms are valid exactly when present with at least 20 characters once trimmed, and the trimmed terms are handed on. |
| Validators.RequiredErrorsEmptyIff | backend1/utils/validators.js:264-269 | The required-field loop reports nothing exactly when every field is truthy. |
| Validators.RequiredErrorsAreRequired | backend1/utils/validators.js:264-269 | Each message it reports is the capitalised "X is required" of a falsy field. |
| Validators.CollectRequired | backend1/utils/validators.js:264-269 | The loop collects exactly the required-field messages, in field order. |
| Validators.FailuresEmptyIff | backend1/utils/validators.js:284-288 | The validations loop reports nothing exactly when every check passes. |
| Validators.FailuresAppend | backend1/utils/validators.js:284-288 | The failures of two lists of checks are those of each, in order. |
| Validators.CollectFailures | backend1/utils/validators.js:284-288 | The loop collects exactly the messages of the failed checks, in order. |
| Validators.CompleteUserValidation | backend1/utils/validators.js:275-297 | With every field present, the input is valid exactly when no error is reported. |
| Validators.ValidateUserInput | backend1/utils/validators.js:243-298 | The method returns what `UserValidation` says. |
| Validators.UserMissingOnlyRequired | backend1/utils/validators.js:271-273 | A missing field makes the input invalid with only the "X is required" messages. |
| Validators.UserValidIff | backend1/utils/validators.js:243-298 | A complete input is valid exactly when the email, password, name, address, zipcode and phone pass and the passwords match. |
| Validators.UserNoneMissing | backend1/utils/validators.js:264-269 | With every field present, the loop reports nothing. |
| Validators.CompleteUserValidIff | backend1/utils/validators.js:275-297 | The format stage fails exactly when one of the six checks fails or the passwords differ. |
| Validators.CompletePublisherValidation | backend1/utils/validators.js:331-353 | With every field present, the input is valid exactly when no error is reported. |
| Validators.ValidatePublisherInput | backend1/utils/validators.js:300-354 | The method returns what `PublisherValidation` says. |
| Validators.PublisherValidIff | backend1/utils/validators.js:300-354 | A complete input is valid exactly when the email, password, publisher name, address, zipcode and office contact pass and the passwords match. |
| Validators.PublisherNoneMissing | backend1/utils/validators.js:311-325 | With every field present, the loop reports nothing. |
| Validators.CompletePublisherValidIff | backend1/utils/validators.js:331-353 | The format stage fails exactly when one of the six checks fails or the passwords differ. |
| Validators.ValidateBookInput | backend1/utils/validators.js:357-443 | The method returns what `BookValidationOf` says. |
| Validators.FieldChecksIff | backend1/utils/validators.js:414-420 | The five field checks pass exactly when the ISBN, author, chosen genre, description and condition are all acceptable. |
| Validators.PriceChecksIff | backend1/utils/validators.js:422-425 | The price check passes exactly when there is no price or the price is valid for the listing type. |
| Validators.LeaseChecksIff | backend1/utils/validators.js:427-430 | The lease-terms check passes exactly when the listing is not for lease or has terms of at least 20 trimmed characters. |
| Validators.BookChecksIff | backend1/utils/validators.js:414-436 | The `validations` array has no failure exactly when all three groups of checks pass. |
| Validators.BookValidationIsChecks | backend1/utils/validators.js:401-442 | A book that reaches the field checks is valid exactly when they all pass, and the data handed on carries the genre that was checked. |
| Validators.EmptyGenreArrayAlone | backend1/utils/validators.js:402-406 | An empty genre array is reported alone, as "At least one genre must be selected". |
| Validators.PerBook | backend1/utils/validators.js:455-460 | There is one outcome per book. |
| Validators.ValidateBulkBooksInput | backend1/utils/validators.js:446-466 | The method returns what `BulkValidation` says. |
| Validators.BulkStep | backend1/utils/validators.js:455-460 | Each book adds its own report to the errors so far. |
| Validators.BulkStepFails | backend1/utils/validators.js:455-460 | A book whose validation throws makes the whole upload throw with its error. |
| Validators.PrefixFailureStays | backend1/utils/validators.js:455-460 | Once a prefix throws, the whole list throws the same error. |
| Validators.BulkErrorsPerInvalidBook | backend1/utils/validators.js:455-465 | A bulk result means no book threw, and it is empty exactly when every book is valid. |
| Validators.BulkValidIff | backend1/utils/validators.js:446-466 | A non-empty upload is valid exactly when every book in it is valid. |
| Validators.FirstMissing | backend1/utils/validators.js:564-569 | No field is reported missing exactly when all of them are truthy. |
| Validators.ValidateBookOf | backend1/utils/validators.js:548-591 | A missing body or malformed JSON gives its own 400. The book data is passed on unchanged exactly when the five fields are truthy, the listing type is known, a sale listing has a sale price and a lease listing has lease details. Every failure is a 400. |
| Validators.ValidateBook | backend1/utils/validators.js:548-591 | The method returns what `ValidateBookOf` says. |
| LegacyValidators.LegacyPriceValidator | backend/utils/validators.js:150-175 | Reading a missing price, or a lease listing's missing `price.lease`, throws. A missing `price.lease` throws on reading `maxDuration`. Listings that are neither sale nor lease pass. Otherwise a sale listing needs a positive sale price, and a lease listing a positive price per day and consistent durations in days. |
| LegacyValidators.ZeroPerDayRejected | backend/utils/validators.js:157-160 | A lease price of 0 per day is rejected. |
| LegacyValidators.LegacyValidateBookInput | backend/utils/validators.js:302-361 | The method returns what `LegacyBookValidation` says. |
| LegacyValidators.LegacyRequiredPasses | backend/utils/validators.js:315-324 | A book with its six required fields passes the required-field stage. |
| LegacyValidators.MissingPriceThrows | backend/utils/validators.js:336-344 | A complete book without a price throws for every accepted listing type. |
| LegacyValidators.ArrayGenreRejected | backend/utils/validators.js:125-148 | A genre array is never accepted, whatever it holds. |
| LegacyValidators.LegacyFieldChecksIff | backend/utils/validators.js:327-333 | The five field checks pass exactly when the ISBN, title, author, a genre string from the list and the description are acceptable. |
| LegacyValidators.OfferErrorsIff | backend/utils/validators.js:335-349 | No offer error is reported exactly when the listing type is known, the price is valid, and a lease listing has terms of at least 10 trimmed characters. |
| LegacyValidators.InvalidListingReportedFirst | backend/utils/validators.js:335-355 | An unknown listing type is the first message reported, before the price, lease-terms and field messages. |
| LegacyValidators.LegacyBookValidIff | backend/utils/validators.js:302-361 | A complete book is valid exactly when the offer checks and the field checks all pass. |
| LegacyValidators.LegacyPerBook | backend/utils/validators.js:373-378 | There is one outcome per book. |
| LegacyValidators.LegacyValidateBulkBooksInput | backend/utils/validators.js:364-384 | The method returns what `LegacyBulkValidation` says. |
| ClientHelpers.FirstChars | frontend1/src/utils/helpers.js:11-12 | Mapping each word to its first character and joining gives one character per non-empty word. An empty word's `undefined` is written as nothing. |
| ClientHelpers.FirstCharsConcat | frontend1/src/utils/helpers.js:11-12 | The first characters of two word lists are those of each list, in turn. |
| ClientHelpers.GetInitials | frontend1/src/utils/helpers.js:8-14 | There is one initial per non-empty space-separated word, and none is a lower-case letter. |
| ClientHelpers.ToUpperConcat | frontend1/src/utils/helpers.js:13 | Upper-casing distributes over concatenation. |
| ClientHelpers.InitialsConcat | frontend1/src/utils/helpers.js:8-14 | The initials of two parts joined by a space are the initials of each part, in turn. Extra spaces add nothing. |
| ClientHelpers.InitialOfWord | frontend1/src/utils/helpers.js:8-14 | A single word gives its first character, upper-cased. |
| ClientHelpers.FormErrorsMeaning | frontend1/src/utils/helpers.js:16-37 | A key is flagged exactly when it is a listed field that is missing, or a present but malformed email or phone. The format messages override "This field is required". |
| ClientHelpers.ValidIffNothingWrong | frontend1/src/utils/helpers.js:16-37 | The form is valid exactly when no listed field is missing and neither the email nor the phone is malformed. A field holding the number 0 counts as filled. |
| ClientHelpers.ValidateForm | frontend1/src/utils/helpers.js:16-37 | The loop and the two format checks build exactly `FormErrors`, and `isValid` holds exactly when it is empty. |
| ClientHelpers.GetErrorMessage | frontend1/src/utils/helpers.js:39-47 | The message is always truthy. It is the server's message, the error's own, or "Something went wrong". |
| ClientHelpers.MessagePriority | frontend1/src/utils/helpers.js:39-47 | A truthy server message wins. The error's own message is used only when the server sent none, and the default only when neither is truthy. |
| PublisherSignupForm.Guards | frontend1/src/components/auth/PublisherSignupForm.js:30-67 | The form runs nine guards. |
| PublisherSignupForm.FirstFailing | frontend1/src/components/auth/PublisherSignupForm.js:30-67 | Nothing is reported exactly when every guard passes. Otherwise the report is the message of a failing guard preceded only by passing ones. |
| PublisherSignupForm.FirstFailingAt | frontend1/src/components/auth/PublisherSignupForm.js:30-67 | The first failing guard is the one reported. |
| PublisherSignupForm.ReportsFirstFailure | frontend1/src/components/auth/PublisherSignupForm.js:30-67 | `validateForm` reports exactly the first failing guard, in the order the form lists them. |
| PublisherSignupForm.AcceptedIffAllPass | frontend1/src/components/auth/PublisherSignupForm.js:30-67 | The form is accepted exactly when the fields are filled, the passwords agree and have at least 8 characters, the name has at least 2 and the zipcode is 5 or 6 digits. |
| PublisherSignupForm.MismatchBeforeShort | frontend1/src/components/auth/PublisherSignupForm.js:43-50 | Two different passwords are reported as a mismatch even when both are too short. |
| PublisherSignupForm.Payload | frontend1/src/components/auth/PublisherSignupForm.js:81-89 | The submitted payload carries exactly the seven form fields. |
| PublisherSignupForm.PayloadRoundTrip | frontend1/src/components/auth/PublisherSignupForm.js:81-89 | Reading the fields back from the payload gives the form: nothing is lost or renamed. |
| Common.AllOf | backend/controllers/orderController.js:21-67 | Awaiting the per-item results in order gives every value when all succeed, and otherwise the error of the first that fails. |
| Common.AllOfStepFails | backend/controllers/orderController.js:21-67 | Once every earlier item succeeded, the first failing item decides the outcome. |
| Store.FindEither | backend1/controllers/userController.js:17-19 | `findOne` with `$or` finds the first account in insertion order that holds either value, and finds none exactly when no account holds either. |
| Store.AccountIndex | backend1/controllers/userController.js:161 | `findById` finds the account with that id, or none when no account has it. |
| Store.AppendKeepsUniqueField | backend1/models/Publisher.js:6-25 | Inserting an account whose value no other account holds keeps a `unique` index unique. |
| Text.Trim | backend1/utils/validators.js:98 | `trim()` never lengthens a string and leaves no whitespace at either end. |
| Text.TrimStartShape | backend1/utils/validators.js:98 | The start trim keeps a suffix that does not begin with whitespace, and everything it drops is whitespace. |
| Text.TrimEndShape | backend1/utils/validators.js:98 | The end trim keeps a prefix that does not end with whitespace, and everything it drops is whitespace. |
| Text.TrimDropsOnlyWhitespace | backend1/utils/validators.js:98 | `trim()` keeps one contiguous slice of the string, and every character before and after that slice is whitespace. |
| Text.TrimIdempotent | backend1/models/Publisher.js:19-25 | Trimming twice is trimming once. |
| Text.TrimEmptyIffBlank | backend1/utils/validators.js:98 | A string trims to nothing exactly when it is all whitespace. |
| Text.Capitalize | backend1/utils/validators.js:267 | Only the first character changes, upper-cased, and the length is kept. |
| Text.ToLower | backend1/models/Publisher.js:10 | The `lowercase` setter maps each character to its lower case, keeping the length. |
| Text.Split | frontend1/src/utils/helpers.js:10 | `split(' ')` always yields at least one piece. |
| Text.SplitPiecesOmitSeparator | frontend1/src/utils/helpers.js:10 | No piece contains the separator. |
| Text.SplitConcat | frontend1/src/utils/helpers.js:10 | Splitting around a separator splits each side on its own. |
| Text.JoinSplit | frontend1/src/utils/helpers.js:10 | Joining the pieces with the separator gives back the original string. |
| Text.NatToString | backend1/utils/validators.js:458 | The decimal text of an index is non-empty and all digits. |
| Text.NatToStringValue | backend1/utils/validators.js:458 | The decimal text of an index, read back digit by digit, is that index. |

## Left out

- backend1/models/Book.js is not part of this model. The `backend1` book controller is modelled against the book schema of `backend/models/Book.js`.
- The User and Publisher schemas are modelled only as far as the controllers depend on them: unique email and phone for users, unique lowercased email and trimmed publisher name for publishers. Accounts are otherwise open maps of fields.
- Password hashing in the Publisher schema's `pre('save')` hook (backend1/models/Publisher.js:50-54) is a parameter `hash`. The user sign-up stores the body's fields as given, `password` and `confirmPassword` included, because the User schema and any hook it has are not part of this model. Token issuing and cookies are not modelled.
- UserController.SignupFields: only the seven fields of the sign-up form are stored. `User.create(req.body)` would also pass on any other key of the body, `role` among them, wherever the User schema declares it. That schema is not part of this model.
- UserController.Rated: the stored `readersScore` and `totalRatings` are taken to be numbers, and the count a non-negative one, as the User schema with `runValidators` presumably enforces. `|| 0` would keep any truthy value, for example a negative count written through a profile update. The model reads a non-number, or a negative count, as 0.
- The Publisher schema's `required` checks after trimming (backend1/models/Publisher.js:6-44) are not modelled as a save failure. The sign-up validators refuse blank values first, except for `officeContact`, whose check is the uninterpreted phone pattern. A blank office contact that pattern accepted would be refused by the schema, and the model stores it.
- HTTP plumbing is not modelled: routes, authentication middleware, CORS and rate limiting. Each action takes the caller's id, and role where it matters, as parameters.
- The express-validator chains `validateCartItem`, `validateOrder` and `validateReview` are not modelled, because no controller of the core reads their result.
- Mongoose strict mode is not modelled. The controllers write `currentTransaction` and `rentalInfo` on books, `status` on order items, and the profile fields of publishers, none of which the schemas declare. The model keeps these writes as the controllers intend them.
- `populate`, `select` projections other than dropping the password, and the `Cache-Control` header are not modelled. Responses carry ids where the source would embed the referenced documents.
- BookController.GetAllBooks: it returns the set of matching ids and the chosen sort keys. The ordered list the database would return is not computed.
- `$regex` with option `i` is modelled as a literal case-insensitive substring match. Regular-expression metacharacters in a search term are not interpreted.
- The phone pattern of `phoneValidator` and the ISBN pattern of `isbnValidator` are uninterpreted predicates (`phonePattern`, `isbnPattern`). The email pattern, the zipcode pattern, the client `validateForm` patterns and the password rules are modelled exactly.
- Case mapping is ASCII only. JavaScript's Unicode `toUpperCase`/`toLowerCase`, and the UTF-16 lengths that `length` counts, are not modelled.
- Strings that JavaScript would coerce from numbers or other types are not modelled. Fields are typed as the source expects them, and a missing field is `None` or `Undefined`.
- Floating point is not modelled. Prices and dates are integers. The running average of `rateUser` is computed over reals and rounded with `Math.round`. The review average is kept as an exact real mean.
- `Promise.all` in `createOrder` and `rateUser` is modelled as writes in sequence. Races and partial failure are out of scope.
- UserController.RateSpec: the 500 "Failed to update rating" path, taken when a database write fails, is not modelled, because writes here always succeed.
- `JSON.parse` of `bookData` in `validateBook` is abstracted as a parsed, malformed or missing body (`RawBookData`).
- `getUserOrders` (a populated, sorted list) and `getProfile` (a lookup with the password dropped, as in `WithoutPassword`) are not modelled as separate actions.
- `formatCurrency`, `debounce` and every React component other than the publisher sign-up form are not modelled. In that form, `handleSubmit`'s network call, navigation and loading state are not modelled.
- Timestamps are the parameter `now`. `Date.now`, `new Date()` and the `timestamps` option are not modelled.
- Review statistics are not refreshed on update or delete. The source computes them only in `post('save')`, which `findOneAndUpdate` and `findOneAndDelete` do not fire. The model keeps that behaviour and does not add a refresh.
- `insertMany` in `bulkAddBooks` is modelled as Mongoose's default ordered mode. Every document is validated first, and any invalid one refuses the whole batch. Otherwise the documents are inserted in order until the first duplicate ISBN, and the ones inserted before it stay.
- BookController.BulkAddSpec: its own contract does not say how much of a batch is stored when an ISBN is taken. `BulkAddPartial` states it, over `InsertOrderedStops`.
- BookController.BulkAddBooks: its response and new database are those of `BulkAddSpec`, so the partial insert is stated by `BulkAddPartial` and not by the method's own contract.
- Update operators in the body of the reader's `updateProfile` other than `$set` (`$unset`, `$inc`, `$push` and the rest) are not modelled. Their keys are operators, so they are not written. A plain key or a `$set` entry holding a nested object is not written either, because account fields are primitives.
- `runValidators` on the reader's `updateProfile` is not modelled, because the User schema is not part of this model.
- The optional values of the model do not tell `null` from `undefined`. A body whose `books` is `null`, or a price that is `null`, would throw "Cannot read properties of null", and the model gives the `undefined` message.
- The order's `shippingAddress` and `paymentDetails` (backend/models/Order.js) are not carried in the model's order. Neither is required by the schema. `paymentMethod` is.
- CartSummary.CalculateTotal: its own contract states only the empty total. Its value for any cart is stated by `ClientTotalMatchesServer`.
- Text.Split: its own contract states only that there is at least one piece. What the pieces are is stated by `SplitPiecesOmitSeparator`, `SplitNoSeparator`, `SplitConcat` and `JoinSplit`.

## Findings

| source | as written | input that shows it | evidently intended | confidence | as-written member | corrected member |
|---|---|---|---|---|---|---|
| backend1/controllers/publisherController.js:13-25 | The duplicate branch compares the stored email, which the schema lowercased and trimmed, with the raw email of the request. An email that differs only in case found the duplicate, yet fails that comparison, so the name is blamed. | A publisher stored with email "a@b.co" and name "Acme". A sign-up with email "A@b.co" and name "Other" is told "Publisher name already exists". | Compare with the email after the schema's setters, so the email match is reported as "Email already registered". | not executed | PublisherController.NameBlamedForCaseOfEmail | PublisherController.DuplicateMessage |
| backend1/controllers/userController.js:80-98 | The restricted fields are looked for among the top-level keys of the body only. The body then goes to `findByIdAndUpdate` as an update, where a `$set` key is an operator whose fields are written. | One user with role "reader". The body `{"$set": {"role": "admin"}}` passes the check, and the user's role becomes "admin". | Refuse a restricted field wherever the update would write it, so the password, role and email are never changed by a profile update. | not executed | UserController.SetBypassesRestriction | UserController.CorrectedUpdateProfileSpec |

The comparison as written is `PublisherController.DuplicateMessageAsWritten`, and the sign-up of the model (`RegisterSpec`, `SignupSpec`, `Register`, `Signup`) answers with it, as the source does. The corrected comparison is `DuplicateMessage`, and `NameBlamedOnlyWhenNameMatches` proves that it blames the name only when the name matched.

The profile update as written is `UserController.UpdateProfileSpec`, and the method `UpdateProfile` follows it, as the source does. The corrected check is `CorrectedUpdateProfileSpec`, and `CorrectedKeepsRestricted` proves that it never changes a restricted field.
