/** The checkout and rental lifecycle of backend/controllers/orderController.js: the cart is
    turned into an order line by line, the order is created, every ordered book is marked
    rented or sold, and the cart is deleted; order status updates; completing a rental puts
    the book back on the shelf. */
module OrderController {
  import opened Common
  import opened BookSchema
  import opened CartSchema
  import opened OrderSchema
  import opened Store

  /** Whether the uploader a book names exists in the collection its `uploaderType` points to
      (the `refPath` populate yields null otherwise). */
  predicate UploaderExists(s: State, book: Book)
  {
    match book.uploaderType
    case UserUploader => AccountIndex(s.users, book.uploader).Some?
    case PublisherUploader => AccountIndex(s.publishers, book.uploader).Some?
  }

  /** The order line built for one cart item, or what that item throws: a missing book is
      dereferenced by the log statement before the 404 check can run, so it is a TypeError. */
  function OrderLine(s: State, item: CartItem, now: int): (r: Result<OrderItem>)
  {
    if item.book !in s.books then Failure(RuntimeError("Cannot read properties of null (reading '_id')"))
    else
      var book := s.books[item.book];
      if !UploaderExists(s, book) then Failure(AppError(400, "No uploader found for book: " + book.title))
      else if item.kind == "rent" && item.rentalDuration.None? then
        Failure(AppError(400, "Rental duration is required for book: " + book.title))
      else
        var dates :=
          if item.kind == "rent" then
            var start := item.rentalDuration.value.startDate;
            Some(RentalDuration(Some(if start.Some? then start.value else now), item.rentalDuration.value.endDate))
          else None;
        Success(OrderItem(book.id, book.uploader, item.quantity, item.kind, item.price, dates, false))
  }

  /** The line's refusals in the order the loop checks them, and what an accepted line copies
      from the book and the cart item. */
  lemma OrderLineCases(s: State, item: CartItem, now: int)
    ensures var r := OrderLine(s, item, now);
            item.book !in s.books ==> r.Failure? && r.error.RuntimeError?
    ensures var r := OrderLine(s, item, now);
            item.book in s.books && !UploaderExists(s, s.books[item.book]) ==>
              r == Failure(AppError(400, "No uploader found for book: " + s.books[item.book].title))
    ensures var r := OrderLine(s, item, now);
            item.book in s.books && UploaderExists(s, s.books[item.book]) && IsRent(item) && item.rentalDuration.None? ==>
              r == Failure(AppError(400, "Rental duration is required for book: " + s.books[item.book].title))
    ensures var r := OrderLine(s, item, now);
            r.Success? ==> item.book in s.books && UploaderExists(s, s.books[item.book])
    ensures var r := OrderLine(s, item, now);
            r.Success? ==> && r.value.book == s.books[item.book].id && r.value.uploader == s.books[item.book].uploader
                           && r.value.quantity == item.quantity && r.value.price == item.price
                           && r.value.kind == item.kind && !r.value.completed
    ensures var r := OrderLine(s, item, now);
            r.Success? && IsRent(item) ==>
              && item.rentalDuration.Some?
              && r.value.rentalDuration == Some(RentalDuration(
                   Some(if item.rentalDuration.value.startDate.Some? then item.rentalDuration.value.startDate.value else now),
                   item.rentalDuration.value.endDate))
    ensures var r := OrderLine(s, item, now);
            r.Success? && !IsRent(item) ==> r.value.rentalDuration.None?
  {
  }

  /** The line for each cart item, in cart order. */
  function Lines(s: State, items: seq<CartItem>, now: int): (ls: seq<Result<OrderItem>>)
    ensures |ls| == |items| && forall i :: 0 <= i < |items| ==> ls[i] == OrderLine(s, items[i], now)
  {
    seq(|items|, i requires 0 <= i < |items| => OrderLine(s, items[i], now))
  }

  /** A stored cart never trips the rental-duration check, and its start dates are kept: the
      cart schema already requires both dates on rent items. */
  lemma StoredCartHasDates(s: State, item: CartItem, now: int)
    requires ValidItem(item) && OrderLine(s, item, now).Success? && IsRent(item)
    ensures OrderLine(s, item, now).value.rentalDuration == item.rentalDuration
  {
  }

  /** `y` with at most its status, current transaction and rental information changed. */
  predicate SameListing(x: Book, y: Book)
  {
    x == y.(status := x.status, currentTransaction := x.currentTransaction, rentalInfo := x.rentalInfo)
  }

  /** A book that differs from a valid one only in its transaction fields is valid. */
  lemma SameListingValid(x: Book, y: Book)
    requires SameListing(x, y) && ValidBook(y)
    ensures ValidBook(x) && x.id == y.id
  {
  }

  /** The book after `updateBookStatus` for one order line: rented or sold, with the order as
      its current transaction and, for rent, who has it and for when. */
  function MarkBook(b: Book, it: OrderItem, orderId: Id, user: Id): (m: Book)
    requires ValidOrderItem(it)
    ensures m.status == (if it.kind == "rent" then Rented else Sold)
    ensures m.currentTransaction == Some(orderId)
    ensures it.kind == "rent" ==> m.rentalInfo == Some(RentalInfo(user, it.rentalDuration.value.startDate.value,
                                                                 it.rentalDuration.value.endDate.value))
    ensures it.kind != "rent" ==> m.rentalInfo == b.rentalInfo
    ensures SameListing(m, b)
  {
    var rent := it.kind == "rent";
    var info := if rent then Some(RentalInfo(user, it.rentalDuration.value.startDate.value, it.rentalDuration.value.endDate.value))
                else b.rentalInfo;
    b.(status := if rent then Rented else Sold, currentTransaction := Some(orderId), rentalInfo := info)
  }

  predicate LinesValid(items: seq<OrderItem>)
  {
    forall i :: 0 <= i < |items| ==> ValidOrderItem(items[i])
  }

  /** The books after `updateBookStatus` has run for every line, in order: only the
      transaction fields of the ordered books change. */
  function MarkBooks(books: map<Id, Book>, items: seq<OrderItem>, orderId: Id, user: Id): (r: map<Id, Book>)
    requires LinesValid(items)
    ensures r.Keys == books.Keys
    ensures forall b :: b in books ==> SameListing(r[b], books[b])
  {
    if items == [] then books
    else
      var init := items[..|items| - 1];
      var last := items[|items| - 1];
      assert forall i :: 0 <= i < |init| ==> init[i] == items[i];
      var before := MarkBooks(books, init, orderId, user);
      if last.book in before then before[last.book := MarkBook(before[last.book], last, orderId, user)] else before
  }

  /** A book no line names is left as it was. */
  lemma {:induction false} MarkBooksUntouched(books: map<Id, Book>, items: seq<OrderItem>, orderId: Id, user: Id, b: Id)
    requires LinesValid(items) && b in books
    requires forall i :: 0 <= i < |items| ==> items[i].book != b
    ensures MarkBooks(books, items, orderId, user)[b] == books[b]
  {
    if items != [] {
      var init := items[..|items| - 1];
      assert forall i :: 0 <= i < |init| ==> init[i] == items[i];
      MarkBooksUntouched(books, init, orderId, user, b);
    }
  }

  /** A book some line names is taken off the shelf, with this order as its transaction. */
  lemma {:induction false} MarkBooksTouched(books: map<Id, Book>, items: seq<OrderItem>, orderId: Id, user: Id, b: Id, k: nat)
    requires LinesValid(items) && b in books
    requires k < |items| && items[k].book == b
    ensures MarkBooks(books, items, orderId, user)[b].currentTransaction == Some(orderId)
    ensures MarkBooks(books, items, orderId, user)[b].status != Available
  {
    var init := items[..|items| - 1];
    assert forall i :: 0 <= i < |init| ==> init[i] == items[i];
    if items[|items| - 1].book != b {
      MarkBooksTouched(books, init, orderId, user, b, k);
    }
  }

  /** The last line for a book decides its status. */
  lemma LastLineDecides(books: map<Id, Book>, items: seq<OrderItem>, orderId: Id, user: Id)
    requires LinesValid(items) && items != [] && items[|items| - 1].book in books
    ensures var last := items[|items| - 1];
            MarkBooks(books, items, orderId, user)[last.book].status == (if last.kind == "rent" then Rented else Sold)
  {
  }

  /** Replacing the books by ones with the same ids that differ only in their transaction
      fields keeps the store's invariants. */
  lemma RelistKeepsValid(s: State, books: map<Id, Book>)
    requires Valid(s) && books.Keys == s.books.Keys
    requires forall b :: b in books ==> SameListing(books[b], s.books[b])
    ensures Valid(s.(books := books))
  {
    forall b | b in books ensures books[b].id == b && ValidBook(books[b]) {
      SameListingValid(books[b], s.books[b]);
    }
    assert IdsBelow(s.(books := books));
  }

  /** Storing a new order under the counter and moving the counter on keeps the invariants. */
  lemma NewOrderKeepsValid(s: State, o: Order)
    requires Valid(s) && o.id == s.nextId && LinesValid(o.items)
    ensures Valid(s.(orders := s.orders[o.id := o], nextId := s.nextId + 1))
  {
    var t := s.(orders := s.orders[o.id := o], nextId := s.nextId + 1);
    assert OrdersValid(t.orders);
    assert IdsBelow(t);
  }

  /** Dropping a cart keeps the invariants. */
  lemma DropCartKeepsValid(s: State, user: Id)
    requires Valid(s)
    ensures Valid(s.(carts := s.carts - {user}))
  {
    assert IdsBelow(s.(carts := s.carts - {user}));
  }

  /** What `createOrder` responds and what the database holds afterwards. */
  function CreateOrderSpec(s: State, user: Id, paymentMethod: Option<string>, now: int): (out: (Result<Order>, State))
    ensures user !in s.carts || s.carts[user].items == [] ==> out == (Failure(AppError(400, "No items in cart")), s)
    ensures out.0.Failure? ==> out.1 == s
    ensures out.0.Success? ==> user in s.carts && s.carts[user].items != []
  {
    if user !in s.carts || s.carts[user].items == [] then (Failure(AppError(400, "No items in cart")), s)
    else
      var cart := s.carts[user];
      var lines := AllOf(Lines(s, cart.items, now));
      if lines.Failure? then (Failure(lines.error), s)
      else
        var created := CreateOrderDoc(s.nextId, OrderInput(user, lines.value, cart.totalAmount, paymentMethod));
        if created.Failure? then (created, s)
        else
          var o := created.value;
          (created, s.(orders := s.orders[o.id := o], books := MarkBooks(s.books, o.items, o.id, user),
                       carts := s.carts - {user}, nextId := s.nextId + 1))
  }

  /** A placed order: numbered by the counter, owned by the user, one line per cart item built
      from it, the cart's amount, pending and unrated. */
  lemma PlacedOrder(s: State, user: Id, paymentMethod: Option<string>, now: int)
    requires CreateOrderSpec(s, user, paymentMethod, now).0.Success?
    ensures user in s.carts
    ensures var cart := s.carts[user];
            var o := CreateOrderSpec(s, user, paymentMethod, now).0.value;
            && o.id == s.nextId && o.user == user && o.totalAmount == cart.totalAmount
            && |o.items| == |cart.items|
            && (forall i :: 0 <= i < |o.items| ==> OrderLine(s, cart.items[i], now) == Success(o.items[i]))
            && o.status == Pending && !o.hasRated && o.rating.None? && o.paymentStatus == PaymentPending
            && LinesValid(o.items)
  {
    var ls := AllOf(Lines(s, s.carts[user].items, now));
    assert ls.Success?;
  }

  /** Placing an order stores it, marks its books, deletes the cart and advances the counter. */
  lemma PlacedOrderStored(s: State, user: Id, paymentMethod: Option<string>, now: int)
    requires CreateOrderSpec(s, user, paymentMethod, now).0.Success?
    ensures var out := CreateOrderSpec(s, user, paymentMethod, now);
            var o := out.0.value;
            out.1 == s.(orders := s.orders[o.id := o], books := MarkBooks(s.books, o.items, o.id, user),
                        carts := s.carts - {user}, nextId := s.nextId + 1)
  {
  }

  /** The order's amount is the fold of the cart items it was made from. */
  lemma OrderTotalIsCartTotal(s: State, user: Id, paymentMethod: Option<string>, now: int)
    requires Valid(s) && CreateOrderSpec(s, user, paymentMethod, now).0.Success?
    ensures CreateOrderSpec(s, user, paymentMethod, now).0.value.totalAmount == Total(s.carts[user].items)
  {
    PlacedOrder(s, user, paymentMethod, now);
  }

  /** Checkout keeps the store's invariants. */
  lemma CreateOrderKeepsValid(s: State, user: Id, paymentMethod: Option<string>, now: int)
    requires Valid(s)
    ensures Valid(CreateOrderSpec(s, user, paymentMethod, now).1)
  {
    var out := CreateOrderSpec(s, user, paymentMethod, now);
    if out.0.Success? {
      PlacedOrder(s, user, paymentMethod, now);
      PlacedOrderStored(s, user, paymentMethod, now);
      var o := out.0.value;
      var t1 := s.(orders := s.orders[o.id := o], nextId := s.nextId + 1);
      NewOrderKeepsValid(s, o);
      DropCartKeepsValid(t1, user);
      var t2 := t1.(carts := t1.carts - {user});
      RelistKeepsValid(t2, MarkBooks(s.books, o.items, o.id, user));
      assert out.1 == t2.(books := MarkBooks(s.books, o.items, o.id, user));
    }
  }

  method CreateOrder(db: Db, user: Id, paymentMethod: Option<string>, now: int) returns (r: Result<Order>)
    modifies db
    ensures (r, db.Snapshot()) == CreateOrderSpec(old(db.Snapshot()), user, paymentMethod, now)
  {
    var s := db.Snapshot();
    if user !in db.carts || |db.carts[user].items| == 0 {
      return Failure(AppError(400, "No items in cart"));
    }
    var cart := db.carts[user];
    var lines := BuildLines(s, cart.items, now);
    if lines.Failure? {
      return Failure(lines.error);
    }
    CheckoutRefused(s, user, paymentMethod, now, lines.value);
    CheckoutResponse(s, user, paymentMethod, now, lines.value);
    CheckoutWrites(s, user, paymentMethod, now, lines.value);
    r := PlaceOrder(db, user, lines.value, paymentMethod);
    assert r == CreateOrderSpec(s, user, paymentMethod, now).0;
    assert db.Snapshot() == CreateOrderSpec(s, user, paymentMethod, now).1;
  }

  /** Once the lines are built, an invalid order document fails checkout and writes nothing ... */
  lemma CheckoutRefused(s: State, user: Id, paymentMethod: Option<string>, now: int, lines: seq<OrderItem>)
    requires user in s.carts && s.carts[user].items != []
    requires AllOf(Lines(s, s.carts[user].items, now)) == Success(lines)
    ensures var created := CreateOrderDoc(s.nextId, OrderInput(user, lines, s.carts[user].totalAmount, paymentMethod));
            created.Failure? ==> CreateOrderSpec(s, user, paymentMethod, now) == (created, s)
  {
  }

  /** ... a valid one is the response ... */
  lemma CheckoutResponse(s: State, user: Id, paymentMethod: Option<string>, now: int, lines: seq<OrderItem>)
    requires user in s.carts && s.carts[user].items != []
    requires AllOf(Lines(s, s.carts[user].items, now)) == Success(lines)
    ensures var created := CreateOrderDoc(s.nextId, OrderInput(user, lines, s.carts[user].totalAmount, paymentMethod));
            created.Success? ==> CreateOrderSpec(s, user, paymentMethod, now).0 == created
  {
  }

  /** ... and is stored, its books marked and the cart deleted. */
  lemma CheckoutWrites(s: State, user: Id, paymentMethod: Option<string>, now: int, lines: seq<OrderItem>)
    requires user in s.carts && s.carts[user].items != []
    requires AllOf(Lines(s, s.carts[user].items, now)) == Success(lines)
    ensures var created := CreateOrderDoc(s.nextId, OrderInput(user, lines, s.carts[user].totalAmount, paymentMethod));
            created.Success? ==>
              CreateOrderSpec(s, user, paymentMethod, now).1
                == s.(orders := s.orders[created.value.id := created.value],
                      books := MarkBooks(s.books, created.value.items, created.value.id, user),
                      carts := s.carts - {user}, nextId := s.nextId + 1)
  {
  }

  /** Create the order document and, when it is valid, store it, mark its books and delete the
      cart. */
  method PlaceOrder(db: Db, user: Id, lines: seq<OrderItem>, paymentMethod: Option<string>) returns (r: Result<Order>)
    requires user in db.carts
    modifies db
    ensures r == CreateOrderDoc(old(db.nextId), OrderInput(user, lines, old(db.carts[user].totalAmount), paymentMethod))
    ensures r.Failure? ==> db.Snapshot() == old(db.Snapshot())
    ensures r.Success? ==>
              var s := old(db.Snapshot());
              db.Snapshot() == s.(orders := s.orders[r.value.id := r.value],
                                  books := MarkBooks(s.books, r.value.items, r.value.id, user),
                                  carts := s.carts - {user}, nextId := s.nextId + 1)
  {
    ghost var s := db.Snapshot();
    r := CreateOrderDoc(db.nextId, OrderInput(user, lines, db.carts[user].totalAmount, paymentMethod));
    if r.Failure? {
      return;
    }
    var order := r.value;
    db.orders := db.orders[order.id := order];
    db.nextId := db.nextId + 1;
    MarkOrderedBooks(db, order.items, order.id, user);
    db.carts := db.carts - {user};
    assert db.Snapshot() == s.(orders := s.orders[order.id := order], books := MarkBooks(s.books, order.items, order.id, user),
                                carts := s.carts - {user}, nextId := s.nextId + 1);
  }

  /** `Promise.all(cart.items.map(...))`: the lines are built one after the other, and the first
      item that throws decides the failure. */
  method BuildLines(s: State, items: seq<CartItem>, now: int) returns (r: Result<seq<OrderItem>>)
    ensures r == AllOf(Lines(s, items, now))
  {
    ghost var ls := Lines(s, items, now);
    var verified: seq<OrderItem> := [];
    var i := 0;
    while i < |items|
      invariant 0 <= i <= |items|
      invariant AllOf(ls[..i]) == Success(verified)
    {
      var line := OrderLine(s, items[i], now);
      if line.Failure? {
        AllOfStepFails(ls, i);
        return Failure(line.error);
      }
      AllOfStep(ls, i, verified);
      verified := verified + [line.value];
      i := i + 1;
    }
    assert ls[..i] == ls;
    r := Success(verified);
  }

  /** `Promise.all(order.items.map(updateBookStatus))`, one line after the other. */
  method MarkOrderedBooks(db: Db, items: seq<OrderItem>, orderId: Id, user: Id)
    requires LinesValid(items)
    modifies db
    ensures db.Snapshot() == old(db.Snapshot()).(books := MarkBooks(old(db.books), items, orderId, user))
  {
    var i := 0;
    while i < |items|
      invariant 0 <= i <= |items|
      invariant LinesValid(items[..i])
      invariant db.Snapshot() == old(db.Snapshot()).(books := MarkBooks(old(db.books), items[..i], orderId, user))
    {
      var it := items[i];
      assert items[..i + 1][..i] == items[..i];
      if it.book in db.books {
        db.books := db.books[it.book := MarkBook(db.books[it.book], it, orderId, user)];
      }
      i := i + 1;
    }
    assert items[..i] == items;
  }

  /** `getOrder`: only the owner's order is found. */
  function GetOrder(s: State, orderId: Id, user: Id): (r: Result<Order>)
    ensures r.Success? <==> orderId in s.orders && s.orders[orderId].user == user
    ensures r.Success? ==> r.value == s.orders[orderId]
    ensures r.Failure? ==> r.error == AppError(404, "Order not found")
    ensures Valid(s) && r.Success? ==> r.value.id == orderId
  {
    if orderId in s.orders && s.orders[orderId].user == user then Success(s.orders[orderId])
    else Failure(AppError(404, "Order not found"))
  }

  /** The statuses the controller accepts. `processing` is not one of the schema's. */
  const ControllerStatuses: seq<string> := ["pending", "processing", "shipped", "delivered", "cancelled"]

  /** What `updateOrderStatus` responds and what the database holds afterwards. */
  function UpdateStatusSpec(s: State, orderId: Id, status: Option<string>): (out: (Result<Order>, State))
    ensures status.None? || status.value !in ControllerStatuses ==> out == (Failure(AppError(400, "Invalid order status")), s)
    ensures status.Some? && status.value in ControllerStatuses && orderId !in s.orders ==>
              out == (Failure(AppError(404, "Order not found")), s)
    ensures out.0.Failure? ==> out.1 == s
    ensures out.0.Success? ==> && orderId in s.orders && status.Some?
                               && OrderStatusName(out.0.value.status) == status.value
                               && out.0.value == s.orders[orderId].(status := out.0.value.status)
                               && out.1 == s.(orders := s.orders[orderId := out.0.value])
  {
    if status.None? || status.value !in ControllerStatuses then (Failure(AppError(400, "Invalid order status")), s)
    else if orderId !in s.orders then (Failure(AppError(404, "Order not found")), s)
    else
      var st := ParseOrderStatus(status.value);
      if st.None? then (Failure(SchemaError(["status"])), s)
      else
        var saved := SaveOrder(s.orders[orderId].(status := st.value));
        if saved.Failure? then (saved, s) else (saved, s.(orders := s.orders[orderId := saved.value]))
  }

  /** `processing` passes the controller's list but not the schema's enumeration: that update
      never succeeds and changes nothing. */
  lemma ProcessingNeverSaved(s: State, orderId: Id)
    requires orderId in s.orders
    ensures UpdateStatusSpec(s, orderId, Some("processing")) == (Failure(SchemaError(["status"])), s)
  {
  }

  /** Any current status may move to any accepted one (there is no transition check): a
      delivered order can go back to pending. */
  lemma AnyStatusMayFollow(s: State, orderId: Id)
    requires orderId in s.orders && ValidOrder(s.orders[orderId]) && s.orders[orderId].status == Delivered
    ensures UpdateStatusSpec(s, orderId, Some("pending")).0.Success?
    ensures UpdateStatusSpec(s, orderId, Some("pending")).0.value.status == Pending
  {
  }

  lemma UpdateStatusKeepsValid(s: State, orderId: Id, status: Option<string>)
    requires Valid(s)
    ensures Valid(UpdateStatusSpec(s, orderId, status).1)
  {
    var out := UpdateStatusSpec(s, orderId, status);
    if out.0.Success? {
      assert OrdersValid(out.1.orders);
      assert IdsBelow(out.1);
    }
  }

  method UpdateOrderStatus(db: Db, orderId: Id, status: Option<string>) returns (r: Result<Order>)
    modifies db
    ensures (r, db.Snapshot()) == UpdateStatusSpec(old(db.Snapshot()), orderId, status)
  {
    if status.None? || status.value !in ControllerStatuses {
      return Failure(AppError(400, "Invalid order status"));
    }
    if orderId !in db.orders {
      return Failure(AppError(404, "Order not found"));
    }
    var order := db.orders[orderId];
    var st := ParseOrderStatus(status.value);
    if st.None? {
      return Failure(SchemaError(["status"]));
    }
    order := order.(status := st.value);
    r := SaveOrder(order);
    if r.Success? {
      db.orders := db.orders[orderId := r.value];
    }
  }

  /** `order.items.find(item => item.book === bookId && item.type === 'rent')`. */
  function FindRental(items: seq<OrderItem>, bookId: Id): (r: Option<nat>)
    ensures r.Some? ==> r.value < |items| && items[r.value].book == bookId && items[r.value].kind == "rent"
    ensures r.Some? ==> forall j :: 0 <= j < r.value ==> !(items[j].book == bookId && items[j].kind == "rent")
    ensures r.None? ==> forall j :: 0 <= j < |items| ==> !(items[j].book == bookId && items[j].kind == "rent")
  {
    if items == [] then None
    else if items[0].book == bookId && items[0].kind == "rent" then Some(0)
    else
      var rest := FindRental(items[1..], bookId);
      if rest.None? then None else Some(rest.value + 1)
  }

  /** `Book.findByIdAndUpdate(bookId, { status: 'available', currentTransaction: null,
      rentalInfo: null })`: no validation; a missing book is left missing. */
  function ReturnBook(books: map<Id, Book>, bookId: Id): (r: map<Id, Book>)
    ensures r.Keys == books.Keys
    ensures bookId in books ==> r[bookId] == books[bookId].(status := Available, currentTransaction := None, rentalInfo := None)
    ensures forall b :: b in books && b != bookId ==> r[b] == books[b]
  {
    if bookId in books then books[bookId := books[bookId].(status := Available, currentTransaction := None, rentalInfo := None)]
    else books
  }

  /** What `completeRental` responds and what the database holds afterwards. The book is put
      back before the order is saved, so it stays returned even when that save fails. */
  function CompleteRentalSpec(s: State, orderId: Id, bookId: Id): (out: (Result<string>, State))
    ensures orderId !in s.orders ==> out == (Failure(AppError(404, "Order not found")), s)
    ensures orderId in s.orders && FindRental(s.orders[orderId].items, bookId).None? ==>
              out == (Failure(AppError(404, "Rental item not found")), s)
    ensures out.0.Success? ==> out.0.value == "Rental completed successfully"
    ensures orderId in s.orders && FindRental(s.orders[orderId].items, bookId).Some? ==>
              && out.1.books == ReturnBook(s.books, bookId)
              && var k := FindRental(s.orders[orderId].items, bookId).value;
              && var done := s.orders[orderId].(items := s.orders[orderId].items[k := s.orders[orderId].items[k].(completed := true)]);
              && (out.0.Success? <==> ValidOrder(done))
              && out.1 == s.(books := out.1.books, orders := if out.0.Success? then s.orders[orderId := done] else s.orders)
  {
    if orderId !in s.orders then (Failure(AppError(404, "Order not found")), s)
    else
      var order := s.orders[orderId];
      var found := FindRental(order.items, bookId);
      if found.None? then (Failure(AppError(404, "Rental item not found")), s)
      else
        var k := found.value;
        var books := ReturnBook(s.books, bookId);
        var saved := SaveOrder(order.(items := order.items[k := order.items[k].(completed := true)]));
        if saved.Failure? then (Failure(saved.error), s.(books := books))
        else (Success("Rental completed successfully"), s.(books := books, orders := s.orders[orderId := saved.value]))
  }

  /** A completed rental puts the book back on the shelf. */
  lemma CompletedRentalIsAvailable(s: State, orderId: Id, bookId: Id)
    requires bookId in s.books
    requires CompleteRentalSpec(s, orderId, bookId).0.Success?
    ensures var b := CompleteRentalSpec(s, orderId, bookId).1.books[bookId];
            b.status == Available && b.currentTransaction.None? && b.rentalInfo.None?
  {
  }

  /** Renting a book at checkout and then completing that rental leaves the book available
      again, with its other fields as they were before checkout. */
  lemma RentThenReturn(b: Book, it: OrderItem, orderId: Id, user: Id)
    requires ValidOrderItem(it) && it.kind == "rent" && b.status == Available
             && b.currentTransaction.None? && b.rentalInfo.None?
    ensures MarkBook(b, it, orderId, user).status == Rented
    ensures MarkBook(b, it, orderId, user).(status := Available, currentTransaction := None, rentalInfo := None) == b
  {
  }

  lemma CompleteRentalKeepsValid(s: State, orderId: Id, bookId: Id)
    requires Valid(s)
    ensures Valid(CompleteRentalSpec(s, orderId, bookId).1)
  {
    var out := CompleteRentalSpec(s, orderId, bookId);
    if orderId in s.orders && FindRental(s.orders[orderId].items, bookId).Some? {
      var books := ReturnBook(s.books, bookId);
      RelistKeepsValid(s, books);
      if out.0.Success? {
        var k := FindRental(s.orders[orderId].items, bookId).value;
        var o := s.orders[orderId];
        var done := o.(items := o.items[k := o.items[k].(completed := true)]);
        ReplaceOrderKeepsValid(s.(books := books), done);
      }
    }
  }

  method CompleteRental(db: Db, orderId: Id, bookId: Id) returns (r: Result<string>)
    modifies db
    ensures (r, db.Snapshot()) == CompleteRentalSpec(old(db.Snapshot()), orderId, bookId)
  {
    if orderId !in db.orders {
      return Failure(AppError(404, "Order not found"));
    }
    var order := db.orders[orderId];
    var found := FindRental(order.items, bookId);
    if found.None? {
      return Failure(AppError(404, "Rental item not found"));
    }
    var k := found.value;
    if bookId in db.books {
      db.books := db.books[bookId := db.books[bookId].(status := Available, currentTransaction := None, rentalInfo := None)];
    }
    order := order.(items := order.items[k := order.items[k].(completed := true)]);
    var saved := SaveOrder(order);
    if saved.Failure? {
      return Failure(saved.error);
    }
    db.orders := db.orders[orderId := saved.value];
    r := Success("Rental completed successfully");
  }
}
