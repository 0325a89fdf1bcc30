/** The cart actions of backend1/controllers/cartController.js: read the cart, add a book
    (rejecting one the duplicate query finds), change an item's quantity or rental dates, and
    remove an item. `getCart`, `updateCartItem` and `removeFromCart` are word for word the same
    in backend/controllers/cartController.js; that file's merging `addToCart` is in `CartMerge`.
    Each action is a method on the database, specified by a function on its snapshot. */
module CartController {
  import opened Common
  import opened BookSchema
  import opened CartSchema
  import opened Store

  /** `getCart`: the user's cart, or 404. */
  function GetCart(s: State, user: Id): (r: Result<Cart>)
    ensures r.Success? <==> user in s.carts
    ensures r.Failure? ==> r.error == AppError(404, "No cart found for this user")
    ensures r.Success? ==> r.value.items == ItemsOf(s, user)
    ensures Valid(s) && r.Success? ==> r.value.user == user && Saved(r.value)
  {
    if user in s.carts then Success(s.carts[user]) else Failure(AppError(404, "No cart found for this user"))
  }

  /** `Cart.findOne({ user, 'items.book': bookId, 'items.type': type })`: each condition on an
      array path is met by any element on its own, so the query asks for some item with the book
      and some item, possibly another one, with the type. */
  predicate DuplicateQuery(items: seq<CartItem>, bookId: Id, kind: string)
  {
    (exists i :: 0 <= i < |items| && items[i].book == bookId)
    && (exists j :: 0 <= j < |items| && items[j].kind == kind)
  }

  /** Some single item has both the book and the type. */
  predicate HasPair(items: seq<CartItem>, bookId: Id, kind: string)
  {
    exists i :: 0 <= i < |items| && items[i].book == bookId && items[i].kind == kind
  }

  /** The query finds every real duplicate ... */
  lemma PairIsDuplicate(items: seq<CartItem>, bookId: Id, kind: string)
    requires HasPair(items, bookId, kind)
    ensures DuplicateQuery(items, bookId, kind)
  {
    var i :| 0 <= i < |items| && items[i].book == bookId && items[i].kind == kind;
    assert items[i].book == bookId && items[i].kind == kind;
  }

  /** ... and also fires when the book is in the cart under the other type while another book
      is in it under this type: buying a book that is in the cart to rent is then refused. */
  lemma DuplicateWithoutPair(rented: CartItem, bought: CartItem)
    requires rented.kind == "rent" && bought.kind == "purchase" && rented.book != bought.book
    ensures DuplicateQuery([rented, bought], rented.book, "purchase")
    ensures !HasPair([rented, bought], rented.book, "purchase")
  {
    var items := [rented, bought];
    assert items[0].book == rented.book;
    assert items[1].kind == "purchase";
  }

  /** `price = type === 'rent' ? book.price.lease.perDay : book.price.sale`. */
  function ItemPrice(book: Book, kind: string): Option<int>
  {
    if kind == "rent" then book.price.lease.perDay else book.price.sale
  }

  /** `...(type === 'rent' && { rentalDuration })`: only rent items carry the dates. */
  function ItemDates(kind: string, rental: Option<RentalDuration>): Option<RentalDuration>
  {
    if kind == "rent" then rental else None
  }

  /** `after` is `before` with one item appended: a fresh id, the book, quantity 1 whatever was
      requested, the type, the price the book asks for that type and, for rent, the dates. */
  predicate NewItemAppended(before: seq<CartItem>, after: seq<CartItem>, bookId: Id, book: Book, kind: string,
                            rental: Option<RentalDuration>, firstId: nat)
  {
    && |after| == |before| + 1 && after[..|before|] == before
    && var it := after[|before|];
    && it.id >= firstId && it.book == bookId && it.quantity == 1 && it.kind == kind
    && it.price == ItemPrice(book, kind) && it.rentalDuration == ItemDates(kind, rental)
  }

  /** The item `addToCart` pushes: quantity 1 whatever was requested. */
  function NewItem(id: Id, bookId: Id, book: Book, kind: string, rental: Option<RentalDuration>): CartItem
  {
    CartItem(id, bookId, 1, kind, ItemPrice(book, kind), ItemDates(kind, rental))
  }

  /** The add once the checks have passed: find or create the cart, push the new item with a
      fresh id, save. A failing save leaves the (possibly just created) cart as it was. */
  function AppendItem(s: State, user: Id, bookId: Id, book: Book, kind: string, rental: Option<RentalDuration>): (out: (Result<Cart>, State))
    ensures OnlyCartOf(s, out.1, user)
    ensures out.0.Success? ==> user in out.1.carts && out.1.carts[user] == out.0.value && Saved(out.0.value)
    ensures out.0.Success? ==> NewItemAppended(ItemsOf(s, user), out.0.value.items, bookId, book, kind, rental, s.nextId)
    ensures out.0.Failure? ==> user in out.1.carts && out.1.carts[user].items == ItemsOf(s, user)
    ensures out.0.Failure? ==> out.0.error.SchemaError?
  {
    var s1 := EnsureCart(s, user);
    StoreCart(s1, user, s1.carts[user].items + [NewItem(s1.nextId, bookId, book, kind, rental)], s1.nextId + 1)
  }

  lemma AppendItemKeepsValid(s: State, user: Id, bookId: Id, book: Book, kind: string, rental: Option<RentalDuration>)
    requires Valid(s)
    ensures Valid(AppendItem(s, user, bookId, book, kind, rental).1)
  {
    EnsuredAppendKeepsValid(s, user, NewItem(EnsureCart(s, user).nextId, bookId, book, kind, rental));
  }

  /** What `addToCart` responds and what the database holds afterwards. */
  function AddRejecting(s: State, user: Id, bookId: Id, kind: string, rental: Option<RentalDuration>): (out: (Result<Cart>, State))
    ensures bookId !in s.books ==> out == (Failure(AppError(404, "Book not found")), s)
    ensures bookId in s.books && s.books[bookId].status != Available ==>
              out == (Failure(AppError(400, "Book is not available")), s)
    ensures bookId in s.books && s.books[bookId].status == Available && DuplicateQuery(ItemsOf(s, user), bookId, kind) ==>
              out == (Failure(AppError(400, "This book is already in your cart")), s)
    ensures out.0.Success? ==> bookId in s.books && s.books[bookId].status == Available
                               && !DuplicateQuery(ItemsOf(s, user), bookId, kind)
    ensures bookId in s.books && s.books[bookId].status == Available && !DuplicateQuery(ItemsOf(s, user), bookId, kind) ==>
              out == AppendItem(s, user, bookId, s.books[bookId], kind, rental)
  {
    if bookId !in s.books then (Failure(AppError(404, "Book not found")), s)
    else
      var book := s.books[bookId];
      if book.status != Available then (Failure(AppError(400, "Book is not available")), s)
      else if DuplicateQuery(ItemsOf(s, user), bookId, kind) then
        (Failure(AppError(400, "This book is already in your cart")), s)
      else AppendItem(s, user, bookId, book, kind, rental)
  }

  /** The add keeps every invariant of the store, whether it succeeds, is refused or fails to
      save. */
  lemma AddRejectingKeepsValid(s: State, user: Id, bookId: Id, kind: string, rental: Option<RentalDuration>)
    requires Valid(s)
    ensures Valid(AddRejecting(s, user, bookId, kind, rental).1)
  {
    if bookId in s.books {
      AppendItemKeepsValid(s, user, bookId, s.books[bookId], kind, rental);
    }
  }

  method AddToCart(db: Db, user: Id, bookId: Id, kind: string, rental: Option<RentalDuration>) returns (r: Result<Cart>)
    modifies db
    ensures (r, db.Snapshot()) == AddRejecting(old(db.Snapshot()), user, bookId, kind, rental)
  {
    if bookId !in db.books {
      return Failure(AppError(404, "Book not found"));
    }
    var book := db.books[bookId];
    if book.status != Available {
      return Failure(AppError(400, "Book is not available"));
    }
    if user in db.carts && DuplicateQuery(db.carts[user].items, bookId, kind) {
      return Failure(AppError(400, "This book is already in your cart"));
    }
    r := PushItem(db, user, bookId, book, kind, rental);
  }

  /** Find or create the user's cart, push the new item and save. */
  method PushItem(db: Db, user: Id, bookId: Id, book: Book, kind: string, rental: Option<RentalDuration>) returns (r: Result<Cart>)
    modifies db
    ensures (r, db.Snapshot()) == AppendItem(old(db.Snapshot()), user, bookId, book, kind, rental)
  {
    var cart := db.CartFor(user);
    var item := NewItem(db.nextId, bookId, book, kind, rental);
    r := db.SaveCartItems(user, cart.items + [item], db.nextId + 1);
  }

  /** `cartItem.quantity = quantity` when the quantity is truthy, then `cartItem.rentalDuration
      = rentalDuration` when dates were sent and the item is a rent item. */
  function UpdatedItem(it: CartItem, quantity: Option<int>, rental: Option<RentalDuration>): (u: CartItem)
    ensures u.id == it.id && u.book == it.book && u.kind == it.kind && u.price == it.price
    ensures u.quantity == (if NonZero(quantity) then quantity.value else it.quantity)
    ensures u.rentalDuration == (if rental.Some? && IsRent(it) then rental else it.rentalDuration)
  {
    var q := if NonZero(quantity) then it.(quantity := quantity.value) else it;
    if rental.Some? && q.kind == "rent" then q.(rentalDuration := rental) else q
  }

  /** What `updateCartItem` responds and what the database holds afterwards. */
  function UpdateItem(s: State, user: Id, itemId: Id, quantity: Option<int>, rental: Option<RentalDuration>): (out: (Result<Cart>, State))
    ensures user !in s.carts ==> out == (Failure(AppError(404, "Cart not found")), s)
    ensures user in s.carts && FindItem(s.carts[user].items, itemId).None? ==>
              out == (Failure(AppError(404, "Cart item not found")), s)
    ensures out.0.Failure? ==> out.1 == s
    ensures OnlyCartOf(s, out.1, user) && out.1.nextId == s.nextId
    ensures out.0.Success? ==>
              && user in s.carts && FindItem(s.carts[user].items, itemId).Some?
              && var k := FindItem(s.carts[user].items, itemId).value;
              && out.0.value.items == s.carts[user].items[k := UpdatedItem(s.carts[user].items[k], quantity, rental)]
              && out.1.carts == s.carts[user := out.0.value] && Saved(out.0.value)
  {
    if user !in s.carts then (Failure(AppError(404, "Cart not found")), s)
    else
      var cart := s.carts[user];
      var found := FindItem(cart.items, itemId);
      if found.None? then (Failure(AppError(404, "Cart item not found")), s)
      else
        var k := found.value;
        StoreCart(s, user, cart.items[k := UpdatedItem(cart.items[k], quantity, rental)], s.nextId)
  }

  /** Updating an item changes that item only: every other item is left as it was, the item
      keeps its id, book, type and price, and the cart keeps its length. */
  lemma UpdateTouchesOnlyItem(s: State, user: Id, itemId: Id, quantity: Option<int>, rental: Option<RentalDuration>)
    requires UpdateItem(s, user, itemId, quantity, rental).0.Success?
    ensures var after := UpdateItem(s, user, itemId, quantity, rental).0.value.items;
            var before := s.carts[user].items;
            && |after| == |before|
            && (forall j :: 0 <= j < |before| && before[j].id != itemId ==> after[j] == before[j])
            && (forall j :: 0 <= j < |before| ==>
                  (after[j].id == before[j].id && after[j].book == before[j].book
                   && after[j].kind == before[j].kind && after[j].price == before[j].price))
  {
  }

  /** The update keeps the store's invariants. */
  lemma UpdateItemKeepsValid(s: State, user: Id, itemId: Id, quantity: Option<int>, rental: Option<RentalDuration>)
    requires Valid(s)
    ensures Valid(UpdateItem(s, user, itemId, quantity, rental).1)
  {
    if user in s.carts && FindItem(s.carts[user].items, itemId).Some? {
      var before := s.carts[user].items;
      var k := FindItem(before, itemId).value;
      var items := before[k := UpdatedItem(before[k], quantity, rental)];
      assert forall i :: 0 <= i < |items| ==> items[i].id == before[i].id;
      StoreCartKeepsValid(s, user, items, s.nextId);
    }
  }

  method UpdateCartItem(db: Db, user: Id, itemId: Id, quantity: Option<int>, rental: Option<RentalDuration>) returns (r: Result<Cart>)
    modifies db
    ensures (r, db.Snapshot()) == UpdateItem(old(db.Snapshot()), user, itemId, quantity, rental)
  {
    if user !in db.carts {
      return Failure(AppError(404, "Cart not found"));
    }
    var cart := db.carts[user];
    var found := FindItem(cart.items, itemId);
    if found.None? {
      return Failure(AppError(404, "Cart item not found"));
    }
    var k := found.value;
    var item := cart.items[k];
    if NonZero(quantity) {
      item := item.(quantity := quantity.value);
    }
    if rental.Some? && item.kind == "rent" {
      item := item.(rentalDuration := rental);
    }
    r := db.SaveCartItems(user, cart.items[k := item], db.nextId);
  }

  /** What `removeFromCart` responds and what the database holds afterwards. */
  function RemoveSpec(s: State, user: Id, itemId: Id): (out: (Result<Cart>, State))
    ensures user !in s.carts ==> out == (Failure(AppError(404, "Cart not found")), s)
    ensures out.0.Failure? ==> out.1 == s
    ensures OnlyCartOf(s, out.1, user) && out.1.nextId == s.nextId
    ensures out.0.Success? ==> user in s.carts && out.0.value.items == RemoveItem(s.carts[user].items, itemId)
                               && out.1.carts == s.carts[user := out.0.value] && Saved(out.0.value)
    ensures Valid(s) && user in s.carts ==> out.0.Success?
  {
    if user !in s.carts then (Failure(AppError(404, "Cart not found")), s)
    else
      StoreCart(s, user, RemoveItem(s.carts[user].items, itemId), s.nextId)
  }

  /** Removing an id that no item has leaves a stored cart exactly as it was. */
  lemma RemoveAbsentIsNoOp(s: State, user: Id, itemId: Id)
    requires Valid(s) && user in s.carts
    requires forall j :: 0 <= j < |s.carts[user].items| ==> s.carts[user].items[j].id != itemId
    ensures RemoveSpec(s, user, itemId) == (Success(s.carts[user]), s)
  {
    var c := s.carts[user];
    assert c.(items := RemoveItem(c.items, itemId)) == c;
    assert s.carts[user := c] == s.carts;
  }

  /** The removal keeps the store's invariants. */
  lemma RemoveKeepsValid(s: State, user: Id, itemId: Id)
    requires Valid(s)
    ensures Valid(RemoveSpec(s, user, itemId).1)
  {
    if user in s.carts {
      var items := RemoveItem(s.carts[user].items, itemId);
      forall i | 0 <= i < |items| ensures items[i].id < s.nextId {
        assert items[i] in s.carts[user].items;
      }
      StoreCartKeepsValid(s, user, items, s.nextId);
    }
  }

  method RemoveFromCart(db: Db, user: Id, itemId: Id) returns (r: Result<Cart>)
    modifies db
    ensures (r, db.Snapshot()) == RemoveSpec(old(db.Snapshot()), user, itemId)
  {
    if user !in db.carts {
      return Failure(AppError(404, "Cart not found"));
    }
    r := db.SaveCartItems(user, RemoveItem(db.carts[user].items, itemId), db.nextId);
  }
}
