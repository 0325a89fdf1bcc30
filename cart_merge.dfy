/** The `addToCart` of backend/controllers/cartController.js: the requested type must be one
    the book's listing type offers, and a second add of the same (book, type) merges into the
    existing item instead of being refused. Reading, updating and removing are the actions of
    `CartController`, which this file shares word for word. */
module CartMerge {
  import opened Common
  import opened Text
  import opened BookSchema
  import opened CartSchema
  import opened Store
  import opened CartController

  /** `type === 'rent' && !['lease', 'both'].includes(listingType)` and the purchase twin. */
  function ListingError(book: Book, kind: string): (e: Option<Error>)
    ensures e.None? <==> (kind == "rent" ==> OffersLease(book.listingType))
                         && (kind == "purchase" ==> OffersSale(book.listingType))
    ensures e.Some? ==> e.value.AppError? && e.value.status == 400
  {
    if kind == "rent" && !OffersLease(book.listingType) then Some(AppError(400, "This book is not available for rent"))
    else if kind == "purchase" && !OffersSale(book.listingType) then Some(AppError(400, "This book is not available for purchase"))
    else None
  }

  /** `cart.items.findIndex(item => item.book === bookId && item.type === type)`. */
  function FindPair(items: seq<CartItem>, bookId: Id, kind: string): (r: Option<nat>)
    ensures r.None? <==> !HasPair(items, bookId, kind)
    ensures r.Some? ==> r.value < |items| && items[r.value].book == bookId && items[r.value].kind == kind
    ensures r.Some? ==> forall j :: 0 <= j < r.value ==> !(items[j].book == bookId && items[j].kind == kind)
  {
    if items == [] then None
    else if items[0].book == bookId && items[0].kind == kind then Some(0)
    else
      var rest := FindPair(items[1..], bookId, kind);
      assert forall j :: 1 <= j < |items| ==> items[j] == items[1..][j - 1];
      if rest.None? then None else Some(rest.value + 1)
  }

  /** `items[i].quantity += quantity`, and for rent `items[i].rentalDuration = rentalDuration`
      (which may clear the dates); the price is left as it was. The quantity added is a number
      here: a missing one is the NaN case of `MergeItem`. */
  function Merged(it: CartItem, quantity: int, kind: string, rental: Option<RentalDuration>): (m: CartItem)
    ensures m.id == it.id && m.book == it.book && m.kind == it.kind && m.price == it.price
    ensures m.quantity == it.quantity + quantity
    ensures m.rentalDuration == (if kind == "rent" then rental else it.rentalDuration)
  {
    it.(quantity := it.quantity + quantity, rentalDuration := if kind == "rent" then rental else it.rentalDuration)
  }

  /** The item pushed when there is none for the (book, type): the requested quantity, which
      the schema defaults to 1 when none was sent. */
  function Pushed(id: Id, bookId: Id, book: Book, quantity: Option<int>, kind: string, rental: Option<RentalDuration>): CartItem
  {
    CartItem(id, bookId, if quantity.Some? then quantity.value else 1, kind, ItemPrice(book, kind), ItemDates(kind, rental))
  }

  /** The add once the checks have passed: merge into the (book, type) item or push a new one,
      then save. With no quantity in the request, `+=` makes the quantity NaN, which the save
      rejects on that item's quantity path. Only that path is reported: any other path a NaN
      would reach, such as a total derived from it, is not modelled. */
  function MergeItem(s: State, user: Id, bookId: Id, book: Book, quantity: Option<int>, kind: string,
                     rental: Option<RentalDuration>): (out: (Result<Cart>, State))
    ensures OnlyCartOf(s, out.1, user)
    ensures out.0.Failure? ==> user in out.1.carts && out.1.carts[user].items == ItemsOf(s, user)
    ensures out.0.Failure? ==> out.0.error.SchemaError?
    ensures out.0.Success? ==> user in out.1.carts && out.1.carts[user] == out.0.value && Saved(out.0.value)
    ensures out.0.Success? && HasPair(ItemsOf(s, user), bookId, kind) ==>
              var k := FindPair(ItemsOf(s, user), bookId, kind).value;
              && quantity.Some?
              && out.0.value.items == ItemsOf(s, user)[k := Merged(ItemsOf(s, user)[k], quantity.value, kind, rental)]
    ensures out.0.Success? && !HasPair(ItemsOf(s, user), bookId, kind) ==>
              && |out.0.value.items| == |ItemsOf(s, user)| + 1
              && out.0.value.items[..|ItemsOf(s, user)|] == ItemsOf(s, user)
              && exists id :: id >= s.nextId && out.0.value.items[|ItemsOf(s, user)|] == Pushed(id, bookId, book, quantity, kind, rental)
  {
    MergeOrPush(EnsureCart(s, user), user, bookId, book, quantity, kind, rental)
  }

  /** The merge or push on a state that already holds the user's cart. */
  function MergeOrPush(s1: State, user: Id, bookId: Id, book: Book, quantity: Option<int>, kind: string,
                     rental: Option<RentalDuration>): (Result<Cart>, State)
    requires user in s1.carts
  {
    var items := s1.carts[user].items;
    var found := FindPair(items, bookId, kind);
    if found.Some? then
      var k := found.value;
      if quantity.None? then (Failure(SchemaError(["items." + NatToString(k) + ".quantity"])), s1)
      else StoreCart(s1, user, items[k := Merged(items[k], quantity.value, kind, rental)], s1.nextId)
    else
      StoreCart(s1, user, items + [Pushed(s1.nextId, bookId, book, quantity, kind, rental)], s1.nextId + 1)
  }

  /** What the merging `addToCart` responds and what the database holds afterwards. */
  function AddMerging(s: State, user: Id, bookId: Id, quantity: Option<int>, kind: string,
                      rental: Option<RentalDuration>): (out: (Result<Cart>, State))
    ensures bookId !in s.books ==> out == (Failure(AppError(404, "Book not found")), s)
    ensures bookId in s.books && s.books[bookId].status != Available ==>
              out == (Failure(AppError(400, "Book is not available")), s)
    ensures bookId in s.books && s.books[bookId].status == Available && ListingError(s.books[bookId], kind).Some? ==>
              out == (Failure(ListingError(s.books[bookId], kind).value), s)
    ensures out.0.Success? ==> && bookId in s.books && s.books[bookId].status == Available
                               && (kind == "rent" ==> OffersLease(s.books[bookId].listingType))
                               && (kind == "purchase" ==> OffersSale(s.books[bookId].listingType))
    ensures bookId in s.books && s.books[bookId].status == Available && ListingError(s.books[bookId], kind).None? ==>
              out == MergeItem(s, user, bookId, s.books[bookId], quantity, kind, rental)
  {
    if bookId !in s.books then (Failure(AppError(404, "Book not found")), s)
    else
      var book := s.books[bookId];
      if book.status != Available then (Failure(AppError(400, "Book is not available")), s)
      else
        var e := ListingError(book, kind);
        if e.Some? then (Failure(e.value), s)
        else MergeItem(s, user, bookId, book, quantity, kind, rental)
  }

  /** At most one item per (book, type). */
  predicate PairsUnique(items: seq<CartItem>)
  {
    forall i, j :: 0 <= i < j < |items| ==> !(items[i].book == items[j].book && items[i].kind == items[j].kind)
  }

  /** The merging add keeps every cart free of two items with the same (book, type). */
  lemma MergeKeepsPairsUnique(s: State, user: Id, bookId: Id, book: Book, quantity: Option<int>, kind: string,
                              rental: Option<RentalDuration>)
    requires PairsUnique(ItemsOf(s, user))
    ensures PairsUnique(ItemsOf(MergeItem(s, user, bookId, book, quantity, kind, rental).1, user))
  {
    var out := MergeItem(s, user, bookId, book, quantity, kind, rental);
    var before := ItemsOf(s, user);
    if out.0.Success? {
      var after := out.0.value.items;
      if HasPair(before, bookId, kind) {
        var k := FindPair(before, bookId, kind).value;
        assert forall i :: 0 <= i < |after| ==> after[i].book == before[i].book && after[i].kind == before[i].kind;
      } else {
        forall i, j | 0 <= i < j < |after| ensures !(after[i].book == after[j].book && after[i].kind == after[j].kind) {
          assert after[i] == before[i];
          if j < |before| {
            assert after[j] == before[j];
          } else {
            assert after[j].book == bookId && after[j].kind == kind;
          }
        }
      }
    }
  }

  lemma MergeItemKeepsValid(s: State, user: Id, bookId: Id, book: Book, quantity: Option<int>, kind: string,
                            rental: Option<RentalDuration>)
    requires Valid(s)
    ensures Valid(MergeItem(s, user, bookId, book, quantity, kind, rental).1)
  {
    MergeOrPushKeepsValid(EnsureCart(s, user), user, bookId, book, quantity, kind, rental);
  }

  lemma MergeOrPushKeepsValid(s1: State, user: Id, bookId: Id, book: Book, quantity: Option<int>, kind: string,
                              rental: Option<RentalDuration>)
    requires Valid(s1) && user in s1.carts
    ensures Valid(MergeOrPush(s1, user, bookId, book, quantity, kind, rental).1)
  {
    var found := FindPair(s1.carts[user].items, bookId, kind);
    if found.Some? && quantity.Some? {
      StoreReplacedKeepsValid(s1, user, found.value, Merged(s1.carts[user].items[found.value], quantity.value, kind, rental));
    } else if found.None? {
      StoreAppendedKeepsValid(s1, user, Pushed(s1.nextId, bookId, book, quantity, kind, rental), s1.nextId + 1);
    }
  }

  /** The store's invariant for this backend: the schema invariants, and no cart holding two
      items with the same (book, type). */
  ghost predicate MergeValid(s: State)
  {
    Valid(s) && forall u :: u in s.carts ==> PairsUnique(s.carts[u].items)
  }

  /** Only the user's cart can change, so the other carts keep their unique pairs. */
  lemma OtherCartsKeepPairs(s: State, t: State, user: Id)
    requires MergeValid(s) && Valid(t) && OnlyCartOf(s, t, user)
    requires PairsUnique(ItemsOf(t, user))
    ensures MergeValid(t)
  {
    forall u | u in t.carts ensures PairsUnique(t.carts[u].items) {
      if u != user {
        assert t.carts[u] == s.carts[u];
      }
    }
  }

  /** Every action of this backend's cart keeps `MergeValid`: the add ... */
  lemma AddMergingKeepsMergeValid(s: State, user: Id, bookId: Id, quantity: Option<int>, kind: string,
                                  rental: Option<RentalDuration>)
    requires MergeValid(s)
    ensures MergeValid(AddMerging(s, user, bookId, quantity, kind, rental).1)
  {
    if bookId in s.books && s.books[bookId].status == Available && ListingError(s.books[bookId], kind).None? {
      var book := s.books[bookId];
      MergeItemKeepsValid(s, user, bookId, book, quantity, kind, rental);
      MergeKeepsPairsUnique(s, user, bookId, book, quantity, kind, rental);
      OtherCartsKeepPairs(s, MergeItem(s, user, bookId, book, quantity, kind, rental).1, user);
    }
  }

  /** ... the update, which changes no item's book or type ... */
  lemma UpdateKeepsMergeValid(s: State, user: Id, itemId: Id, quantity: Option<int>, rental: Option<RentalDuration>)
    requires MergeValid(s)
    ensures MergeValid(UpdateItem(s, user, itemId, quantity, rental).1)
  {
    var out := UpdateItem(s, user, itemId, quantity, rental);
    UpdateItemKeepsValid(s, user, itemId, quantity, rental);
    if out.0.Success? {
      UpdateTouchesOnlyItem(s, user, itemId, quantity, rental);
      var before, after := s.carts[user].items, out.0.value.items;
      assert forall i :: 0 <= i < |after| ==> after[i].book == before[i].book && after[i].kind == before[i].kind;
      OtherCartsKeepPairs(s, out.1, user);
    }
  }

  /** Two items share a (book, type). */
  predicate SamePair(x: CartItem, y: CartItem)
  {
    x.book == y.book && x.kind == y.kind
  }

  /** Unique pairs split into a first item unlike all the others and unique rest ... */
  lemma PairsUniqueTail(items: seq<CartItem>)
    requires items != [] && PairsUnique(items)
    ensures PairsUnique(items[1..])
    ensures forall y :: y in items[1..] ==> !SamePair(items[0], y)
  {
    var tail := items[1..];
    forall i, j | 0 <= i < j < |tail| ensures !SamePair(tail[i], tail[j]) {
      assert tail[i] == items[i + 1] && tail[j] == items[j + 1];
    }
    forall y | y in tail ensures !SamePair(items[0], y) {
      var m :| 0 <= m < |tail| && tail[m] == y;
      assert items[m + 1] == y;
    }
  }

  /** ... and join back the same way. */
  lemma PairsUniqueCons(x: CartItem, rest: seq<CartItem>)
    requires PairsUnique(rest)
    requires forall y :: y in rest ==> !SamePair(x, y)
    ensures PairsUnique([x] + rest)
  {
    var r := [x] + rest;
    forall i, j | 0 <= i < j < |r| ensures !SamePair(r[i], r[j]) {
      assert r[j] == rest[j - 1];
      if i > 0 {
        assert r[i] == rest[i - 1];
      }
    }
  }

  /** A filter keeps unique pairs: it keeps a subsequence. */
  lemma {:induction false} RemoveKeepsPairsUnique(items: seq<CartItem>, itemId: Id)
    requires PairsUnique(items)
    ensures PairsUnique(RemoveItem(items, itemId))
  {
    if items != [] {
      PairsUniqueTail(items);
      RemoveKeepsPairsUnique(items[1..], itemId);
      if items[0].id != itemId {
        PairsUniqueCons(items[0], RemoveItem(items[1..], itemId));
      }
    }
  }

  /** ... and the removal. */
  lemma RemoveKeepsMergeValid(s: State, user: Id, itemId: Id)
    requires MergeValid(s)
    ensures MergeValid(RemoveSpec(s, user, itemId).1)
  {
    var out := RemoveSpec(s, user, itemId);
    RemoveKeepsValid(s, user, itemId);
    if out.0.Success? {
      RemoveKeepsPairsUnique(s.carts[user].items, itemId);
      OtherCartsKeepPairs(s, out.1, user);
    }
  }

  /** Unlike the rejecting add, adding the same (book, type) twice is accepted: the second
      add raises the quantity of the one item instead of adding another. */
  lemma SecondAddMerges(s: State, user: Id, bookId: Id, q: int, kind: string, rental: Option<RentalDuration>)
    requires user in s.carts && HasPair(s.carts[user].items, bookId, kind)
    requires AddMerging(s, user, bookId, Some(q), kind, rental).0.Success?
    ensures var after := AddMerging(s, user, bookId, Some(q), kind, rental).0.value.items;
            && |after| == |s.carts[user].items|
            && var k := FindPair(s.carts[user].items, bookId, kind).value;
            after[k].quantity == s.carts[user].items[k].quantity + q
  {
  }

  method AddToCart(db: Db, user: Id, bookId: Id, quantity: Option<int>, kind: string, rental: Option<RentalDuration>)
    returns (r: Result<Cart>)
    modifies db
    ensures (r, db.Snapshot()) == AddMerging(old(db.Snapshot()), user, bookId, quantity, kind, rental)
  {
    if bookId !in db.books {
      return Failure(AppError(404, "Book not found"));
    }
    var book := db.books[bookId];
    if book.status != Available {
      return Failure(AppError(400, "Book is not available"));
    }
    if kind == "rent" && !OffersLease(book.listingType) {
      return Failure(AppError(400, "This book is not available for rent"));
    }
    if kind == "purchase" && !OffersSale(book.listingType) {
      return Failure(AppError(400, "This book is not available for purchase"));
    }
    r := MergeInto(db, user, bookId, book, quantity, kind, rental);
  }

  /** Find or create the cart, then merge into the matching item or push a new one, and save. */
  method MergeInto(db: Db, user: Id, bookId: Id, book: Book, quantity: Option<int>, kind: string,
                   rental: Option<RentalDuration>) returns (r: Result<Cart>)
    modifies db
    ensures (r, db.Snapshot()) == MergeItem(old(db.Snapshot()), user, bookId, book, quantity, kind, rental)
  {
    var cart := db.CartFor(user);
    r := MergeOrPushInto(db, user, cart, bookId, book, quantity, kind, rental);
  }

  /** The merge or push and the save, once the cart exists. */
  method MergeOrPushInto(db: Db, user: Id, cart: Cart, bookId: Id, book: Book, quantity: Option<int>, kind: string,
                         rental: Option<RentalDuration>) returns (r: Result<Cart>)
    requires user in db.carts && cart == db.carts[user]
    modifies db
    ensures (r, db.Snapshot()) == MergeOrPush(old(db.Snapshot()), user, bookId, book, quantity, kind, rental)
  {
    ghost var s1 := db.Snapshot();
    var found := FindPair(cart.items, bookId, kind);
    if found.Some? {
      var k := found.value;
      if quantity.None? {
        return Failure(SchemaError(["items." + NatToString(k) + ".quantity"]));
      }
      var item := cart.items[k];
      item := item.(quantity := item.quantity + quantity.value);
      if kind == "rent" {
        item := item.(rentalDuration := rental);
      }
      assert item == Merged(cart.items[k], quantity.value, kind, rental);
      r := db.SaveCartItems(user, cart.items[k := item], db.nextId);
    } else {
      var item := CartItem(db.nextId, bookId, if quantity.Some? then quantity.value else 1, kind,
                           ItemPrice(book, kind), ItemDates(kind, rental));
      assert item == Pushed(s1.nextId, bookId, book, quantity, kind, rental);
      r := db.SaveCartItems(user, cart.items + [item], db.nextId + 1);
    }
  }
}
