/** The database the controllers work on, abstracted to in-memory collections: books, carts
    (one per user, keyed by the user id), orders and reviews, plus the user and publisher
    accounts. Document ids are drawn from a counter, so a new document never reuses an id. */
module Store {
  import opened Common
  import opened BookSchema
  import opened CartSchema
  import opened OrderSchema
  import opened ReviewSchema

  /** A user or publisher account. Only the controllers' view of it is modelled: its fields
      as a JavaScript object (the User and Publisher schemas are not part of this model). */
  datatype Account = Account(id: Id, fields: map<string, JsValue>)

  /** A snapshot of every collection. Accounts and reviews keep their insertion order, which
      decides what `findOne` returns when several documents match. */
  datatype State = State(
    books: map<Id, Book>,
    carts: map<Id, Cart>,
    orders: map<Id, Order>,
    reviews: seq<Review>,
    users: seq<Account>,
    publishers: seq<Account>,
    nextId: nat)

  /** Every stored book satisfies the book schema and sits under its own id. */
  predicate BooksValid(books: map<Id, Book>)
  {
    forall k :: k in books ==> books[k].id == k && ValidBook(books[k])
  }

  /** Every stored cart belongs to the user it is filed under and was saved: its items are
      valid and its total is the fold of its items. */
  predicate CartsValid(carts: map<Id, Cart>)
  {
    forall u :: u in carts ==> carts[u].user == u && Saved(carts[u])
  }

  /** Every stored order sits under its own id and its items satisfy the order item schema.
      The [0, 100] range of `rating` is not part of the invariant: the seller rating writes
      it through an update that skips validation. */
  predicate OrdersValid(orders: map<Id, Order>)
  {
    forall k :: k in orders ==>
      (orders[k].id == k && forall i :: 0 <= i < |orders[k].items| ==> ValidOrderItem(orders[k].items[i]))
  }

  /** Every stored review satisfies the review schema, and the (user, book) index is unique. */
  predicate ReviewsValid(reviews: seq<Review>)
  {
    (forall i :: 0 <= i < |reviews| ==> ValidReview(reviews[i])) && UniquePairs(reviews)
  }

  /** Every id in use is below the counter. */
  predicate IdsBelow(s: State)
  {
    && (forall k :: k in s.books ==> k < s.nextId)
    && (forall k :: k in s.orders ==> k < s.nextId)
    && (forall u :: u in s.carts ==> s.carts[u].id < s.nextId)
    && (forall u, i :: u in s.carts && 0 <= i < |s.carts[u].items| ==> s.carts[u].items[i].id < s.nextId)
    && (forall i :: 0 <= i < |s.reviews| ==> s.reviews[i].id < s.nextId)
  }

  /** The invariant of the store: what the schemas guarantee of every stored document. */
  predicate Valid(s: State)
  {
    BooksValid(s.books) && CartsValid(s.carts) && OrdersValid(s.orders) && ReviewsValid(s.reviews) && IdsBelow(s)
  }

  /** The items of the user's cart, or none when the user has no cart yet. */
  function ItemsOf(s: State, user: Id): seq<CartItem>
  {
    if user in s.carts then s.carts[user].items else []
  }

  /** Only the user's cart (and the id counter, which never goes back) may differ. */
  ghost predicate OnlyCartOf(s: State, t: State, user: Id)
  {
    && t.books == s.books && t.orders == s.orders && t.reviews == s.reviews
    && t.users == s.users && t.publishers == s.publishers
    && (forall u :: u != user ==> (u in t.carts <==> u in s.carts))
    && (forall u :: u != user && u in s.carts ==> t.carts[u] == s.carts[u])
    && t.nextId >= s.nextId
  }

  /** `Cart.findOne({ user })`, then `Cart.create({ user, items: [] })` when there is none; the
      created cart is stored at once. */
  function EnsureCart(s: State, user: Id): (t: State)
    ensures user in t.carts && t.carts[user].items == ItemsOf(s, user)
    ensures OnlyCartOf(s, t, user)
    ensures user !in s.carts ==> t.carts[user] == NewCart(s.nextId, user) && t.nextId == s.nextId + 1
    ensures user in s.carts ==> t == s
    ensures Valid(s) ==> Valid(t)
  {
    if user in s.carts then s
    else s.(carts := s.carts[user := NewCart(s.nextId, user)], nextId := s.nextId + 1)
  }

  /** The state after storing cart `c` under `user` with the counter at `n`. */
  function PutCart(s: State, user: Id, c: Cart, n: nat): State
  {
    s.(carts := s.carts[user := c], nextId := n)
  }

  /** `cart.save()` of the user's stored cart with its items replaced (the counter moves to `n`
      for the ids drawn meanwhile): a valid cart is written with its recomputed total; an
      invalid one is refused and the stored cart stays as it was. */
  function StoreCart(s: State, user: Id, items: seq<CartItem>, n: nat): (out: (Result<Cart>, State))
    requires user in s.carts && n >= s.nextId
    ensures out.0.Success? <==> AllValid(items)
    ensures out.0.Success? ==> && out.0.value == s.carts[user].(items := items, totalAmount := Total(items))
                               && Saved(out.0.value) && out.1 == PutCart(s, user, out.0.value, n)
    ensures out.0.Failure? ==> out.0.error.SchemaError? && out.1 == s.(nextId := n)
    ensures OnlyCartOf(s, out.1, user) && user in out.1.carts
  {
    var saved := SaveCart(s.carts[user].(items := items));
    if saved.Failure? then (saved, s.(nextId := n)) else (saved, PutCart(s, user, saved.value, n))
  }

  /** Saving items whose ids are all below the counter keeps the store's invariants. */
  lemma StoreCartKeepsValid(s: State, user: Id, items: seq<CartItem>, n: nat)
    requires Valid(s) && user in s.carts && n >= s.nextId
    requires forall i :: 0 <= i < |items| ==> items[i].id < n
    ensures Valid(StoreCart(s, user, items, n).1)
  {
    var out := StoreCart(s, user, items, n);
    if out.0.Success? {
      assert out.0.value.id == s.carts[user].id;
      PutCartKeepsValid(s, user, out.0.value, n);
    } else {
      assert IdsBelow(s.(nextId := n));
    }
  }

  /** Replacing one saved item by one with the same id keeps the store's invariants. */
  lemma StoreReplacedKeepsValid(s: State, user: Id, k: nat, m: CartItem)
    requires Valid(s) && user in s.carts && k < |s.carts[user].items|
    requires m.id == s.carts[user].items[k].id
    ensures Valid(StoreCart(s, user, s.carts[user].items[k := m], s.nextId).1)
  {
    var items := s.carts[user].items;
    var after := items[k := m];
    assert forall i :: 0 <= i < |items| ==> items[i].id < s.nextId;
    assert forall i :: 0 <= i < |after| ==> after[i].id < s.nextId;
    StoreCartKeepsValid(s, user, after, s.nextId);
  }

  /** Appending an item numbered below the counter to the user's stored cart keeps the store's
      invariants. */
  lemma StoreAppendedKeepsValid(s: State, user: Id, p: CartItem, n: nat)
    requires user in s.carts && n >= s.nextId && p.id < n
    ensures Valid(s) ==> Valid(StoreCart(s, user, s.carts[user].items + [p], n).1)
  {
    if !Valid(s) { return; }
    var items := s.carts[user].items;
    forall i | 0 <= i < |items + [p]|
      ensures (items + [p])[i].id < n
    {
      if i < |items| { assert IdsBelow(s); }
    }
    StoreCartKeepsValid(s, user, items + [p], n);
  }

  /** Finding or creating the user's cart and saving it with one item appended, numbered with
      the counter after the find, keeps the store's invariants. */
  lemma EnsuredAppendKeepsValid(s: State, user: Id, p: CartItem)
    requires Valid(s) && p.id == EnsureCart(s, user).nextId
    ensures var s1 := EnsureCart(s, user);
            Valid(StoreCart(s1, user, s1.carts[user].items + [p], s1.nextId + 1).1)
  {
    var s1 := EnsureCart(s, user);
    StoreAppendedKeepsValid(s1, user, p, s1.nextId + 1);
  }

  /** Storing a saved cart owned by the user, whose ids are all below the counter, keeps the
      store's invariants. */
  lemma PutCartKeepsValid(s: State, user: Id, c: Cart, n: nat)
    requires Valid(s) && n >= s.nextId
    requires c.user == user && Saved(c) && c.id < n
    requires forall i :: 0 <= i < |c.items| ==> c.items[i].id < n
    ensures Valid(PutCart(s, user, c, n))
  {
    var t := PutCart(s, user, c, n);
    assert CartsValid(t.carts);
    assert IdsBelow(t);
  }

  /** Writing back a stored order under its own id, with valid items, keeps the invariants. */
  lemma ReplaceOrderKeepsValid(s: State, o: Order)
    requires Valid(s) && o.id in s.orders
    requires forall i :: 0 <= i < |o.items| ==> ValidOrderItem(o.items[i])
    ensures Valid(s.(orders := s.orders[o.id := o]))
  {
    assert OrdersValid(s.orders[o.id := o]);
    assert IdsBelow(s.(orders := s.orders[o.id := o]));
  }

  /** The invariants say nothing about accounts. */
  lemma AccountsKeepValid(s: State, users: seq<Account>, publishers: seq<Account>)
    requires Valid(s)
    ensures Valid(s.(users := users, publishers := publishers))
  {
    assert IdsBelow(s.(users := users, publishers := publishers));
  }

  /** The empty database. */
  function Empty(): (s: State)
    ensures Valid(s)
    ensures s.books == map[] && s.carts == map[] && s.orders == map[] && s.reviews == []
  {
    State(map[], map[], map[], [], [], [], 0)
  }

  /** Whether field `key` of the account holds `v`. */
  predicate Holds(a: Account, key: string, v: JsValue)
  {
    key in a.fields && a.fields[key] == v
  }

  /** `findOne({ $or: [{ k1: v1 }, { k2: v2 }] })`: the index of the first account, in insertion
      order, that holds either value, if any. */
  function FindEither(accounts: seq<Account>, k1: string, v1: JsValue, k2: string, v2: JsValue): (r: Option<nat>)
    ensures r.Some? ==> r.value < |accounts| && (Holds(accounts[r.value], k1, v1) || Holds(accounts[r.value], k2, v2))
    ensures r.Some? ==> forall j :: 0 <= j < r.value ==> !Holds(accounts[j], k1, v1) && !Holds(accounts[j], k2, v2)
    ensures r.None? ==> forall j :: 0 <= j < |accounts| ==> !Holds(accounts[j], k1, v1) && !Holds(accounts[j], k2, v2)
  {
    if accounts == [] then None
    else if Holds(accounts[0], k1, v1) || Holds(accounts[0], k2, v2) then Some(0)
    else
      var rest := FindEither(accounts[1..], k1, v1, k2, v2);
      if rest.None? then None else Some(rest.value + 1)
  }

  /** No two accounts share a value of field `key` (a unique index on that field). */
  predicate UniqueField(accounts: seq<Account>, key: string)
  {
    forall i, j :: 0 <= i < j < |accounts| && key in accounts[i].fields && key in accounts[j].fields
                   ==> accounts[i].fields[key] != accounts[j].fields[key]
  }

  /** Appending an account whose value of `key` no account holds keeps the index unique. */
  lemma AppendKeepsUniqueField(accounts: seq<Account>, a: Account, key: string)
    requires UniqueField(accounts, key)
    requires key in a.fields ==> forall j :: 0 <= j < |accounts| ==> !Holds(accounts[j], key, a.fields[key])
    ensures UniqueField(accounts + [a], key)
  {
    var t := accounts + [a];
    forall i, j | 0 <= i < j < |t| && key in t[i].fields && key in t[j].fields
      ensures t[i].fields[key] != t[j].fields[key]
    {
      assert t[i] == accounts[i];
      if j == |accounts| {
        assert !Holds(accounts[i], key, a.fields[key]);
      } else {
        assert t[j] == accounts[j];
      }
    }
  }

  /** The index of the account with the given id (`findById`), if any. */
  function AccountIndex(accounts: seq<Account>, id: Id): (r: Option<nat>)
    ensures r.Some? ==> r.value < |accounts| && accounts[r.value].id == id
    ensures r.None? ==> forall j :: 0 <= j < |accounts| ==> accounts[j].id != id
  {
    if accounts == [] then None
    else if accounts[0].id == id then Some(0)
    else
      var rest := AccountIndex(accounts[1..], id);
      if rest.None? then None else Some(rest.value + 1)
  }

  /** The database itself: one mutable field per collection. Controllers read and reassign
      these fields; `Snapshot` is the value the specifications are stated on. */
  class Db {
    var books: map<Id, Book>
    var carts: map<Id, Cart>
    var orders: map<Id, Order>
    var reviews: seq<Review>
    var users: seq<Account>
    var publishers: seq<Account>
    var nextId: nat

    function Snapshot(): State
      reads this
    {
      State(books, carts, orders, reviews, users, publishers, nextId)
    }

    /** A database holding the given collections. */
    constructor (s: State)
      ensures Snapshot() == s
    {
      books, carts, orders, reviews := s.books, s.carts, s.orders, s.reviews;
      users, publishers, nextId := s.users, s.publishers, s.nextId;
    }

    /** The user's cart, created and stored first when there is none. */
    method CartFor(user: Id) returns (c: Cart)
      modifies this
      ensures Snapshot() == EnsureCart(old(Snapshot()), user) && c == carts[user]
    {
      if user !in carts {
        carts := carts[user := NewCart(nextId, user)];
        nextId := nextId + 1;
      }
      c := carts[user];
    }

    /** Save the user's cart with the given items, the counter moved to `n`. */
    method SaveCartItems(user: Id, items: seq<CartItem>, n: nat) returns (r: Result<Cart>)
      requires user in carts && n >= nextId
      modifies this
      ensures (r, Snapshot()) == StoreCart(old(Snapshot()), user, items, n)
    {
      r := SaveCart(carts[user].(items := items));
      nextId := n;
      if r.Success? {
        carts := carts[user := r.value];
      }
    }
  }
}
