/** The Cart document of backend1/models/Cart.js: item validation (quantity at least 1, type
    `purchase` or `rent`, rental dates required exactly for rent items, price required) and the
    `pre('save')` hook that recomputes `totalAmount` as a fold over the items. */
module CartSchema {
  import opened Common
  import opened Text

  /** One day in milliseconds (`1000 * 60 * 60 * 24`). */
  const DayMillis: int := 86400000

  /** Dates are integer milliseconds since the epoch. */
  datatype RentalDuration = RentalDuration(startDate: Option<int>, endDate: Option<int>)

  /** A cart item sub-document as it is held before validation: `kind` is the raw `type` string. */
  datatype CartItem = CartItem(
    id: Id,
    book: Id,
    quantity: int,
    kind: string,
    price: Option<int>,
    rentalDuration: Option<RentalDuration>)

  datatype Cart = Cart(id: Id, user: Id, items: seq<CartItem>, totalAmount: int)

  predicate IsRent(item: CartItem) { item.kind == "rent" }

  predicate IsPurchase(item: CartItem) { item.kind == "purchase" }

  /** Both rental dates are set. */
  predicate HasDates(r: Option<RentalDuration>)
  {
    r.Some? && r.value.startDate.Some? && r.value.endDate.Some?
  }

  /** The item schema's rules. */
  predicate ValidItem(item: CartItem)
  {
    && item.quantity >= 1
    && (IsPurchase(item) || IsRent(item))
    && (IsRent(item) ==> HasDates(item.rentalDuration))
    && item.price.Some?
  }

  /** The item paths that fail validation, in schema order. */
  function ItemErrors(item: CartItem): (errs: seq<string>)
    ensures errs == [] <==> ValidItem(item)
    ensures "quantity" in errs <==> item.quantity < 1
    ensures "price" in errs <==> item.price.None?
  {
    var rent := IsRent(item);
    var r := item.rentalDuration;
    (if item.quantity < 1 then ["quantity"] else [])
    + (if !IsPurchase(item) && !rent then ["type"] else [])
    + (if rent && (r.None? || r.value.startDate.None?) then ["rentalDuration.startDate"] else [])
    + (if rent && (r.None? || r.value.endDate.None?) then ["rentalDuration.endDate"] else [])
    + (if item.price.None? then ["price"] else [])
  }

  /** `items.<i>.` in front of every path of item `i`. */
  function Prefixed(i: nat, paths: seq<string>): (r: seq<string>)
    ensures |r| == |paths|
  {
    seq(|paths|, k requires 0 <= k < |paths| => "items." + NatToString(i) + "." + paths[k])
  }

  /** The failing paths of `items`, numbered from `from`. */
  function ItemsErrors(items: seq<CartItem>, from: nat): (errs: seq<string>)
    ensures errs == [] <==> forall i :: 0 <= i < |items| ==> ValidItem(items[i])
    decreases |items|
  {
    if items == [] then []
    else
      var rest := ItemsErrors(items[1..], from + 1);
      assert forall i :: 1 <= i < |items| ==> items[i] == items[1..][i - 1];
      Prefixed(from, ItemErrors(items[0])) + rest
  }

  predicate AllValid(items: seq<CartItem>)
  {
    forall i :: 0 <= i < |items| ==> ValidItem(items[i])
  }

  /** `Math.ceil(a / b)` for a positive divisor. */
  function CeilDiv(a: int, b: int): int
    requires b > 0
  {
    -((-a) / b)
  }

  /** `CeilDiv(a, b)` is the least `q` with `a <= q * b`. */
  lemma CeilDivBounds(a: int, b: int)
    requires b > 0
    ensures (CeilDiv(a, b) - 1) * b < a <= CeilDiv(a, b) * b
  {
  }

  /** The number of (started) days a rental spans: `Math.ceil((end - start) / 86400000)`. */
  function Days(r: RentalDuration): int
    requires r.startDate.Some? && r.endDate.Some?
  {
    CeilDiv(r.endDate.value - r.startDate.value, DayMillis)
  }

  /** A rental of `d` days lasts more than `d - 1` whole days and at most `d`. */
  lemma DaysBounds(r: RentalDuration)
    requires r.startDate.Some? && r.endDate.Some?
    ensures (Days(r) - 1) * DayMillis < r.endDate.value - r.startDate.value <= Days(r) * DayMillis
  {
    CeilDivBounds(r.endDate.value - r.startDate.value, DayMillis);
  }

  /** What one valid item adds to the total: `price * days * quantity` for rent,
      `price * quantity` otherwise. */
  function Contribution(item: CartItem): int
    requires ValidItem(item)
  {
    if IsRent(item) then item.price.value * Days(item.rentalDuration.value) * item.quantity
    else item.price.value * item.quantity
  }

  /** The `reduce` of the pre-save hook: a left fold starting at 0. */
  function Total(items: seq<CartItem>): int
    requires AllValid(items)
  {
    if items == [] then 0
    else Total(items[..|items| - 1]) + Contribution(items[|items| - 1])
  }

  /** Appending an item adds exactly its contribution. */
  lemma TotalAppend(items: seq<CartItem>, item: CartItem)
    requires AllValid(items) && ValidItem(item)
    ensures AllValid(items + [item])
    ensures Total(items + [item]) == Total(items) + Contribution(item)
  {
    assert (items + [item])[..|items|] == items;
  }

  /** Prepending an item adds exactly its contribution too (the fold is a plain sum). */
  lemma {:induction false} TotalPrepend(item: CartItem, items: seq<CartItem>)
    requires AllValid(items) && ValidItem(item)
    ensures AllValid([item] + items)
    ensures Total([item] + items) == Contribution(item) + Total(items)
    decreases |items|
  {
    if items != [] {
      var init := items[..|items| - 1];
      var last := items[|items| - 1];
      assert items == init + [last];
      TotalPrepend(item, init);
      assert [item] + items == ([item] + init) + [last];
      TotalAppend([item] + init, last);
      TotalAppend(init, last);
    } else {
      assert [item] + items == [] + [item];
      TotalAppend([], item);
    }
  }

  /** The total of a concatenation is the sum of the totals. */
  lemma {:induction false} TotalConcat(a: seq<CartItem>, b: seq<CartItem>)
    requires AllValid(a) && AllValid(b)
    ensures AllValid(a + b)
    ensures Total(a + b) == Total(a) + Total(b)
    decreases |b|
  {
    if b == [] {
      assert a + b == a;
    } else {
      var init := b[..|b| - 1];
      var last := b[|b| - 1];
      assert b == init + [last];
      assert a + b == (a + init) + [last];
      TotalConcat(a, init);
      TotalAppend(a + init, last);
      TotalAppend(init, last);
    }
  }

  /** A stored cart: every item valid and `totalAmount` equal to the fold of its items. */
  predicate Saved(c: Cart)
  {
    AllValid(c.items) && c.totalAmount == Total(c.items)
  }

  /** `cart.save()`: validation first (a failing cart is not written and the error lists every
      failing path), then the pre-save hook sets `totalAmount` from the items. */
  function SaveCart(c: Cart): (r: Result<Cart>)
    ensures r.Success? <==> AllValid(c.items)
    ensures r.Failure? ==> r.error == SchemaError(ItemsErrors(c.items, 0)) && r.error.paths != []
    ensures r.Success? ==> Saved(r.value) && r.value.items == c.items
    ensures r.Success? ==> r.value.id == c.id && r.value.user == c.user
  {
    var errs := ItemsErrors(c.items, 0);
    if errs != [] then Failure(SchemaError(errs))
    else Success(c.(totalAmount := Total(c.items)))
  }

  /** `Cart.create({ user, items: [] })`: a new empty cart, saved with total 0. */
  function NewCart(id: Id, user: Id): (c: Cart)
    ensures Saved(c) && c.items == [] && c.totalAmount == 0 && c.user == user
  {
    Cart(id, user, [], 0)
  }

  /** The first item with the given id (`cart.items.id(itemId)`), as an index. */
  function FindItem(items: seq<CartItem>, itemId: Id): (r: Option<nat>)
    ensures r.Some? ==> r.value < |items| && items[r.value].id == itemId
    ensures r.Some? ==> forall j :: 0 <= j < r.value ==> items[j].id != itemId
    ensures r.None? ==> forall j :: 0 <= j < |items| ==> items[j].id != itemId
  {
    if items == [] then None
    else if items[0].id == itemId then Some(0)
    else
      var rest := FindItem(items[1..], itemId);
      if rest.None? then None else Some(rest.value + 1)
  }

  /** `cart.items.filter(item => item._id.toString() !== itemId)`. */
  function RemoveItem(items: seq<CartItem>, itemId: Id): (r: seq<CartItem>)
    ensures forall x :: x in r <==> x in items && x.id != itemId
    ensures |r| <= |items|
    ensures (forall j :: 0 <= j < |items| ==> items[j].id != itemId) ==> r == items
    ensures AllValid(items) ==> AllValid(r)
  {
    if items == [] then []
    else (if items[0].id == itemId then [] else [items[0]]) + RemoveItem(items[1..], itemId)
  }

  /** The filter of one item keeps it exactly when its id differs. */
  lemma RemoveItemSingle(x: CartItem, itemId: Id)
    ensures RemoveItem([x], itemId) == (if x.id == itemId then [] else [x])
  {
    assert [x][1..] == [];
  }

  /** The filter works item by item, in order: filtering a concatenation concatenates the
      filtered parts, so the surviving items keep their order and their multiplicity. */
  lemma {:induction false} RemoveItemConcat(a: seq<CartItem>, b: seq<CartItem>, itemId: Id)
    ensures RemoveItem(a + b, itemId) == RemoveItem(a, itemId) + RemoveItem(b, itemId)
    decreases |a|
  {
    if a == [] {
      assert a + b == b;
    } else {
      assert (a + b)[0] == a[0];
      assert (a + b)[1..] == a[1..] + b;
      RemoveItemConcat(a[1..], b, itemId);
    }
  }

  /** Two removals commute: the filter keeps the surviving items in their original order. */
  lemma {:induction false} RemoveItemCommutes(items: seq<CartItem>, itemId: Id, other: Id)
    requires other != itemId
    ensures RemoveItem(RemoveItem(items, itemId), other) == RemoveItem(RemoveItem(items, other), itemId)
  {
    if items != [] {
      RemoveItemCommutes(items[1..], itemId, other);
      var x := items[0];
      var tail := items[1..];
      if x.id == itemId {
        assert RemoveItem(items, itemId) == RemoveItem(tail, itemId);
        assert RemoveItem(items, other) == [x] + RemoveItem(tail, other);
        assert ([x] + RemoveItem(tail, other))[1..] == RemoveItem(tail, other);
      } else if x.id == other {
        assert RemoveItem(items, other) == RemoveItem(tail, other);
        assert RemoveItem(items, itemId) == [x] + RemoveItem(tail, itemId);
        assert ([x] + RemoveItem(tail, itemId))[1..] == RemoveItem(tail, itemId);
      } else {
        assert RemoveItem(items, itemId) == [x] + RemoveItem(tail, itemId);
        assert ([x] + RemoveItem(tail, itemId))[1..] == RemoveItem(tail, itemId);
        assert RemoveItem(items, other) == [x] + RemoveItem(tail, other);
        assert ([x] + RemoveItem(tail, other))[1..] == RemoveItem(tail, other);
      }
    }
  }
}
