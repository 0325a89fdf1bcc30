/** The client-side total of frontend/src/components/cart/cartSummary.js: an accumulator fold
    over the cart items that duplicates the server's pre-save formula. */
module CartSummary {
  import opened CartSchema

  /** One step of the `reduce` callback. */
  function Step(total: int, item: CartItem): int
    requires ValidItem(item)
  {
    if IsRent(item) then total + item.price.value * Days(item.rentalDuration.value) * item.quantity
    else total + item.price.value * item.quantity
  }

  /** `items.reduce(step, acc)`, consuming the items from the front. */
  function Reduce(acc: int, items: seq<CartItem>): int
    requires AllValid(items)
    decreases |items|
  {
    if items == [] then acc else Reduce(Step(acc, items[0]), items[1..])
  }

  /** `calculateTotal()`: the fold started at 0. */
  function CalculateTotal(items: seq<CartItem>): (t: int)
    requires AllValid(items)
    ensures items == [] ==> t == 0
  {
    Reduce(0, items)
  }

  /** Folding from any accumulator adds the server total of the items to it. */
  lemma {:induction false} ReduceIsAccPlusTotal(acc: int, items: seq<CartItem>)
    requires AllValid(items)
    ensures Reduce(acc, items) == acc + Total(items)
    decreases |items|
  {
    if items != [] {
      assert items == [items[0]] + items[1..];
      ReduceIsAccPlusTotal(Step(acc, items[0]), items[1..]);
      TotalPrepend(items[0], items[1..]);
    }
  }

  /** The client total equals the `totalAmount` the server stores for the same items. */
  lemma ClientTotalMatchesServer(items: seq<CartItem>)
    requires AllValid(items)
    ensures CalculateTotal(items) == Total(items)
  {
    ReduceIsAccPlusTotal(0, items);
  }

  /** The figure shown as "Subtotal" and as "Total": both are `calculateTotal()`, and for a
      saved cart both equal its `totalAmount`. */
  function Displayed(c: Cart): (shown: (int, int))
    requires Saved(c)
    ensures shown.0 == shown.1 == c.totalAmount
  {
    ClientTotalMatchesServer(c.items);
    (CalculateTotal(c.items), CalculateTotal(c.items))
  }
}
