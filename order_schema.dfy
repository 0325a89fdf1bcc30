/** The Order document of backend/models/Order.js: item rules (quantity at least 1, price and
    type required, rental dates required exactly for rent items), the status, payment-status and
    payment-method enumerations with their defaults, and the [0, 100] range of `rating`. */
module OrderSchema {
  import opened Common
  import opened Text
  import opened CartSchema

  datatype OrderStatus = Pending | Confirmed | Shipped | Delivered | Cancelled | Returned

  function OrderStatusName(s: OrderStatus): string
  {
    match s
    case Pending => "pending"
    case Confirmed => "confirmed"
    case Shipped => "shipped"
    case Delivered => "delivered"
    case Cancelled => "cancelled"
    case Returned => "returned"
  }

  /** The `status` enumeration: exactly the six listed names. */
  function ParseOrderStatus(s: string): (st: Option<OrderStatus>)
    ensures st.Some? <==> s in ["pending", "confirmed", "shipped", "delivered", "cancelled", "returned"]
    ensures st.Some? ==> OrderStatusName(st.value) == s
  {
    if s == "pending" then Some(Pending)
    else if s == "confirmed" then Some(Confirmed)
    else if s == "shipped" then Some(Shipped)
    else if s == "delivered" then Some(Delivered)
    else if s == "cancelled" then Some(Cancelled)
    else if s == "returned" then Some(Returned)
    else None
  }

  lemma OrderStatusRoundTrip(st: OrderStatus)
    ensures ParseOrderStatus(OrderStatusName(st)) == Some(st)
  {
    match st
    case Pending => case Confirmed => case Shipped => case Delivered => case Cancelled => case Returned =>
  }

  datatype PaymentStatus = PaymentPending | PaymentCompleted | PaymentFailed | PaymentRefunded

  datatype PaymentMethod = CreditCard | DebitCard | Upi | NetBanking

  /** The `paymentMethod` enumeration. */
  function ParsePaymentMethod(s: string): (m: Option<PaymentMethod>)
    ensures m.Some? <==> s in ["credit_card", "debit_card", "upi", "net_banking"]
  {
    if s == "credit_card" then Some(CreditCard)
    else if s == "debit_card" then Some(DebitCard)
    else if s == "upi" then Some(Upi)
    else if s == "net_banking" then Some(NetBanking)
    else None
  }

  /** An order line. `completed` is the per-item status that completing a rental writes. */
  datatype OrderItem = OrderItem(
    book: Id,
    uploader: Id,
    quantity: int,
    kind: string,
    price: Option<int>,
    rentalDuration: Option<RentalDuration>,
    completed: bool)

  datatype Order = Order(
    id: Id,
    user: Id,
    items: seq<OrderItem>,
    totalAmount: int,
    status: OrderStatus,
    hasRated: bool,
    rating: Option<int>,
    paymentStatus: PaymentStatus,
    paymentMethod: PaymentMethod)

  /** The order item schema's rules. */
  predicate ValidOrderItem(it: OrderItem)
  {
    && it.quantity >= 1
    && (it.kind == "purchase" || it.kind == "rent")
    && (it.kind == "rent" ==> HasDates(it.rentalDuration))
    && it.price.Some?
  }

  /** The order schema's rules on a stored order (the enumerations hold by construction). */
  predicate ValidOrder(o: Order)
  {
    && (forall i :: 0 <= i < |o.items| ==> ValidOrderItem(o.items[i]))
    && (o.rating.Some? ==> 0 <= o.rating.value <= 100)
  }

  /** The failing paths of one order item, in schema order. */
  function OrderItemErrors(i: nat, it: OrderItem): (errs: seq<string>)
    ensures errs == [] <==> ValidOrderItem(it)
  {
    var rent := it.kind == "rent";
    var r := it.rentalDuration;
    Prefixed(i,
      (if it.quantity < 1 then ["quantity"] else [])
      + (if it.kind != "purchase" && !rent then ["type"] else [])
      + (if rent && (r.None? || r.value.startDate.None?) then ["rentalDuration.startDate"] else [])
      + (if rent && (r.None? || r.value.endDate.None?) then ["rentalDuration.endDate"] else [])
      + (if it.price.None? then ["price"] else []))
  }

  function OrderItemsErrors(items: seq<OrderItem>, from: nat): (errs: seq<string>)
    ensures errs == [] <==> forall i :: 0 <= i < |items| ==> ValidOrderItem(items[i])
    decreases |items|
  {
    if items == [] then []
    else
      var rest := OrderItemsErrors(items[1..], from + 1);
      assert forall i :: 1 <= i < |items| ==> items[i] == items[1..][i - 1];
      OrderItemErrors(from, items[0]) + rest
  }

  /** The object handed to `Order.create`. */
  datatype OrderInput = OrderInput(user: Id, items: seq<OrderItem>, totalAmount: int, paymentMethod: Option<string>)

  /** A payment method that is present and in the enumeration. */
  predicate PaymentMethodOk(m: Option<string>)
  {
    m.Some? && ParsePaymentMethod(m.value).Some?
  }

  /** `Order.create`: the defaults (status pending, `hasRated` false, no rating, payment status
      pending), then validation of the items and of the required `paymentMethod`. */
  function CreateOrderDoc(id: Id, input: OrderInput): (r: Result<Order>)
    ensures r.Success? <==> PaymentMethodOk(input.paymentMethod)
                            && forall i :: 0 <= i < |input.items| ==> ValidOrderItem(input.items[i])
    ensures r.Failure? ==> r.error.SchemaError? && r.error.paths != []
    ensures r.Failure? && !PaymentMethodOk(input.paymentMethod) ==> "paymentMethod" in r.error.paths
    ensures r.Success? ==> ValidOrder(r.value)
    ensures r.Success? ==> r.value.status == Pending && !r.value.hasRated && r.value.rating.None?
    ensures r.Success? ==> r.value.paymentStatus == PaymentPending
    ensures r.Success? ==> r.value.id == id && r.value.user == input.user
                           && r.value.items == input.items && r.value.totalAmount == input.totalAmount
  {
    var errs := OrderItemsErrors(input.items, 0)
      + (if PaymentMethodOk(input.paymentMethod) then [] else ["paymentMethod"]);
    if errs != [] then Failure(SchemaError(errs))
    else
      Success(Order(id, input.user, input.items, input.totalAmount, Pending, false, None,
                    PaymentPending, ParsePaymentMethod(input.paymentMethod.value).value))
  }

  /** `order.save()` after an in-place change: the order is written back as it is when it is
      valid; otherwise the save fails naming the failing paths. */
  function SaveOrder(o: Order): (r: Result<Order>)
    ensures r.Success? <==> ValidOrder(o)
    ensures r.Success? ==> r.value == o
    ensures r.Failure? ==> r.error.SchemaError?
  {
    var errs := OrderItemsErrors(o.items, 0)
      + (if o.rating.Some? && !(0 <= o.rating.value <= 100) then ["rating"] else []);
    if errs != [] then Failure(SchemaError(errs)) else Success(o)
  }
}
