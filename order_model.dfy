/**
 * The Order schema: the required fields, the payment-status enum and its
 * default, the optional transaction id and the creation-time default.
 * Amounts are JavaScript numbers in the source; they are whole rupees here.
 */
module OrderModel {
  import opened Common

  datatype PaymentStatus = Pending | Paid | Failed

  function StatusName(s: PaymentStatus): string {
    match s
    case Pending => "Pending"
    case Paid => "Paid"
    case Failed => "Failed"
  }

  datatype Order = Order(
    buyer: UserId,
    buyerName: string,
    shippingAddress: string,
    contactNumber: string,
    artwork: ArtworkId,
    amount: int,
    transactionId: Option<string>,
    paymentStatus: PaymentStatus,
    createdAt: Instant)

  /** The fields a caller hands to `Order.create`, each possibly absent. */
  datatype OrderInput = OrderInput(
    buyer: Option<UserId>,
    buyerName: Option<string>,
    shippingAddress: Option<string>,
    contactNumber: Option<string>,
    artwork: Option<ArtworkId>,
    amount: Option<int>,
    transactionId: Option<string>,
    paymentStatus: Option<string>,
    createdAt: Option<Instant>)

  /** Casting the `paymentStatus` value: absent takes the default `Pending`. */
  function CastStatus(v: Option<string>): (r: Option<PaymentStatus>)
    ensures v.None? ==> r == Some(Pending)
    ensures v.Some? ==> (r.Some? <==> (v.value == "Pending" || v.value == "Paid" || v.value == "Failed"))
    ensures v.Some? && r.Some? ==> StatusName(r.value) == v.value
  {
    match v
    case None => Some(Pending)
    case Some(name) =>
      if name == "Pending" then Some(Pending)
      else if name == "Paid" then Some(Paid)
      else if name == "Failed" then Some(Failed)
      else None
  }

  predicate OrderInputValid(input: OrderInput)
    ensures OrderInputValid(input) ==>
      input.paymentStatus.None? || input.paymentStatus.value in {"Pending", "Paid", "Failed"}
  {
    && input.buyer.Some?
    && PresentText(input.buyerName)
    && PresentText(input.shippingAddress)
    && PresentText(input.contactNumber)
    && input.artwork.Some?
    && input.amount.Some?
    && CastStatus(input.paymentStatus).Some?
  }

  /**
   * Building and validating an order document at time `now`: `None` is the
   * validation error of `save()`.
   */
  function CreateOrder(input: OrderInput, now: Instant): (r: Option<Order>)
    ensures r.Some? <==> OrderInputValid(input)
  {
    if !OrderInputValid(input) then None
    else
      Some(Order(
        input.buyer.value,
        input.buyerName.value,
        input.shippingAddress.value,
        input.contactNumber.value,
        input.artwork.value,
        input.amount.value,
        input.transactionId,
        CastStatus(input.paymentStatus).value,
        input.createdAt.GetOr(now)))
  }

  /**
   * Defaults and requirements of the schema: an order built without a
   * payment status is `Pending`, one built without a creation time is
   * stamped `now`, the transaction id is never required, and a missing
   * required field always fails.
   */
  lemma CreateOrderDefaults(input: OrderInput, now: Instant)
    ensures (CreateOrder(input, now).Some? && input.paymentStatus.None?)
            ==> CreateOrder(input, now).value.paymentStatus == Pending
    ensures (CreateOrder(input, now).Some? && input.createdAt.None?)
            ==> CreateOrder(input, now).value.createdAt == now
    ensures CreateOrder(input, now).Some? ==> CreateOrder(input, now).value.transactionId == input.transactionId
    ensures CreateOrder(input.(transactionId := None), now).Some? <==> CreateOrder(input, now).Some?
    ensures (|| input.buyer.None? || input.artwork.None? || input.amount.None?
             || !PresentText(input.buyerName) || !PresentText(input.shippingAddress)
             || !PresentText(input.contactNumber))
            ==> CreateOrder(input, now).None?
  {
  }
}
