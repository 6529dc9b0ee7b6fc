/** The payment schema: the record the payment collection stores, its
    defaults and its required fields. */
module PaymentModel {

  import opened Common
  import opened ErrorHandler

  /** The `transactionStatus` enumeration. */
  datatype TransactionStatus = Pending | Success | Failed

  /** A stored payment; the amount is held in hundredths. */
  datatype Payment = Payment(
    id: Id,
    booking: Id,
    amount: nat,
    paymentMethod: string,
    transactionStatus: TransactionStatus,
    transactionId: Option<string>,
    timestamp: int)

  /** `new Payment({booking, amount, paymentMethod})` followed by `save()`:
      the schema fills in the defaults (status `Pending`, no transaction id,
      the creation time) and rejects an empty payment method, which is
      required. */
  function NewPayment(id: Id, booking: Id, amount: nat, paymentMethod: string, now: int): (r: Result<Payment, AppError>)
    ensures r.Ok? <==> paymentMethod != ""
    ensures r.Ok? ==>
      && r.value.id == id && r.value.booking == booking && r.value.amount == amount
      && r.value.paymentMethod == paymentMethod
      && r.value.transactionStatus == Pending
      && r.value.transactionId == None
      && r.value.timestamp == now
    ensures r.Err? ==> r.error == SchemaViolation("Payment") && Handle(r.error).status == BAD_REQUEST
  {
    if paymentMethod == "" then Err(SchemaViolation("Payment"))
    else Ok(Payment(id, booking, amount, paymentMethod, Pending, None, now))
  }
}
