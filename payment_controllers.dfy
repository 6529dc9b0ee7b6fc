/** The payment controllers: create a payment intent with the gateway, and
    read stored payments. The gateway is a parameter of the model; nothing
    here changes the store. */
module PaymentControllers {

  import opened Common
  import opened Validators
  import opened ErrorHandler
  import opened PaymentModel
  import opened Store

  const AmountRequired := "Amount value is required"
  const InvalidAmount := "Invalid amount format"
  const PaymentIdRequired := "Payment ID is required as req param"
  const PaymentNotFound := "Payment not found"

  /** The checks of `processPayment`, in order. */
  function PaymentAmountCheck(amount: string): (c: Check)
    ensures c == Fail(BAD_REQUEST, AmountRequired) <==> amount == ""
    ensures c == Fail(BAD_REQUEST, InvalidAmount) <==> amount != "" && !IsAmount(amount)
    ensures c == Pass <==> IsAmount(amount)
  {
    AmountAcceptsIff(amount);
    if amount == "" then Fail(BAD_REQUEST, AmountRequired)
    else if !AmountAccepts(amount) then Fail(BAD_REQUEST, InvalidAmount)
    else Pass
  }

  /** `processPayment`. `gateway(amount)` stands for creating the payment
      intent: the client secret it returns, or the error it throws. */
  function ProcessPayment(amount: string, gateway: string -> Result<string, AppError>): (r: Reply<string>)
    ensures PaymentAmountCheck(amount).Fail? ==> r == Reject(PaymentAmountCheck(amount))
    ensures r.Done? <==> IsAmount(amount) && gateway(amount).Ok?
    ensures r.Done? ==> r.status == CREATED && r.value == gateway(amount).value
    ensures IsAmount(amount) && gateway(amount).Err? ==> r == Raise(gateway(amount).error)
  {
    var check := PaymentAmountCheck(amount);
    if check.Fail? then Reject(check)
    else match gateway(amount)
      case Err(e) => Raise(e)
      case Ok(secret) => Done(CREATED, "Payment intent successfully created", secret)
  }

  /** Both checks come before the gateway: a rejected amount gets the same
      answer whatever the gateway would do. */
  lemma ProcessPaymentChecksFirst(amount: string, g1: string -> Result<string, AppError>,
                                  g2: string -> Result<string, AppError>)
    requires !IsAmount(amount)
    ensures ProcessPayment(amount, g1) == ProcessPayment(amount, g2)
    ensures ProcessPayment(amount, g1).status == BAD_REQUEST
  {
  }

  /** The empty amount and a word are refused with their own messages, and
      a three-digit fraction is refused as a format error. */
  lemma ProcessPaymentSamples(gateway: string -> Result<string, AppError>)
    ensures ProcessPayment("", gateway) == Refused(BAD_REQUEST, AmountRequired)
    ensures ProcessPayment("invalid_amount", gateway) == Refused(BAD_REQUEST, InvalidAmount)
    ensures ProcessPayment("100.005", gateway) == Refused(BAD_REQUEST, InvalidAmount)
  {
    AmountSamples();
  }

  /** `getAllPayments`: every stored payment, in store order. */
  function GetAllPayments(s: State): (r: Reply<seq<Payment>>)
    ensures r.Done? && r.status == OK
    ensures r.value == s.payments
  {
    Done(OK, "", s.payments)
  }

  /** `getPaymentById`. */
  function GetPaymentById(s: State, paymentId: Option<Id>): (r: Reply<Payment>)
    ensures paymentId.None? ==> r == Refused(BAD_REQUEST, PaymentIdRequired)
    ensures r == Refused(NOT_FOUND, PaymentNotFound) <==>
      paymentId.Some? && forall j :: 0 <= j < |s.payments| ==> s.payments[j].id != paymentId.value
    ensures r.Done? ==> r.status == OK && paymentId.Some? && r.value.id == paymentId.value && r.value in s.payments
  {
    if paymentId.None? then Refused(BAD_REQUEST, PaymentIdRequired)
    else match FindPayment(s.payments, paymentId.value)
      case None => Refused(NOT_FOUND, PaymentNotFound)
      case Some(i) => Done(OK, "", s.payments[i])
  }

  /** Every payment in a valid store can be fetched by its id and refers to
      a stored booking. */
  lemma StoredPaymentsFound(s: State, i: nat)
    requires ValidState(s) && i < |s.payments|
    ensures GetPaymentById(s, Some(s.payments[i].id)) == Done(OK, "", s.payments[i])
    ensures exists j :: 0 <= j < |s.bookings| && s.bookings[j].id == s.payments[i].booking
  {
    var found := FindPayment(s.payments, s.payments[i].id);
    assert found.Some?;
    assert found.value == i;
    assert s.payments[i].booking in BookingIds(s.bookings);
  }
}
