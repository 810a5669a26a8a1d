/** `PaymentController`: how each endpoint turns the outcome of its service
    call into an HTTP status and body. */
module PaymentController {
  import opened Wrappers
  import opened Entities
  import opened Repositories
  import opened PaymentService

  type HttpStatus = int

  const OK: HttpStatus := 200
  const BadRequest: HttpStatus := 400
  const NotFound: HttpStatus := 404
  const InternalServerError: HttpStatus := 500

  /** The exceptions the controller tells apart: `IllegalArgumentException`
      (and its subclasses) and every other `Exception`. */
  datatype Exception = IllegalArgument | OtherException

  /** What a service call did: returned a possibly-null value, or threw. */
  datatype Invocation<T> = Returned(result: Option<T>) | Threw(exception: Exception)

  /** A `ResponseEntity`: a status and an optional body. */
  datatype Reply<T> = Reply(status: HttpStatus, body: Option<T>)

  /** `POST /make-payment`: whatever the service returns is sent with 200;
      any exception becomes a bodiless 500. */
  function MakePaymentReply(o: Invocation<MakePaymentResponse>): (r: Reply<MakePaymentResponse>)
    ensures r.status == OK <==> o.Returned?
    ensures r.status == InternalServerError <==> o.Threw?
    ensures o.Returned? ==> r.body == o.result
    ensures o.Threw? ==> r.body.None?
  {
    match o
    case Returned(response) => Reply(OK, response)
    case Threw(_) => Reply(InternalServerError, None)
  }

  /** `GET /customer/{customerId}/payments`: a null or empty list is a
      bodiless 404, a non-empty list is sent unchanged with 200, and any
      exception is a bodiless 500. */
  function PaymentsReply(o: Invocation<seq<MakePaymentResponse>>): (r: Reply<seq<MakePaymentResponse>>)
    ensures r.status == NotFound <==> o.Returned? && (o.result.None? || o.result.value == [])
    ensures r.status == OK <==> o.Returned? && o.result.Some? && o.result.value != []
    ensures r.status == InternalServerError <==> o.Threw?
    ensures r.status == OK ==> r.body == o.result
    ensures r.status != OK ==> r.body.None?
  {
    match o
    case Threw(_) => Reply(InternalServerError, None)
    case Returned(payments) =>
      if payments.None? || payments.value == [] then Reply(NotFound, None)
      else Reply(OK, payments)
  }

  /** `POST /bank-transfer`: success is 200 with the service's response, an
      `IllegalArgumentException` is a bodiless 400, any other exception a
      bodiless 500. */
  function BankTransferReply(o: Invocation<BankTransferResponse>): (r: Reply<BankTransferResponse>)
    ensures r.status == OK <==> o.Returned?
    ensures r.status == BadRequest <==> o == Threw(IllegalArgument)
    ensures r.status == InternalServerError <==> o == Threw(OtherException)
    ensures o.Returned? ==> r.body == o.result
    ensures o.Threw? ==> r.body.None?
  {
    match o
    case Returned(response) => Reply(OK, response)
    case Threw(IllegalArgument) => Reply(BadRequest, None)
    case Threw(OtherException) => Reply(InternalServerError, None)
  }

  /** The service's fault as the controller sees it:
      `IncorrectResultSizeDataAccessException` is not an `IllegalArgumentException`. */
  function Raised(f: Fault): Exception {
    match f
    case IncorrectResultSize => OtherException
  }

  function MakePaymentCall(r: Result<Step, Fault>): Invocation<MakePaymentResponse> {
    match r
    case Success(s) => Returned(Some(s.response))
    case Failure(f) => Threw(Raised(f))
  }

  function PaymentsCall(r: Result<Option<seq<MakePaymentResponse>>, Fault>): Invocation<seq<MakePaymentResponse>> {
    match r
    case Success(payments) => Returned(payments)
    case Failure(f) => Threw(Raised(f))
  }

  /** On a consistent store `POST /make-payment` always answers 200 with the
      pending transaction just recorded for the requested amount. */
  lemma MakePaymentEndpointOk(st: Store, req: MakePaymentRequest, clock: Clock)
    requires Consistent(st)
    ensures var r := MakePayment(st, req, clock);
      && r.Success?
      && MakePaymentReply(MakePaymentCall(r)) == Reply(OK, Some(r.value.response))
      && r.value.response.status == Pending
      && r.value.response.amount == req.amount
  {
  }

  /** After a payment, the customer's payments endpoint answers 200 and its
      list contains the payment's response; with the model's insertion-ordered
      queries it is the last entry. */
  lemma PaymentsEndpointAfterMakePayment(st: Store, req: MakePaymentRequest, clock: Clock)
    requires Consistent(st)
    ensures var r := MakePayment(st, req, clock);
      var reply := PaymentsReply(PaymentsCall(GetPaymentsByCustomerId(r.value.store, req.customerId)));
      && reply.status == OK
      && reply.body.Some? && reply.body.value != []
      && r.value.response in reply.body.value
      && Newest(reply.body.value) == r.value.response
  {
    MakePaymentThenGet(st, req, clock);
  }

  /** On a consistent store the payments endpoint answers 404 exactly when no
      transaction is reachable from the customer through its payment: an
      unknown customer, a customer without a payment and a payment without
      transactions all look the same to the caller. */
  lemma PaymentsEndpointNotFound(st: Store, customerId: Uuid)
    requires Consistent(st)
    ensures PaymentsReply(PaymentsCall(GetPaymentsByCustomerId(st, customerId))).status == NotFound <==>
      forall c, p :: c in st.customers && c.customerId == customerId && p in st.payments && p.customerId == c.id ==>
        forall t :: t in st.transactions ==> t.paymentId != p.id
  {
  }
}
