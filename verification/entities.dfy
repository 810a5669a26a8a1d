/** The JPA entities and the request/response DTOs of the payment service,
    as immutable records. */
module Entities {
  import opened Wrappers

  /** A `java.util.UUID`; the model only ever compares identifiers. */
  type Uuid = nat

  /** A `LocalDateTime` reading; timestamps are copied, never compared. */
  type Instant = int

  /** A `BigDecimal` amount; amounts are copied, never computed on. */
  type Amount = int

  /** The status every transaction of the make-payment flow is saved with. */
  const Pending: string := "pending"

  /** A row of `customers`: `id` is generated, `customerId` is the caller's business key. */
  datatype Customer = Customer(
    id: Uuid,
    customerId: Uuid,
    createdAt: Option<Instant>,
    updatedAt: Option<Instant>)

  /** A row of `payments`: `customerId` holds the owning customer's generated `id`. */
  datatype Payment = Payment(
    id: Uuid,
    customerId: Uuid,
    createdAt: Option<Instant>,
    updatedAt: Option<Instant>)

  /** A row of `transactions`, owned by the payment `paymentId`. The bank-transfer
      columns are optional because the make-payment flow never sets them. */
  datatype Transaction = Transaction(
    id: Uuid,
    transactionId: Option<string>,
    paymentId: Uuid,
    amount: Amount,
    currency: Option<string>,
    accountNumber: Option<string>,
    routingNumber: Option<string>,
    accountHolderName: Option<string>,
    status: string,
    description: Option<string>,
    createdAt: Option<Instant>,
    updatedAt: Option<Instant>)

  datatype MakePaymentRequest = MakePaymentRequest(customerId: Uuid, amount: Amount, paymentMethod: string)

  /** What the service reports about one transaction; `transactionId` carries the row's generated `id`. */
  datatype MakePaymentResponse = MakePaymentResponse(
    transactionId: Uuid,
    amount: Amount,
    status: string,
    createdAt: Option<Instant>)

  datatype BankTransferResponse = BankTransferResponse(
    transferId: string,
    accountNumber: string,
    routingNumber: string,
    accountHolderName: string,
    amount: Amount,
    currency: string,
    status: string,
    transferDate: Option<Instant>,
    description: string)

  /** The response built from a saved transaction, field for field. */
  function Summary(t: Transaction): MakePaymentResponse {
    MakePaymentResponse(t.id, t.amount, t.status, t.createdAt)
  }
}
