# Payment service: find-or-create payment workflow, modelled in Dafny

This project models the core of a small Spring Boot payment backend:

- `PaymentServiceImpl.makePayment` finds the customer by its business `customerId`, or creates it. It then finds or creates that customer's single payment and records a new transaction with status `"pending"` for the requested amount.
- `PaymentServiceImpl.getPaymentsByCustomerId` follows the chain customer → payment → transactions. It returns one response per transaction, or `null`.
- `PaymentController` decides which HTTP status each endpoint returns for each service outcome.

The three JPA repositories form one immutable `Store` (`repositories.dfy`). Each table is a sequence of rows in insertion order. The counter `nextId` stands in for the database's UUID generator. A derived `findAllBy…` query is `Matching`, which keeps table order. A single-result `findBy…` query is `Lookup`. It finds no row, exactly one row, or several rows. Spring Data answers "several rows" with `IncorrectResultSizeDataAccessException`, modelled as the service fault `IncorrectResultSize`. `CrudRepository.save` on an entity that already has an id is `Save`, an upsert by id. Saving a new entity whose id is generated appends a row with a fresh id.

The store invariant `Consistent` has four parts. At most one customer has a given `customerId` (Customer.java:22-23). At most one payment belongs to each customer (Payment.java:22-23). Primary keys are unique. Every identifier is below `nextId`.

`makePayment` is a pure transition `MakePayment(store, request, clock)`. Its result is the new store plus the response, or a fault. The `clock` parameter gives the successive `LocalDateTime.now()` readings of one call. `getPaymentsByCustomerId` is a pure query. Its `Success(None)` is the service's `null`. Because the query returns no store, it leaves the store unchanged and answers the same when called twice in a row.

Three behaviours of the code are easy to miss, and the model keeps them as written:

- When an existing payment is reused, the code changes only its `createdAt`, to the current time; it re-sets `customerId` to the value it already holds. It does not touch `updatedAt` (PaymentServiceImpl.java:61-63). So a reused payment loses its original creation time.
- The controller answers 404 for an empty list as well as for `null` (PaymentController.java:55-56). So a known customer whose payment has no transactions cannot be told apart from an unknown customer.
- The `transactions == null` branch (PaymentServiceImpl.java:92-94) can never be taken. A derived list query returns an empty list, not `null`, so the model has no such case.

## Model

| member | source | states |
|---|---|---|
| Repositories.Matching | src/main/java/com/paymentService/model/repository/TransactionRepository.java:10 | The result holds exactly the rows whose column equals the key, and is no longer than the table. |
| Repositories.MatchingCounts | src/main/java/com/paymentService/model/repository/TransactionRepository.java:10 | Each matching row is returned exactly as many times as the table holds it, and rows that do not match are never returned. |
| Repositories.MatchingAppend | src/main/java/com/paymentService/model/repository/TransactionRepository.java:10 | In the model, where query results are in table order, a row appended to the table shows up after all earlier matches. The source query declares no order; see Left out. |
| Repositories.MatchingNone | src/main/java/com/paymentService/model/repository/TransactionRepository.java:10 | A query that no row satisfies returns the empty list, never a missing value. |
| Repositories.MatchingOfUniqueKey | src/main/java/com/paymentService/model/Customer.java:22-23 | On a column declared unique, a query matches at most one row. |
| Repositories.MatchingOfKeyTwice | src/main/java/com/paymentService/model/repository/PaymentRepository.java:8 | Two positions carrying the key make the query match at least two rows, the case in which a single-result finder throws. |
| Repositories.KeyTwiceOfMatching | src/main/java/com/paymentService/model/repository/PaymentRepository.java:8 | A query that matches at least two rows has two positions carrying the key. |
| Repositories.Lookup | src/main/java/com/paymentService/model/repository/CustomerRepository.java:7 | No match exactly when no row has the key. The several-rows outcome happens exactly when two positions of the table carry the key. A unique match is in the table, carries the key, and is the only such row. On a unique column the finder never hits the several-rows error. |
| Repositories.Save | src/main/java/com/paymentService/service/implementations/PaymentServiceImpl.java:63 | After saving, the entity is in the table and is the only row with its id. Every row with another id is kept. The length stays the same exactly when some row already had the id; when no row had the id, the result is the old table with the entity appended at the end. |
| Repositories.SaveReplaces | src/main/java/com/paymentService/service/implementations/PaymentServiceImpl.java:56-63 | When primary keys are unique, saving over an existing row replaces that row in place and leaves every other position as it was. |
| Repositories.KeyUniqueAppend | src/main/java/com/paymentService/model/Customer.java:22-23 | Appending a row whose key no existing row has keeps the column duplicate-free. |
| Repositories.KeyUniqueReplace | src/main/java/com/paymentService/model/Payment.java:22-23 | Overwriting a row with one that has the same key keeps the column duplicate-free. |
| Repositories.EmptyStoreConsistent | src/main/java/com/paymentService/model/Customer.java:22-23 | The empty store satisfies the invariant, so together with MakePaymentPreservesConsistency every store reached by payments alone is consistent. |
| PaymentService.OpenAccount | src/main/java/com/paymentService/service/implementations/PaymentServiceImpl.java:39-54 | For an unknown customer: exactly one customer is added, with the requested customerId. Exactly one payment is added, owned by that customer's internal id. Exactly one transaction is added, on that payment, pending, for the requested amount. The response reports that transaction. All new ids are fresh. |
| PaymentService.PayAsCustomer | src/main/java/com/paymentService/service/implementations/PaymentServiceImpl.java:56-70 | For a known customer, no customer is added. A unique existing payment is overwritten at its own position, with only createdAt changed to the current reading and updatedAt kept (given unique payment ids). The new transaction goes on that payment and every other payment is kept. With no payment, exactly one payment is added for the customer and used. Exactly one pending transaction for the amount is added, with a fresh id. The call fails exactly when the payment finder sees several rows. |
| PaymentService.MakePayment | src/main/java/com/paymentService/service/implementations/PaymentServiceImpl.java:36-71 | On success, the store holds a customer with the requested customerId. That customer's payment has exactly one new transaction, pending, with the request amount. The response's id, amount, status and createdAt are that transaction's. No customer is added for a known customerId. A failure is possible only on an inconsistent store. |
| PaymentService.Summaries | src/main/java/com/paymentService/service/implementations/PaymentServiceImpl.java:95-98 | The response list has the same length and order as the transaction list, and each entry copies id, amount, status and createdAt. |
| PaymentService.CollectSummaries | src/main/java/com/paymentService/service/implementations/PaymentServiceImpl.java:95-99 | The accumulating loop builds exactly the field-for-field response list. |
| PaymentService.GetPaymentsByCustomerId | src/main/java/com/paymentService/service/implementations/PaymentServiceImpl.java:82-100 | Fails only on an inconsistent store. Every listed response describes a transaction in the store. |
| PaymentService.GetPaymentsNotFound | src/main/java/com/paymentService/service/implementations/PaymentServiceImpl.java:83-90 | On a consistent store, the query returns null exactly when no customer has the customerId, or that customer holds no payment. |
| PaymentService.GetPaymentsOfPayment | src/main/java/com/paymentService/service/implementations/PaymentServiceImpl.java:87-99 | On a consistent store, for a customer and its payment, the query returns that payment's transactions mapped field for field, in table order. |
| PaymentService.OpenAccountConsistent | src/main/java/com/paymentService/service/implementations/PaymentServiceImpl.java:37-54 | The unknown-customer branch keeps every uniqueness and freshness invariant. |
| PaymentService.NewPaymentConsistent | src/main/java/com/paymentService/service/implementations/PaymentServiceImpl.java:56-69 | When a known customer has no payment, the new payment and transaction keep the store consistent: still one payment per customer, and ids unique and issued. |
| PaymentService.ReusedPaymentConsistent | src/main/java/com/paymentService/service/implementations/PaymentServiceImpl.java:56-69 | Overwriting a known customer's existing payment in place and adding a transaction on it keeps the store consistent. |
| PaymentService.AddPaymentConsistent | src/main/java/com/paymentService/model/Payment.java:22-23 | Adding a fresh-id payment for a customer that had none, plus a fresh-id transaction on it, keeps a consistent store consistent. |
| PaymentService.AppendedListedLast | src/main/java/com/paymentService/service/implementations/PaymentServiceImpl.java:91-98 | Under the model's table-order queries, a transaction appended for a payment comes last among that payment's transactions, and its response comes last in the mapped list. |
| PaymentService.MakePaymentPreservesConsistency | src/main/java/com/paymentService/service/implementations/PaymentServiceImpl.java:36-71 | On a consistent store, makePayment succeeds for every request, with no validation of the amount, including zero or negative amounts. The resulting store is again consistent: at most one customer per customerId and at most one payment per customer. |
| PaymentService.GetAfterCharge | src/main/java/com/paymentService/service/implementations/PaymentServiceImpl.java:83-99 | Once a charge on a customer is recorded in a consistent store, querying that customer returns a non-empty list that contains the charge's response. Under the model's table-order queries, it is also the last entry. |
| PaymentService.MakePaymentThenGet | src/main/java/com/paymentService/service/implementations/PaymentServiceImpl.java:36-99 | After makePayment(c, a) returns r on a consistent store, getPaymentsByCustomerId(c) is non-null and contains r. Under the model's table-order queries, r is also the last entry. |
| PaymentController.MakePaymentReply | src/main/java/com/paymentService/controller/PaymentController.java:34-42 | 200 exactly when the service returned, with its response as the body unchanged. 500 with no body exactly when it threw any exception. |
| PaymentController.PaymentsReply | src/main/java/com/paymentService/controller/PaymentController.java:51-62 | 404 with no body exactly when the result is null or empty. 200 with the list unchanged exactly when the list is non-empty. 500 with no body exactly when the call threw. |
| PaymentController.BankTransferReply | src/main/java/com/paymentService/controller/PaymentController.java:70-80 | 200 with the response exactly when the service returned. 400 with no body exactly on IllegalArgumentException. 500 with no body exactly on any other exception. |
| PaymentController.MakePaymentEndpointOk | src/main/java/com/paymentService/controller/PaymentController.java:37-38 | On a consistent store, the make-payment endpoint always answers 200. Its body is the response of the pending transaction just recorded for the requested amount. |
| PaymentController.PaymentsEndpointAfterMakePayment | src/main/java/com/paymentService/controller/PaymentController.java:55-58 | After a payment, the payments endpoint for that customer answers 200 with a list that contains the payment's response. Under the model's table-order queries, it is the last entry. |
| PaymentController.PaymentsEndpointNotFound | src/main/java/com/paymentService/controller/PaymentController.java:55-56 | On a consistent store, the payments endpoint answers 404 exactly when no transaction is reachable from the customer through its payment. An unknown customer, a customer without a payment, and a payment without transactions give the same answer. |

## Left out

- The bank-transfer workflow: its validation, status transitions and gateway call are not modelled. The controller calls `processBankTransfer`, but the service interface does not declare it and `PaymentServiceImpl` does not implement it. Only the controller's outcome-to-status mapping is modelled, with the service outcome as a parameter.
- JWT parsing and the security filter chain (`JwtUtil`, `JwtTokenFilter`, `SecurityConfig`) and the application bootstrap: they are framework configuration and library calls, not workflow logic.
- Database constraint enforcement and failing saves: every save succeeds in the model. `makePayment` leaves several transaction columns unset that the schema declares non-nullable: `transactionId`, `currency`, `accountNumber`, `routingNumber` and `accountHolderName`. A real database might reject such a save. The model follows the service code and stores them as absent.
- Partial writes: `makePayment` is not transactional, so a save that fails after the customer is saved would leave that customer behind. Saves cannot fail in the model, so this is not represented.
- Repositories.Matching: the source query `findAllByPaymentId` declares no order, so the database may return rows in any order. The model returns rows in table (insertion) order. Hence the "last entry" conclusions of MatchingAppend, AppendedListedLast, GetAfterCharge, MakePaymentThenGet and PaymentsEndpointAfterMakePayment hold only in the model. The order-independent promise is that the response is contained in the list. The store gives back rows exactly as saved. A real database column may re-scale the amount or truncate the timestamp on read-back, so "contains r" is an equality of values in the model only.
- Real clock values and UUID generation: time comes in as the `Clock` parameter and ids come from the `nextId` counter. Freshness of generated UUIDs is an invariant of the counter, not a probability.
- Null fields in the request: a `null` `customerId` or `amount` is not modelled. Amounts are unbounded integers standing in for `BigDecimal` and are only ever copied. `paymentMethod` is carried in the request and ignored, as in the code.
- Concurrency: the find-or-create race between two simultaneous requests for a new customerId is out of scope. The model is sequential.
- HTTP routing, JSON (de)serialisation, path-variable parse errors, and `Throwable`s that are not `Exception`s (the controller does not catch them).
