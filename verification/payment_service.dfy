/** `PaymentServiceImpl`: the find-or-create payment workflow and the
    per-customer transaction query, as pure functions over a `Store`. */
module PaymentService {
  import opened Wrappers
  import opened Entities
  import opened Repositories

  /** The successive readings of `LocalDateTime.now()` during one call:
      `clock(k)` is the k-th reading, counted from zero. */
  type Clock = nat -> Instant

  /** The exception a service call can raise on the modelled store: a
      single-result finder met more than one row. */
  datatype Fault = IncorrectResultSize

  /** The store after a successful `makePayment`, and what it returned. */
  datatype Step = Step(store: Store, response: MakePaymentResponse)

  /** `after` is `before` with exactly one row added at its end. */
  predicate Grew<T(==)>(before: seq<T>, after: seq<T>) {
    |after| == |before| + 1 && after[..|before|] == before
  }

  function Newest<T>(s: seq<T>): T
    requires s != []
  {
    s[|s| - 1]
  }

  /** The newest transaction of `s.store` is a pending charge of `amount` on
      a payment that the customer with internal id `owner` holds, it is the
      only transaction added, and the response reports it field for field. */
  predicate Charged(before: Store, s: Step, owner: Uuid, amount: Amount) {
    && Grew(before.transactions, s.store.transactions)
    && Newest(s.store.transactions).status == Pending
    && Newest(s.store.transactions).amount == amount
    && s.response == Summary(Newest(s.store.transactions))
    && exists p :: p in s.store.payments && p.customerId == owner && p.id == Newest(s.store.transactions).paymentId
  }

  function FindCustomer(st: Store, customerId: Uuid): Found<Customer> {
    Lookup(st.customers, CustomerKey, customerId)
  }

  function FindPayment(st: Store, ownerId: Uuid): Found<Payment> {
    Lookup(st.payments, PaymentOwner, ownerId)
  }

  function FindTransactions(st: Store, paymentId: Uuid): seq<Transaction> {
    Matching(st.transactions, TransactionPayment, paymentId)
  }

  /** A new transaction as `makePayment` fills it in: only the payment, the
      amount, the status and the creation time are set. */
  function PendingTransaction(id: Uuid, paymentId: Uuid, amount: Amount, at: Instant): Transaction {
    Transaction(id, None, paymentId, amount, None, None, None, None, Pending, None, Some(at), None)
  }

  /** The unknown-customer branch: a customer, a payment for it and a pending
      transaction for that payment are created, each with a fresh id. */
  function OpenAccount(st: Store, req: MakePaymentRequest, clock: Clock): (s: Step)
    ensures Grew(st.customers, s.store.customers)
    ensures Grew(st.payments, s.store.payments)
    ensures Newest(s.store.customers).customerId == req.customerId
    ensures Newest(s.store.payments).customerId == Newest(s.store.customers).id
    ensures Charged(st, s, Newest(s.store.customers).id, req.amount)
    ensures Newest(s.store.transactions).paymentId == Newest(s.store.payments).id
    ensures Issued(st) ==> Issued(s.store)
    ensures Issued(st) ==> forall c :: c in st.customers ==> c.id != Newest(s.store.customers).id
    ensures Issued(st) ==> forall p :: p in st.payments ==> p.id != Newest(s.store.payments).id && p.customerId != Newest(s.store.customers).id
    ensures Issued(st) ==> forall t :: t in st.transactions ==> t.id != Newest(s.store.transactions).id
  {
    var customer := Customer(st.nextId, req.customerId, Some(clock(0)), None);
    var payment := Payment(st.nextId + 1, customer.id, Some(clock(1)), None);
    var transaction := PendingTransaction(st.nextId + 2, payment.id, req.amount, clock(2));
    var store := Store(st.customers + [customer], st.payments + [payment], st.transactions + [transaction], st.nextId + 3);
    assert payment in store.payments;
    Step(store, Summary(transaction))
  }

  /** The known-customer branch: the customer's payment is reused (its
      creation time overwritten) or, when it has none, a new one is created;
      then a pending transaction is added to it. */
  function PayAsCustomer(st: Store, customer: Customer, req: MakePaymentRequest, clock: Clock): (r: Result<Step, Fault>)
    ensures r.Failure? <==> FindPayment(st, customer.id).NonUnique?
    ensures r.Success? ==> r.value.store.customers == st.customers
    ensures r.Success? ==> Charged(st, r.value, customer.id, req.amount)
    ensures r.Success? && Issued(st) ==> forall t :: t in st.transactions ==> t.id != Newest(r.value.store.transactions).id
    ensures FindPayment(st, customer.id).Unique? ==>
      && |r.value.store.payments| == |st.payments|
      && Newest(r.value.store.transactions).paymentId == FindPayment(st, customer.id).value.id
      && forall p :: p in st.payments && p.id != FindPayment(st, customer.id).value.id ==> p in r.value.store.payments
    ensures FindPayment(st, customer.id).Unique? && KeyUnique(st.payments, PaymentPk) ==>
      exists i :: 0 <= i < |st.payments| && st.payments[i] == FindPayment(st, customer.id).value &&
        r.value.store.payments == st.payments[i := st.payments[i].(createdAt := Some(clock(0)))]
    ensures FindPayment(st, customer.id).NoMatch? ==>
      && Grew(st.payments, r.value.store.payments)
      && Newest(r.value.store.payments).customerId == customer.id
      && Newest(r.value.store.transactions).paymentId == Newest(r.value.store.payments).id
  {
    match FindPayment(st, customer.id)
    case NonUnique => Failure(IncorrectResultSize)
    case NoMatch =>
      var payment := Payment(st.nextId, customer.id, Some(clock(0)), None);
      var transaction := PendingTransaction(st.nextId + 1, payment.id, req.amount, clock(1));
      var store := Store(st.customers, st.payments + [payment], st.transactions + [transaction], st.nextId + 2);
      assert payment in store.payments;
      Success(Step(store, Summary(transaction)))
    case Unique(existing) =>
      var payment := existing.(customerId := customer.id, createdAt := Some(clock(0)));
      var payments := Save(st.payments, PaymentPk, payment);
      var transaction := PendingTransaction(st.nextId, payment.id, req.amount, clock(1));
      var store := Store(st.customers, payments, st.transactions + [transaction], st.nextId + 1);
      var i :| 0 <= i < |st.payments| && st.payments[i] == existing;
      assert |payments| == |st.payments| by {
        assert PaymentPk(st.payments[i]) == PaymentPk(payment);
      }
      assert KeyUnique(st.payments, PaymentPk) ==> payments == st.payments[i := st.payments[i].(createdAt := Some(clock(0)))] by {
        if KeyUnique(st.payments, PaymentPk) {
          SaveReplaces(st.payments, PaymentPk, payment, i);
        }
      }
      Success(Step(store, Summary(transaction)))
  }

  /** `makePayment`: find or create the customer, then charge it. */
  function MakePayment(st: Store, req: MakePaymentRequest, clock: Clock): (r: Result<Step, Fault>)
    ensures r.Failure? ==> !Consistent(st)
    ensures r.Success? ==> exists c :: c in r.value.store.customers && c.customerId == req.customerId && Charged(st, r.value, c.id, req.amount)
    ensures r.Success? && FindCustomer(st, req.customerId).NoMatch? ==>
      && Grew(st.customers, r.value.store.customers)
      && Grew(st.payments, r.value.store.payments)
      && Newest(r.value.store.customers).customerId == req.customerId
      && Newest(r.value.store.payments).customerId == Newest(r.value.store.customers).id
      && Newest(r.value.store.transactions).paymentId == Newest(r.value.store.payments).id
    ensures r.Success? && FindCustomer(st, req.customerId).Unique? ==> r.value.store.customers == st.customers
  {
    match FindCustomer(st, req.customerId)
    case NonUnique => Failure(IncorrectResultSize)
    case NoMatch =>
      var s := OpenAccount(st, req, clock);
      assert Newest(s.store.customers) in s.store.customers;
      Success(s)
    case Unique(customer) =>
      PayAsCustomer(st, customer, req, clock)
  }

  /** The responses for a list of transactions, in the same order. */
  function Summaries(ts: seq<Transaction>): (rs: seq<MakePaymentResponse>)
    ensures |rs| == |ts|
    ensures forall i :: 0 <= i < |ts| ==> rs[i] == Summary(ts[i])
  {
    if ts == [] then [] else [Summary(ts[0])] + Summaries(ts[1..])
  }

  /** The loop of `getPaymentsByCustomerId` that builds the response list. */
  method CollectSummaries(ts: seq<Transaction>) returns (rs: seq<MakePaymentResponse>)
    ensures rs == Summaries(ts)
  {
    rs := [];
    for i := 0 to |ts|
      invariant |rs| == i
      invariant forall k :: 0 <= k < i ==> rs[k] == Summary(ts[k])
    {
      rs := rs + [Summary(ts[i])];
    }
  }

  /** `getPaymentsByCustomerId`: `Success(None)` is the service's `null`. */
  function GetPaymentsByCustomerId(st: Store, customerId: Uuid): (r: Result<Option<seq<MakePaymentResponse>>, Fault>)
    ensures r.Failure? ==> !Consistent(st)
    ensures r.Success? && r.value.Some? ==> forall s :: s in r.value.value ==> exists t :: t in st.transactions && s == Summary(t)
  {
    match FindCustomer(st, customerId)
    case NonUnique => Failure(IncorrectResultSize)
    case NoMatch => Success(None)
    case Unique(customer) =>
      match FindPayment(st, customer.id)
      case NonUnique => Failure(IncorrectResultSize)
      case NoMatch => Success(None)
      case Unique(payment) =>
        var ts := FindTransactions(st, payment.id);
        var rs := Summaries(ts);
        assert forall s :: s in rs ==> exists t :: t in st.transactions && s == Summary(t) by {
          forall s | s in rs
            ensures exists t :: t in st.transactions && s == Summary(t)
          {
            var i :| 0 <= i < |rs| && rs[i] == s;
            assert ts[i] in ts;
          }
        }
        Success(Some(rs))
  }

  /** The unknown-customer branch keeps the store consistent. */
  lemma OpenAccountConsistent(st: Store, req: MakePaymentRequest, clock: Clock)
    requires Consistent(st)
    requires FindCustomer(st, req.customerId).NoMatch?
    ensures Consistent(OpenAccount(st, req, clock).store)
  {
  }

  /** A known customer without a payment gets a new one; the store stays consistent. */
  lemma NewPaymentConsistent(st: Store, customer: Customer, req: MakePaymentRequest, clock: Clock)
    requires Consistent(st)
    requires customer in st.customers
    requires FindPayment(st, customer.id).NoMatch?
    ensures Consistent(PayAsCustomer(st, customer, req, clock).value.store)
  {
    var p := Payment(st.nextId, customer.id, Some(clock(0)), None);
    var t := PendingTransaction(st.nextId + 1, p.id, req.amount, clock(1));
    assert PayAsCustomer(st, customer, req, clock).value.store
      == Store(st.customers, st.payments + [p], st.transactions + [t], st.nextId + 2);
    AddPaymentConsistent(st, p, t);
  }

  /** Adding a payment with a fresh id for a customer that had none, and a
      transaction with the next fresh id on it, keeps a store consistent. */
  lemma AddPaymentConsistent(st: Store, p: Payment, t: Transaction)
    requires Consistent(st)
    requires forall q :: q in st.payments ==> q.customerId != p.customerId
    requires p.id == st.nextId && p.customerId < st.nextId
    requires t.id == st.nextId + 1 && t.paymentId == p.id
    ensures Consistent(Store(st.customers, st.payments + [p], st.transactions + [t], st.nextId + 2))
  {
    KeyUniqueAppend(st.payments, PaymentOwner, p);
    KeyUniqueAppend(st.payments, PaymentPk, p);
    KeyUniqueAppend(st.transactions, TransactionPk, t);
  }

  /** A known customer's payment is overwritten in place; the store stays consistent. */
  lemma ReusedPaymentConsistent(st: Store, customer: Customer, req: MakePaymentRequest, clock: Clock)
    requires Consistent(st)
    requires FindPayment(st, customer.id).Unique?
    ensures Consistent(PayAsCustomer(st, customer, req, clock).value.store)
  {
    var existing := FindPayment(st, customer.id).value;
    var p := existing.(customerId := customer.id, createdAt := Some(clock(0)));
    var t := PendingTransaction(st.nextId, p.id, req.amount, clock(1));
    var i :| 0 <= i < |st.payments| && st.payments[i] == existing;
    SaveReplaces(st.payments, PaymentPk, p, i);
    KeyUniqueReplace(st.payments, PaymentOwner, i, p);
    KeyUniqueReplace(st.payments, PaymentPk, i, p);
    KeyUniqueAppend(st.transactions, TransactionPk, t);
    var payments := st.payments[i := p];
    forall q | q in payments
      ensures q.id < st.nextId + 1 && q.customerId < st.nextId + 1
    {
      var j :| 0 <= j < |payments| && payments[j] == q;
      assert j != i ==> q == st.payments[j];
    }
  }

  /** `makePayment` never throws on a consistent store, whatever the amount
      (zero and negative amounts included), and the store it leaves is
      consistent again. */
  lemma MakePaymentPreservesConsistency(st: Store, req: MakePaymentRequest, clock: Clock)
    requires Consistent(st)
    ensures MakePayment(st, req, clock).Success?
    ensures Consistent(MakePayment(st, req, clock).value.store)
  {
    match FindCustomer(st, req.customerId)
    case NoMatch => OpenAccountConsistent(st, req, clock);
    case Unique(customer) =>
      match FindPayment(st, customer.id)
      case NoMatch => NewPaymentConsistent(st, customer, req, clock);
      case Unique(_) => ReusedPaymentConsistent(st, customer, req, clock);
  }

  /** On a consistent store the query answers `null` exactly when the
      customer is unknown or holds no payment. */
  lemma GetPaymentsNotFound(st: Store, customerId: Uuid)
    requires Consistent(st)
    ensures GetPaymentsByCustomerId(st, customerId) == Success(None) <==>
      || (forall c :: c in st.customers ==> c.customerId != customerId)
      || (exists c :: c in st.customers && c.customerId == customerId && forall p :: p in st.payments ==> p.customerId != c.id)
  {
  }

  /** On a consistent store, once the customer and its payment are known the
      query lists that payment's transactions, in table order, each mapped
      field for field. */
  lemma GetPaymentsOfPayment(st: Store, c: Customer, p: Payment)
    requires Consistent(st)
    requires c in st.customers && p in st.payments && p.customerId == c.id
    ensures GetPaymentsByCustomerId(st, c.customerId) == Success(Some(Summaries(FindTransactions(st, p.id))))
  {
  }

  /** Once a charge on customer `c` has been recorded in a consistent store,
      querying `c` lists that charge, as the last entry under the
      insertion-ordered transaction query. */
  lemma GetAfterCharge(before: Store, s: Step, c: Customer, amount: Amount)
    requires Consistent(s.store)
    requires c in s.store.customers
    requires Charged(before, s, c.id, amount)
    ensures var g := GetPaymentsByCustomerId(s.store, c.customerId);
      && g.Success? && g.value.Some? && g.value.value != []
      && s.response in g.value.value
      && Newest(g.value.value) == s.response
  {
    var p :| p in s.store.payments && p.customerId == c.id && p.id == Newest(s.store.transactions).paymentId;
    GetPaymentsOfPayment(s.store, c, p);
    AppendedListedLast(before.transactions, s.store.transactions, p.id);
  }

  /** A transaction appended to the table comes last among its payment's
      transactions, and so does its response. */
  lemma AppendedListedLast(before: seq<Transaction>, after: seq<Transaction>, paymentId: Uuid)
    requires Grew(before, after)
    requires Newest(after).paymentId == paymentId
    ensures var rs := Summaries(Matching(after, TransactionPayment, paymentId));
      rs != [] && Newest(rs) == Summary(Newest(after))
  {
    GrewByNewest(before, after);
    MatchingAppend(before, Newest(after), TransactionPayment, paymentId);
    NewestSummary(Matching(after, TransactionPayment, paymentId));
  }

  lemma GrewByNewest<T>(before: seq<T>, after: seq<T>)
    requires Grew(before, after)
    ensures after == before + [Newest(after)]
  {
  }

  /** The last response of a list describes its last transaction. */
  lemma NewestSummary(ts: seq<Transaction>)
    requires ts != []
    ensures Summaries(ts) != [] && Newest(Summaries(ts)) == Summary(Newest(ts))
  {
  }

  /** After `makePayment` returns `r`, querying the same customer finds a
      list that contains `r` (its last entry, given insertion-ordered queries). */
  lemma MakePaymentThenGet(st: Store, req: MakePaymentRequest, clock: Clock)
    requires Consistent(st)
    ensures MakePayment(st, req, clock).Success?
    ensures var r := MakePayment(st, req, clock).value;
      var g := GetPaymentsByCustomerId(r.store, req.customerId);
      && g.Success? && g.value.Some? && g.value.value != []
      && Newest(g.value.value) == r.response
      && r.response in g.value.value
  {
    MakePaymentPreservesConsistency(st, req, clock);
    var r := MakePayment(st, req, clock).value;
    var c :| c in r.store.customers && c.customerId == req.customerId && Charged(st, r, c.id, req.amount);
    GetAfterCharge(st, r, c, req.amount);
  }
}
