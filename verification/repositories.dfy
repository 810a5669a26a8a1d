/** The three Spring Data repositories as one immutable store: each table is a
    sequence of rows in insertion order, and `nextId` stands in for the
    database's UUID generator (every identifier it has issued is below it). */
module Repositories {
  import opened Entities

  datatype Store = Store(
    customers: seq<Customer>,
    payments: seq<Payment>,
    transactions: seq<Transaction>,
    nextId: Uuid)

  // The columns the repositories look rows up by.

  function CustomerPk(c: Customer): Uuid { c.id }
  function CustomerKey(c: Customer): Uuid { c.customerId }
  function PaymentPk(p: Payment): Uuid { p.id }
  function PaymentOwner(p: Payment): Uuid { p.customerId }
  function TransactionPk(t: Transaction): Uuid { t.id }
  function TransactionPayment(t: Transaction): Uuid { t.paymentId }

  /** No two rows of `s` agree on the column `key`. */
  predicate KeyUnique<T>(s: seq<T>, key: T -> Uuid) {
    forall i, j :: 0 <= i < j < |s| ==> key(s[i]) != key(s[j])
  }

  /** The rows of `s` whose column `key` equals `k`: a derived `findAllBy…`
      query. The query declares no ordering; the model fixes it to table
      (insertion) order. */
  function Matching<T(!new)>(s: seq<T>, key: T -> Uuid, k: Uuid): (r: seq<T>)
    ensures |r| <= |s|
    ensures forall x :: x in r <==> x in s && key(x) == k
  {
    if s == [] then []
    else (if key(s[0]) == k then [s[0]] else []) + Matching(s[1..], key, k)
  }

  /** Every matching row is returned exactly as many times as the table holds
      it, and no other row is returned. */
  lemma {:induction false} MatchingCounts<T(!new)>(s: seq<T>, key: T -> Uuid, k: Uuid)
    ensures forall x :: multiset(Matching(s, key, k))[x] == if key(x) == k then multiset(s)[x] else 0
  {
    if s != [] {
      MatchingCounts(s[1..], key, k);
      assert s == [s[0]] + s[1..];
      assert multiset(s) == multiset([s[0]]) + multiset(s[1..]);
    }
  }

  /** Rows added at the end of a table are found after the earlier ones. */
  lemma {:induction false} MatchingAppend<T(!new)>(s: seq<T>, x: T, key: T -> Uuid, k: Uuid)
    ensures Matching(s + [x], key, k) == Matching(s, key, k) + (if key(x) == k then [x] else [])
  {
    if s == [] {
      assert s + [x] == [x];
    } else {
      assert (s + [x])[1..] == s[1..] + [x];
      MatchingAppend(s[1..], x, key, k);
    }
  }

  /** A query no row satisfies returns the empty list. */
  lemma {:induction false} MatchingNone<T(!new)>(s: seq<T>, key: T -> Uuid, k: Uuid)
    requires forall x :: x in s ==> key(x) != k
    ensures Matching(s, key, k) == []
  {
    if s != [] {
      assert s[0] in s;
      MatchingNone(s[1..], key, k);
    }
  }

  /** On a column without duplicates a query matches at most one row. */
  lemma {:induction false} MatchingOfUniqueKey<T(!new)>(s: seq<T>, key: T -> Uuid, k: Uuid)
    ensures KeyUnique(s, key) ==> |Matching(s, key, k)| <= 1
  {
    if s != [] && KeyUnique(s, key) {
      assert KeyUnique(s[1..], key) by {
        forall i, j | 0 <= i < j < |s[1..]|
          ensures key(s[1..][i]) != key(s[1..][j])
        {
          assert s[1..][i] == s[i + 1] && s[1..][j] == s[j + 1];
        }
      }
      MatchingOfUniqueKey(s[1..], key, k);
      if key(s[0]) == k {
        forall y | y in s[1..]
          ensures key(y) != k
        {
          var j :| 0 <= j < |s[1..]| && s[1..][j] == y;
          assert s[1..][j] == s[j + 1];
        }
        MatchingNone(s[1..], key, k);
      }
    }
  }

  /** Two rows carrying the key make a query match at least two rows. */
  lemma {:induction false} MatchingOfKeyTwice<T(!new)>(s: seq<T>, key: T -> Uuid, k: Uuid, i: int, j: int)
    requires 0 <= i < j < |s| && key(s[i]) == k && key(s[j]) == k
    ensures |Matching(s, key, k)| >= 2
  {
    var t := s[1..];
    assert t[j - 1] == s[j];
    if i == 0 {
      assert t[j - 1] in Matching(t, key, k);
    } else {
      assert t[i - 1] == s[i];
      MatchingOfKeyTwice(t, key, k, i - 1, j - 1);
    }
  }

  /** A query that matches at least two rows has two positions carrying the key. */
  lemma {:induction false} KeyTwiceOfMatching<T(!new)>(s: seq<T>, key: T -> Uuid, k: Uuid)
    requires |Matching(s, key, k)| >= 2
    ensures exists i, j :: 0 <= i < j < |s| && key(s[i]) == k && key(s[j]) == k
  {
    var t := s[1..];
    if key(s[0]) == k {
      var x := Matching(t, key, k)[0];
      assert x in Matching(t, key, k);
      var j :| 0 <= j < |t| && t[j] == x;
      assert s[j + 1] == x && key(s[0]) == k;
    } else {
      KeyTwiceOfMatching(t, key, k);
      var i, j :| 0 <= i < j < |t| && key(t[i]) == k && key(t[j]) == k;
      assert s[i + 1] == t[i] && s[j + 1] == t[j];
    }
  }

  /** The outcome of a single-result derived query (`findBy…` returning one
      entity): no row, exactly one row, or several rows, which Spring Data
      reports by throwing `IncorrectResultSizeDataAccessException`. */
  datatype Found<T> = NoMatch | Unique(value: T) | NonUnique

  function Lookup<T(!new)>(s: seq<T>, key: T -> Uuid, k: Uuid): (r: Found<T>)
    ensures r.NoMatch? <==> forall x :: x in s ==> key(x) != k
    ensures r.Unique? ==> r.value in s && key(r.value) == k
    ensures r.Unique? ==> forall x :: x in s && key(x) == k ==> x == r.value
    ensures r.NonUnique? <==> exists i, j :: 0 <= i < j < |s| && key(s[i]) == k && key(s[j]) == k
    ensures KeyUnique(s, key) ==> !r.NonUnique?
  {
    var m := Matching(s, key, k);
    MatchingOfUniqueKey(s, key, k);
    assert |m| < 2 ==> !exists i, j :: 0 <= i < j < |s| && key(s[i]) == k && key(s[j]) == k by {
      if exists i, j :: 0 <= i < j < |s| && key(s[i]) == k && key(s[j]) == k {
        var i, j :| 0 <= i < j < |s| && key(s[i]) == k && key(s[j]) == k;
        MatchingOfKeyTwice(s, key, k, i, j);
      }
    }
    if |m| == 0 then NoMatch
    else if |m| == 1 then (assert m == [m[0]] && m[0] in m; Unique(m[0]))
    else (assert m[0] in m; KeyTwiceOfMatching(s, key, k); NonUnique)
  }

  /** `CrudRepository.save` of an entity whose identifier is set: every row
      carrying that identifier is overwritten in place, or the entity is
      inserted at the end when no row carries it. */
  function Save<T(!new)>(table: seq<T>, pk: T -> Uuid, e: T): (r: seq<T>)
    ensures e in r
    ensures forall x :: x in r ==> x == e || (x in table && pk(x) != pk(e))
    ensures forall x :: x in table && pk(x) != pk(e) ==> x in r
    ensures |r| == |table| <==> exists i :: 0 <= i < |table| && pk(table[i]) == pk(e)
    ensures (forall i :: 0 <= i < |table| ==> pk(table[i]) != pk(e)) ==> r == table + [e]
  {
    if exists i :: 0 <= i < |table| && pk(table[i]) == pk(e) then
      var r := seq(|table|, i requires 0 <= i < |table| => if pk(table[i]) == pk(e) then e else table[i]);
      assert forall i :: 0 <= i < |table| && pk(table[i]) == pk(e) ==> r[i] == e;
      assert forall i :: 0 <= i < |table| && pk(table[i]) != pk(e) ==> r[i] == table[i];
      r
    else
      table + [e]
  }

  /** When identifiers are unique, saving over row `i` replaces exactly that row. */
  lemma SaveReplaces<T(!new)>(table: seq<T>, pk: T -> Uuid, e: T, i: int)
    requires KeyUnique(table, pk)
    requires 0 <= i < |table| && pk(table[i]) == pk(e)
    ensures Save(table, pk, e) == table[i := e]
  {
  }

  /** Appending a row whose key is new keeps a column duplicate-free. */
  lemma KeyUniqueAppend<T(!new)>(s: seq<T>, key: T -> Uuid, x: T)
    requires KeyUnique(s, key)
    requires forall y :: y in s ==> key(y) != key(x)
    ensures KeyUnique(s + [x], key)
  {
  }

  /** Replacing a row by one with the same key keeps a column duplicate-free. */
  lemma KeyUniqueReplace<T>(s: seq<T>, key: T -> Uuid, i: int, e: T)
    requires KeyUnique(s, key)
    requires 0 <= i < |s| && key(e) == key(s[i])
    ensures KeyUnique(s[i := e], key)
  {
  }

  /** Every identifier and every reference in the store was issued by the generator. */
  predicate Issued(st: Store) {
    && (forall c :: c in st.customers ==> c.id < st.nextId)
    && (forall p :: p in st.payments ==> p.id < st.nextId && p.customerId < st.nextId)
    && (forall t :: t in st.transactions ==> t.id < st.nextId && t.paymentId < st.nextId)
  }

  /** The store invariant: at most one customer per business `customerId`, at
      most one payment per customer, unique primary keys, and no identifier
      the generator has yet to issue. */
  predicate Consistent(st: Store) {
    && KeyUnique(st.customers, CustomerKey)
    && KeyUnique(st.payments, PaymentOwner)
    && KeyUnique(st.customers, CustomerPk)
    && KeyUnique(st.payments, PaymentPk)
    && KeyUnique(st.transactions, TransactionPk)
    && Issued(st)
  }

  /** The empty store the application starts from satisfies the invariant. */
  lemma EmptyStoreConsistent()
    ensures Consistent(Store([], [], [], 0))
  {
  }
}
