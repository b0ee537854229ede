/** The decision logic of the promise use-case services: user registration
    (existence check, password hashing), the fulfilled/rejected partition of
    a batch of payments, the retry loop with its unstable API call, and the
    order validation. A promise is modelled by how it settles: Ok for a
    fulfilled one, Err for a rejected one. Where a promise is rejected and
    `resolve` is called afterwards, the first settlement is the one that
    counts. Timers are dropped. */
module PromiseUseCases {
  import opened Common

  // ---------------------------------------------------------------------
  // UserService
  // ---------------------------------------------------------------------

  /** checkUserExists: only one address is taken. */
  function CheckUserExists(email: string): bool
  {
    email == "existing@example.com"
  }

  /** hashPassword: rejects a password whose `.length` (UTF-16 code units)
      is below six, else yields the password behind a fixed prefix. */
  function HashPassword(password: string): (r: Result<string, string>)
    ensures r.Err? <==> Utf16Length(password) < 6
    ensures r.Err? ==> r.error == "Password too short"
    ensures r.Ok? ==> |r.value| == |password| + 7 && r.value[..7] == "hashed_" && r.value[7..] == password
  {
    if Utf16Length(password) < 6 then Err("Password too short") else Ok("hashed_" + password)
  }

  /** Three emoji are six UTF-16 code units: long enough to be hashed. */
  lemma AstralPasswordHashed()
    ensures HashPassword("\U{1F600}\U{1F600}\U{1F600}") == Ok("hashed_\U{1F600}\U{1F600}\U{1F600}")
  {
    assert Utf16Length("\U{1F600}\U{1F600}\U{1F600}") == 6;
    assert "hashed_" + "\U{1F600}\U{1F600}\U{1F600}" == "hashed_\U{1F600}\U{1F600}\U{1F600}";
  }

  /** Two passwords that hash have the same hash only if they are equal. */
  lemma HashPasswordInjective(p1: string, p2: string)
    requires HashPassword(p1).Ok? && HashPassword(p2).Ok?
    requires HashPassword(p1).value == HashPassword(p2).value
    ensures p1 == p2
  {
    assert p1 == HashPassword(p1).value[7..];
  }

  /** The saved user. `id` and `createdAt` stand for the random number and
      the clock reading the database simulation adds. */
  datatype User = User(id: int, email: string, password: string, name: string, createdAt: int)

  /** The message registerUser rethrows an error with. */
  function RegistrationFailed(reason: string): string {
    "Registration failed: " + reason
  }

  /** registerUser: every failure is rethrown with a prefix. */
  function RegisterUser(email: string, password: string, name: string, id: int, createdAt: int): (r: Result<User, string>)
    ensures r == Err(RegistrationFailed("User already exists")) <==> email == "existing@example.com"
    ensures r == Err(RegistrationFailed("Password too short")) <==>
              email != "existing@example.com" && Utf16Length(password) < 6
    ensures r.Ok? <==> email != "existing@example.com" && Utf16Length(password) >= 6
    ensures r.Ok? ==> r.value == User(id, email, HashPassword(password).value, name, createdAt)
  {
    assert |RegistrationFailed("User already exists")| != |RegistrationFailed("Password too short")|;
    if CheckUserExists(email) then Err(RegistrationFailed("User already exists"))
    else match HashPassword(password)
      case Err(message) => Err(RegistrationFailed(message))
      case Ok(hashed) => Ok(User(id, email, hashed, name, createdAt))
  }

  /** A registered user never has the plain password stored. */
  lemma RegisteredPasswordIsHashed(email: string, password: string, name: string, id: int, createdAt: int)
    requires RegisterUser(email, password, name, id, createdAt).Ok?
    ensures RegisterUser(email, password, name, id, createdAt).value.password != password
  {
  }

  // ---------------------------------------------------------------------
  // PaymentService
  // ---------------------------------------------------------------------

  /** A fulfilled payment. The amount 99.99 is kept in cents. */
  datatype Payment = Payment(orderId: nat, status: string, amountCents: int)

  /** How one payment promise settled. */
  datatype Settled = Fulfilled(value: Payment) | Rejected(reason: string)

  /** An entry of the failed list: the `{ reason }` object holding the
      rejection's message. */
  datatype Failure = Failure(reason: string)

  datatype BatchResult = BatchResult(successful: seq<Payment>, failed: seq<Failure>)

  /** processPayment: `succeeds` stands for the random draw. */
  function ProcessPayment(orderId: nat, succeeds: bool): (r: Settled)
    ensures r.Fulfilled? <==> succeeds
    ensures r.Fulfilled? ==> r.value.orderId == orderId
    ensures r.Rejected? ==> r.reason == "Payment failed for order " + NatToString(orderId)
  {
    if succeeds then Fulfilled(Payment(orderId, "paid", 9999))
    else Rejected("Payment failed for order " + NatToString(orderId))
  }

  /** The outcomes `Promise.allSettled` collects, one per order id, in order. */
  function SettleAll(orderIds: seq<nat>, draws: seq<bool>): (r: seq<Settled>)
    requires |draws| == |orderIds|
    ensures |r| == |orderIds|
    ensures forall i :: 0 <= i < |r| ==> (r[i].Fulfilled? <==> draws[i])
    ensures forall i :: 0 <= i < |r| && r[i].Fulfilled? ==> r[i].value.orderId == orderIds[i]
    ensures forall i :: 0 <= i < |r| && r[i].Rejected? ==>
              r[i].reason == "Payment failed for order " + NatToString(orderIds[i])
  {
    seq(|orderIds|, i requires 0 <= i < |orderIds| => ProcessPayment(orderIds[i], draws[i]))
  }

  /** Settling a batch is settling its parts: the outcome of each order
      depends on that order and its draw alone, in place. */
  lemma SettleAllAppend(a: seq<nat>, da: seq<bool>, b: seq<nat>, db: seq<bool>)
    requires |da| == |a| && |db| == |b|
    ensures SettleAll(a + b, da + db) == SettleAll(a, da) + SettleAll(b, db)
  {
  }

  /** The two filters and maps of processBatchPayments. */
  function Partition(results: seq<Settled>): BatchResult
    decreases |results|
  {
    if results == [] then BatchResult([], [])
    else
      var before := Partition(results[..|results| - 1]);
      match results[|results| - 1]
        case Fulfilled(p) => BatchResult(before.successful + [p], before.failed)
        case Rejected(reason) => BatchResult(before.successful, before.failed + [Failure(reason)])
  }

  function CountFulfilled(results: seq<Settled>): nat
    decreases |results|
  {
    if results == [] then 0
    else CountFulfilled(results[..|results| - 1]) + (if results[|results| - 1].Fulfilled? then 1 else 0)
  }

  /** Every outcome lands in exactly one list: the successful list has one
      entry per fulfilled promise and the failed list one per rejected one. */
  lemma {:induction false} PartitionCounts(results: seq<Settled>)
    ensures |Partition(results).successful| == CountFulfilled(results)
    ensures |Partition(results).successful| + |Partition(results).failed| == |results|
    decreases |results|
  {
    if results != [] {
      PartitionCounts(results[..|results| - 1]);
    }
  }

  /** The partition of a concatenation is the concatenation of the
      partitions: relative order is kept in both lists. */
  lemma {:induction false} PartitionAppend(a: seq<Settled>, b: seq<Settled>)
    ensures Partition(a + b).successful == Partition(a).successful + Partition(b).successful
    ensures Partition(a + b).failed == Partition(a).failed + Partition(b).failed
    decreases |b|
  {
    if b == [] {
      assert a + b == a;
    } else {
      var b' := b[..|b| - 1];
      assert (a + b)[..|a + b| - 1] == a + b';
      PartitionAppend(a, b');
    }
  }

  /** Each list holds exactly what its kind of outcome carried. */
  lemma {:induction false} PartitionMembers(results: seq<Settled>)
    ensures forall p :: p in Partition(results).successful <==> Fulfilled(p) in results
    ensures forall m :: Failure(m) in Partition(results).failed <==> Rejected(m) in results
    decreases |results|
  {
    if results != [] {
      var prefix := results[..|results| - 1];
      PartitionMembers(prefix);
      assert results == prefix + [results[|results| - 1]];
    }
  }

  /** processBatchPayments. */
  function ProcessBatchPayments(orderIds: seq<nat>, draws: seq<bool>): (r: BatchResult)
    requires |draws| == |orderIds|
    ensures |r.successful| + |r.failed| == |orderIds|
    ensures forall p :: p in r.successful ==> p.orderId in orderIds && p.status == "paid" && p.amountCents == 9999
  {
    var results := SettleAll(orderIds, draws);
    PartitionCounts(results);
    PartitionMembers(results);
    Partition(results)
  }

  lemma PartitionSnoc(s: seq<Settled>, x: Settled)
    ensures Partition(s + [x]) == match x
      case Fulfilled(p) => BatchResult(Partition(s).successful + [p], Partition(s).failed)
      case Rejected(m) => BatchResult(Partition(s).successful, Partition(s).failed + [Failure(m)])
  {
    assert (s + [x])[..|s|] == s;
  }

  /** The payments of the orders whose draw succeeded, in order. */
  function PaidOrders(orderIds: seq<nat>, draws: seq<bool>): seq<Payment>
    requires |draws| == |orderIds|
    decreases |orderIds|
  {
    if orderIds == [] then []
    else
      var n := |orderIds| - 1;
      PaidOrders(orderIds[..n], draws[..n]) + (if draws[n] then [Payment(orderIds[n], "paid", 9999)] else [])
  }

  /** The failure entries of the orders whose draw failed, in order. */
  function FailedOrders(orderIds: seq<nat>, draws: seq<bool>): seq<Failure>
    requires |draws| == |orderIds|
    decreases |orderIds|
  {
    if orderIds == [] then []
    else
      var n := |orderIds| - 1;
      FailedOrders(orderIds[..n], draws[..n])
        + (if draws[n] then [] else [Failure("Payment failed for order " + NatToString(orderIds[n]))])
  }

  lemma SettleAllSnoc(orderIds: seq<nat>, draws: seq<bool>)
    requires |draws| == |orderIds| > 0
    ensures var n := |orderIds| - 1;
            SettleAll(orderIds, draws) == SettleAll(orderIds[..n], draws[..n]) + [ProcessPayment(orderIds[n], draws[n])]
  {
  }

  /** The batch's successful list is the paid payments of the successful
      draws and its failed list the failures of the others, both in the
      order of the order ids. */
  lemma {:induction false} BatchListsInOrder(orderIds: seq<nat>, draws: seq<bool>)
    requires |draws| == |orderIds|
    ensures ProcessBatchPayments(orderIds, draws).successful == PaidOrders(orderIds, draws)
    ensures ProcessBatchPayments(orderIds, draws).failed == FailedOrders(orderIds, draws)
    decreases |orderIds|
  {
    if orderIds != [] {
      var n := |orderIds| - 1;
      var o', d' := orderIds[..n], draws[..n];
      BatchListsInOrder(o', d');
      var before := SettleAll(o', d');
      var x := ProcessPayment(orderIds[n], draws[n]);
      SettleAllSnoc(orderIds, draws);
      PartitionSnoc(before, x);
    }
  }

  /** The demo batch [1, 2, 3, 4, 5] with the second and fourth draw failing. */
  lemma BatchSample()
    ensures ProcessBatchPayments([1, 2, 3, 4, 5], [true, false, true, false, true])
            == BatchResult([Payment(1, "paid", 9999), Payment(3, "paid", 9999), Payment(5, "paid", 9999)],
                           [Failure("Payment failed for order 2"), Failure("Payment failed for order 4")])
  {
    var p1, p3, p5 := Payment(1, "paid", 9999), Payment(3, "paid", 9999), Payment(5, "paid", 9999);
    var m2, m4 := "Payment failed for order 2", "Payment failed for order 4";
    assert NatToString(2) == "2" && NatToString(4) == "4";
    var r := SettleAll([1, 2, 3, 4, 5], [true, false, true, false, true]);
    assert "Payment failed for order " + NatToString(2) == m2;
    assert "Payment failed for order " + NatToString(4) == m4;
    assert |r| == 5 && r[0] == Fulfilled(p1) && r[1] == Rejected(m2) && r[2] == Fulfilled(p3)
           && r[3] == Rejected(m4) && r[4] == Fulfilled(p5);
    assert r == [Fulfilled(p1), Rejected(m2), Fulfilled(p3), Rejected(m4), Fulfilled(p5)];
    var f1, r2, f3, r4, f5 := Fulfilled(p1), Rejected(m2), Fulfilled(p3), Rejected(m4), Fulfilled(p5);
    PartitionSnoc([], f1);
    assert [] + [f1] == [f1];
    PartitionSnoc([f1], r2);
    assert [f1] + [r2] == [f1, r2];
    PartitionSnoc([f1, r2], f3);
    assert [f1, r2] + [f3] == [f1, r2, f3];
    PartitionSnoc([f1, r2, f3], r4);
    assert [f1, r2, f3] + [r4] == [f1, r2, f3, r4];
    PartitionSnoc([f1, r2, f3, r4], f5);
    assert [f1, r2, f3, r4] + [f5] == r;
    assert Partition(r) == BatchResult([p1, p3, p5], [Failure(m2), Failure(m4)]);
  }

  // ---------------------------------------------------------------------
  // RetryService
  // ---------------------------------------------------------------------

  datatype ApiSuccess = ApiSuccess(success: bool, attempt: nat)

  /** unstableAPICall: fails on the first two attempts. */
  function UnstableApiCall(attempt: nat): (r: Result<ApiSuccess, string>)
    ensures r.Ok? <==> attempt >= 3
    ensures r.Ok? ==> r.value == ApiSuccess(true, attempt)
    ensures r.Err? ==> r.error == "Failed attempt " + NatToString(attempt)
  {
    if attempt >= 3 then Ok(ApiSuccess(true, attempt)) else Err("Failed attempt " + NatToString(attempt))
  }

  /** How the retry promise settles: the first successful result, the
      final error, or undefined when the loop body never runs. */
  datatype RetryOutcome<T> = Returned(value: T) | Threw(message: string) | NoResult

  function FailedAfter(maxRetries: nat): string {
    "Failed after " + NatToString(maxRetries) + " attempts"
  }

  /** The attempts 1, 2, ..., n. */
  function Attempts(n: nat): (r: seq<nat>)
    ensures |r| == n
    ensures forall i :: 0 <= i < n ==> r[i] == i + 1
  {
    seq(n, i requires 0 <= i < n => i + 1)
  }

  /** The loop from `attempt` on: the outcome and the attempts made. */
  function RetryFrom<T>(operation: nat -> Result<T, string>, attempt: nat, maxRetries: int): (r: (RetryOutcome<T>, seq<nat>))
    requires attempt >= 1
    decreases maxRetries - attempt
  {
    if attempt > maxRetries then (NoResult, [])
    else match operation(attempt)
      case Ok(v) => (Returned(v), [attempt])
      case Err(_) =>
        if attempt == maxRetries then (Threw(FailedAfter(maxRetries)), [attempt])
        else
          var rest := RetryFrom(operation, attempt + 1, maxRetries);
          (rest.0, [attempt] + rest.1)
  }

  /** retryOperation, as a function of the operation's answers. */
  function Retry<T>(operation: nat -> Result<T, string>, maxRetries: int): (RetryOutcome<T>, seq<nat>) {
    RetryFrom(operation, 1, maxRetries)
  }

  /** The first attempt from `attempt` on that succeeds, with every earlier
      one failing, decides the outcome; if none up to `maxRetries` succeeds
      the loop throws after trying them all. */
  lemma {:induction false} RetryFromFacts<T>(operation: nat -> Result<T, string>, attempt: nat, maxRetries: int)
    requires 1 <= attempt <= maxRetries
    ensures var (outcome, calls) := RetryFrom(operation, attempt, maxRetries);
            && (outcome.Returned? || outcome.Threw?)
            && |calls| >= 1
            && (forall i :: 0 <= i < |calls| ==> calls[i] == attempt + i)
            && attempt + |calls| - 1 <= maxRetries
            && (forall i :: 0 <= i < |calls| - 1 ==> operation(calls[i]).Err?)
            && (outcome.Returned? ==> operation(calls[|calls| - 1]) == Ok(outcome.value))
            && (outcome.Threw? ==>
                  outcome.message == FailedAfter(maxRetries)
                  && attempt + |calls| - 1 == maxRetries
                  && operation(maxRetries).Err?)
    decreases maxRetries - attempt
  {
    if operation(attempt).Err? && attempt < maxRetries {
      RetryFromFacts(operation, attempt + 1, maxRetries);
    }
  }

  /** retryOperation's promise: with at least one retry allowed it makes the
      attempts 1, 2, ... in order, stops at the first success and returns
      its result, and throws "Failed after N attempts" exactly when all N
      attempts failed. With no retry allowed it makes no attempt and
      settles with undefined. */
  lemma RetryCharacterized<T>(operation: nat -> Result<T, string>, maxRetries: int)
    ensures var (outcome, calls) := Retry(operation, maxRetries);
            && (maxRetries <= 0 ==> outcome == NoResult && calls == [])
            && (maxRetries >= 1 ==>
                  && calls == Attempts(|calls|)
                  && 1 <= |calls| <= maxRetries
                  && (forall i :: 0 <= i < |calls| - 1 ==> operation(calls[i]).Err?)
                  && (outcome.Returned? <==> exists a :: 1 <= a <= maxRetries && operation(a).Ok?)
                  && (outcome.Returned? ==> operation(|calls|) == Ok(outcome.value))
                  && (outcome.Threw? <==> forall a :: 1 <= a <= maxRetries ==> operation(a).Err?)
                  && (outcome.Threw? ==> outcome.message == FailedAfter(maxRetries)))
  {
    if maxRetries >= 1 {
      RetryFromFacts(operation, 1, maxRetries);
      var (outcome, calls) := Retry(operation, maxRetries);
      if outcome.Threw? {
        forall a | 1 <= a <= maxRetries ensures operation(a).Err? {
          assert a == calls[a - 1];
        }
      }
    }
  }

  /** The loop of retryOperation. `calls` records the argument of every
      invocation of the operation, in order. */
  method RetryOperation<T>(operation: nat -> Result<T, string>, maxRetries: int)
    returns (outcome: RetryOutcome<T>, calls: seq<nat>)
    ensures (outcome, calls) == Retry(operation, maxRetries)
  {
    calls := [];
    var attempt: nat := 1;
    while attempt <= maxRetries
      invariant 1 <= attempt
      invariant maxRetries >= 1 ==> attempt <= maxRetries
      invariant calls + RetryFrom(operation, attempt, maxRetries).1 == Retry(operation, maxRetries).1
      invariant RetryFrom(operation, attempt, maxRetries).0 == Retry(operation, maxRetries).0
      decreases maxRetries - attempt
    {
      calls := calls + [attempt];
      var result := operation(attempt);
      if result.Ok? {
        return Returned(result.value), calls;
      }
      if attempt == maxRetries {
        return Threw(FailedAfter(maxRetries)), calls;
      }
      attempt := attempt + 1;
    }
    outcome := NoResult;
  }

  /** The demo: retrying the unstable call with three attempts returns
      `{success: true, attempt: 3}` on the third. */
  lemma RetryUnstableSample()
    ensures Retry(UnstableApiCall, 3) == (Returned(ApiSuccess(true, 3)), [1, 2, 3])
  {
    assert RetryFrom(UnstableApiCall, 3, 3) == (Returned(ApiSuccess(true, 3)), [3]);
    assert UnstableApiCall(2).Err?;
    assert [2] + [3] == [2, 3];
    assert RetryFrom(UnstableApiCall, 2, 3) == (Returned(ApiSuccess(true, 3)), [2, 3]);
    assert UnstableApiCall(1).Err?;
    assert [1] + [2, 3] == [1, 2, 3];
  }

  /** With two attempts allowed the unstable call never gets to succeed. */
  lemma RetryUnstableTooFew()
    ensures Retry(UnstableApiCall, 2) == (Threw("Failed after 2 attempts"), [1, 2])
  {
    assert NatToString(2) == "2";
    assert FailedAfter(2) == "Failed after 2 attempts";
    assert UnstableApiCall(2).Err?;
    assert RetryFrom(UnstableApiCall, 2, 2) == (Threw(FailedAfter(2)), [2]);
    assert UnstableApiCall(1).Err?;
    assert [1] + [2] == [1, 2];
  }

  // ---------------------------------------------------------------------
  // OrderService
  // ---------------------------------------------------------------------

  datatype Item = Item(name: string, price: real)

  /** An order as the workflow receives it; `items` may be missing. */
  datatype OrderRequest = OrderRequest(items: Option<seq<Item>>)

  /** validateOrder: an order without items is rejected; the later call to
      `resolve` does not change a promise already rejected. */
  function ValidateOrder(order: OrderRequest): (r: Result<OrderRequest, string>)
    ensures r.Err? <==> order.items.None? || order.items.value == []
    ensures r.Err? ==> r.error == "Order has no items"
    ensures r.Ok? ==> r.value == order
  {
    if order.items.None? || |order.items.value| == 0 then Err("Order has no items") else Ok(order)
  }
}
