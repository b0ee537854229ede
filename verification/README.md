# Javascript-In-Depth: a Dafny model of its stateful and decision logic

The repository is teaching material about asynchrony, the event loop and `this`.
Most of it is demonstrations. This project models the parts whose behaviour can be stated and proved:

- **Order pipeline.** An order service and an inventory service exchange events over two broker topics.
  - The order service stores a new order as `PENDING` and publishes it on `orders-topic`.
  - The inventory service checks every item against an in-memory stock table. It either reserves one unit per entry and answers `CONFIRMED`, or leaves the table alone and answers `OUT_OF_STOCK`.
  - The order service copies that answer into the stored order.
- **Merging two lists of `{id, value}` records and dropping duplicate ids, three ways:**
  - through a `Map`: the last record wins, ids in order of first appearance;
  - through a plain object: the last record wins, but `Object.values` lists array-index ids first, in ascending order;
  - through a list plus a table of seen ids: the first record wins.
- **Book store REST controller.**
  - The 24-hex-digit id check and the status code of each handler.
  - Pagination arithmetic.
  - The effect of create, update and delete on the collection.
- **Promise use cases.**
  - `validateUserData`, `checkUserExists`, `hashPassword`, `registerUser`.
  - The fulfilled/rejected partition of a batch of payments.
  - The retry loop with its unstable API call.
  - `validateOrder`.
- **`ladder` object.** Its `up`, `down` and `showStep` methods change `step` and return the object so that calls chain. The `shape` object's `diameter` is modelled too.

## Layout

| file | module | contents |
|---|---|---|
| `common.dfy` | `Common` | `Option`, `Result`, and the decimal text of a whole number (`NatToString`) |
| `events.dfy` | `OrderEvents` | the order, the inventory answer and a broker message |
| `inventory.dfy` | `Inventory` | class `InventoryService`, the specification `Process`, stock totals |
| `orders.dfy` | `Orders` | class `OrderService`, the specification `ApplyResult`, the end-to-end lemma |
| `dedup.dfy` | `MergeById` | the three merge methods, their specification functions and lemmas |
| `books.dfy` | `BookController` | class `BookStore`, one specification function per handler, the listing |
| `validate_user.dfy` | `UserValidation` | `validateUserData` |
| `promise_usecases.dfy` | `PromiseUseCases` | the registration, payment, retry and order-validation services |
| `ladder.dfy` | `ThisKeyword` | class `Ladder` and `shape.diameter` |

### How the model is built

Objects whose fields the source updates are classes:
- `InventoryService` (the stock table);
- `OrderService` (the order map);
- `BookStore` (the collection);
- `Ladder`.

`InventoryService.ProcessOrder` is proved against `Process`, `OrderService.OnInventoryResult` against `ApplyResult`, and each `BookStore` handler against its `...Outcome` function. `OrderService.CreateOrder` and `Ladder`'s methods state their new state directly in their `ensures`.

Loops that build a result are module-level methods, each proved equal to a function:
- the three merge loops (`MergeKeepingFirst`, `FillTable` with `MergeWithMap`, `MergeWithObject`);
- the retry loop (`RetryOperation`).

What the source promises is then proved about those functions as lemmas. Pure guard chains are functions whose contracts give every branch in both directions.

### Behaviour a reader might not expect

The model follows the code in each of these cases:
- **Stock can go negative.** The stock check is made per entry of the order, not per count, so a repeated item can drive a quantity below zero (`Inventory.RepeatedItemOverdraws`). Non-negative stock is kept only for orders with distinct items (`Inventory.DistinctKeepsStockNonNegative`).
- **A later answer overwrites an earlier one.** The order service sets the status whatever the current status is (`Orders.LaterResultWins`).
- **Redelivery is not deduplicated.** A redelivered order reserves stock again (`Inventory.RedeliveryReservesTwice`).

## Model

| member | source | states |
|---|---|---|
| Inventory.InventoryService.constructor | ApacheKafka/Ecom-kafka/inventoryService.js:13-17 | the table starts with laptop 5, phone 3, charger 10 |
| Inventory.ReserveCounts | ApacheKafka/Ecom-kafka/inventoryService.js:30 | taking one unit per entry keeps the rows and lowers each quantity by the number of entries naming it |
| Inventory.Process | ApacheKafka/Ecom-kafka/inventoryService.js:19-37 | CONFIRMED exactly when every entry has a positive quantity, OUT_OF_STOCK otherwise; the answer carries the order's id; OUT_OF_STOCK leaves the table unchanged; CONFIRMED lowers each item by its number of entries and leaves absent items as they were |
| Inventory.InventoryService.ProcessOrder | ApacheKafka/Ecom-kafka/inventoryService.js:19-37 | the check loop with its early exit and the decrement loop give exactly the answer and table of `Process` |
| Inventory.ReserveTotal | ApacheKafka/Ecom-kafka/inventoryService.js:29-30 | reserving lowers the total stock by the number of entries |
| Inventory.ProcessTotal | ApacheKafka/Ecom-kafka/inventoryService.js:29-36 | total stock drops by the number of entries on CONFIRMED and by 0 on OUT_OF_STOCK |
| Inventory.DistinctKeepsStockNonNegative | ApacheKafka/Ecom-kafka/inventoryService.js:22-30 | with no repeated item, a table without negative quantities keeps none |
| Inventory.RepeatedItemOverdraws | ApacheKafka/Ecom-kafka/inventoryService.js:22-30 | one laptop in stock and an order for two laptops is confirmed and leaves -1 |
| Inventory.EmptyOrderConfirmed | ApacheKafka/Ecom-kafka/inventoryService.js:20-32 | an order without items is confirmed and changes nothing |
| Inventory.NoPartialReservation | ApacheKafka/Ecom-kafka/inventoryService.js:22-35 | charger in stock and phone at 0: OUT_OF_STOCK and the charger is not touched |
| Inventory.RedeliveryReservesTwice | ApacheKafka/Ecom-kafka/inventoryService.js:19-37 | processing the same order twice reserves twice when the stock allows it |
| Orders.ApplyResult | ApacheKafka/Ecom-kafka/orderService.js:43-51 | a known order takes the event's status and keeps its id and items; an unknown id leaves the map unchanged; no other order changes; every order stays under its own id |
| Orders.OrderService.constructor | ApacheKafka/Ecom-kafka/orderService.js:18 | the order map starts empty and nothing is published |
| Orders.OrderService.CreateOrder | ApacheKafka/Ecom-kafka/orderService.js:21-35 | stores `{orderId, items, PENDING}` under the new id, adds one entry for a fresh id, publishes one message keyed by that id carrying the stored order, answers 201 with the id |
| Orders.OrderService.OnInventoryResult | ApacheKafka/Ecom-kafka/orderService.js:43-51 | the order map becomes `ApplyResult` of the old one; nothing is published |
| Orders.OrderService.Lookup | ApacheKafka/Ecom-kafka/orderService.js:45 | finds an order exactly when its id is stored, and the order found carries that id |
| Orders.ApplyResultIdempotent | ApacheKafka/Ecom-kafka/orderService.js:48 | handling the same answer twice is the same as handling it once |
| Orders.LaterResultWins | ApacheKafka/Ecom-kafka/orderService.js:48 | a later answer for the same order overwrites the earlier one |
| Orders.ResultsForDifferentOrdersCommute | ApacheKafka/Ecom-kafka/orderService.js:43-51 | answers for different orders can be handled in either order |
| Orders.CreateProcessApply | ApacheKafka/Ecom-kafka/orderService.js:21-51 | create, process and answer: the order ends CONFIRMED exactly when every entry was in stock, and no other order changed |
| MergeById.KeepFirstCoversIds | Problem-Solving/problemStatement.js:63-70 | keeping the first record loses no id and invents none |
| MergeById.KeepFirstDistinct | Problem-Solving/problemStatement.js:63-70 | no two kept records share an id |
| MergeById.FirstPositionsFacts | Problem-Solving/problemStatement.js:63-70 | the kept positions are increasing and are exactly the first positions of their ids |
| MergeById.KeepFirstPicksFirstPositions | Problem-Solving/problemStatement.js:63-70 | the kept records are the records at the first position of each id, in input order |
| MergeById.MergeKeepingFirst | Problem-Solving/problemStatement.js:52-73 | `mergeAndRemoveDuplicates2` returns the first record of every id in order of first appearance: a subsequence of `arr1 ++ arr2` with distinct ids covering every input id |
| MergeById.LastByIdDomain | Problem-Solving/problemStatement.js:11 | the table has a key for exactly the ids of the input, each holding an input record with that id |
| MergeById.LastByIdLastWins | Problem-Solving/problemStatement.js:11 | each id holds its last record |
| MergeById.MergeKeepLastFacts | Problem-Solving/problemStatement.js:5-14 | the Map version holds each input id once, with its last record, ids in order of first appearance, nothing invented, no longer than the input |
| MergeById.FillTable | Problem-Solving/problemStatement.js:11 | the filling loop builds the id table and the order in which its keys were created |
| MergeById.MergeWithMap | Problem-Solving/problemStatement.js:5-14 | the Map version equals `MergeKeepLast` of the combined list, with its properties |
| MergeById.MapMergeSample | Problems/problemStatement.js:5-22 | the Map version, which this file repeats, on the given inputs gives `[{1,'mi'},{2,'csk'}]` |
| MergeById.OwnKeysFacts | Problem-Solving/problemStatement.js:42 | the own-key order is a rearrangement of the creation order and keeps keys distinct |
| MergeById.OwnKeysLayout | Problem-Solving/problemStatement.js:42 | array-index keys come first, ascending, then the other keys |
| MergeById.OwnKeysOrder | Problem-Solving/problemStatement.js:42 | no array index follows another key, and the array indices strictly ascend |
| MergeById.MergeByObjectKeysFacts | Problem-Solving/problemStatement.js:29-43 | the object version holds the same records as the Map version, one per id, array-index ids first and ascending |
| MergeById.MergeWithObject | Problem-Solving/problemStatement.js:29-43 | `mergeAndRemoveDuplicates` returns `Object.values` of the filled object: the last record of each id, distinct ids, nothing invented |
| MergeById.KeepFirstSample | Problem-Solving/problemStatement.js:49-76 | keeping the first record of the given inputs gives `[{1,'kkr'},{2,'csk'}]` |
| BookController.Canonical | NodeJs-CRUD/BookStoreApi/controllers/books.js:98 | the object id's text differs from the id string only in the case of hex letters, has no upper-case hex letter, and passes the format test exactly when the id string does |
| BookController.CanonicalIdentifies | NodeJs-CRUD/BookStoreApi/controllers/books.js:98 | two id strings name the same object id exactly when they differ only in the case of their hex letters |
| BookController.CanonicalFacts | NodeJs-CRUD/BookStoreApi/controllers/books.js:90-98 | an id passes the format test exactly when its lower-case form does, and lowering twice changes nothing |
| BookController.FindById | NodeJs-CRUD/BookStoreApi/controllers/books.js:98 | a book is found exactly when the id's object id is stored |
| BookController.ApplyUpdateFacts | NodeJs-CRUD/BookStoreApi/controllers/books.js:153-157 | `$set` keeps the id, leaves every provided field holding its new value, is idempotent, and changes the book exactly when some provided field differs |
| BookController.GetOutcome | NodeJs-CRUD/BookStoreApi/controllers/books.js:85-120 | 400 exactly for a malformed id, 404 exactly for a well-formed id with no book, otherwise 200 with the stored book |
| BookController.CreateOutcome | NodeJs-CRUD/BookStoreApi/controllers/books.js:53-83 | 409 exactly when the title is taken; 201 exactly when all fields pass the schema and the new id is unused, and then one book is inserted and returned; any other outcome leaves the collection unchanged |
| BookController.UpdateOutcome | NodeJs-CRUD/BookStoreApi/controllers/books.js:122-173 | 400 for a malformed id or no truthy field, checked after the 404; 500 when a provided text field is empty; otherwise 200 and the provided fields replaced in that book only |
| BookController.DeleteOutcome | NodeJs-CRUD/BookStoreApi/controllers/books.js:175-213 | 400, then 404, otherwise 200 and exactly that book removed |
| BookController.BookStore.GetBookById | NodeJs-CRUD/BookStoreApi/controllers/books.js:85-120 | the handler answers `GetOutcome` and changes nothing; a book it returns carries the lower-case form of the requested id |
| BookController.BookStore.CreateBook | NodeJs-CRUD/BookStoreApi/controllers/books.js:53-83 | given an id the database generated (24 lower-case hex digits), the handler's reply and new collection are those of `CreateOutcome` |
| BookController.BookStore.UpdateBook | NodeJs-CRUD/BookStoreApi/controllers/books.js:122-173 | the handler's reply and new collection are those of `UpdateOutcome` |
| BookController.BookStore.DeleteBook | NodeJs-CRUD/BookStoreApi/controllers/books.js:175-213 | the handler's reply and new collection are those of `DeleteOutcome` |
| BookController.GetIgnoresCase | NodeJs-CRUD/BookStoreApi/controllers/books.js:98 | ids that differ only in letter case get the same answer |
| BookController.HandlersKeepKeyedById | NodeJs-CRUD/BookStoreApi/controllers/books.js:67 | create, update and delete keep every book under its own generated lower-case id |
| BookController.StoredBooksReachable | NodeJs-CRUD/BookStoreApi/controllers/books.js:90-120 | every stored book is read back with 200 by its id written in any letter case |
| BookController.CreateThenGet | NodeJs-CRUD/BookStoreApi/controllers/books.js:67-73 | a created book is read back under its id, and no other book changed |
| BookController.CreateTwiceConflicts | NodeJs-CRUD/BookStoreApi/controllers/books.js:58-64 | creating the same title again answers 409 and changes nothing |
| BookController.DeleteThenGet | NodeJs-CRUD/BookStoreApi/controllers/books.js:188-198 | after a delete, reading or deleting the same id answers 404 |
| BookController.DeleteRemovesOne | NodeJs-CRUD/BookStoreApi/controllers/books.js:198 | a delete removes exactly one book and keeps all others |
| BookController.UpdateThenGet | NodeJs-CRUD/BookStoreApi/controllers/books.js:153-164 | an accepted update is what a later read returns, keeps the ids, and repeating it changes nothing |
| BookController.UpdateCanDuplicateTitle | NodeJs-CRUD/BookStoreApi/controllers/books.js:153-157 | an update can give a book another book's title, which creation refuses |
| BookController.SortDirection | NodeJs-CRUD/BookStoreApi/controllers/books.js:8 | the direction is 1 exactly when `order` is "asc" or absent, -1 otherwise |
| BookController.TotalPages | NodeJs-CRUD/BookStoreApi/controllers/books.js:36 | `ceil(total / limit)`: the smallest page count covering the total for a positive limit; null for a limit of 0 |
| BookController.Window | NodeJs-CRUD/BookStoreApi/controllers/books.js:14-15 | the documents after the skip, a contiguous slice holding the smaller of the absolute limit and the number remaining, or all remaining ones for a limit of 0 |
| BookController.ListOutcome | NodeJs-CRUD/BookStoreApi/controllers/books.js:3-50 | among the modelled queries, 500 exactly for a negative skip, 404 exactly for an empty page, otherwise 200 with the slice at offset `(page-1)*limit` and the pagination record |
| BookController.AnsweredPageInRange | NodeJs-CRUD/BookStoreApi/controllers/books.js:14-36 | with a positive limit, an answered page lies between 1 and `totalPages` |
| BookController.EveryBookOnItsPage | NodeJs-CRUD/BookStoreApi/controllers/books.js:14-15 | with a positive limit, the document at position i is on page i/limit + 1, at offset i mod limit |
| BookController.DefaultListing | NodeJs-CRUD/BookStoreApi/controllers/books.js:5 | with no parameters, page 1 holds the first ten matching documents |
| UserValidation.ValidateUserData | Promise/index.js:113-126 | rejects with "username or password not empty" exactly when either is missing or empty; otherwise rejects with the length message exactly when the password's `.length` (UTF-16 code units) is at most 2; otherwise resolves with "welcome " + username |
| UserValidation.AstralPasswordAccepted | Promise/index.js:120 | a password of two emoji has `.length` 4 and is accepted |
| UserValidation.UsernameLengthTestUnreachable | Promise/index.js:116-120 | the `username.length === 0` test never decides the outcome |
| UserValidation.SureshIsWelcome | Promise/index.js:128-131 | ('suresh', 'orio') resolves with "welcome suresh" |
| UserValidation.GreetingRecoversUsername | Promise/index.js:124 | the greeting ends with the validated username |
| PromiseUseCases.HashPassword | Promise/promise-real-usecase.js:55-64 | rejects exactly the passwords whose `.length` (UTF-16 code units) is below 6; otherwise yields `hashed_` followed by the password |
| PromiseUseCases.AstralPasswordHashed | Promise/promise-real-usecase.js:58-61 | a password of three emoji has `.length` 6 and is hashed |
| PromiseUseCases.HashPasswordInjective | Promise/promise-real-usecase.js:61 | different passwords never share a hash |
| PromiseUseCases.RegisterUser | Promise/promise-real-usecase.js:86-113 | "Registration failed: User already exists" exactly for `existing@example.com`; "Registration failed: Password too short" exactly for other addresses whose password's `.length` is below 6; otherwise the saved user with the hashed password |
| PromiseUseCases.RegisteredPasswordIsHashed | Promise/promise-real-usecase.js:95-101 | the saved password is never the plain one |
| PromiseUseCases.ProcessPayment | Promise/promise-real-usecase.js:177-188 | fulfilled exactly when the draw succeeds, with the order id; otherwise rejected with "Payment failed for order " and the id |
| PromiseUseCases.SettleAll | Promise/promise-real-usecase.js:194-196 | one outcome per order id, at the same position: fulfilled exactly when that order's draw succeeds, with a payment for that order, otherwise rejected with "Payment failed for order " and that order's id |
| PromiseUseCases.SettleAllAppend | Promise/promise-real-usecase.js:194-196 | settling a concatenated batch gives the concatenated outcomes, so each outcome depends only on its own order and draw |
| PromiseUseCases.PartitionCounts | Promise/promise-real-usecase.js:198-199 | every outcome lands in exactly one list; the successful list counts the fulfilled ones |
| PromiseUseCases.PartitionAppend | Promise/promise-real-usecase.js:198-207 | the partition of a concatenation is the concatenation of the partitions, so relative order is kept |
| PromiseUseCases.PartitionMembers | Promise/promise-real-usecase.js:198-207 | each list holds exactly the values of its kind of outcome |
| PromiseUseCases.ProcessBatchPayments | Promise/promise-real-usecase.js:190-208 | the two lists together are as long as the order list, and every successful payment is for a requested order, paid, 99.99 |
| PromiseUseCases.BatchListsInOrder | Promise/promise-real-usecase.js:190-208 | the successful list is the paid payments of the orders whose draw succeeded, and the failed list the `{reason}` entries of the others, both in order |
| PromiseUseCases.BatchSample | Promise/promise-real-usecase.js:433 | orders 1 to 5 with the second and fourth failing give three payments and two reasons, in order |
| PromiseUseCases.UnstableApiCall | Promise/promise-real-usecase.js:255-265 | succeeds exactly from the third attempt, returning that attempt |
| PromiseUseCases.RetryFromFacts | Promise/promise-real-usecase.js:269-286 | attempts are consecutive, all but the last fail, the loop stops at the first success, and it throws only after the last allowed attempt |
| PromiseUseCases.RetryCharacterized | Promise/promise-real-usecase.js:268-287 | attempts 1, 2, ... at most maxRetries; returns the first success; throws "Failed after N attempts" exactly when all N fail; with maxRetries <= 0 no attempt and no error |
| PromiseUseCases.RetryOperation | Promise/promise-real-usecase.js:268-287 | the loop's outcome and its sequence of attempts are those of `Retry` |
| PromiseUseCases.RetryUnstableSample | Promise/promise-real-usecase.js:449-457 | retrying the unstable call with 3 attempts returns `{success: true, attempt: 3}` after attempts 1, 2, 3 |
| PromiseUseCases.RetryUnstableTooFew | Promise/promise-real-usecase.js:269-286 | with 2 attempts it throws "Failed after 2 attempts" |
| PromiseUseCases.ValidateOrder | Promise/promise-real-usecase.js:294-304 | rejects with "Order has no items" exactly when `items` is missing or empty; otherwise resolves with the order |
| ThisKeyword.Ladder.constructor | This-Keyword/Question.js:17-18 | the step starts at 0 |
| ThisKeyword.Ladder.Up | This-Keyword/Question.js:19-22 | the step rises by exactly 1 and the same object is returned |
| ThisKeyword.Ladder.Down | This-Keyword/Question.js:23-26 | the step falls by exactly 1 and the same object is returned |
| ThisKeyword.Ladder.ShowStep | This-Keyword/Question.js:27-30 | shows the step without changing it and returns the same object |
| ThisKeyword.ChainDemo | This-Keyword/Question.js:33-39 | the chain shows 1 and then 0, and the step ends at 0 |
| ThisKeyword.Diameter | This-Keyword/Question.js:44-46 | the diameter is even and half of it is the radius |
| ThisKeyword.ShapeSample | This-Keyword/Question.js:42-50 | radius 10 gives diameter 20 |

## Left out

- Broker and HTTP wiring are not modelled: Kafka clients, `connect`, `subscribe`, `send`, `consumer.run`, Express routes, `listen` and the JSON encoding of messages. Events and requests are datatypes. The broker's delivery order and concurrency are not modelled.
- The uuid of a new order is a parameter of `CreateOrder`, and the object id of a new book a parameter of `CreateBook`.
- Item names or ids that are names of properties every JavaScript object inherits (`toString`, `constructor`, `__proto__`) are not modelled. Stock entries and ids are plain map keys.
- MergeById.MergeWithObject: ids are integers. JavaScript turns an id into a property key, so the number 1 and the string "1" are one key. Ids that are strings other than array indices, and fractional ids, are not modelled.
- MergeById.MergeKeepingFirst: ids are integers. Its table of seen ids is a plain object, so the number 1 and the string "1" would count as the same id. Non-integer ids are not modelled.
- MergeById.MergeWithMap: ids are integers. A `Map` keeps the number 1 and the string "1" apart, which the object and seen-table versions do not. That difference between the versions is not modelled.
- Order statuses other than the three the services use, and inventory answers that fail to parse, are not modelled.
- A creation request without `items` is not modelled.
- Mongoose and MongoDB are not modelled; the collection is a map from object id to book.
  - The title filter and the sort are not modelled. The controller builds the case-insensitive regular expression; the database matches and sorts. `ListOutcome` receives the matching documents already in the requested order.
  - The creation and update timestamps are not modelled.
  - Fields other than the four of the schema in an update body are not modelled.
  - Query-string values that are not numbers are not modelled; the query's values arrive as integers.
- A creation request without a title is not modelled, because how the query treats an undefined filter value is library behaviour.
- The Joi validation middleware is not part of this model; its year bound depends on the current date.
- A limit of 0 makes `totalPages` Infinity or NaN, which JSON writes as null; the model gives None. The database reads a limit of 0 as no limit and a negative limit by its absolute value, and `Window` does the same.
- `Math.random` and `new Date()` are parameters: the payment draws, the user id, `createdAt`.
- The amount 99.99 is kept as 9999 cents. Floating-point prices and `shape.perimeter` (which uses `Math.PI` and evaluates to NaN) are not modelled.
- Timers are not modelled: the delays in every service and the retry delay.
- The welcome e-mail sent without waiting is not modelled.
- The other demonstrations (`fetch`, `Promise.all`/`race`, timeouts, the file service, the event-loop, cluster and garbage-collector demos, `makeUser`) are not modelled.
- PromiseUseCases.RetryOperation: the default `maxRetries = 3` is not modelled; every call passes its bound. The operation is a function of the attempt number, so an operation whose answer depends on anything else is not modelled.
- PromiseUseCases.RetryOperation: the bound `maxRetries` is an integer. A fractional bound such as 2.5, for which `attempt === maxRetries` never holds and the loop resolves `undefined` after its failures without throwing, is not modelled, and neither are NaN or Infinity.
- PromiseUseCases.ProcessPayment: order ids are non-negative integers. Other values the template literal would print (negative or fractional numbers, strings) are not modelled.
- BookController.ListOutcome: the 500 answered when `filter` is not a valid regular expression (the `RegExp` constructor throws inside the `try`), or when the database refuses the sort (an empty `sortBy`, say), is not modelled. The model's query carries no filter and its sort is already applied.
- UserValidation.ValidateUserData inputs are strings or absent. Other JavaScript values (numbers, objects) are not modelled.
