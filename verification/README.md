# Bookstore inventory and order model

A Dafny model of the inventory and order domain of a small Spring Boot
bookstore. The store sells four fixed books (A, B, C, D). It keeps a stock
count per book, and it exposes three handlers: a stock listing, a batch order
and a batch restock. The model covers the decision logic of those handlers
and the ledger underneath them.

- `catalog.dfy`, module `Catalog`: the `Book` enum with its titles and
  prices, and the catalog in declaration order.
- `inventory.dfy`, module `Inventory`: the ledger `Stock = map<Book, int>`,
  the seed stock, and the three unguarded primitives: order, restock and
  in-stock test. A book with no entry counts as zero. `HasBookInStock` is a
  pure predicate, so it never changes the stock.
- `controller.dfy`, module `Controller`: the listing, plus the order and
  restock processors. Both processors validate every line and then commit.
  Each returns `Handled(outcome, stock)`. `outcome` is `Ok(response)` or
  `Err(error)`, and `stock` is the ledger the call leaves behind.
- `messages.dfy`, module `Messages`: the wording the handlers send back for
  each rejection. It includes the decimal rendering of the order total. For
  each error message a reader recovers the book and the reason, which shows
  that no two errors share a message.
- `scenarios.dfy`, module `Scenarios`: concrete runs starting from the seed
  ledger. They mirror the cases the repository's controller and service tests
  describe.

Two quirks of the code are kept on purpose and proved as lemmas:

- The order stock check looks at each line alone, against the stock before
  the batch. Quantities for the same book on different lines are not added
  up. So two lines of 12 × A pass against a count of 20, and the count ends at
  −4.
- Quantities are never checked for sign. A negative restock that is a
  multiple of ten lowers the stock. A negative order line raises it.

Nothing in the code keeps a stock count from going negative, and the model
follows the code.

Java's `%` truncates toward zero, while Dafny's is Euclidean. The
multiple-of-ten rule is therefore written with an explicit `JavaRem`. A lemma
shows that both operators agree on whether the remainder is zero.

Every operation is a pure function, so reading the listing twice gives the
same answer. Titles and prices are functions of the book, so no operation can
change them.

## Model

| member | source | states |
|---|---|---|
| Catalog.Price | src/main/java/com/example/bookstore/model/Book.java:5-8 | every book's price is a positive whole number, at most 75 |
| Catalog.Title | src/main/java/com/example/bookstore/model/Book.java:5-8 | every book has a non-empty title |
| Catalog.AllBooksIsTheCatalog | src/main/java/com/example/bookstore/model/Book.java:4-8 | the catalog holds exactly four books with no repeats, in the declared order A, B, C, D, and every book is in it |
| Catalog.TitlesAreDistinct | src/main/java/com/example/bookstore/model/Book.java:5-8 | two books share a title only if they are the same book |
| Inventory.InitialStock | src/main/java/com/example/bookstore/service/InventoryService.java:14-20 | a fresh ledger has an entry for every book |
| Inventory.InitialStockValues | src/main/java/com/example/bookstore/service/InventoryService.java:14-20 | the seed counts are A=20, B=20, C=20 and D=10 |
| Inventory.OrderBook | src/main/java/com/example/bookstore/service/InventoryService.java:26-29 | the book's count drops by q (a missing entry counts as 0), every other book keeps its count, and the book gains an entry |
| Inventory.RestockBook | src/main/java/com/example/bookstore/service/InventoryService.java:31-33 | the book's count rises by q, every other book keeps its count, and the book gains an entry |
| Inventory.MissingEntryCountsAsZero | src/main/java/com/example/bookstore/service/InventoryService.java:35-37 | a book without an entry is in stock only for quantities of zero or less, exactly as if its count were 0 |
| Inventory.OrderBookCanGoNegative | src/main/java/com/example/bookstore/service/InventoryService.java:26-29 | ordering more than is on hand has no guard and leaves a negative count |
| Inventory.RestockThenOrderRestores | src/main/java/com/example/bookstore/service/InventoryService.java:26-33 | a restock of q followed by an order of q gives back exactly the original ledger, for a ledger that has the book's entry |
| Inventory.OrderThenRestockRestores | src/main/java/com/example/bookstore/service/InventoryService.java:26-33 | an order of q followed by a restock of q gives back exactly the original ledger, for a ledger that has the book's entry |
| Inventory.RestockThenOrderAvailability | src/test/java/com/example/bookstore/service/InventoryServiceTest.java:21-34 | starting from 0, q copies are unavailable, become available after a restock of q, and are unavailable again after an order of q |
| Inventory.PrimitivesKeepLedgerFull | src/main/java/com/example/bookstore/service/InventoryService.java:26-33 | neither primitive removes an entry, so a ledger with an entry for every book keeps one |
| Controller.Listing | src/main/java/com/example/bookstore/controller/BookstoreController.java:26-37 | the listing never has more than four entries, and has exactly four iff every book has an entry; for such a full ledger the entries come in catalog order, each with title, price and current count |
| Controller.StockReason | src/main/java/com/example/bookstore/controller/BookstoreController.java:74-81 | the reason names the line's book, and it is the permanent-sellout reason exactly when the book is D |
| Controller.StockErrors | src/main/java/com/example/bookstore/controller/BookstoreController.java:71-82 | the error list is empty exactly when every line passes its own stock check against the stock before the batch; there is at most one error per line, and exactly one per line when every line fails |
| Controller.StockErrorsAppend | src/main/java/com/example/bookstore/controller/BookstoreController.java:71-82 | the errors of a concatenated batch are the errors of the first part followed by those of the second, so errors come in input order |
| Controller.StockErrorsOfOneLine | src/main/java/com/example/bookstore/controller/BookstoreController.java:71-82 | a single line gives no error if it is in stock and exactly its reason otherwise; with StockErrorsAppend this gives one error per failing line |
| Controller.StockErrorsCountFailing | src/main/java/com/example/bookstore/controller/BookstoreController.java:71-82 | the stock-error list has exactly as many entries as the batch has lines failing their own stock check |
| Controller.TotalPriceIsSumOfSubTotals | src/main/java/com/example/bookstore/controller/BookstoreController.java:62-102 | the total computed during validation equals the sum of the receipt's subtotals |
| Controller.ApplyOrders | src/main/java/com/example/bookstore/controller/BookstoreController.java:91-99 | committing an order lowers each book's count by the total quantity of that book's lines, and removes no entry |
| Controller.PlaceOrder | src/main/java/com/example/bookstore/controller/BookstoreController.java:49-104 | the order is accepted iff it is non-empty, costs at most 120 and every line is in stock; a zero total quantity gives EmptyOrder first; otherwise a price above 120 gives TooExpensive with that total; otherwise any failing line gives OutOfStock with the full error list; any rejection leaves the ledger unchanged; on acceptance each book drops by its ordered quantity, the receipt has one entry per line with price × quantity as subtotal, and the total is the sum of the subtotals, at most 120 |
| Controller.JavaRem | src/main/java/com/example/bookstore/controller/BookstoreController.java:136 | the Java remainder lies strictly between −d and d and takes the dividend's sign; for d = 10 the dividend minus the remainder is a multiple of ten |
| Controller.JavaRemTenZeroIffDivisible | src/main/java/com/example/bookstore/controller/BookstoreController.java:136 | Java's remainder by ten is zero iff Dafny's Euclidean remainder is zero, negative values included |
| Controller.CheckRestockLine | src/main/java/com/example/bookstore/controller/BookstoreController.java:131-145 | a line is valid iff its quantity is at most 1000, a multiple of ten, and the book is not D; an invalid line gets exactly one reason naming its book: the cap reason iff the quantity exceeds 1000, the multiple-of-ten reason iff it is within the cap but not a multiple of ten, and the book-D reason iff it passes both and the book is D |
| Controller.PartitionRestockLines | src/main/java/com/example/bookstore/controller/BookstoreController.java:119-146 | each line becomes either a kept line or one error, so kept plus errors equals the line count; the error list is empty iff every line is valid, and then the kept lines are the input; every kept line is valid |
| Controller.PartitionRestockLinesAppend | src/main/java/com/example/bookstore/controller/BookstoreController.java:122-146 | validation distributes over concatenation: the kept lines and the errors of a joined batch are those of the first part followed by those of the second, so errors come in input order |
| Controller.PartitionRestockLinesOfOneLine | src/main/java/com/example/bookstore/controller/BookstoreController.java:122-146 | a single line is either kept or contributes exactly its one reason; with PartitionRestockLinesAppend this gives one error per invalid line |
| Controller.PartitionRestockLinesCountInvalid | src/main/java/com/example/bookstore/controller/BookstoreController.java:122-146 | a restock batch yields exactly as many errors as it has invalid lines, and keeps all the other lines |
| Controller.ApplyRestocks | src/main/java/com/example/bookstore/controller/BookstoreController.java:153-157 | committing a restock raises each book's count by the total quantity of that book's lines, and removes no entry |
| Controller.Restock | src/main/java/com/example/bookstore/controller/BookstoreController.java:116-168 | the batch is accepted iff every line is valid; a rejection leaves the ledger unchanged and carries between 1 and n errors, one per invalid line; on acceptance each book rises by its restocked quantity, and the receipt lists every input line's title and quantity in order; book D's count never changes |
| Controller.PerLineCheckOvercommits | src/main/java/com/example/bookstore/controller/BookstoreController.java:71-93 | two lines of q copies of one book, each covered by the stock on its own but not together, and together costing at most 120, are accepted and leave a negative count |
| Controller.NegativeRestockAccepted | src/main/java/com/example/bookstore/controller/BookstoreController.java:131-157 | a negative multiple of ten for a book other than D is accepted and lowers that book's count |
| Controller.NegativeOrderRaisesStock | src/main/java/com/example/bookstore/controller/BookstoreController.java:53-93 | a single negative order line that the stock covers is accepted and raises that book's count |
| Controller.ProcessorsKeepListingComplete | src/main/java/com/example/bookstore/controller/BookstoreController.java:26-37 | from a full ledger, after any order or restock the ledger is still full and the listing still shows four books |
| Messages.NatToString | src/main/java/com/example/bookstore/controller/BookstoreController.java:67 | the decimal rendering of the total is non-empty, is all digits, and has no leading zero |
| Messages.NatToStringRoundTrip | src/main/java/com/example/bookstore/controller/BookstoreController.java:67 | reading the decimal rendering back gives the original number |
| Messages.StockErrorMessage | src/main/java/com/example/bookstore/controller/BookstoreController.java:74-81 | every stock-error message starts with the book's title |
| Messages.StockErrorMessageReadsBack | src/main/java/com/example/bookstore/controller/BookstoreController.java:74-81 | the book and the reason can be read back from every stock-error message |
| Messages.StockErrorMessagesAreDistinct | src/main/java/com/example/bookstore/controller/BookstoreController.java:74-81 | two stock errors share a message iff they are the same error |
| Messages.OrderErrorBody | src/main/java/com/example/bookstore/controller/BookstoreController.java:57-86 | stock errors give a list body with one message per error, each starting with that book's title; the empty-cart and price-cap rules give a single message |
| Messages.OrderErrorBodyReadsBack | src/main/java/com/example/bookstore/controller/BookstoreController.java:71-86 | each message of an out-of-stock body reads back as the error of its line, at the same position |
| Messages.RestockErrorMessageReadsBack | src/main/java/com/example/bookstore/controller/BookstoreController.java:132-145 | the book and the reason can be read back from every restock-error message |
| Messages.RestockErrorMessagesAreDistinct | src/main/java/com/example/bookstore/controller/BookstoreController.java:132-145 | two restock errors share a message iff they are the same error |
| Messages.RestockErrorBodyReadsBack | src/main/java/com/example/bookstore/controller/BookstoreController.java:131-150 | a rejected restock's body is a list with one message per error, and each message reads back as the error of its line, at the same position |
| Scenarios.SeedListing | src/test/java/com/example/bookstore/controller/BookstoreControllerTest.java:44-71 | the seed listing is the four books in catalog order with titles, prices 5/10/15/75 and counts 20/20/20/10 |
| Scenarios.SeedHasEveryBook | src/test/java/com/example/bookstore/service/InventoryServiceTest.java:10-18 | the seed ledger has at least one copy of every book |
| Scenarios.OrderWithinLimits | src/test/java/com/example/bookstore/controller/BookstoreControllerTest.java:73-98 | 5 × A plus 5 × B is accepted with two receipt lines and total 75, and leaves A=15 and B=15 |
| Scenarios.OrderOfZeros | src/test/java/com/example/bookstore/controller/BookstoreControllerTest.java:100-117 | zero copies of every book is rejected as an empty order with the empty-cart message, and the stock is unchanged |
| Scenarios.OrderTooExpensive | src/test/java/com/example/bookstore/controller/BookstoreControllerTest.java:119-133 | 5 × D is rejected as too expensive with total 375, shown as "375", and the stock is unchanged |
| Scenarios.OrderMoreThanStock | src/test/java/com/example/bookstore/controller/BookstoreControllerTest.java:135-149 | 23 × A against 20 gives exactly one sold-out error for A, and the stock is unchanged |
| Scenarios.OrderSoldOutBookD | src/test/java/com/example/bookstore/controller/BookstoreControllerTest.java:151-173 | with D at 0, 1 × D gives exactly one permanent-sellout error, and D stays at 0 |
| Scenarios.OrderDuplicateLinesOvercommit | src/main/java/com/example/bookstore/controller/BookstoreController.java:71-93 | two lines of 12 × A against a count of 20 are accepted and leave A at −4 |
| Scenarios.RestockThreeBooks | src/test/java/com/example/bookstore/controller/BookstoreControllerTest.java:214-237 | 10 each of A, B and C is accepted with the success message, and each count becomes 30 |
| Scenarios.RestockNotMultiplesOfTen | src/test/java/com/example/bookstore/controller/BookstoreControllerTest.java:239-266 | 15, 7 and 23 give three multiple-of-ten errors in line order, and the stock is unchanged |
| Scenarios.RestockAboveMaximum | src/test/java/com/example/bookstore/controller/BookstoreControllerTest.java:268-294 | 1005, 2335 and 5455 give three cap errors in line order, and the stock is unchanged |
| Scenarios.RestockBookD | src/test/java/com/example/bookstore/controller/BookstoreControllerTest.java:191-212 | 10 × D gives one permanent-unavailability error, and D stays at 10 |

## Left out

- Spring transport is not modelled: routing, `ResponseEntity`, HTTP status codes and JSON (de)serialization. Unknown book identifiers are rejected by the deserializer before the handlers run. The `Book` datatype admits only the four books, so that path does not arise.
- Authentication is not modelled. The basic-auth credentials appear only in the tests, and they belong to the security layer.
- The commented-out "restock only at zero" rule at BookstoreController.java:126-129 is not modelled. It is not current behaviour.
- Concurrency and atomicity across requests are not modelled. The source has no locking, and the model is single-threaded.
- Controller.PlaceOrder: the quantity and price sums use unbounded integers. Java's 32-bit `int` sums at BookstoreController.java:53-64 can wrap around on huge quantities, and the model does not reproduce that.
- Inventory.OrderBook: the count is an unbounded integer. Java's `int` subtraction at InventoryService.java:28 wraps around past −2147483648, and the model does not reproduce that.
- Inventory.RestockBook: the count is an unbounded integer. Java's `int` addition at InventoryService.java:32 wraps around past 2147483647, and the model does not reproduce that.
- Controller.ApplyOrders: the counts are unbounded, so the per-book decrease does not wrap around as the Java ledger would on huge quantities.
- Controller.ApplyRestocks: the counts are unbounded, so the per-book increase does not wrap around as the Java ledger would. For example, two restock lines of A × −2147483640 pass every rule, and Java ends A at 36 from 20 where the model gives −4294967260.
- Controller.OrderedLine: the subtotal price × quantity in OrderedBookDto.java:6 is a 32-bit product in Java and can wrap around; the model's is unbounded.
- Controller.JavaRem: states that the dividend minus the remainder is a multiple of the divisor only for the divisor 10, the only one the code uses.
- Lines whose `book` field is missing or null, and null lines, are not modelled. The `Book` datatype has no null value and a batch is a sequence of lines. In the code a null line throws a null pointer at BookstoreController.java:54 for an order and at :123 for a restock. An order line with a null book throws at BookstoreController.java:63 unless the total quantity is zero. A restock line with a null book and a quantity above 1000 or not a multiple of ten throws while its error message is built, at BookstoreController.java:133 or :137, before anything is committed. With any other quantity it passes validation at :140. If another line of the batch has an error, the whole batch is then rejected at :149-151 without an exception. Otherwise it throws in `EnumMap.put` at InventoryService.java:32, after earlier lines of the batch have been committed.
- Controller.Restock: quantities are unbounded integers, not Java's 32-bit `int`. Every rule compares against small constants, so the verdict is the same for every in-range value.
- Scenarios: the lemmas check outcomes, error data and the rendered order total. They do not compare full English sentences with the tests' expected text. The exact wording lives in the `Messages` functions.
- The mutable service object and its `getStock` accessor are not modelled as such. The ledger is passed explicitly as a value and returned by each operation. The tests overwrite counts directly through the map; `Scenarios.SeedWith` stands in for that.
