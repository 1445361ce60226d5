/** Decision logic of the bookstore's three handlers: the stock listing, the
    validate-then-commit order processor and the validate-then-commit restock
    processor. Transport (HTTP status, JSON) is not modelled; each processor
    returns a discriminated outcome together with the ledger it leaves. */
module Controller {
  import opened Catalog
  import opened Inventory

  /** Largest accepted order value, in whole currency units. */
  const MaxOrderValue: int := 120
  /** Largest accepted restock quantity for one line. */
  const MaxRestockQuantity: int := 1000

  const OrderPlacedMessage: string := "Order placed successfully!"
  const RestockedMessage: string := "Restocked successfully!"

  /** One line of an order or restock request. Quantities are machine
      integers in the source and are not checked for sign. */
  datatype BookRequest = BookRequest(book: Book, quantity: int)

  /** One entry of the stock listing. */
  datatype BookResponse = BookResponse(title: string, price: int, stock: int)

  /** One line of a successful order's receipt. */
  datatype OrderedBook = OrderedBook(title: string, quantity: int, pricePerBook: int, subTotal: int)

  datatype OrderResponse = OrderResponse(orderedBooks: seq<OrderedBook>, totalPrice: int, message: string)

  /** One line of a successful restock's receipt. */
  datatype RestockedBook = RestockedBook(title: string, quantity: int)

  datatype RestockResponse = RestockResponse(message: string, restockedItems: seq<RestockedBook>)

  /** Why an order line cannot be served from stock: book D can never come
      back, every other book is only sold out for now. */
  datatype StockError = SoldOut(book: Book) | GoneForever(book: Book)

  /** Why a whole order is rejected, in the order the rules are checked. */
  datatype OrderError =
    | EmptyOrder
    | TooExpensive(totalPrice: int)
    | OutOfStock(errors: seq<StockError>)

  /** Why a restock line is rejected, in the order the rules are checked. */
  datatype RestockError =
    | ExceedsMaximum(book: Book)
    | NotMultipleOfTen(book: Book)
    | NoMoreExists(book: Book)

  /** The verdict on one restock line. */
  datatype LineVerdict = Valid | Invalid(error: RestockError)

  datatype Outcome<R, E> = Ok(response: R) | Err(error: E)

  /** A processor's outcome and the ledger it leaves behind. */
  datatype Handled<R, E> = Handled(outcome: Outcome<R, E>, stock: Stock)

  // ---------------------------------------------------------------------
  // Stock listing
  // ---------------------------------------------------------------------

  /** The listing entries for the books of `books` that have a ledger entry,
      in the order of `books`. */
  function ListFrom(s: Stock, books: seq<Book>): (r: seq<BookResponse>)
    ensures |r| <= |books|
    ensures |r| == |books| <==> forall i :: 0 <= i < |books| ==> books[i] in s
    ensures (forall i :: 0 <= i < |books| ==> books[i] in s) ==>
              |r| == |books| &&
              forall i :: 0 <= i < |books| ==>
                r[i] == BookResponse(Title(books[i]), Price(books[i]), s[books[i]])
  {
    if |books| == 0 then []
    else
      var head := if books[0] in s then [BookResponse(Title(books[0]), Price(books[0]), s[books[0]])] else [];
      head + ListFrom(s, books[1..])
  }

  /** The stock listing: the ledger's entries in catalog declaration order,
      each with title, price and current count. */
  function Listing(s: Stock): (r: seq<BookResponse>)
    ensures |r| <= |AllBooks|
    ensures |r| == |AllBooks| <==> Full(s)
    ensures Full(s) ==>
              |r| == |AllBooks| &&
              forall i :: 0 <= i < |AllBooks| ==>
                r[i] == BookResponse(Title(AllBooks[i]), Price(AllBooks[i]), StockOf(s, AllBooks[i]))
  {
    AllBooksIsTheCatalog();
    assert (forall i :: 0 <= i < |AllBooks| ==> AllBooks[i] in s) ==> Full(s) by {
      if forall i :: 0 <= i < |AllBooks| ==> AllBooks[i] in s {
        forall b: Book
          ensures b in s
        {
          assert b == AllBooks[0] || b == AllBooks[1] || b == AllBooks[2] || b == AllBooks[3];
        }
      }
    }
    ListFrom(s, AllBooks)
  }

  // ---------------------------------------------------------------------
  // Sums over a batch
  // ---------------------------------------------------------------------

  /** The number of copies requested over all lines. */
  function TotalQuantity(lines: seq<BookRequest>): int
  {
    if |lines| == 0 then 0 else lines[0].quantity + TotalQuantity(lines[1..])
  }

  /** The price of one line: unit price times quantity. */
  function SubTotal(line: BookRequest): int
  {
    Price(line.book) * line.quantity
  }

  /** The value of a batch: the sum of its lines' subtotals. */
  function TotalPrice(lines: seq<BookRequest>): int
  {
    if |lines| == 0 then 0 else SubTotal(lines[0]) + TotalPrice(lines[1..])
  }

  /** The number of copies of `b` requested over all lines naming `b`. */
  function QuantityOf(lines: seq<BookRequest>, b: Book): int
  {
    if |lines| == 0 then 0
    else (if lines[0].book == b then lines[0].quantity else 0) + QuantityOf(lines[1..], b)
  }

  /** Lines naming `b` are the only ones that contribute to its quantity. */
  lemma {:induction false} QuantityOfAbsentBook(lines: seq<BookRequest>, b: Book)
    requires forall i :: 0 <= i < |lines| ==> lines[i].book != b
    ensures QuantityOf(lines, b) == 0
  {
    if |lines| > 0 {
      QuantityOfAbsentBook(lines[1..], b);
    }
  }

  // ---------------------------------------------------------------------
  // Order processor
  // ---------------------------------------------------------------------

  /** The stock check on one line, against the ledger before the batch. */
  predicate LineInStock(s: Stock, line: BookRequest)
  {
    HasBookInStock(s, line.book, line.quantity)
  }

  /** Every line of the batch passes its own stock check. */
  predicate AllInStock(s: Stock, lines: seq<BookRequest>)
  {
    forall i :: 0 <= i < |lines| ==> LineInStock(s, lines[i])
  }

  /** Every line of the batch fails its own stock check. */
  predicate NoneInStock(s: Stock, lines: seq<BookRequest>)
  {
    forall i :: 0 <= i < |lines| ==> !LineInStock(s, lines[i])
  }

  /** The reason reported for a line that fails its stock check. */
  function StockReason(b: Book): (e: StockError)
    ensures e.book == b
    ensures e.GoneForever? <==> b == BookD
  {
    if b == BookD then GoneForever(b) else SoldOut(b)
  }

  /** The errors one line contributes: none if it is in stock, its reason
      otherwise. */
  function LineErrors(s: Stock, line: BookRequest): seq<StockError>
  {
    if LineInStock(s, line) then [] else [StockReason(line.book)]
  }

  /** One reason per line that fails its own stock check, in input order.
      Each line is checked alone against `s`, so several lines naming the
      same book are not added up. */
  function StockErrors(s: Stock, lines: seq<BookRequest>): (r: seq<StockError>)
    ensures |r| <= |lines|
    ensures r == [] <==> AllInStock(s, lines)
    ensures NoneInStock(s, lines) ==> |r| == |lines|
  {
    if |lines| == 0 then []
    else
      LineErrors(s, lines[0]) + StockErrors(s, lines[1..])
  }

  /** The same error list as StockErrors, without its contract, so that
      proofs about concatenation do not carry the contract along. */
  function ErrorList(s: Stock, lines: seq<BookRequest>): seq<StockError>
  {
    if |lines| == 0 then [] else LineErrors(s, lines[0]) + ErrorList(s, lines[1..])
  }

  /** StockErrors and its contract-free twin agree on every batch. */
  lemma {:induction false} ErrorListIsStockErrors(s: Stock, lines: seq<BookRequest>)
    ensures StockErrors(s, lines) == ErrorList(s, lines)
  {
    if |lines| > 0 {
      ErrorListIsStockErrors(s, lines[1..]);
    }
  }

  /** The contract-free error list distributes over concatenation. */
  lemma {:induction false} ErrorListAppend(s: Stock, a: seq<BookRequest>, b: seq<BookRequest>)
    ensures ErrorList(s, a + b) == ErrorList(s, a) + ErrorList(s, b)
  {
    if |a| == 0 {
      assert a + b == b;
    } else {
      assert (a + b)[1..] == a[1..] + b;
      ErrorListAppend(s, a[1..], b);
    }
  }

  /** The stock check distributes over concatenation: the errors of a batch
      are the errors of its first part followed by those of the rest. */
  lemma StockErrorsAppend(s: Stock, a: seq<BookRequest>, b: seq<BookRequest>)
    ensures StockErrors(s, a + b) == StockErrors(s, a) + StockErrors(s, b)
  {
    ErrorListAppend(s, a, b);
    ErrorListIsStockErrors(s, a);
    ErrorListIsStockErrors(s, b);
    ErrorListIsStockErrors(s, a + b);
  }




  /** The receipt line for one order line. */
  function OrderedLine(line: BookRequest): OrderedBook
  {
    OrderedBook(Title(line.book), line.quantity, Price(line.book), Price(line.book) * line.quantity)
  }

  function OrderedBooks(lines: seq<BookRequest>): seq<OrderedBook>
  {
    seq(|lines|, i requires 0 <= i < |lines| => OrderedLine(lines[i]))
  }

  /** The sum of the receipt's subtotals. */
  function SumSubTotals(items: seq<OrderedBook>): int
  {
    if |items| == 0 then 0 else items[0].subTotal + SumSubTotals(items[1..])
  }

  /** The order total computed during validation equals the sum of the
      receipt's subtotals. */
  lemma {:induction false} TotalPriceIsSumOfSubTotals(lines: seq<BookRequest>)
    ensures SumSubTotals(OrderedBooks(lines)) == TotalPrice(lines)
  {
    if |lines| > 0 {
      assert OrderedBooks(lines)[1..] == OrderedBooks(lines[1..]);
      TotalPriceIsSumOfSubTotals(lines[1..]);
    }
  }

  /** Decrements the ledger line by line, in input order. */
  function ApplyOrders(s: Stock, lines: seq<BookRequest>): (r: Stock)
    ensures forall b :: StockOf(r, b) == StockOf(s, b) - QuantityOf(lines, b)
    ensures s.Keys <= r.Keys
    decreases lines
  {
    if |lines| == 0 then s
    else ApplyOrders(OrderBook(s, lines[0].book, lines[0].quantity), lines[1..])
  }

  /** The order handler: empty cart first, then the price cap, then a stock
      check on every line; only when all pass is every line decremented. */
  function PlaceOrder(s: Stock, lines: seq<BookRequest>): (r: Handled<OrderResponse, OrderError>)
    // A rejected order leaves every book's stock as it was.
    ensures r.outcome.Err? ==> r.stock == s
    // Acceptance, exactly.
    ensures r.outcome.Ok? <==>
              TotalQuantity(lines) != 0 && TotalPrice(lines) <= MaxOrderValue &&
              AllInStock(s, lines)
    // The rules in their order of precedence.
    ensures TotalQuantity(lines) == 0 ==> r.outcome == Err(EmptyOrder)
    ensures TotalQuantity(lines) != 0 && TotalPrice(lines) > MaxOrderValue ==>
              r.outcome == Err(TooExpensive(TotalPrice(lines)))
    ensures TotalQuantity(lines) != 0 && TotalPrice(lines) <= MaxOrderValue &&
            (exists i :: 0 <= i < |lines| && !LineInStock(s, lines[i])) ==>
              r.outcome == Err(OutOfStock(StockErrors(s, lines))) &&
              StockErrors(s, lines) != []
    // What an accepted order does and reports.
    ensures r.outcome.Ok? ==>
              && (forall b :: StockOf(r.stock, b) == StockOf(s, b) - QuantityOf(lines, b))
              && |r.outcome.response.orderedBooks| == |lines|
              && (forall i :: 0 <= i < |lines| ==>
                    r.outcome.response.orderedBooks[i] ==
                    OrderedBook(Title(lines[i].book), lines[i].quantity, Price(lines[i].book),
                                Price(lines[i].book) * lines[i].quantity))
              && r.outcome.response.totalPrice == SumSubTotals(r.outcome.response.orderedBooks)
              && r.outcome.response.totalPrice <= MaxOrderValue
              && r.outcome.response.message == OrderPlacedMessage
  {
    var totalBooksOrdered := TotalQuantity(lines);
    if totalBooksOrdered == 0 then Handled(Err(EmptyOrder), s)
    else
      var totalPrice := TotalPrice(lines);
      if totalPrice > MaxOrderValue then Handled(Err(TooExpensive(totalPrice)), s)
      else
        var stockErrors := StockErrors(s, lines);
        if stockErrors != [] then Handled(Err(OutOfStock(stockErrors)), s)
        else
          TotalPriceIsSumOfSubTotals(lines);
          Handled(Ok(OrderResponse(OrderedBooks(lines), totalPrice, OrderPlacedMessage)), ApplyOrders(s, lines))
  }

  // ---------------------------------------------------------------------
  // Restock processor
  // ---------------------------------------------------------------------

  /** Remainder as computed by Java's `%` for a positive divisor: it takes
      the sign of the dividend. */
  function JavaRem(a: int, d: int): (r: int)
    requires d > 0
    ensures -d < r < d
    ensures a >= 0 ==> r >= 0
    ensures a < 0 ==> r <= 0
    ensures d == 10 ==> (a - r) % 10 == 0
  {
    if a >= 0 then a % d else -((-a) % d)
  }

  /** Java's remainder and Dafny's Euclidean remainder agree on whether a
      number is a multiple of ten, negative numbers included. */
  lemma JavaRemTenZeroIffDivisible(a: int)
    ensures JavaRem(a, 10) == 0 <==> a % 10 == 0
  {
  }

  /** The verdict on one restock line; the first rule broken wins: the
      quantity cap, then the multiple-of-ten rule, then book D. */
  function CheckRestockLine(line: BookRequest): (v: LineVerdict)
    ensures v == Valid <==>
              line.quantity <= MaxRestockQuantity && line.quantity % 10 == 0 && line.book != BookD
    ensures v.Invalid? ==> v.error.book == line.book
    ensures v == Invalid(ExceedsMaximum(line.book)) <==> line.quantity > MaxRestockQuantity
    ensures v == Invalid(NotMultipleOfTen(line.book)) <==>
              line.quantity <= MaxRestockQuantity && line.quantity % 10 != 0
    ensures v == Invalid(NoMoreExists(line.book)) <==>
              line.quantity <= MaxRestockQuantity && line.quantity % 10 == 0 && line.book == BookD
  {
    JavaRemTenZeroIffDivisible(line.quantity);
    if line.quantity > MaxRestockQuantity then Invalid(ExceedsMaximum(line.book))
    else if JavaRem(line.quantity, 10) != 0 then Invalid(NotMultipleOfTen(line.book))
    else if line.book == BookD then Invalid(NoMoreExists(line.book))
    else Valid
  }

  /** Every line of the restock batch is valid. */
  predicate AllValid(lines: seq<BookRequest>)
  {
    forall i :: 0 <= i < |lines| ==> CheckRestockLine(lines[i]) == Valid
  }

  /** The validation pass of the restock handler split into the lines it
      accepts and the errors it collects, both in input order. */
  datatype Partition = Partition(valid: seq<BookRequest>, errors: seq<RestockError>)

  /** Puts one line in front of an already partitioned rest: a valid line joins
      the kept lines, an invalid one contributes its reason. */
  function Place(line: BookRequest, rest: Partition): Partition
  {
    match CheckRestockLine(line)
    case Valid => Partition([line] + rest.valid, rest.errors)
    case Invalid(e) => Partition(rest.valid, [e] + rest.errors)
  }

  /** Two partitions one after the other. */
  function Join(x: Partition, y: Partition): Partition
  {
    Partition(x.valid + y.valid, x.errors + y.errors)
  }

  /** One pass over a restock batch: valid lines are kept, invalid lines
      contribute their single reason. */
  function PartitionRestockLines(lines: seq<BookRequest>): (r: Partition)
    ensures |r.valid| + |r.errors| == |lines|
    ensures r.errors == [] <==> AllValid(lines)
    ensures r.errors == [] ==> r.valid == lines
    ensures forall i :: 0 <= i < |r.valid| ==> CheckRestockLine(r.valid[i]) == Valid
  {
    if |lines| == 0 then Partition([], [])
    else Place(lines[0], PartitionRestockLines(lines[1..]))
  }

  /** Validation distributes over concatenation: the accepted lines and the
      errors of a batch are those of its first part followed by those of the
      rest. */
  lemma {:induction false} PartitionRestockLinesAppend(a: seq<BookRequest>, b: seq<BookRequest>)
    ensures PartitionRestockLines(a + b) == Join(PartitionRestockLines(a), PartitionRestockLines(b))
  {
    if |a| == 0 {
      assert a + b == b;
    } else {
      var ab := a + b;
      assert ab[0] == a[0];
      assert ab[1..] == a[1..] + b;
      PartitionRestockLinesAppend(a[1..], b);
      PlaceJoin(a[0], PartitionRestockLines(a[1..]), PartitionRestockLines(b));
    }
  }

  /** Putting a line in front commutes with joining partitions. */
  lemma PlaceJoin(line: BookRequest, x: Partition, y: Partition)
    ensures Place(line, Join(x, y)) == Join(Place(line, x), y)
  {
    match CheckRestockLine(line)
    case Valid =>
      assert [line] + (x.valid + y.valid) == ([line] + x.valid) + y.valid;
    case Invalid(e) =>
      assert [e] + (x.errors + y.errors) == ([e] + x.errors) + y.errors;
  }

  /** Increments the ledger line by line, in input order. */
  function ApplyRestocks(s: Stock, lines: seq<BookRequest>): (r: Stock)
    ensures forall b :: StockOf(r, b) == StockOf(s, b) + QuantityOf(lines, b)
    ensures s.Keys <= r.Keys
    decreases lines
  {
    if |lines| == 0 then s
    else ApplyRestocks(RestockBook(s, lines[0].book, lines[0].quantity), lines[1..])
  }

  function RestockedItems(lines: seq<BookRequest>): seq<RestockedBook>
  {
    seq(|lines|, i requires 0 <= i < |lines| => RestockedBook(Title(lines[i].book), lines[i].quantity))
  }

  /** The restock handler: every line is checked, every error is collected,
      and the ledger changes only when no line has an error. */
  function Restock(s: Stock, lines: seq<BookRequest>): (r: Handled<RestockResponse, seq<RestockError>>)
    // Acceptance, exactly.
    ensures r.outcome.Ok? <==> AllValid(lines)
    // A rejected batch changes nothing and reports one error per invalid line.
    ensures r.outcome.Err? ==>
              && r.stock == s
              && r.outcome.error == PartitionRestockLines(lines).errors
              && 0 < |r.outcome.error| <= |lines|
    // What an accepted batch does and reports.
    ensures r.outcome.Ok? ==>
              && (forall b :: StockOf(r.stock, b) == StockOf(s, b) + QuantityOf(lines, b))
              && |r.outcome.response.restockedItems| == |lines|
              && (forall i :: 0 <= i < |lines| ==>
                    r.outcome.response.restockedItems[i] == RestockedBook(Title(lines[i].book), lines[i].quantity))
              && r.outcome.response.message == RestockedMessage
    // Book D is never restocked.
    ensures StockOf(r.stock, BookD) == StockOf(s, BookD)
  {
    var parts := PartitionRestockLines(lines);
    if parts.errors != [] then Handled(Err(parts.errors), s)
    else
      QuantityOfAbsentBook(lines, BookD);
      Handled(Ok(RestockResponse(RestockedMessage, RestockedItems(parts.valid))), ApplyRestocks(s, parts.valid))
  }

  // ---------------------------------------------------------------------
  // Properties across operations
  // ---------------------------------------------------------------------

  /** A one-line batch yields an error exactly when that line fails its
      stock check. With StockErrorsAppend this pins the error list down to
      one reason per failing line, in input order. */
  lemma StockErrorsOfOneLine(s: Stock, line: BookRequest)
    ensures StockErrors(s, [line]) == if LineInStock(s, line) then [] else [StockReason(line.book)]
  {
  }

  /** A one-line restock batch keeps the line or reports its single reason.
      With PartitionRestockLinesAppend this pins the error list down to one
      reason per invalid line, in input order. */
  lemma PartitionRestockLinesOfOneLine(line: BookRequest)
    ensures PartitionRestockLines([line]) ==
              if CheckRestockLine(line) == Valid then Partition([line], [])
              else Partition([], [CheckRestockLine(line).error])
  {
  }

  /** The number of lines that fail their own stock check, counted from
      the back of the batch. */
  function CountFailing(s: Stock, lines: seq<BookRequest>): nat
  {
    if |lines| == 0 then 0
    else CountFailing(s, lines[..|lines| - 1]) + (if LineInStock(s, lines[|lines| - 1]) then 0 else 1)
  }

  /** A rejected order reports exactly one reason per line that fails its
      stock check. */
  lemma {:induction false} StockErrorsCountFailing(s: Stock, lines: seq<BookRequest>)
    ensures |StockErrors(s, lines)| == CountFailing(s, lines)
    decreases |lines|
  {
    if |lines| > 0 {
      var init, last := lines[..|lines| - 1], lines[|lines| - 1];
      assert lines == init + [last];
      StockErrorsAppend(s, init, [last]);
      StockErrorsOfOneLine(s, last);
      StockErrorsCountFailing(s, init);
    }
  }

  /** The number of invalid restock lines, counted from the back of the
      batch. */
  function CountInvalid(lines: seq<BookRequest>): nat
  {
    if |lines| == 0 then 0
    else CountInvalid(lines[..|lines| - 1]) + (if CheckRestockLine(lines[|lines| - 1]) == Valid then 0 else 1)
  }

  /** A restock batch yields exactly one error per invalid line and keeps
      every other line. */
  lemma {:induction false} PartitionRestockLinesCountInvalid(lines: seq<BookRequest>)
    ensures |PartitionRestockLines(lines).errors| == CountInvalid(lines)
    ensures |PartitionRestockLines(lines).valid| == |lines| - CountInvalid(lines)
    decreases |lines|
  {
    if |lines| > 0 {
      var init, last := lines[..|lines| - 1], lines[|lines| - 1];
      assert lines == init + [last];
      PartitionRestockLinesAppend(init, [last]);
      PartitionRestockLinesOfOneLine(last);
      PartitionRestockLinesCountInvalid(init);
    }
  }

  /** The stock check looks at each line alone against the stock before the
      batch. Two lines for the same book that each fit, but together do not,
      and that together cost at most 120, pass validation and drive that
      book's stock negative. */
  lemma {:induction false} PerLineCheckOvercommits(s: Stock, b: Book, q: int)
    requires 0 < q <= StockOf(s, b) < 2 * q
    requires 2 * q * Price(b) <= MaxOrderValue
    ensures PlaceOrder(s, [BookRequest(b, q), BookRequest(b, q)]).outcome.Ok?
    ensures StockOf(PlaceOrder(s, [BookRequest(b, q), BookRequest(b, q)]).stock, b) == StockOf(s, b) - 2 * q < 0
  {
    var lines := [BookRequest(b, q), BookRequest(b, q)];
    assert lines[1..] == [BookRequest(b, q)];
    assert lines[1..][1..] == [];
    assert TotalQuantity(lines[1..]) == q;
    assert TotalQuantity(lines) == 2 * q;
    assert TotalPrice(lines[1..]) == Price(b) * q;
    assert TotalPrice(lines) == 2 * (Price(b) * q);
    assert QuantityOf(lines[1..], b) == q;
    assert QuantityOf(lines, b) == 2 * q;
  }

  /** Negative restock quantities are not rejected: a negative multiple of
      ten for a book other than D passes every rule and lowers the stock. */
  lemma NegativeRestockAccepted(s: Stock, b: Book, q: int)
    requires q < 0 && q % 10 == 0 && b != BookD
    ensures Restock(s, [BookRequest(b, q)]).outcome.Ok?
    ensures StockOf(Restock(s, [BookRequest(b, q)]).stock, b) == StockOf(s, b) + q < StockOf(s, b)
  {
  }

  /** Negative order quantities are not rejected either: a single negative
      line that the stock covers passes every rule and raises the stock. */
  lemma NegativeOrderRaisesStock(s: Stock, b: Book, q: int)
    requires q < 0 && StockOf(s, b) >= q
    ensures PlaceOrder(s, [BookRequest(b, q)]).outcome.Ok?
    ensures StockOf(PlaceOrder(s, [BookRequest(b, q)]).stock, b) == StockOf(s, b) - q > StockOf(s, b)
  {
    var lines := [BookRequest(b, q)];
    assert lines[1..] == [];
    assert TotalQuantity(lines) == q;
    assert TotalPrice(lines) == Price(b) * q;
    assert QuantityOf(lines, b) == q;
    assert LineInStock(s, lines[0]);
  }

  /** Neither processor ever removes a ledger entry, so after any sequence of
      orders and restocks from the seed the listing still shows all four
      books, in catalog order, with their fixed titles and prices. */
  lemma ProcessorsKeepListingComplete(s: Stock, lines: seq<BookRequest>)
    requires Full(s)
    ensures Full(PlaceOrder(s, lines).stock) && Full(Restock(s, lines).stock)
    ensures |Listing(PlaceOrder(s, lines).stock)| == 4
    ensures |Listing(Restock(s, lines).stock)| == 4
  {
  }
}
