/** Concrete runs of the model from the seed ledger, one per behaviour the
    repository's controller and service tests describe. */
module Scenarios {
  import opened Catalog
  import opened Inventory
  import opened Controller
  import opened Messages

  /** The seed ledger with one book's count overwritten, as the tests do
      before some requests. */
  function SeedWith(b: Book, n: int): (s: Stock)
    ensures Full(s) && StockOf(s, b) == n
    ensures forall c :: c != b ==> StockOf(s, c) == StockOf(InitialStock(), c)
  {
    InitialStock()[b := n]
  }

  /** The listing of the seed ledger: four books in catalog order with their
      titles, prices and seed counts. */
  lemma SeedListing()
    ensures Listing(InitialStock()) == [
      BookResponse("Fellowship of the book", 5, 20),
      BookResponse("Books and the chamber of books", 10, 20),
      BookResponse("The Return of the Book", 15, 20),
      BookResponse("Limited Collectors Edition", 75, 10)]
  {
  }

  /** Every seed count covers a single copy. */
  lemma SeedHasEveryBook(b: Book)
    ensures HasBookInStock(InitialStock(), b, 1)
  {
  }

  /** Five of A and five of B cost 75 and leave 15 of each. */
  lemma OrderWithinLimits()
    ensures var r := PlaceOrder(InitialStock(), [BookRequest(BookA, 5), BookRequest(BookB, 5)]);
      && r.outcome.Ok?
      && |r.outcome.response.orderedBooks| == 2
      && r.outcome.response.totalPrice == 75
      && r.outcome.response.message == "Order placed successfully!"
      && StockOf(r.stock, BookA) == 15 && StockOf(r.stock, BookB) == 15
  {
  }

  /** Zero copies of every book is an empty cart. */
  lemma OrderOfZeros()
    ensures var r := PlaceOrder(InitialStock(),
        [BookRequest(BookA, 0), BookRequest(BookB, 0), BookRequest(BookC, 0), BookRequest(BookD, 0)]);
      && r.outcome == Err(EmptyOrder)
      && r.stock == InitialStock()
      && OrderErrorBody(r.outcome.error) == Error("No books placed in the order.")
  {
  }

  /** Five of D cost 375, above the cap of 120. */
  lemma OrderTooExpensive()
    ensures var r := PlaceOrder(InitialStock(), [BookRequest(BookD, 5)]);
      && r.outcome == Err(TooExpensive(375))
      && r.stock == InitialStock()
      && IntToString(r.outcome.error.totalPrice) == "375"
  {
  }

  /** Twenty-three of A against a count of twenty: one sold-out reason. */
  lemma OrderMoreThanStock()
    ensures var r := PlaceOrder(InitialStock(), [BookRequest(BookA, 23)]);
      && r.outcome == Err(OutOfStock([SoldOut(BookA)]))
      && r.stock == InitialStock()
  {
    var lines := [BookRequest(BookA, 23)];
    assert lines[1..] == [];
    InitialStockValues();
    assert StockErrors(InitialStock(), lines) == [SoldOut(BookA)];
  }

  /** With D's count at zero, one D is reported as gone for good and the
      count stays at zero. */
  lemma OrderSoldOutBookD()
    ensures var r := PlaceOrder(SeedWith(BookD, 0), [BookRequest(BookD, 1)]);
      && r.outcome == Err(OutOfStock([GoneForever(BookD)]))
      && StockOf(r.stock, BookD) == 0
  {
    var lines := [BookRequest(BookD, 1)];
    assert lines[1..] == [];
    assert StockErrors(SeedWith(BookD, 0), lines) == [GoneForever(BookD)];
  }

  /** Twelve of A twice: each line fits the count of twenty on its own, so
      the order goes through and A ends at minus four. */
  lemma OrderDuplicateLinesOvercommit()
    ensures var r := PlaceOrder(InitialStock(), [BookRequest(BookA, 12), BookRequest(BookA, 12)]);
      r.outcome.Ok? && StockOf(r.stock, BookA) == -4
  {
  }

  /** Ten each of A, B and C raise each count to thirty. */
  lemma RestockThreeBooks()
    ensures var r := Restock(InitialStock(), [BookRequest(BookA, 10), BookRequest(BookB, 10), BookRequest(BookC, 10)]);
      && r.outcome.Ok?
      && r.outcome.response.message == "Restocked successfully!"
      && StockOf(r.stock, BookA) == 30 && StockOf(r.stock, BookB) == 30 && StockOf(r.stock, BookC) == 30
  {
  }

  /** Fifteen, seven and twenty-three: three multiple-of-ten errors in line
      order, and no count moves. */
  lemma RestockNotMultiplesOfTen()
    ensures var r := Restock(InitialStock(), [BookRequest(BookA, 15), BookRequest(BookB, 7), BookRequest(BookC, 23)]);
      && r.outcome == Err([NotMultipleOfTen(BookA), NotMultipleOfTen(BookB), NotMultipleOfTen(BookC)])
      && r.stock == InitialStock()
  {
    var lines := [BookRequest(BookA, 15), BookRequest(BookB, 7), BookRequest(BookC, 23)];
    assert lines[1..] == [BookRequest(BookB, 7), BookRequest(BookC, 23)];
    assert lines[1..][1..] == [BookRequest(BookC, 23)];
    assert lines[1..][1..][1..] == [];
    assert JavaRem(15, 10) == 5 && JavaRem(7, 10) == 7 && JavaRem(23, 10) == 3;
    assert PartitionRestockLines(lines[1..][1..]) == Partition([], [NotMultipleOfTen(BookC)]);
    assert PartitionRestockLines(lines[1..]) == Partition([], [NotMultipleOfTen(BookB), NotMultipleOfTen(BookC)]);
    assert PartitionRestockLines(lines) ==
      Partition([], [NotMultipleOfTen(BookA), NotMultipleOfTen(BookB), NotMultipleOfTen(BookC)]);
  }

  /** Quantities above a thousand: three cap errors in line order. */
  lemma RestockAboveMaximum()
    ensures var r := Restock(InitialStock(), [BookRequest(BookA, 1005), BookRequest(BookB, 2335), BookRequest(BookC, 5455)]);
      && r.outcome == Err([ExceedsMaximum(BookA), ExceedsMaximum(BookB), ExceedsMaximum(BookC)])
      && r.stock == InitialStock()
  {
    var lines := [BookRequest(BookA, 1005), BookRequest(BookB, 2335), BookRequest(BookC, 5455)];
    assert lines[1..] == [BookRequest(BookB, 2335), BookRequest(BookC, 5455)];
    assert lines[1..][1..] == [BookRequest(BookC, 5455)];
    assert lines[1..][1..][1..] == [];
    assert PartitionRestockLines(lines[1..][1..]) == Partition([], [ExceedsMaximum(BookC)]);
    assert PartitionRestockLines(lines[1..]) == Partition([], [ExceedsMaximum(BookB), ExceedsMaximum(BookC)]);
    assert PartitionRestockLines(lines) ==
      Partition([], [ExceedsMaximum(BookA), ExceedsMaximum(BookB), ExceedsMaximum(BookC)]);
  }

  /** Ten of D: D can never be restocked, and its count stays at ten. */
  lemma RestockBookD()
    ensures var r := Restock(InitialStock(), [BookRequest(BookD, 10)]);
      && r.outcome == Err([NoMoreExists(BookD)])
      && StockOf(r.stock, BookD) == 10
  {
    var lines := [BookRequest(BookD, 10)];
    assert lines[1..] == [];
    InitialStockValues();
    assert JavaRem(10, 10) == 0;
    assert PartitionRestockLines(lines) == Partition([], [NoMoreExists(BookD)]);
  }
}
