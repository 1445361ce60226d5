/** The inventory ledger: a stock count per book and three unguarded
    primitives (order, restock, in-stock test). The ledger does no business
    validation; every rule lives in the controller's processors. */
module Inventory {
  import opened Catalog

  /** Stock-on-hand per book. A book without an entry counts as zero. */
  type Stock = map<Book, int>

  /** The seed stock a freshly constructed service holds. */
  function InitialStock(): (s: Stock)
    ensures Full(s)
  {
    var s := map[BookA := 20, BookB := 20, BookC := 20, BookD := 10];
    assert Full(s) by {
      forall b: Book
        ensures b in s
      {
        assert b.BookA? || b.BookB? || b.BookC? || b.BookD?;
      }
    }
    s
  }

  /** Stock of a book, zero when the ledger has no entry for it. */
  function StockOf(s: Stock, b: Book): int
  {
    if b in s then s[b] else 0
  }

  /** A ledger with an entry for every book of the catalog. */
  predicate Full(s: Stock)
  {
    forall b: Book :: b in s
  }

  /** True iff the ledger holds at least `q` copies of `b`; reads only. */
  predicate HasBookInStock(s: Stock, b: Book, q: int)
  {
    StockOf(s, b) >= q
  }

  /** Removes `q` copies of `b` with no guard: the count may go negative. */
  function OrderBook(s: Stock, b: Book, q: int): (r: Stock)
    ensures StockOf(r, b) == StockOf(s, b) - q
    ensures forall c :: c != b ==> StockOf(r, c) == StockOf(s, c)
    ensures r.Keys == s.Keys + {b}
  {
    s[b := StockOf(s, b) - q]
  }

  /** Adds `q` copies of `b` with no guard. */
  function RestockBook(s: Stock, b: Book, q: int): (r: Stock)
    ensures StockOf(r, b) == StockOf(s, b) + q
    ensures forall c :: c != b ==> StockOf(r, c) == StockOf(s, c)
    ensures r.Keys == s.Keys + {b}
  {
    s[b := StockOf(s, b) + q]
  }

  /** The seed values: 20 copies of A, B and C, and 10 of D. */
  lemma InitialStockValues()
    ensures StockOf(InitialStock(), BookA) == 20
    ensures StockOf(InitialStock(), BookB) == 20
    ensures StockOf(InitialStock(), BookC) == 20
    ensures StockOf(InitialStock(), BookD) == 10
  {
  }

  /** A book without a ledger entry is in stock only for quantities of zero
      or less, and the test reads nothing but the count. */
  lemma MissingEntryCountsAsZero(s: Stock, b: Book, q: int)
    requires b !in s
    ensures HasBookInStock(s, b, q) <==> q <= 0
    ensures HasBookInStock(s, b, q) == HasBookInStock(s[b := 0], b, q)
  {
  }

  /** Ordering has no guard: ordering more than is on hand leaves a negative
      count. */
  lemma OrderBookCanGoNegative(s: Stock, b: Book, q: int)
    requires q > StockOf(s, b)
    ensures StockOf(OrderBook(s, b, q), b) < 0
  {
  }

  /** Restocking `q` copies and then ordering `q` copies restores the ledger
      exactly, when the book already had an entry. */
  lemma RestockThenOrderRestores(s: Stock, b: Book, q: int)
    requires b in s
    ensures OrderBook(RestockBook(s, b, q), b, q) == s
  {
  }

  /** Ordering `q` copies and then restocking `q` copies restores the ledger
      exactly, when the book already had an entry. */
  lemma OrderThenRestockRestores(s: Stock, b: Book, q: int)
    requires b in s
    ensures RestockBook(OrderBook(s, b, q), b, q) == s
  {
  }

  /** From an empty count, restocking `q > 0` copies makes `q` available,
      and ordering them again makes them unavailable. */
  lemma RestockThenOrderAvailability(s: Stock, b: Book, q: int)
    requires StockOf(s, b) == 0 && q > 0
    ensures !HasBookInStock(s, b, q)
    ensures HasBookInStock(RestockBook(s, b, q), b, q)
    ensures !HasBookInStock(OrderBook(RestockBook(s, b, q), b, q), b, q)
  {
  }

  /** The primitives only ever add entries, so a full ledger stays full. */
  lemma PrimitivesKeepLedgerFull(s: Stock, b: Book, q: int)
    requires Full(s)
    ensures Full(OrderBook(s, b, q)) && Full(RestockBook(s, b, q))
  {
  }
}
