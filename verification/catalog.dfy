/** The bookstore's fixed catalog: four books, each with a title and a
    whole-number price. The catalog is closed, so it is a datatype; titles and
    prices are pure functions of the book and no operation can change them. */
module Catalog {

  datatype Book = BookA | BookB | BookC | BookD

  /** The display title of a book. */
  function Title(b: Book): (t: string)
    ensures |t| > 0
  {
    match b
    case BookA => "Fellowship of the book"
    case BookB => "Books and the chamber of books"
    case BookC => "The Return of the Book"
    case BookD => "Limited Collectors Edition"
  }

  /** The unit price of a book, in whole currency units. */
  function Price(b: Book): (p: int)
    ensures 0 < p <= 75
  {
    match b
    case BookA => 5
    case BookB => 10
    case BookC => 15
    case BookD => 75
  }

  /** The catalog in declaration order, which is also the iteration order of
      the ledger's enum-keyed map. */
  const AllBooks: seq<Book> := [BookA, BookB, BookC, BookD]

  /** Every book appears in the catalog listing exactly once, in the order
      A, B, C, D. */
  lemma AllBooksIsTheCatalog()
    ensures |AllBooks| == 4
    ensures forall b: Book :: b in AllBooks
    ensures forall i, j :: 0 <= i < j < |AllBooks| ==> AllBooks[i] != AllBooks[j]
    ensures AllBooks[0] == BookA && AllBooks[1] == BookB
    ensures AllBooks[2] == BookC && AllBooks[3] == BookD
  {
    forall b: Book
      ensures b in AllBooks
    {
      match b
      case BookA => assert AllBooks[0] == b;
      case BookB => assert AllBooks[1] == b;
      case BookC => assert AllBooks[2] == b;
      case BookD => assert AllBooks[3] == b;
    }
  }

  /** Titles identify books: two books with the same title are the same book. */
  lemma TitlesAreDistinct(b1: Book, b2: Book)
    ensures Title(b1) == Title(b2) <==> b1 == b2
  {
  }
}
