/** The wording the handlers put in their responses. A rejection body holds
    either one message (empty cart, price cap) or a list of messages (stock
    and restock errors, one per offending line). */
module Messages {
  import opened Catalog
  import opened Controller

  datatype ErrorBody = Error(message: string) | Errors(messages: seq<string>)

  datatype Option<T> = None | Some(value: T)

  predicate IsDigit(c: char)
  {
    '0' <= c <= '9'
  }

  function DigitChar(d: int): (c: char)
    requires 0 <= d < 10
    ensures IsDigit(c)
  {
    "0123456789"[d]
  }

  function DigitValue(c: char): int
    requires IsDigit(c)
  {
    c as int - '0' as int
  }

  /** Decimal digits of a natural number, most significant first, without
      leading zeros. */
  function NatToString(n: nat): (r: string)
    ensures |r| >= 1
    ensures forall i :: 0 <= i < |r| ==> IsDigit(r[i])
    ensures n > 0 ==> r[0] != '0'
    decreases n
  {
    if n < 10 then [DigitChar(n)] else NatToString(n / 10) + [DigitChar(n % 10)]
  }

  /** Reads a string of decimal digits, most significant first. */
  function ParseNat(s: string): nat
    requires forall i :: 0 <= i < |s| ==> IsDigit(s[i])
  {
    if |s| == 0 then 0 else 10 * ParseNat(s[..|s| - 1]) + DigitValue(s[|s| - 1])
  }

  /** Decimal rendering of an int, as string concatenation renders it: a
      minus sign for negative values. */
  function IntToString(i: int): string
  {
    if i < 0 then "-" + NatToString(-i) else NatToString(i)
  }

  /** Reading back the decimal rendering of a natural number gives the
      number. */
  lemma {:induction false} NatToStringRoundTrip(n: nat)
    ensures ParseNat(NatToString(n)) == n
    decreases n
  {
    var r := NatToString(n);
    if n < 10 {
      assert r[..|r| - 1] == [];
    } else {
      NatToStringRoundTrip(n / 10);
      assert r[..|r| - 1] == NatToString(n / 10);
    }
  }

  /** The book whose title starts with the given character. The four titles
      start with four different letters, so the first letter of a title is
      enough to tell which book it belongs to. */
  function BookByInitial(c: char): Option<Book>
  {
    if c == 'F' then Some(BookA)
    else if c == 'B' then Some(BookB)
    else if c == 'T' then Some(BookC)
    else if c == 'L' then Some(BookD)
    else None
  }

  /** The book whose title starts at position i of m, if any. */
  function BookAt(m: string, i: nat): Option<Book>
  {
    if i < |m| then BookByInitial(m[i]) else None
  }

  /** A title placed after any opening can be read back at the opening's
      length. */
  lemma TitleAt(p: string, b: Book, rest: string)
    ensures BookAt(p + Title(b) + rest, |p|) == Some(b)
  {
    var m := p + Title(b) + rest;
    assert m[|p|] == Title(b)[0];
  }

  /** Recovers the stock error from its message: the book from the title
      that opens the message, the reason from the first letter of the verb
      phrase after it ("currently" or "unfortunately"). */
  function ReadStockErrorMessage(m: string): Option<StockError>
  {
    match BookAt(m, 0)
    case None => None
    case Some(b) =>
      var k := |Title(b)| + 4;
      if k < |m| && m[k] == 'c' then Some(SoldOut(b))
      else if k < |m| && m[k] == 'u' then Some(GoneForever(b))
      else None
  }

  /** A message made of a title, a verb phrase and any rest starts with
      the title and reads back as the error the verb phrase's fifth character
      names. */
  lemma ReadsAsStockError(b: Book, verb: string, rest: string)
    requires |verb| > 4
    ensures Title(b) <= Title(b) + verb + rest
    ensures ReadStockErrorMessage(Title(b) + verb + rest) ==
              if verb[4] == 'c' then Some(SoldOut(b))
              else if verb[4] == 'u' then Some(GoneForever(b))
              else None
  {
    var m := Title(b) + verb + rest;
    TitleAt("", b, verb + rest);
    assert "" + Title(b) + (verb + rest) == m;
    assert m[|Title(b)| + 4] == verb[4];
  }

  /** The message for one line that failed its stock check; it starts with
      the book's title. */
  function StockErrorMessage(e: StockError): (m: string)
    ensures Title(e.book) <= m
  {
    match e
    case SoldOut(b) =>
      Title(b) + " is currently" + " sold out. Please try to place the order again without this book."
    case GoneForever(b) =>
      Title(b) + " is unfortunately" +
      (" sold out and no more copies exist in the world. " +
       "Please remove " + Title(b) + " from your order and try again.")
  }

  /** The sold-out message reads back as that error. */
  lemma SoldOutMessageReadsBack(b: Book)
    ensures ReadStockErrorMessage(StockErrorMessage(SoldOut(b))) == Some(SoldOut(b))
  {
    ReadsAsStockError(b, " is currently", " sold out. Please try to place the order again without this book.");
  }

  /** The gone-for-good message reads back as that error. */
  lemma GoneForeverMessageReadsBack(b: Book)
    ensures ReadStockErrorMessage(StockErrorMessage(GoneForever(b))) == Some(GoneForever(b))
  {
    ReadsAsStockError(b, " is unfortunately",
      " sold out and no more copies exist in the world. " +
      "Please remove " + Title(b) + " from your order and try again.");
  }

  /** The stock error can be read back from its message. */
  lemma StockErrorMessageReadsBack(e: StockError)
    ensures ReadStockErrorMessage(StockErrorMessage(e)) == Some(e)
  {
    match e
    case SoldOut(b) => SoldOutMessageReadsBack(b);
    case GoneForever(b) => GoneForeverMessageReadsBack(b);
  }

  /** Distinct stock errors never share a message. */
  lemma StockErrorMessagesAreDistinct(e1: StockError, e2: StockError)
    ensures StockErrorMessage(e1) == StockErrorMessage(e2) <==> e1 == e2
  {
    StockErrorMessageReadsBack(e1);
    StockErrorMessageReadsBack(e2);
  }

  /** The body of a rejected order: one message for the batch-level rules,
      one message per failing line for the stock check. */
  function OrderErrorBody(e: OrderError): (r: ErrorBody)
    ensures r.Errors? <==> e.OutOfStock?
    ensures e.OutOfStock? ==>
              |r.messages| == |e.errors| &&
              forall k :: 0 <= k < |e.errors| ==> Title(e.errors[k].book) <= r.messages[k]
  {
    match e
    case EmptyOrder => Error("No books placed in the order.")
    case TooExpensive(total) =>
      Error("Order of $" + IntToString(total) + " exceeds maximum allowed value of $" +
            IntToString(MaxOrderValue) + ".")
    case OutOfStock(errors) =>
      Errors(seq(|errors|, k requires 0 <= k < |errors| => StockErrorMessage(errors[k])))
  }

  /** Each message of an out-of-stock body reads back as the error of its
      line. */
  lemma OrderErrorBodyReadsBack(e: OrderError)
    requires e.OutOfStock?
    ensures OrderErrorBody(e).Errors? && |OrderErrorBody(e).messages| == |e.errors|
    ensures forall k :: 0 <= k < |e.errors| ==>
              ReadStockErrorMessage(OrderErrorBody(e).messages[k]) == Some(e.errors[k])
  {
    forall k | 0 <= k < |e.errors|
      ensures ReadStockErrorMessage(OrderErrorBody(e).messages[k]) == Some(e.errors[k])
    {
      StockErrorMessageReadsBack(e.errors[k]);
    }
  }

  /** The opening of each restock message, up to the book's title. */
  const CapOpening: string :=
    "Restock exceeds maximum allowed quantity of " + IntToString(MaxRestockQuantity) + " for book "

  /** The cap opening is long enough to read the reason from its first and
      ninth characters. */
  lemma CapOpeningShape()
    ensures |CapOpening| >= 9 && CapOpening[0] == 'R' && CapOpening[8] == 'e'
  {
    var head := "Restock exceeds maximum allowed quantity of ";
    assert CapOpening == head + (IntToString(MaxRestockQuantity) + " for book ");
    assert CapOpening[0] == head[0] && CapOpening[8] == head[8];
  }

  const TenOpening: string := "Restock quantity for "
  const GoneOpening: string := "Cannot restock "

  /** Recovers the restock error from its message: the reason from the
      opening ("Cannot ...", "Restock exceeds ...", "Restock quantity ..."),
      the book from the title that follows the opening. */
  function ReadRestockErrorMessage(m: string): Option<RestockError>
  {
    if |m| < 9 then None
    else if m[0] == 'C' then
      match BookAt(m, |GoneOpening|)
      case None => None
      case Some(b) => Some(NoMoreExists(b))
    else if m[8] == 'e' then
      match BookAt(m, |CapOpening|)
      case None => None
      case Some(b) => Some(ExceedsMaximum(b))
    else if m[8] == 'q' then
      match BookAt(m, |TenOpening|)
      case None => None
      case Some(b) => Some(NotMultipleOfTen(b))
    else None
  }

  /** A message made of an opening, a title and any rest reads back as the
      error the opening names, for the book of the title. */
  lemma ReadsAsRestockError(opening: string, b: Book, rest: string)
    requires |opening| >= 9
    ensures opening[0] == 'C' && |opening| == |GoneOpening| ==>
              ReadRestockErrorMessage(opening + Title(b) + rest) == Some(NoMoreExists(b))
    ensures opening[0] != 'C' && opening[8] == 'e' && |opening| == |CapOpening| ==>
              ReadRestockErrorMessage(opening + Title(b) + rest) == Some(ExceedsMaximum(b))
    ensures opening[0] != 'C' && opening[8] == 'q' && |opening| == |TenOpening| ==>
              ReadRestockErrorMessage(opening + Title(b) + rest) == Some(NotMultipleOfTen(b))
  {
    var m := opening + Title(b) + rest;
    TitleAt(opening, b, rest);
    assert m[0] == opening[0] && m[8] == opening[8];
  }

  /** The message for one rejected restock line. */
  function RestockErrorMessage(e: RestockError): string
  {
    match e
    case ExceedsMaximum(b) => CapOpening + Title(b) + "."
    case NotMultipleOfTen(b) => TenOpening + Title(b) + " must be in multiples of 10."
    case NoMoreExists(b) =>
      GoneOpening + Title(b) +
      (". as no more exists in the world. Please try to create a new restock order without " + Title(b))
  }

  /** The cap message reads back as the cap error. */
  lemma CapMessageReadsBack(b: Book)
    ensures ReadRestockErrorMessage(RestockErrorMessage(ExceedsMaximum(b))) == Some(ExceedsMaximum(b))
  {
    CapOpeningShape();
    ReadsAsRestockError(CapOpening, b, ".");
  }

  /** The multiple-of-ten message reads back as that error. */
  lemma TenMessageReadsBack(b: Book)
    ensures ReadRestockErrorMessage(RestockErrorMessage(NotMultipleOfTen(b))) == Some(NotMultipleOfTen(b))
  {
    assert TenOpening[0] == 'R' && TenOpening[8] == 'q';
    ReadsAsRestockError(TenOpening, b, " must be in multiples of 10.");
  }

  /** The book-D message reads back as that error. */
  lemma GoneMessageReadsBack(b: Book)
    ensures ReadRestockErrorMessage(RestockErrorMessage(NoMoreExists(b))) == Some(NoMoreExists(b))
  {
    var rest := ". as no more exists in the world. Please try to create a new restock order without " +
      Title(b);
    assert GoneOpening[0] == 'C';
    ReadsAsRestockError(GoneOpening, b, rest);
  }

  /** The restock error can be read back from its message. */
  lemma RestockErrorMessageReadsBack(e: RestockError)
    ensures ReadRestockErrorMessage(RestockErrorMessage(e)) == Some(e)
  {
    match e
    case ExceedsMaximum(b) => CapMessageReadsBack(b);
    case NotMultipleOfTen(b) => TenMessageReadsBack(b);
    case NoMoreExists(b) => GoneMessageReadsBack(b);
  }

  /** Distinct restock errors never share a message. */
  lemma RestockErrorMessagesAreDistinct(e1: RestockError, e2: RestockError)
    ensures RestockErrorMessage(e1) == RestockErrorMessage(e2) <==> e1 == e2
  {
    RestockErrorMessageReadsBack(e1);
    RestockErrorMessageReadsBack(e2);
  }

  /** The body of a rejected restock: one message per invalid line, in input
      order. */
  function RestockErrorBody(errors: seq<RestockError>): ErrorBody
  {
    Errors(seq(|errors|, k requires 0 <= k < |errors| => RestockErrorMessage(errors[k])))
  }

  /** Each message of a restock rejection reads back as the error of its
      line, so the body loses nothing about which line failed and why. */
  lemma RestockErrorBodyReadsBack(errors: seq<RestockError>)
    ensures RestockErrorBody(errors).Errors? && |RestockErrorBody(errors).messages| == |errors|
    ensures forall k :: 0 <= k < |errors| ==>
              ReadRestockErrorMessage(RestockErrorBody(errors).messages[k]) == Some(errors[k])
  {
    forall k | 0 <= k < |errors|
      ensures ReadRestockErrorMessage(RestockErrorBody(errors).messages[k]) == Some(errors[k])
    {
      RestockErrorMessageReadsBack(errors[k]);
    }
  }
}
