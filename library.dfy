/**
 * The library (src/ExceptionalLibrary.java): its books, its subscribers and its librarian, the
 * operations on them, the handlers of every command line, and the three console loops.
 */
module Libraries {
  import opened Wrappers
  import opened Text
  import opened Books
  import opened Subscribers
  import opened Librarians
  import opened Commands
  import opened BookFile
  import Lists

  /** What removeBook does with a book id. */
  datatype Removal =
    | Removed(book: Book)            // the book was available and is gone from the library
    | UnknownBook                    // no book has this id
    | StillCheckedOut(book: Book)    // the book is checked out, so it stays

  /** The field a book search compares, ignoring case. */
  datatype BookKey = Title | Author

  function KeyOf(b: Book, key: BookKey): string {
    match key
    case Title => b.title
    case Author => b.author
  }

  /**
   * The books of the list whose title (or author) equals text ignoring case, in list order.
   * It is the specification of findBookByTitle and findBookByAuthor.
   */
  function Matching(books: seq<Book>, key: BookKey, text: string): (r: seq<Book>)
    ensures |r| <= |books|
    ensures forall b :: b in r ==> b in books && EqualsIgnoreCase(KeyOf(b, key), text)
    ensures forall b :: b in books && EqualsIgnoreCase(KeyOf(b, key), text) ==> b in r
  {
    if books == [] then []
    else
      var last := books[|books| - 1];
      var init := books[..|books| - 1];
      assert books == init + [last];
      Matching(init, key, text) + (if EqualsIgnoreCase(KeyOf(last, key), text) then [last] else [])
  }

  /** The title and author of each book, as the save command writes them. */
  function Entries(books: seq<Book>): (r: seq<Entry>)
    ensures |r| == |books|
    ensures forall i :: 0 <= i < |books| ==> r[i] == Entry(books[i].title, books[i].author)
  {
    seq(|books|, i requires 0 <= i < |books| => Entry(books[i].title, books[i].author))
  }

  lemma EntriesSnoc(books: seq<Book>, book: Book)
    ensures Entries(books + [book]) == Entries(books) + [Entry(book.title, book.author)]
  {
  }

  /**
   * What a command line did, in place of the messages the source prints: the exception or error
   * reported, or the effect that took place.
   */
  datatype Outcome =
    | Rejected(error: ParseError)                                        // a ParseException's message
    | SyntaxError                                                        // the menu's default case
    | NoAction                                                           // the subscriber menu ignores the line
    | WrongPassword
    | WrongPin
    | LoggedIn
    | LoggedOut
    | Exited
    | NotFound(bookMissing: bool, subscriberMissing: bool)               // findBook / findSubscriber failed
    | BookAdded(book: Book)
    | SubscriberAdded(subscriber: Subscriber)
    | CardsExhausted                                                     // the InstantiationException
    | Checkout(subscriber: Subscriber, book: Book, result: CheckoutResult)
    | Return(subscriber: Subscriber, book: Book, returned: bool)
    | Remove(removal: Removal)
    | PersonalInfo(subscriber: Subscriber)
    | BookList(books: seq<Book>)                                         // a list of books displayed
    | AddressUpdated
    | PhoneUpdated
    | PhoneRejected(error: ParseError)                                   // caught inside the handler
    | Saved
    | FileMissing
    | Loaded(count: nat)
    | LoadCrashed(count: nat)                                            // uncaught: the application ends

  /** The outcomes a menu loop itself reacts to: they decide which menu reads the next line. */
  predicate SteersMenu(o: Outcome) {
    o.SyntaxError? || o.NoAction? || o.LoggedOut? || o.Exited? || o.LoadCrashed?
  }

  /** Where the console is: one of the three menus, or finished normally or by an uncaught exception. */
  datatype Mode = MainMenu | LibrarianMenu | SubscriberMenu(subscriber: Subscriber) | Finished | Aborted {
    predicate Active() {
      MainMenu? || LibrarianMenu? || SubscriberMenu?
    }
  }

  const ARITY_ERROR: ParseError := ParseError(ArgumentCount, 0)

  class Library {
    const address: string
    const librarian: Librarian
    var books: seq<Book>
    var subscribers: seq<Subscriber>
    /** Book's class-wide id counter; the next book gets this id. */
    var nextBookId: int
    /** Subscriber's class-wide card counter; the next subscriber gets this card bar code. */
    var nextCardBarCode: int
    ghost var Repr: set<object>

    /** Book ids are issued in increasing order from 1, so no two books share one. */
    ghost predicate BooksValid()
      reads this
    {
      && Lists.NoDuplicates(books)
      && 1 <= nextBookId
      && (forall b :: b in books ==> 1 <= b.id < nextBookId)
      && (forall b1, b2 :: b1 in books && b2 in books && b1.id == b2.id ==> b1 == b2)
    }

    /** Card bar codes are issued in increasing order from CARD_BAR_CODE_INIT, so no two subscribers share one. */
    ghost predicate SubscribersValid()
      reads this
    {
      && CARD_BAR_CODE_INIT <= nextCardBarCode <= CARD_BAR_CODE_LAST
      && (forall s :: s in subscribers ==> CARD_BAR_CODE_INIT <= s.cardBarCode < nextCardBarCode)
      && (forall s1, s2 :: s1 in subscribers && s2 in subscribers && s1.cardBarCode == s2.cardBarCode ==> s1 == s2)
    }

    ghost function CardBarCodes(): set<int>
      reads this
    {
      set s | s in subscribers :: s.cardBarCode
    }

    /**
     * Every book a subscriber holds is one of the library's books, and each subscriber holds at
     * most MAX_BOOKS_CHECKED_OUT of them, none twice; a book is in a subscriber's
     * checked-out list exactly when it records that subscriber's card bar code; and a book that
     * is not available records the card bar code of some subscriber.
     */
    ghost predicate LoansValid()
      reads this, books, subscribers
    {
      && (forall s, b :: s in subscribers && b in s.checkedOut ==> b in books)
      && (forall s :: s in subscribers ==> |s.checkedOut| <= MAX_BOOKS_CHECKED_OUT && Lists.NoDuplicates(s.checkedOut))
      && (forall s, b :: s in subscribers && b in books ==> (b in s.checkedOut <==> b.borrower == Some(s.cardBarCode)))
      && (forall b :: b in books && b.borrower.Some? ==> b.borrower.value in CardBarCodes())
    }

    ghost predicate Valid()
      reads this, Repr
    {
      && this in Repr
      && (forall b :: b in books ==> b in Repr)
      && (forall s :: s in subscribers ==> s in Repr)
      && BooksValid()
      && SubscribersValid()
      && LoansValid()
    }

    /** A new library with its librarian and no books and no subscribers. */
    constructor (address: string, librarianUsername: string, librarianPassword: string)
      ensures Valid() && fresh(Repr)
      ensures this.address == address && librarian == Librarian(librarianUsername, librarianPassword)
      ensures books == [] && subscribers == []
      ensures nextBookId == 1 && nextCardBarCode == CARD_BAR_CODE_INIT
    {
      this.address := address;
      librarian := Librarian(librarianUsername, librarianPassword);
      books := [];
      subscribers := [];
      nextBookId := 1;
      nextCardBarCode := CARD_BAR_CODE_INIT;
      Repr := {this};
    }

    /** A book that is not available is held by exactly one subscriber, the one whose card it records. */
    lemma LentBookHasOneHolder(b: Book)
      requires Valid() && b in books && !b.IsAvailable()
      ensures exists s :: s in subscribers && b in s.checkedOut && b.borrower == Some(s.cardBarCode)
      ensures forall s1, s2 :: s1 in subscribers && s2 in subscribers && b in s1.checkedOut && b in s2.checkedOut ==> s1 == s2
    {
      assert b.borrower.value in CardBarCodes();
      var s :| s in subscribers && s.cardBarCode == b.borrower.value;
      assert b in s.checkedOut;
    }

    /** findBook: the book with this id, None exactly when no book has it. */
    method FindBook(id: int) returns (r: Option<Book>)
      ensures r.Some? ==> r.value in books && r.value.id == id
      ensures r.None? <==> forall b :: b in books ==> b.id != id
    {
      var i := 0;
      while i < |books|
        invariant 0 <= i <= |books|
        invariant forall j :: 0 <= j < i ==> books[j].id != id
      {
        if books[i].id == id {
          return Some(books[i]);
        }
        i := i + 1;
      }
      return None;
    }

    /** findSubscriber: the subscriber with this card bar code, None exactly when nobody has it. */
    method FindSubscriber(cardBarCode: int) returns (r: Option<Subscriber>)
      ensures r.Some? ==> r.value in subscribers && r.value.cardBarCode == cardBarCode
      ensures r.None? <==> forall s :: s in subscribers ==> s.cardBarCode != cardBarCode
    {
      var i := 0;
      while i < |subscribers|
        invariant 0 <= i <= |subscribers|
        invariant forall j :: 0 <= j < i ==> subscribers[j].cardBarCode != cardBarCode
      {
        if subscribers[i].cardBarCode == cardBarCode {
          return Some(subscribers[i]);
        }
        i := i + 1;
      }
      return None;
    }

    method FindMatching(key: BookKey, text: string) returns (found: seq<Book>)
      ensures found == Matching(books, key, text)
    {
      found := [];
      var i := 0;
      while i < |books|
        invariant 0 <= i <= |books|
        invariant found == Matching(books[..i], key, text)
      {
        assert books[..i + 1][..i] == books[..i];
        if EqualsIgnoreCase(KeyOf(books[i], key), text) {
          found := found + [books[i]];
        }
        i := i + 1;
      }
      assert books[..i] == books;
    }

    /** findBookByTitle: the books whose title equals the given one ignoring case, in list order. */
    method FindBookByTitle(title: string) returns (found: seq<Book>)
      ensures found == Matching(books, Title, title)
      ensures forall b :: b in found ==> b in books && EqualsIgnoreCase(b.title, title)
      ensures forall b :: b in books && EqualsIgnoreCase(b.title, title) ==> b in found
    {
      found := FindMatching(Title, title);
    }

    /** findBookByAuthor: the books whose author equals the given one ignoring case, in list order. */
    method FindBookByAuthor(author: string) returns (found: seq<Book>)
      ensures found == Matching(books, Author, author)
      ensures forall b :: b in found ==> b in books && EqualsIgnoreCase(b.author, author)
      ensures forall b :: b in books && EqualsIgnoreCase(b.author, author) ==> b in found
    {
      found := FindMatching(Author, author);
    }

    /** addBook: a new available book, with the next id, at the end of the list. */
    method AddBook(title: string, author: string) returns (book: Book)
      requires Valid()
      modifies this
      ensures Valid() && fresh(book) && Repr == old(Repr) + {book}
      ensures books == old(books) + [book] && nextBookId == old(nextBookId) + 1
      ensures book.id == old(nextBookId) && book.title == title && book.author == author && book.IsAvailable()
      ensures subscribers == old(subscribers) && nextCardBarCode == old(nextCardBarCode)
    {
      book := new Book(nextBookId, title, author);
      books := books + [book];
      nextBookId := nextBookId + 1;
      Repr := Repr + {book};
    }

    /**
     * removeBook: a book is removed only when it exists and is available; a checked-out book and
     * an unknown id leave the list as it is.
     */
    method RemoveBook(id: int) returns (r: Removal)
      requires Valid()
      modifies this`books
      ensures Valid()
      ensures r == UnknownBook <==> forall b :: b in old(books) ==> b.id != id
      ensures !r.UnknownBook? ==> r.book in old(books) && r.book.id == id
      ensures r.Removed? ==> r.book.IsAvailable() && books == Lists.RemoveFirst(old(books), r.book) && r.book !in books
      ensures r.StillCheckedOut? ==> !r.book.IsAvailable()
      ensures !r.Removed? ==> books == old(books)
    {
      var found := FindBook(id);
      if found.None? {
        return UnknownBook;
      }
      var book := found.value;
      if !book.IsAvailable() {
        return StillCheckedOut(book);
      }
      Lists.RemoveFirstOfDistinct(books, book);
      books := Lists.RemoveFirst(books, book);
      r := Removed(book);
    }

    /**
     * addSubscriber: while the card counter is below CARD_BAR_CODE_LAST, a new subscriber with
     * the next card bar code and no books is appended; otherwise nothing changes.
     */
    method AddSubscriber(name: string, pin: int, address: string, phoneNumber: string) returns (r: Option<Subscriber>)
      requires Valid()
      modifies this
      ensures Valid() && fresh(Repr - old(Repr))
      ensures r.Some? <==> IssueCard(old(nextCardBarCode)).Some?
      ensures r.Some? ==> && fresh(r.value) && subscribers == old(subscribers) + [r.value]
                          && r.value.cardBarCode == old(nextCardBarCode) && nextCardBarCode == old(nextCardBarCode) + 1
                          && r.value.name == name && r.value.pin == pin
                          && r.value.address == address && r.value.phoneNumber == phoneNumber
                          && r.value.checkedOut == [] && r.value.returned == []
      ensures r.None? ==> subscribers == old(subscribers) && nextCardBarCode == old(nextCardBarCode)
      ensures books == old(books) && nextBookId == old(nextBookId)
    {
      var card := IssueCard(nextCardBarCode);
      if card.None? {
        return None;
      }
      var s := new Subscriber(card.value, name, pin, address, phoneNumber);
      subscribers := subscribers + [s];
      nextCardBarCode := nextCardBarCode + 1;
      Repr := Repr + {s};
      r := Some(s);
    }

    // ------------------------------------------------------------ effects of the commands

    /**
     * Nothing changed but the books and subscribers in changed: both lists, both counters and
     * every other book and subscriber are as they were.
     */
    twostate predicate OnlyChanged(changed: set<object>)
      reads *
    {
      && books == old(books) && subscribers == old(subscribers)
      && nextBookId == old(nextBookId) && nextCardBarCode == old(nextCardBarCode)
      && (forall b :: b in old(books) && b !in changed ==> unchanged(b))
      && (forall s :: s in old(subscribers) && s !in changed ==> unchanged(s))
    }

    /**
     * Subscriber s checked out book b with verdict r: r is what checkoutBook decides from the
     * state before; on CheckedOut the book is at the end of the subscriber's list and records the
     * subscriber's card, otherwise both are as they were. Nothing else changes.
     */
    twostate predicate LentTo(s: Subscriber, b: Book, r: CheckoutResult)
      reads *
    {
      && r == CheckoutVerdict(old(b.IsAvailable()), b in old(s.checkedOut), |old(s.checkedOut)|)
      && (r == CheckedOut ==> s.checkedOut == old(s.checkedOut) + [b] && b.borrower == Some(s.cardBarCode))
      && (r != CheckedOut ==> s.checkedOut == old(s.checkedOut) && b.borrower == old(b.borrower))
      && s.returned == old(s.returned) && s.address == old(s.address) && s.phoneNumber == old(s.phoneNumber)
      && OnlyChanged({s, b})
    }

    /**
     * Subscriber s returned book b, ok exactly when s held it: the book then moves from the
     * checked-out list to the end of the returned list and is available; otherwise both are as
     * they were. Nothing else changes.
     */
    twostate predicate ReturnedBy(s: Subscriber, b: Book, ok: bool)
      reads *
    {
      && ok == (b in old(s.checkedOut))
      && (ok ==> && s.returned == old(s.returned) + [b]
                 && s.checkedOut == Lists.RemoveFirst(old(s.checkedOut), b)
                 && b.IsAvailable())
      && (!ok ==> s.returned == old(s.returned) && s.checkedOut == old(s.checkedOut) && b.borrower == old(b.borrower))
      && s.address == old(s.address) && s.phoneNumber == old(s.phoneNumber)
      && OnlyChanged({s, b})
    }

    /**
     * Books with these titles and authors were appended in this order, as new available books
     * numbered on from the old id counter, which moved past them; nothing else changed.
     */
    twostate predicate Appended(entries: seq<Entry>)
      reads *
    {
      && |old(books)| <= |books| && books[..|old(books)|] == old(books)
      && Entries(books[|old(books)|..]) == entries
      && nextBookId == old(nextBookId) + |entries|
      && (forall i :: |old(books)| <= i < |books| ==>
            fresh(books[i]) && books[i].id == old(nextBookId) + (i - |old(books)|) && books[i].IsAvailable())
      && subscribers == old(subscribers) && nextCardBarCode == old(nextCardBarCode)
      && unchanged(old(books)) && unchanged(old(subscribers))
    }

    /**
     * Subscriber s checked out book b, if this library holds both, with the verdict r that
     * checkoutBook gives. Beyond LentTo: AlreadyCheckedOut means the subscriber holds the book,
     * and NotAvailable means another subscriber does.
     */
    method Lend(s: Subscriber, b: Book) returns (r: CheckoutResult)
      requires Valid() && s in subscribers && b in books
      modifies s`checkedOut, b`borrower
      ensures Valid()
      ensures LentTo(s, b, r)
      ensures r == AlreadyCheckedOut <==> old(b.borrower) == Some(s.cardBarCode)
      ensures r == NotAvailable ==> exists t :: t in subscribers && t != s && b in t.checkedOut
    {
      if !b.IsAvailable() {
        LentBookHasOneHolder(b);
      }
      r := s.CheckoutBook(b);
      assert LoansValid() by {
        forall t, c | t in subscribers && c in books
          ensures c in t.checkedOut <==> c.borrower == Some(t.cardBarCode)
        {
          if t != s && c == b && r == CheckedOut {
            assert c !in t.checkedOut;
          }
        }
      }
    }

    /**
     * Subscriber.returnBook on a subscriber and a book of this library: it succeeds exactly when
     * the subscriber holds the book, that is when the book records the subscriber's card.
     */
    method TakeBack(s: Subscriber, b: Book) returns (ok: bool)
      requires Valid() && s in subscribers && b in books
      modifies s`checkedOut, s`returned, b`borrower
      ensures Valid()
      ensures ReturnedBy(s, b, ok)
      ensures ok == (old(b.borrower) == Some(s.cardBarCode))
    {
      ok := s.ReturnBook(b);
      assert LoansValid() by {
        forall t, c | t in subscribers && c in books
          ensures c in t.checkedOut <==> c.borrower == Some(t.cardBarCode)
        {
        }
      }
    }

    // ------------------------------------------------------------ librarian commands

    /**
     * "1 <title> <author>": with three tokens a new available book, with the given title and
     * author and the next id, is appended and the id counter moves on; otherwise the arity error
     * is reported and nothing changes.
     */
    twostate predicate AddBookDone(tokens: seq<string>, new o: Outcome)
      reads *
    {
      if |tokens| != 3 then o == Rejected(ARITY_ERROR) && OnlyChanged({})
      else
        && o.BookAdded? && fresh(o.book) && books == old(books) + [o.book]
        && o.book.id == old(nextBookId) && nextBookId == old(nextBookId) + 1
        && o.book.title == tokens[1] && o.book.author == tokens[2] && o.book.IsAvailable()
        && subscribers == old(subscribers) && nextCardBarCode == old(nextCardBarCode)
        && unchanged(old(books)) && unchanged(old(subscribers))
    }

    method RunAddBook(tokens: seq<string>) returns (o: Outcome)
      requires Valid()
      modifies this
      ensures Valid() && fresh(Repr - old(Repr))
      ensures !SteersMenu(o)
      ensures AddBookDone(tokens, o)
    {
      if |tokens| != 3 {
        return Rejected(CheckCommandArgumentsCount(tokens, 3).value);
      }
      var book := AddBook(tokens[1], tokens[2]);
      o := BookAdded(book);
    }

    /**
     * "2 <name> <pin> <address> <phone number>": the PIN is checked, the phone number is not.
     * While the card counter is below CARD_BAR_CODE_LAST a new subscriber with the next card bar
     * code and no books is appended and the counter moves on; otherwise, as on a parse error,
     * nothing changes.
     */
    twostate predicate AddSubscriberDone(tokens: seq<string>, new o: Outcome)
      reads *
    {
      match AddSubscriberArgs(tokens)
      case Failure(e) => o == Rejected(e) && OnlyChanged({})
      case Success(pin) =>
        if old(nextCardBarCode) >= CARD_BAR_CODE_LAST then o == CardsExhausted && OnlyChanged({})
        else
          && o.SubscriberAdded? && fresh(o.subscriber) && subscribers == old(subscribers) + [o.subscriber]
          && o.subscriber.cardBarCode == old(nextCardBarCode) && nextCardBarCode == old(nextCardBarCode) + 1
          && o.subscriber.name == tokens[1] && o.subscriber.pin == pin
          && o.subscriber.address == tokens[3] && o.subscriber.phoneNumber == tokens[4]
          && o.subscriber.checkedOut == [] && o.subscriber.returned == []
          && books == old(books) && nextBookId == old(nextBookId)
          && unchanged(old(books)) && unchanged(old(subscribers))
    }

    method RunAddSubscriber(tokens: seq<string>) returns (o: Outcome)
      requires Valid()
      modifies this
      ensures Valid() && fresh(Repr - old(Repr))
      ensures !SteersMenu(o)
      ensures AddSubscriberDone(tokens, o)
    {
      var pin := AddSubscriberArgs(tokens);
      if pin.Failure? {
        return Rejected(pin.error);
      }
      var added := AddSubscriber(tokens[1], pin.value, tokens[3], tokens[4]);
      if added.None? {
        return CardsExhausted;
      }
      o := SubscriberAdded(added.value);
    }

    /**
     * "3 <card bar code> <book ID>": when both arguments parse and both the book and the
     * subscriber exist, the subscriber checks the book out; otherwise the parse error, or which of
     * the two is missing, is reported and nothing changes.
     */
    twostate predicate CheckoutForDone(tokens: seq<string>, new o: Outcome)
      reads *
    {
      match CheckoutForArgs(tokens)
      case Failure(e) => o == Rejected(e) && OnlyChanged({})
      case Success((id, code)) =>
        var bookMissing := forall b :: b in old(books) ==> b.id != id;
        var subscriberMissing := forall s :: s in old(subscribers) ==> s.cardBarCode != code;
        if bookMissing || subscriberMissing then o == NotFound(bookMissing, subscriberMissing) && OnlyChanged({})
        else
          && o.Checkout? && o.book in old(books) && o.book.id == id
          && o.subscriber in old(subscribers) && o.subscriber.cardBarCode == code
          && LentTo(o.subscriber, o.book, o.result)
    }

    method RunCheckoutFor(tokens: seq<string>) returns (o: Outcome)
      requires Valid()
      modifies subscribers`checkedOut, books`borrower
      ensures Valid()
      ensures o.Rejected? || o.NotFound? || o.Checkout?
      ensures CheckoutForDone(tokens, o)
    {
      var args := CheckoutForArgs(tokens);
      if args.Failure? {
        return Rejected(args.error);
      }
      var (id, code) := args.value;
      var book := FindBook(id);
      var subscriber := FindSubscriber(code);
      if book.None? || subscriber.None? {
        return NotFound(book.None?, subscriber.None?);
      }
      var r := Lend(subscriber.value, book.value);
      o := Checkout(subscriber.value, book.value, r);
    }

    /**
     * "4 <card bar code> <book ID>": both arguments are parsed as book ids; when both the book and
     * the subscriber exist the subscriber returns the book if it holds it; otherwise the parse
     * error, or which of the two is missing, is reported and nothing changes.
     */
    twostate predicate ReturnForDone(tokens: seq<string>, new o: Outcome)
      reads *
    {
      match ReturnForArgs(tokens)
      case Failure(e) => o == Rejected(e) && OnlyChanged({})
      case Success((id, code)) =>
        var bookMissing := forall b :: b in old(books) ==> b.id != id;
        var subscriberMissing := forall s :: s in old(subscribers) ==> s.cardBarCode != code;
        if bookMissing || subscriberMissing then o == NotFound(bookMissing, subscriberMissing) && OnlyChanged({})
        else
          && o.Return? && o.book in old(books) && o.book.id == id
          && o.subscriber in old(subscribers) && o.subscriber.cardBarCode == code
          && ReturnedBy(o.subscriber, o.book, o.returned)
    }

    method RunReturnFor(tokens: seq<string>) returns (o: Outcome)
      requires Valid()
      modifies subscribers`checkedOut, subscribers`returned, books`borrower
      ensures Valid()
      ensures o.Rejected? || o.NotFound? || o.Return?
      ensures ReturnForDone(tokens, o)
    {
      var args := ReturnForArgs(tokens);
      if args.Failure? {
        return Rejected(args.error);
      }
      var (id, code) := args.value;
      var book := FindBook(id);
      var subscriber := FindSubscriber(code);
      if book.None? || subscriber.None? {
        return NotFound(book.None?, subscriber.None?);
      }
      var ok := TakeBack(subscriber.value, book.value);
      o := Return(subscriber.value, book.value, ok);
    }

    /** "5 <card bar code>": the subscriber with that card, whose personal information is displayed. */
    predicate PersonalInfoShown(tokens: seq<string>, o: Outcome)
      reads this
    {
      match CardArg(tokens)
      case Failure(e) => o == Rejected(e)
      case Success(code) =>
        if forall s :: s in subscribers ==> s.cardBarCode != code then o == NotFound(false, true)
        else o.PersonalInfo? && o.subscriber in subscribers && o.subscriber.cardBarCode == code
    }

    method RunDisplayPersonalInfo(tokens: seq<string>) returns (o: Outcome)
      ensures !SteersMenu(o)
      ensures PersonalInfoShown(tokens, o)
    {
      var code := CardArg(tokens);
      if code.Failure? {
        return Rejected(code.error);
      }
      var subscriber := FindSubscriber(code.value);
      if subscriber.None? {
        return NotFound(false, true);
      }
      o := PersonalInfo(subscriber.value);
    }

    /** "6 <card bar code>": the books the subscriber with that card has checked out. */
    predicate BooksCheckedOutShown(tokens: seq<string>, o: Outcome)
      reads this, subscribers
    {
      match CardArg(tokens)
      case Failure(e) => o == Rejected(e)
      case Success(code) =>
        if forall s :: s in subscribers ==> s.cardBarCode != code then o == NotFound(false, true)
        else exists s :: s in subscribers && s.cardBarCode == code && o == BookList(s.checkedOut)
    }

    method RunDisplayBooksCheckedOut(tokens: seq<string>) returns (o: Outcome)
      ensures !SteersMenu(o)
      ensures BooksCheckedOutShown(tokens, o)
    {
      var code := CardArg(tokens);
      if code.Failure? {
        return Rejected(code.error);
      }
      var subscriber := FindSubscriber(code.value);
      if subscriber.None? {
        return NotFound(false, true);
      }
      o := BookList(subscriber.value.checkedOut);
    }

    /**
     * "8 <book ID>": a known, available book leaves the list; a checked-out book and an unknown
     * id leave it as it is. Nothing else changes.
     */
    twostate predicate RemoveBookDone(tokens: seq<string>, new o: Outcome)
      reads *
    {
      && subscribers == old(subscribers) && nextBookId == old(nextBookId) && nextCardBarCode == old(nextCardBarCode)
      && unchanged(old(books)) && unchanged(old(subscribers))
      && (match BookIdArg(tokens)
          case Failure(e) => o == Rejected(e) && books == old(books)
          case Success(id) =>
            && o.Remove?
            && (o.removal == UnknownBook <==> forall b :: b in old(books) ==> b.id != id)
            && (!o.removal.UnknownBook? ==> o.removal.book in old(books) && o.removal.book.id == id)
            && (o.removal.Removed? ==> && o.removal.book.IsAvailable()
                                       && books == Lists.RemoveFirst(old(books), o.removal.book)
                                       && o.removal.book !in books)
            && (o.removal.StillCheckedOut? ==> !o.removal.book.IsAvailable())
            && (!o.removal.Removed? ==> books == old(books)))
    }

    method RunRemoveBook(tokens: seq<string>) returns (o: Outcome)
      requires Valid()
      modifies this`books
      ensures Valid()
      ensures !SteersMenu(o)
      ensures RemoveBookDone(tokens, o)
    {
      var id := BookIdArg(tokens);
      if id.Failure? {
        return Rejected(id.error);
      }
      var r := RemoveBook(id.value);
      o := Remove(r);
    }

    /** The content the save command writes: one "title:author" line per book, in list order. */
    method SaveContent() returns (content: string)
      ensures content == WriteLines(SaveLines(Entries(books)))
    {
      var lines: seq<string> := [];
      var i := 0;
      while i < |books|
        invariant 0 <= i <= |books|
        invariant lines == SaveLines(Entries(books[..i]))
      {
        assert SaveLines(Entries(books[..i + 1])) == lines + [SaveLine(Entry(books[i].title, books[i].author))];
        lines := lines + [SaveLine(Entry(books[i].title, books[i].author))];
        i := i + 1;
      }
      assert books[..i] == books;
      content := WriteLines(lines);
    }

    /** "S <filename>": the file is (re)written with the current books; no other file changes. */
    predicate SavedTo(tokens: seq<string>, files: map<string, string>, o: Outcome, files': map<string, string>)
      reads this
    {
      if |tokens| != 2 then o == Rejected(ARITY_ERROR) && files' == files
      else o == Saved && files' == files[tokens[1] := WriteLines(SaveLines(Entries(books)))]
    }

    method RunSave(tokens: seq<string>, files: map<string, string>) returns (o: Outcome, files': map<string, string>)
      ensures SavedTo(tokens, files, o, files')
    {
      if |tokens| != 2 {
        return Rejected(CheckCommandArgumentsCount(tokens, 2).value), files;
      }
      var content := SaveContent();
      o, files' := Saved, files[tokens[1] := content];
    }

    /** The first loop of the load command: the kept lines of the file, trimmed. */
    method CollectInputs(lines: seq<string>) returns (inputs: seq<string>)
      ensures inputs == LoadInputs(lines)
    {
      inputs := [];
      var i := 0;
      while i < |lines|
        invariant 0 <= i <= |lines|
        invariant inputs == LoadInputs(lines[..i])
      {
        LoadInputsAppend(lines[..i], [lines[i]]);
        assert lines[..i + 1] == lines[..i] + [lines[i]];
        if KeptLine(lines[i]) {
          inputs := inputs + [Trim(lines[i])];
        }
        i := i + 1;
      }
      assert lines[..i] == lines;
    }

    /**
     * The second loop of the load command: each input, already split at ':' and trimmed, is added
     * as a book, until a malformed one stops it.
     */
    method AddDecoded(decoded: seq<Option<Entry>>) returns (crashed: bool)
      requires Valid()
      modifies this
      ensures Valid() && fresh(Repr - old(Repr))
      ensures Appended(Added(decoded).entries) && crashed == Added(decoded).crashed
    {
      ghost var start := |books|;
      crashed := false;
      var j := 0;
      while j < |decoded|
        invariant 0 <= j <= |decoded|
        invariant Valid() && fresh(Repr - old(Repr))
        invariant Appended(Added(decoded[..j]).entries)
        invariant !Added(decoded[..j]).crashed
      {
        if decoded[j].None? {
          AddedStops(decoded, j);
          return true;
        }
        var entry := decoded[j].value;
        ghost var before := books;
        var book := AddBook(entry.title, entry.author);
        assert books[start..] == before[start..] + [book];
        EntriesSnoc(before[start..], book);
        AddedNext(decoded, j);
        j := j + 1;
      }
      assert decoded[..j] == decoded;
    }

    /**
     * "L <filename>": the books of an existing file are appended in file order; a malformed line
     * ends the load, and the application, with the books before it already added. A wrong arity
     * or a missing file is reported and changes nothing.
     */
    twostate predicate LoadDone(tokens: seq<string>, files: map<string, string>, new o: Outcome)
      reads *
    {
      if |tokens| != 2 then o == Rejected(ARITY_ERROR) && OnlyChanged({})
      else if tokens[1] !in files then o == FileMissing && OnlyChanged({})
      else
        var d := Load(files[tokens[1]]);
        && Appended(d.entries)
        && o == (if d.crashed then LoadCrashed(|d.entries|) else Loaded(|d.entries|))
    }

    method RunLoad(tokens: seq<string>, files: map<string, string>) returns (o: Outcome)
      requires Valid()
      modifies this
      ensures Valid() && fresh(Repr - old(Repr))
      ensures LoadDone(tokens, files, o)
    {
      if |tokens| != 2 {
        return Rejected(CheckCommandArgumentsCount(tokens, 2).value);
      }
      if tokens[1] !in files {
        return FileMissing;
      }
      var before := |books|;
      var crashed := LoadContent(files[tokens[1]]);
      var count := |books| - before;
      o := if crashed then LoadCrashed(count) else Loaded(count);
    }

    /** Both loops of the load command over the content of the file. */
    method LoadContent(content: string) returns (crashed: bool)
      requires Valid()
      modifies this
      ensures Valid() && fresh(Repr - old(Repr))
      ensures Appended(Load(content).entries) && crashed == Load(content).crashed
    {
      var inputs := CollectInputs(ReadLines(content));
      var decoded := DecodeEach(inputs);
      assert Load(content) == Added(decoded);
      crashed := AddDecoded(decoded);
    }

    // ------------------------------------------------------------ subscriber commands

    /**
     * Subscriber "1 <book ID>": an existing book is checked out by the logged-in subscriber s;
     * otherwise the parse error or the missing book is reported and nothing changes.
     */
    twostate predicate CheckoutDone(s: Subscriber, tokens: seq<string>, new o: Outcome)
      reads *
    {
      match BookIdArg(tokens)
      case Failure(e) => o == Rejected(e) && OnlyChanged({})
      case Success(id) =>
        if forall b :: b in old(books) ==> b.id != id then o == NotFound(true, false) && OnlyChanged({})
        else o.Checkout? && o.subscriber == s && o.book in old(books) && o.book.id == id && LentTo(s, o.book, o.result)
    }

    method RunCheckout(s: Subscriber, tokens: seq<string>) returns (o: Outcome)
      requires Valid() && s in subscribers
      modifies s`checkedOut, books`borrower
      ensures Valid()
      ensures CheckoutDone(s, tokens, o)
    {
      var id := BookIdArg(tokens);
      if id.Failure? {
        return Rejected(id.error);
      }
      var book := FindBook(id.value);
      if book.None? {
        return NotFound(true, false);
      }
      var r := Lend(s, book.value);
      o := Checkout(s, book.value, r);
    }

    /**
     * Subscriber "2 <book ID>": an existing book is returned if the logged-in subscriber s holds
     * it; otherwise the parse error or the missing book is reported and nothing changes.
     */
    twostate predicate ReturnDone(s: Subscriber, tokens: seq<string>, new o: Outcome)
      reads *
    {
      match BookIdArg(tokens)
      case Failure(e) => o == Rejected(e) && OnlyChanged({})
      case Success(id) =>
        if forall b :: b in old(books) ==> b.id != id then o == NotFound(true, false) && OnlyChanged({})
        else o.Return? && o.subscriber == s && o.book in old(books) && o.book.id == id && ReturnedBy(s, o.book, o.returned)
    }

    method RunReturn(s: Subscriber, tokens: seq<string>) returns (o: Outcome)
      requires Valid() && s in subscribers
      modifies s`checkedOut, s`returned, books`borrower
      ensures Valid()
      ensures ReturnDone(s, tokens, o)
    {
      var id := BookIdArg(tokens);
      if id.Failure? {
        return Rejected(id.error);
      }
      var book := FindBook(id.value);
      if book.None? {
        return NotFound(true, false);
      }
      var ok := TakeBack(s, book.value);
      o := Return(s, book.value, ok);
    }

    /** Subscriber "3 <author>" and "4 <title>": the books whose author or title matches, ignoring case. */
    predicate FoundShown(key: BookKey, tokens: seq<string>, o: Outcome)
      reads this
    {
      if |tokens| != 2 then o == Rejected(ARITY_ERROR) else o == BookList(Matching(books, key, tokens[1]))
    }

    method RunFind(key: BookKey, tokens: seq<string>) returns (o: Outcome)
      ensures FoundShown(key, tokens, o)
    {
      if |tokens| != 2 {
        return Rejected(CheckCommandArgumentsCount(tokens, 2).value);
      }
      var found := FindMatching(key, tokens[1]);
      o := BookList(found);
    }

    /** Subscriber "7 <address>": the address of s is replaced; nothing else changes. */
    twostate predicate AddressDone(s: Subscriber, tokens: seq<string>, new o: Outcome)
      reads *
    {
      && OnlyChanged({s})
      && s.checkedOut == old(s.checkedOut) && s.returned == old(s.returned) && s.phoneNumber == old(s.phoneNumber)
      && if |tokens| != 2 then o == Rejected(ARITY_ERROR) && s.address == old(s.address)
         else o == AddressUpdated && s.address == tokens[1]
    }

    method RunUpdateAddress(s: Subscriber, tokens: seq<string>) returns (o: Outcome)
      modifies s`address
      ensures AddressDone(s, tokens, o)
    {
      if |tokens| != 2 {
        return Rejected(CheckCommandArgumentsCount(tokens, 2).value);
      }
      s.SetAddress(tokens[1]);
      o := AddressUpdated;
    }

    /**
     * Subscriber "8 <phone number>": the number of s is replaced when it parses as a long;
     * otherwise the handler reports the error itself and the number is kept. Nothing else changes.
     */
    twostate predicate PhoneDone(s: Subscriber, tokens: seq<string>, new o: Outcome)
      reads *
    {
      && OnlyChanged({s})
      && s.checkedOut == old(s.checkedOut) && s.returned == old(s.returned) && s.address == old(s.address)
      && if |tokens| != 2 then o == Rejected(ARITY_ERROR) && s.phoneNumber == old(s.phoneNumber)
         else if ParseLong(tokens[1]).None? then
           o == PhoneRejected(ParseError(PhoneNotNumber, 1)) && s.phoneNumber == old(s.phoneNumber)
         else o == PhoneUpdated && s.phoneNumber == tokens[1]
    }

    method RunUpdatePhone(s: Subscriber, tokens: seq<string>) returns (o: Outcome)
      modifies s`phoneNumber
      ensures PhoneDone(s, tokens, o)
    {
      if |tokens| != 2 {
        return Rejected(CheckCommandArgumentsCount(tokens, 2).value);
      }
      var error := ParsePhoneNumber(tokens[1], 1);
      if error.Some? {
        return PhoneRejected(error.value);
      }
      s.SetPhoneNumber(tokens[1]);
      o := PhoneUpdated;
    }

    // ------------------------------------------------------------ logins

    /** Main "1 <password>": the librarian logs in with the exact password. */
    function LibrarianLogin(tokens: seq<string>): (o: Outcome)
      ensures o == LoggedIn <==> |tokens| == 2 && librarian.CheckPassword(tokens[1])
      ensures o == WrongPassword <==> |tokens| == 2 && !librarian.CheckPassword(tokens[1])
      ensures o == Rejected(ARITY_ERROR) <==> |tokens| != 2
    {
      if |tokens| != 2 then Rejected(CheckCommandArgumentsCount(tokens, 2).value)
      else if librarian.CheckPassword(tokens[1]) then LoggedIn
      else WrongPassword
    }

    /**
     * Main "2 <card bar code> <PIN>": the card bar code is parsed and looked up first; the PIN is
     * parsed only when the subscriber exists, and must equal the subscriber's PIN.
     */
    predicate SubscriberLoginAnswered(tokens: seq<string>, o: Outcome, who: Option<Subscriber>)
      reads this
    {
      && (who.Some? <==> o == LoggedIn)
      && (who.Some? ==>
            && |tokens| == 3 && who.value in subscribers
            && ParseCardBarCode(tokens[1], 1) == Success(who.value.cardBarCode)
            && ParsePinCode(tokens[2], 2) == Success(who.value.pin))
      && (|tokens| != 3 ==> o == Rejected(ARITY_ERROR))
      && (|tokens| == 3 ==>
            match ParseCardBarCode(tokens[1], 1)
            case Failure(e) => o == Rejected(e)
            case Success(code) =>
              if forall s :: s in subscribers ==> s.cardBarCode != code then o == NotFound(false, true)
              else if ParsePinCode(tokens[2], 2).Failure? then o == Rejected(ParsePinCode(tokens[2], 2).error)
              else o == LoggedIn || o == WrongPin)
      && (o == WrongPin ==> exists s :: && s in subscribers && ParseCardBarCode(tokens[1], 1) == Success(s.cardBarCode)
                                        && ParsePinCode(tokens[2], 2).Success? && ParsePinCode(tokens[2], 2).value != s.pin)
    }

    method SubscriberLogin(tokens: seq<string>) returns (o: Outcome, who: Option<Subscriber>)
      ensures SubscriberLoginAnswered(tokens, o, who)
    {
      if |tokens| != 3 {
        return Rejected(CheckCommandArgumentsCount(tokens, 3).value), None;
      }
      var code := ParseCardBarCode(tokens[1], 1);
      if code.Failure? {
        return Rejected(code.error), None;
      }
      var subscriber := FindSubscriber(code.value);
      if subscriber.None? {
        return NotFound(false, true), None;
      }
      var pin := ParsePinCode(tokens[2], 2);
      if pin.Failure? {
        return Rejected(pin.error), None;
      }
      if subscriber.value.pin != pin.value {
        return WrongPin, None;
      }
      o, who := LoggedIn, subscriber;
    }

    /**
     * Card bar codes are distinct, so an answered login whose card and PIN both match subscriber s
     * is a successful login as s: WrongPin is left only for a PIN that differs.
     */
    lemma MatchingLoginEnters(tokens: seq<string>, o: Outcome, who: Option<Subscriber>, s: Subscriber)
      requires Valid() && s in subscribers && |tokens| == 3
      requires ParseCardBarCode(tokens[1], 1) == Success(s.cardBarCode) && ParsePinCode(tokens[2], 2) == Success(s.pin)
      requires SubscriberLoginAnswered(tokens, o, who)
      ensures o == LoggedIn && who == Some(s)
    {
    }

    // ------------------------------------------------------------ the three menus

    /**
     * The effect of one line of the librarian's space, by the command its first token selects.
     * Only the save command writes a file; only the load command can crash.
     */
    twostate predicate LibrarianLineDone(tokens: seq<string>, files: map<string, string>, new o: Outcome, files': map<string, string>)
      requires |tokens| >= 1
      reads *
    {
      match ClassifyLibrarian(tokens)
      case AllBooksCmd => o == BookList(books) && OnlyChanged({}) && files' == files
      case LoadCmd => LoadDone(tokens, files, o) && files' == files
      case SaveCmd => SavedTo(tokens, files, o, files') && OnlyChanged({})
      case LibrarianLogout => o == LoggedOut && OnlyChanged({}) && files' == files
      case LibrarianSyntaxError => o == SyntaxError && OnlyChanged({}) && files' == files
      case _ => EditDone(tokens, o) && files' == files
    }

    /**
     * The effect of a librarian command that edits the books and subscribers in memory or shows
     * them: exactly the effect of its handler. The other commands are not edits.
     */
    twostate predicate EditDone(tokens: seq<string>, new o: Outcome)
      requires |tokens| >= 1
      reads *
    {
      if ClassifyLibrarian(tokens) in {CheckoutForCmd, ReturnForCmd} then LoanDone(tokens, o)
      else RecordDone(tokens, o)
    }

    /** The effect of the librarian's checkout or return for a subscriber: that of its handler. */
    twostate predicate LoanDone(tokens: seq<string>, new o: Outcome)
      requires |tokens| >= 1
      reads *
    {
      match ClassifyLibrarian(tokens)
      case CheckoutForCmd => CheckoutForDone(tokens, o)
      case ReturnForCmd => ReturnForDone(tokens, o)
      case _ => false
    }

    /**
     * The effect of a librarian command that adds or removes a book or a subscriber, or displays a
     * subscriber: that of its handler. Any other command is not one of these.
     */
    twostate predicate RecordDone(tokens: seq<string>, new o: Outcome)
      requires |tokens| >= 1
      reads *
    {
      match ClassifyLibrarian(tokens)
      case AddBookCmd => AddBookDone(tokens, o)
      case AddSubscriberCmd => AddSubscriberDone(tokens, o)
      case SubscriberInfoCmd => PersonalInfoShown(tokens, o) && OnlyChanged({})
      case SubscriberBooksCmd => BooksCheckedOutShown(tokens, o) && OnlyChanged({})
      case RemoveBookCmd => RemoveBookDone(tokens, o)
      case _ => false
    }

    /** One line of the librarian's space. */
    method LibrarianStep(tokens: seq<string>, files: map<string, string>) returns (o: Outcome, files': map<string, string>)
      requires Valid() && |tokens| >= 1
      modifies Repr
      ensures Valid() && fresh(Repr - old(Repr))
      ensures LibrarianLineDone(tokens, files, o, files')
      ensures o == LoggedOut <==> tokens == ["9"]
      ensures o == SyntaxError <==> ClassifyLibrarian(tokens) == LibrarianSyntaxError
      ensures o.LoadCrashed? ==> ClassifyLibrarian(tokens) == LoadCmd
      ensures o != Exited
    {
      files' := files;
      var command := ClassifyLibrarian(tokens);
      if command in {AddBookCmd, AddSubscriberCmd, CheckoutForCmd, ReturnForCmd, SubscriberInfoCmd, SubscriberBooksCmd, RemoveBookCmd} {
        o := EditStep(tokens);
        return;
      }
      match command
      case AllBooksCmd => o := BookList(books);
      case LoadCmd => o := RunLoad(tokens, files);
      case SaveCmd => o, files' := RunSave(tokens, files);
      case LibrarianLogout => o := LoggedOut;
      case LibrarianSyntaxError => o := SyntaxError;
    }

    /** The librarian commands that take arguments and work on the books and subscribers in memory. */
    method EditStep(tokens: seq<string>) returns (o: Outcome)
      requires Valid() && |tokens| >= 1
      requires ClassifyLibrarian(tokens) in
        {AddBookCmd, AddSubscriberCmd, CheckoutForCmd, ReturnForCmd, SubscriberInfoCmd, SubscriberBooksCmd, RemoveBookCmd}
      modifies Repr
      ensures Valid() && fresh(Repr - old(Repr))
      ensures !SteersMenu(o)
      ensures EditDone(tokens, o)
    {
      if ClassifyLibrarian(tokens) in {CheckoutForCmd, ReturnForCmd} {
        o := LoanStep(tokens);
      } else {
        o := RecordStep(tokens);
      }
    }

    /** The librarian's checkout and return on behalf of a subscriber. */
    method LoanStep(tokens: seq<string>) returns (o: Outcome)
      requires Valid() && |tokens| >= 1
      requires ClassifyLibrarian(tokens) in {CheckoutForCmd, ReturnForCmd}
      modifies subscribers`checkedOut, subscribers`returned, books`borrower
      ensures Valid()
      ensures !SteersMenu(o)
      ensures LoanDone(tokens, o)
    {
      if ClassifyLibrarian(tokens) == CheckoutForCmd {
        o := RunCheckoutFor(tokens);
      } else {
        o := RunReturnFor(tokens);
      }
    }

    /** The librarian commands that add or remove books and subscribers, or display a subscriber. */
    method RecordStep(tokens: seq<string>) returns (o: Outcome)
      requires Valid() && |tokens| >= 1
      requires ClassifyLibrarian(tokens) in
        {AddBookCmd, AddSubscriberCmd, SubscriberInfoCmd, SubscriberBooksCmd, RemoveBookCmd}
      modifies this
      ensures Valid() && fresh(Repr - old(Repr))
      ensures !SteersMenu(o)
      ensures RecordDone(tokens, o)
    {
      match ClassifyLibrarian(tokens)
      case AddBookCmd => o := RunAddBook(tokens);
      case AddSubscriberCmd => o := RunAddSubscriber(tokens);
      case SubscriberInfoCmd => o := RunDisplayPersonalInfo(tokens);
      case SubscriberBooksCmd => o := RunDisplayBooksCheckedOut(tokens);
      case RemoveBookCmd => o := RunRemoveBook(tokens);
    }

    /**
     * The effect of one line of the space of the logged-in subscriber s, by the command its first
     * token selects. The subscriber's own lists are shown as they are; an unknown command does
     * nothing.
     */
    twostate predicate SubscriberLineDone(s: Subscriber, tokens: seq<string>, new o: Outcome)
      requires |tokens| >= 1
      reads *
    {
      match ClassifySubscriber(tokens)
      case CheckoutCmd => CheckoutDone(s, tokens, o)
      case ReturnCmd => ReturnDone(s, tokens, o)
      case FindByAuthorCmd => FoundShown(Author, tokens, o) && OnlyChanged({})
      case FindByTitleCmd => FoundShown(Title, tokens, o) && OnlyChanged({})
      case CheckedOutCmd => o == BookList(s.checkedOut) && OnlyChanged({})
      case HistoryCmd => o == BookList(s.returned) && OnlyChanged({})
      case UpdateAddressCmd => AddressDone(s, tokens, o)
      case UpdatePhoneCmd => PhoneDone(s, tokens, o)
      case SubscriberLogout => o == LoggedOut && OnlyChanged({})
      case NoCommand => o == NoAction && OnlyChanged({})
    }

    /** One line of the space of the logged-in subscriber s. */
    method SubscriberStep(s: Subscriber, tokens: seq<string>) returns (o: Outcome)
      requires Valid() && s in subscribers && |tokens| >= 1
      modifies s`checkedOut, s`returned, s`address, s`phoneNumber, books`borrower
      ensures Valid()
      ensures SubscriberLineDone(s, tokens, o)
      ensures o == LoggedOut <==> tokens == ["9"]
      ensures o == NoAction <==> ClassifySubscriber(tokens) == NoCommand
      ensures o != Exited && !o.LoadCrashed?
    {
      var command := ClassifySubscriber(tokens);
      match command
      case FindByAuthorCmd => o := RunFind(Author, tokens);
      case FindByTitleCmd => o := RunFind(Title, tokens);
      case CheckedOutCmd => o := BookList(s.checkedOut);
      case HistoryCmd => o := BookList(s.returned);
      case SubscriberLogout => o := LoggedOut;
      case NoCommand => o := NoAction;
      case _ => o := SubscriberEditStep(s, tokens);
    }

    /** The subscriber commands that change the subscriber or the loans. */
    method SubscriberEditStep(s: Subscriber, tokens: seq<string>) returns (o: Outcome)
      requires Valid() && s in subscribers && |tokens| >= 1
      requires ClassifySubscriber(tokens) in {CheckoutCmd, ReturnCmd, UpdateAddressCmd, UpdatePhoneCmd}
      modifies s`checkedOut, s`returned, s`address, s`phoneNumber, books`borrower
      ensures Valid()
      ensures SubscriberLineDone(s, tokens, o)
      ensures o != LoggedOut && o != NoAction && o != Exited && !o.LoadCrashed?
    {
      match ClassifySubscriber(tokens)
      case CheckoutCmd => o := RunCheckout(s, tokens);
      case ReturnCmd => o := RunReturn(s, tokens);
      case UpdateAddressCmd => o := RunUpdateAddress(s, tokens);
      case UpdatePhoneCmd => o := RunUpdatePhone(s, tokens);
    }

    /**
     * How one line moves the console between its menus, and the outcomes that decide it: the main
     * menu is left only on "3" or after a successful login; the librarian's space returns to the
     * main menu only on "9" and ends the application only when a load crashes; a subscriber's space
     * returns to the main menu only on "9".
     */
    predicate Transition(mode: Mode, tokens: seq<string>, o: Outcome, mode': Mode)
      requires |tokens| >= 1
    {
      match mode
      case MainMenu =>
        (match ClassifyMain(tokens)
         case Exit => o == Exited && mode' == Finished
         case LibrarianLogin => o == LibrarianLogin(tokens) && mode' == (if o == LoggedIn then LibrarianMenu else MainMenu)
         case SubscriberLogin =>
           && (mode' == MainMenu || mode'.SubscriberMenu?)
           && (o.Rejected? || o.NotFound? || o == WrongPin || o == LoggedIn)
           && (mode'.SubscriberMenu? <==> o == LoggedIn)
           && (mode'.SubscriberMenu? ==>
                 && |tokens| == 3
                 && ParseCardBarCode(tokens[1], 1) == Success(mode'.subscriber.cardBarCode)
                 && ParsePinCode(tokens[2], 2) == Success(mode'.subscriber.pin))
         case MainSyntaxError => o == SyntaxError && mode' == MainMenu)
      case LibrarianMenu =>
        && (o == LoggedOut <==> tokens == ["9"])
        && (o == SyntaxError <==> ClassifyLibrarian(tokens) == LibrarianSyntaxError)
        && (o.LoadCrashed? ==> ClassifyLibrarian(tokens) == LoadCmd)
        && o != Exited
        && mode' == (if o == LoggedOut then MainMenu else if o.LoadCrashed? then Aborted else LibrarianMenu)
      case SubscriberMenu(_) =>
        && (o == LoggedOut <==> tokens == ["9"])
        && (o == NoAction <==> ClassifySubscriber(tokens) == NoCommand)
        && o != Exited && !o.LoadCrashed?
        && mode' == (if o == LoggedOut then MainMenu else mode)
      case _ => false
    }

    /**
     * One console line in the given mode, already trimmed and split at single spaces, handled by
     * the main menu, the librarian's space or the logged-in subscriber's space.
     */
    method Step(mode: Mode, tokens: seq<string>, files: map<string, string>) returns (mode': Mode, o: Outcome, files': map<string, string>)
      requires Valid() && mode.Active() && (mode.SubscriberMenu? ==> mode.subscriber in subscribers)
      requires |tokens| >= 1
      modifies Repr
      ensures Valid() && fresh(Repr - old(Repr))
      ensures mode'.SubscriberMenu? ==> mode'.subscriber in subscribers
      ensures Transition(mode, tokens, o, mode')
      ensures mode.MainMenu? || mode.SubscriberMenu? ==> books == old(books) && subscribers == old(subscribers) && files' == files
      ensures mode.MainMenu? && ClassifyMain(tokens).SubscriberLogin? ==>
        SubscriberLoginAnswered(tokens, o, if mode'.SubscriberMenu? then Some(mode'.subscriber) else None)
    {
      files' := files;
      match mode
      case MainMenu =>
        match ClassifyMain(tokens) {
          case Exit =>
            mode', o := Finished, Exited;
          case LibrarianLogin =>
            o := LibrarianLogin(tokens);
            mode' := if o == LoggedIn then LibrarianMenu else MainMenu;
          case SubscriberLogin =>
            var who;
            o, who := SubscriberLogin(tokens);
            mode' := if who.Some? then SubscriberMenu(who.value) else MainMenu;
          case MainSyntaxError =>
            mode', o := MainMenu, SyntaxError;
        }
      case LibrarianMenu =>
        o, files' := LibrarianStep(tokens, files);
        mode' := if o == LoggedOut then MainMenu else if o.LoadCrashed? then Aborted else LibrarianMenu;
      case SubscriberMenu(s) =>
        o := SubscriberStep(s, tokens);
        mode' := if o == LoggedOut then MainMenu else mode;
    }

    /**
     * The console session: lines are handled one after another until the user exits the main
     * menu, a load crashes the application, or the input runs out. The ghost trace records the
     * mode each line was read in; line i moved the console from trace[i] to trace[i + 1].
     */
    method Run(lines: seq<string>, files: map<string, string>)
      returns (mode: Mode, outcomes: seq<Outcome>, files': map<string, string>, ghost trace: seq<Mode>)
      requires Valid()
      modifies Repr
      ensures Valid() && fresh(Repr - old(Repr))
      ensures |outcomes| <= |lines| && (mode.Active() ==> |outcomes| == |lines|)
      ensures |trace| == |outcomes| + 1 && trace[0] == MainMenu && trace[|outcomes|] == mode
      ensures forall i :: 0 <= i < |outcomes| ==>
        trace[i].Active() && Transition(trace[i], Tokenize(lines[i]), outcomes[i], trace[i + 1])
      ensures forall i :: 0 <= i < |outcomes| - 1 ==> outcomes[i] != Outcome.Exited && !outcomes[i].LoadCrashed?
      ensures mode == Finished ==>
        |outcomes| >= 1 && outcomes[|outcomes| - 1] == Outcome.Exited && Tokenize(lines[|outcomes| - 1]) == ["3"]
      ensures mode == Aborted ==>
        && |outcomes| >= 1 && outcomes[|outcomes| - 1].LoadCrashed?
        && ClassifyLibrarian(Tokenize(lines[|outcomes| - 1])) == LoadCmd
    {
      mode, outcomes, files', trace := MainMenu, [], files, [MainMenu];
      while |outcomes| < |lines| && mode.Active()
        invariant Valid() && fresh(Repr - old(Repr))
        invariant |outcomes| <= |lines|
        invariant mode.SubscriberMenu? ==> mode.subscriber in subscribers
        invariant |trace| == |outcomes| + 1 && trace[0] == MainMenu && trace[|outcomes|] == mode
        invariant forall i :: 0 <= i < |outcomes| ==>
          trace[i].Active() && Transition(trace[i], Tokenize(lines[i]), outcomes[i], trace[i + 1])
        decreases |lines| - |outcomes|
      {
        var tokens := Tokenize(lines[|outcomes|]);
        var o, mode';
        mode', o, files' := Step(mode, tokens, files');
        TraceGrows(lines, outcomes, trace, mode, tokens, o, mode');
        mode := mode';
        outcomes, trace := outcomes + [o], trace + [mode];
      }
      EarlierLinesGoOn(lines, outcomes, trace);
      if !mode.Active() {
        LastLineEnds(lines, outcomes, trace);
      }
    }

    /** One more line, handled in the last mode of a trace, extends the trace by the mode it leads to. */
    lemma TraceGrows(lines: seq<string>, outcomes: seq<Outcome>, trace: seq<Mode>,
                     mode: Mode, tokens: seq<string>, o: Outcome, mode': Mode)
      requires |outcomes| < |lines| && |trace| == |outcomes| + 1
      requires forall i :: 0 <= i < |outcomes| ==>
        trace[i].Active() && Transition(trace[i], Tokenize(lines[i]), outcomes[i], trace[i + 1])
      requires trace[|outcomes|] == mode && tokens == Tokenize(lines[|outcomes|])
      requires mode.Active() && Transition(mode, tokens, o, mode')
      ensures forall i :: 0 <= i < |outcomes| + 1 ==>
        && (trace + [mode'])[i].Active()
        && Transition((trace + [mode'])[i], Tokenize(lines[i]), (outcomes + [o])[i], (trace + [mode'])[i + 1])
    {
      forall i | 0 <= i < |outcomes| + 1
        ensures && (trace + [mode'])[i].Active()
                && Transition((trace + [mode'])[i], Tokenize(lines[i]), (outcomes + [o])[i], (trace + [mode'])[i + 1])
      {
        assert (trace + [mode'])[i] == trace[i];
        if i < |outcomes| {
          assert (outcomes + [o])[i] == outcomes[i] && (trace + [mode'])[i + 1] == trace[i + 1];
        }
      }
    }

    /** A session goes on after each line but the last, so none of the earlier outcomes ends it. */
    lemma EarlierLinesGoOn(lines: seq<string>, outcomes: seq<Outcome>, trace: seq<Mode>)
      requires |outcomes| <= |lines| && |trace| == |outcomes| + 1
      requires forall i :: 0 <= i < |outcomes| ==>
        trace[i].Active() && Transition(trace[i], Tokenize(lines[i]), outcomes[i], trace[i + 1])
      ensures forall i :: 0 <= i < |outcomes| - 1 ==> outcomes[i] != Outcome.Exited && !outcomes[i].LoadCrashed?
    {
      forall i | 0 <= i < |outcomes| - 1
        ensures outcomes[i] != Outcome.Exited && !outcomes[i].LoadCrashed?
      {
        StepEnds(trace[i], Tokenize(lines[i]), outcomes[i], trace[i + 1]);
      }
    }

    /**
     * A session that has ended read at least one line, and its last line was "3" in the main menu
     * or a load that crashed in the librarian's space.
     */
    lemma LastLineEnds(lines: seq<string>, outcomes: seq<Outcome>, trace: seq<Mode>)
      requires |outcomes| <= |lines| && |trace| == |outcomes| + 1 && trace[0] == MainMenu
      requires forall i :: 0 <= i < |outcomes| ==>
        trace[i].Active() && Transition(trace[i], Tokenize(lines[i]), outcomes[i], trace[i + 1])
      requires !trace[|outcomes|].Active()
      ensures |outcomes| >= 1
      ensures trace[|outcomes|] == Finished ==>
        outcomes[|outcomes| - 1] == Outcome.Exited && Tokenize(lines[|outcomes| - 1]) == ["3"]
      ensures trace[|outcomes|] == Aborted ==>
        outcomes[|outcomes| - 1].LoadCrashed? && ClassifyLibrarian(Tokenize(lines[|outcomes| - 1])) == LoadCmd
    {
      var last := |outcomes| - 1;
      StepEnds(trace[last], Tokenize(lines[last]), outcomes[last], trace[last + 1]);
    }

    /**
     * A line ends the session exactly when its outcome is Exited (on "3" in the main menu) or a
     * crashed load (in the librarian's space).
     */
    lemma StepEnds(mode: Mode, tokens: seq<string>, o: Outcome, mode': Mode)
      requires |tokens| >= 1 && Transition(mode, tokens, o, mode')
      ensures mode'.Active() <==> o != Outcome.Exited && !o.LoadCrashed?
      ensures mode' == Finished ==> o == Outcome.Exited && mode.MainMenu? && tokens == ["3"]
      ensures mode' == Aborted ==> o.LoadCrashed? && mode.LibrarianMenu? && ClassifyLibrarian(tokens) == LoadCmd
    {
    }
  }

  /**
   * The application's entry point: the Madison library with librarian "april" (password "abc")
   * reads console lines from the main menu until it finishes.
   */
  method Application(lines: seq<string>, files: map<string, string>)
    returns (library: Library, mode: Mode, outcomes: seq<Outcome>, files': map<string, string>, ghost trace: seq<Mode>)
    ensures fresh(library) && library.Valid()
    ensures library.address == "Madison, WI" && library.librarian == Librarian("april", "abc")
    ensures |outcomes| <= |lines| && (mode.Active() ==> |outcomes| == |lines|)
    ensures |trace| == |outcomes| + 1 && trace[0] == MainMenu && trace[|outcomes|] == mode
    ensures forall i :: 0 <= i < |outcomes| ==>
      trace[i].Active() && library.Transition(trace[i], Tokenize(lines[i]), outcomes[i], trace[i + 1])
    ensures forall i :: 0 <= i < |outcomes| - 1 ==> outcomes[i] != Outcome.Exited && !outcomes[i].LoadCrashed?
    ensures mode == Finished ==>
      |outcomes| >= 1 && outcomes[|outcomes| - 1] == Outcome.Exited && Tokenize(lines[|outcomes| - 1]) == ["3"]
    ensures mode == Aborted ==>
      && |outcomes| >= 1 && outcomes[|outcomes| - 1].LoadCrashed?
      && ClassifyLibrarian(Tokenize(lines[|outcomes| - 1])) == LoadCmd
  {
    library := new Library("Madison, WI", "april", "abc");
    mode, outcomes, files', trace := library.Run(lines, files);

  }
}
