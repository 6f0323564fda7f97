/** Library subscribers and their card bar codes (src/Subscriber.java). */
module Subscribers {
  import opened Wrappers
  import opened Books
  import Lists

  const CARD_BAR_CODE_INIT: int := 2019000001
  const CARD_BAR_CODE_LAST: int := 2019999999
  const MAX_BOOKS_CHECKED_OUT: nat := 10

  /** Subscriber.checkCardBarCode: the code lies in [CARD_BAR_CODE_INIT, CARD_BAR_CODE_LAST]. */
  predicate CheckCardBarCode(code: int) {
    CARD_BAR_CODE_INIT <= code <= CARD_BAR_CODE_LAST
  }

  /**
   * The guard of the Subscriber constructor. With next the value of the card counter, a card is
   * issued, with code next, only while next is strictly below CARD_BAR_CODE_LAST; otherwise the
   * constructor throws InstantiationException (None) and the counter keeps its value.
   */
  function IssueCard(next: int): (r: Option<int>)
    ensures r.Some? <==> next < CARD_BAR_CODE_LAST
    ensures r.Some? ==> r.value == next
  {
    if next < CARD_BAR_CODE_LAST then Some(next) else None
  }

  /**
   * From a counter that starts at CARD_BAR_CODE_INIT, every issued code passes checkCardBarCode,
   * yet CARD_BAR_CODE_LAST, which that check accepts, is never issued.
   */
  lemma IssuedCodesAreValid(next: int)
    requires CARD_BAR_CODE_INIT <= next
    ensures IssueCard(next).Some? ==> CheckCardBarCode(IssueCard(next).value)
    ensures IssueCard(next) != Some(CARD_BAR_CODE_LAST) && CheckCardBarCode(CARD_BAR_CODE_LAST)
  {
  }

  /** What checkoutBook does, decided in the source's order of tests. */
  datatype CheckoutResult =
    | CheckedOut          // the book was available and fewer than the maximum were held
    | LimitReached        // the book was available but the maximum is already held
    | AlreadyCheckedOut   // the book is unavailable because this subscriber holds it
    | NotAvailable        // the book is unavailable because someone else holds it

  function CheckoutVerdict(available: bool, held: bool, count: nat): CheckoutResult {
    if available then
      if count < MAX_BOOKS_CHECKED_OUT then CheckedOut else LimitReached
    else if held then AlreadyCheckedOut
    else NotAvailable
  }

  /**
   * A subscriber: a fixed card bar code, PIN and name, an address and a phone number that can be
   * updated, the list of books currently checked out and the history of books returned.
   */
  class Subscriber {
    const cardBarCode: int
    const pin: int
    const name: string
    var address: string
    var phoneNumber: string
    var checkedOut: seq<Book>
    var returned: seq<Book>

    /**
     * The checked-out list holds at most MAX_BOOKS_CHECKED_OUT books, none twice, and every one
     * of them is lent under this subscriber's card bar code.
     */
    ghost predicate Valid()
      reads this, checkedOut
    {
      && |checkedOut| <= MAX_BOOKS_CHECKED_OUT
      && Lists.NoDuplicates(checkedOut)
      && forall i :: 0 <= i < |checkedOut| ==> checkedOut[i].borrower == Some(cardBarCode)
    }

    /** A new subscriber with the issued card bar code and empty lists. */
    constructor (cardBarCode: int, name: string, pin: int, address: string, phoneNumber: string)
      ensures this.cardBarCode == cardBarCode && this.name == name && this.pin == pin
      ensures this.address == address && this.phoneNumber == phoneNumber
      ensures checkedOut == [] && returned == []
      ensures Valid()
    {
      this.cardBarCode := cardBarCode;
      this.name := name;
      this.pin := pin;
      this.address := address;
      this.phoneNumber := phoneNumber;
      checkedOut := [];
      returned := [];
    }

    predicate IsBookInBooksCheckedOut(book: Book)
      reads this
    {
      book in checkedOut
    }

    predicate IsBookInBooksReturned(book: Book)
      reads this
    {
      book in returned
    }

    method SetAddress(address: string)
      modifies this`address
      ensures this.address == address
    {
      this.address := address;
    }

    method SetPhoneNumber(phoneNumber: string)
      modifies this`phoneNumber
      ensures this.phoneNumber == phoneNumber
    {
      this.phoneNumber := phoneNumber;
    }

    /**
     * Checks out an available book while fewer than the maximum are held: the book goes to the
     * end of the checked-out list and is lent under this card bar code. In every other case
     * neither the list nor the book changes.
     */
    method CheckoutBook(book: Book) returns (r: CheckoutResult)
      requires Valid()
      modifies this`checkedOut, book`borrower
      ensures Valid()
      ensures r == CheckoutVerdict(old(book.IsAvailable()), book in old(checkedOut), |old(checkedOut)|)
      ensures r == CheckedOut ==> checkedOut == old(checkedOut) + [book] && book.borrower == Some(cardBarCode)
      ensures r != CheckedOut ==> checkedOut == old(checkedOut) && book.borrower == old(book.borrower)
    {
      if book.IsAvailable() {
        if |checkedOut| < MAX_BOOKS_CHECKED_OUT {
          checkedOut := checkedOut + [book];
          book.BorrowBook(cardBarCode);
          r := CheckedOut;
        } else {
          r := LimitReached;
        }
      } else if IsBookInBooksCheckedOut(book) {
        r := AlreadyCheckedOut;
      } else {
        r := NotAvailable;
      }
    }

    /**
     * Returns a book this subscriber holds: it is appended to the returned history, removed from
     * the checked-out list and made available. A book not held changes nothing.
     */
    method ReturnBook(book: Book) returns (ok: bool)
      requires Valid()
      modifies this`checkedOut, this`returned, book`borrower
      ensures Valid()
      ensures ok == (book in old(checkedOut))
      ensures ok ==> && returned == old(returned) + [book]
                     && checkedOut == Lists.RemoveFirst(old(checkedOut), book)
                     && book.IsAvailable()
      ensures !ok ==> && returned == old(returned) && checkedOut == old(checkedOut)
                      && book.borrower == old(book.borrower)
    {
      ok := IsBookInBooksCheckedOut(book);
      if ok {
        Lists.RemoveFirstOfDistinct(checkedOut, book);
        returned := returned + [book];
        checkedOut := Lists.RemoveFirst(checkedOut, book);
        book.ReturnBook();
      }
    }
  }
}
