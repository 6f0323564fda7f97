/** The library's books (src/Book.java). */
module Books {
  import opened Wrappers

  /**
   * A book of the library. Its id, title and author never change; the only mutable part is the
   * card bar code of the subscriber who has borrowed it, None while the book is available.
   * The source's class-wide id counter lives in the library that creates books, which hands the
   * next id to the constructor.
   */
  class Book {
    const id: int
    const title: string
    const author: string
    var borrower: Option<int>

    /** A new book is available. */
    constructor (id: int, title: string, author: string)
      ensures this.id == id && this.title == title && this.author == author
      ensures borrower == None
    {
      this.id := id;
      this.title := title;
      this.author := author;
      borrower := None;
    }

    /** Book.isAvailable: no borrower is recorded. */
    predicate IsAvailable()
      reads this
    {
      borrower == None
    }

    /** Records the borrower when the book is available; does nothing otherwise. */
    method BorrowBook(code: int)
      modifies this`borrower
      ensures old(IsAvailable()) ==> borrower == Some(code)
      ensures !old(IsAvailable()) ==> borrower == old(borrower)
    {
      if IsAvailable() {
        borrower := Some(code);
      }
    }

    /** Makes the book available, whoever had it; so returning twice is returning once. */
    method ReturnBook()
      modifies this`borrower
      ensures IsAvailable()
    {
      borrower := None;
    }
  }
}
