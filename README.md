# BookLibrary in Dafny

This project models the core of BookLibrary, a small console library manager written in Java.
A library (`ExceptionalLibrary`) has a librarian, a list of books and a list of subscribers.

- **Book.** Each book records the card bar code of the subscriber who borrowed it, or nothing while it is available.
- **Subscriber.** Each subscriber has:
  - a card bar code from a bounded counter;
  - a PIN;
  - a list of at most ten books checked out;
  - a history of books returned.
- **Console.** Users type lines in three menus: the main menu, the librarian's space and a subscriber's space.
  - Each line is `trim().split(" ")` into tokens.
  - Each command checks its argument count and parses its arguments. A bad line throws a `ParseException` carrying an error offset: 0 for a wrong count, N for the N-th argument.
  - The librarian can save the books to a text file of `title:author` lines and load such a file back.

The Dafny modules follow the Java classes:

| module | file | models |
|---|---|---|
| `Books` | books.dfy | `Book`: a class whose only mutable field is the borrower |
| `Subscribers` | subscribers.dfy | `Subscriber`: a class with the checkout and return operations; the card allocator |
| `Librarians` | librarians.dfy | `Librarian`: a datatype, since nothing in it ever changes |
| `Libraries` | library.dfy | `ExceptionalLibrary`: the `Library` class, its registry operations, every command handler, the three menu loops as one `Step`, the session `Run`, and `main` as `Application` |
| `Commands` | commands.dfy | the argument validators, the argument checks of each command, and which command a line selects in each menu |
| `BookFile` | bookfile.dfy | the `title:author` file format of the save and load commands, over file contents as strings |
| `Text` | text.dfy | the parts of `String`, `Integer` and `Long` the console relies on: `trim`, `split`, `toUpperCase`, `equalsIgnoreCase`, `parseInt`, `parseLong` |
| `Lists` | lists.dfy | `ArrayList.indexOf` and `remove(Object)` by reference |
| `Wrappers` | wrappers.dfy | `Option` and `Result` |

Shared state works as follows:

- Books are objects shared by reference between the library's list and the subscribers' lists. `Library.Valid()` ties them together:
  - book ids are distinct and below the id counter;
  - card bar codes are distinct and below the card counter;
  - each subscriber holds at most ten books, none twice;
  - a book is in a subscriber's list exactly when it records that subscriber's card bar code;
  - a book that is lent records an existing subscriber.

  Every state-changing operation preserves `Valid()`.
- The static counters `Book.nextId` and `Subscriber.nextCardBarCode` are fields of the library: `nextBookId` and `nextCardBarCode`.
- A printed message becomes an `Outcome` value.
- A file system is a map from file names to contents.
- The console input is a sequence of lines.

The console is a state machine over `Mode`:

- Its states are `MainMenu`, `LibrarianMenu`, `SubscriberMenu(s)`, `Finished` and `Aborted`.
- The source nests the librarian and subscriber loops inside the main loop. Leaving either of them returns to the main menu.
- A malformed line in a loaded file throws an `ArrayIndexOutOfBoundsException` that no handler catches. The application then stops; this is `Aborted`.

Where the code and its design notes differ, the model follows the code:

- A book's title and author are never reassigned after construction, so they are constants here.
- A PIN is any int in [1000, 9999].

Quirks of the code that the model keeps and states:

- The card counter issues a code only while it is strictly below 2019999999. So 2019999999 is never issued, although `checkCardBarCode` accepts it.
- The librarian's return command parses the card bar code with `parseBookId`, so it does no range check.
- The librarian's checkout command parses the book id (offset 2) before the card bar code (offset 1).
- In the subscriber's space, "3" searches by author and "4" by title.
- Adding a subscriber never checks the phone number. Updating the phone number does check it, reports its own error and keeps the old number.
- Subscriber login parses the PIN only once the card bar code has matched a subscriber.
- The subscriber loop ignores unknown commands. The librarian loop matches its first token case-insensitively.
- A title holding ':' is cut at the ':' by a save followed by a load. A line with a title but no author stops a load, after the books of the lines before it have been added.

## Model

| member | source | states |
|---|---|---|
| Books.Book.constructor | src/Book.java:24-30 | a new book has the given id, title and author and is available |
| Books.Book.BorrowBook | src/Book.java:77-80 | an available book records the borrower's card bar code; an unavailable one is left as it is |
| Books.Book.ReturnBook | src/Book.java:86-88 | the book is available afterwards whatever its state, so returning is idempotent |
| Subscribers.IssueCard | src/Subscriber.java:46-60 | a card is issued, with the counter's value, exactly when the counter is strictly below CARD_BAR_CODE_LAST |
| Subscribers.IssuedCodesAreValid | src/Subscriber.java:236-238 | every issued code passes checkCardBarCode, yet CARD_BAR_CODE_LAST passes it and is never issued |
| Subscribers.Subscriber.constructor | src/Subscriber.java:46-60 | the new subscriber keeps the given card bar code, name, PIN, address and phone number, with empty checked-out and returned lists |
| Subscribers.Subscriber.SetAddress | src/Subscriber.java:77-79 | only the address changes, to the given one |
| Subscribers.Subscriber.SetPhoneNumber | src/Subscriber.java:95-97 | only the phone number changes, to the given one |
| Subscribers.Subscriber.CheckoutBook | src/Subscriber.java:133-150 | checkout outcome follows the source's order of tests; only a success appends the book and lends it under this card; the at-most-ten, no-duplicate, all-lent-to-me invariant is kept |
| Subscribers.Subscriber.ReturnBook | src/Subscriber.java:157-167 | succeeds exactly when the book is held: it is appended to the history, removed from the checked-out list and made available; otherwise nothing changes |
| Librarians.PasswordCheckIsCaseSensitive | src/Librarian.java:35-37 | checkPassword is exact: the upper-cased spelling of a password with a lower-case letter is refused although it equals it ignoring case |
| Lists.IndexOf | src/Subscriber.java:162 | the first position holding the element, and the length exactly when it is absent |
| Lists.RemoveFirst | src/ExceptionalLibrary.java:171 | the list without the first occurrence of the element, others kept in order; the list itself when absent |
| Lists.RemoveFirstOfDistinct | src/Subscriber.java:162 | removing from a duplicate-free list leaves a duplicate-free list without the element |
| Text.Trim | src/ExceptionalLibrary.java:644 | the result is an infix that neither starts nor ends with a character at or below U+0020, and everything cut from either end is such a character |
| Text.TrimFixedPoints | src/ExceptionalLibrary.java:644 | trim leaves a string unchanged exactly when it is already trimmed |
| Text.TrimIdempotent | src/ExceptionalLibrary.java:562 | trimming twice is trimming once |
| Text.JoinPieces | src/ExceptionalLibrary.java:570 | joining the pieces of a string cut at a separator gives the string back |
| Text.PiecesJoin | src/ExceptionalLibrary.java:570 | cutting a join of separator-free parts gives the parts back |
| Text.Split | src/ExceptionalLibrary.java:570 | split on a one-character separator: no piece holds the separator; without the separator the whole string; otherwise the pieces up to the last non-empty one, every piece dropped being empty |
| Text.SplitKeepsAllPieces | src/ExceptionalLibrary.java:570 | a string not ending with the separator loses no piece when split |
| Text.SplitOfTrimmed | src/ExceptionalLibrary.java:644 | a trimmed line split at spaces has a token and joins back to itself |
| Text.Tokenize | src/ExceptionalLibrary.java:644 | a command line always has at least one token |
| Text.TokensRebuildLine | src/ExceptionalLibrary.java:644 | no token holds a space, and the tokens joined by single spaces give back the trimmed line |
| Text.ToUpper | src/ExceptionalLibrary.java:695 | each character is upper-cased (ASCII), length kept |
| Text.ToUpperIdempotent | src/ExceptionalLibrary.java:695 | upper-casing twice is upper-casing once |
| Text.UpperIsNine | src/ExceptionalLibrary.java:692 | only "9" upper-cases to "9", so the exit test does not depend on case |
| Text.EqualsIgnoreCaseIffSameLower | src/ExceptionalLibrary.java:126 | equalsIgnoreCase holds exactly when both strings fold to the same lower-case string |
| Text.ParseDecimal | src/ExceptionalLibrary.java:955 | accepted exactly when the string is one or more digits, optionally after a '-' or '+', with a value in the range; the result is that value |
| Text.ParseInt | src/ExceptionalLibrary.java:955 | Integer.parseInt accepts exactly a numeral whose value is a Java int, and returns that value |
| Text.ParseLong | src/ExceptionalLibrary.java:265 | Long.parseLong accepts exactly a numeral whose value is a Java long, and returns that value |
| Text.ParseIntScenarios | src/ExceptionalLibrary.java:955 | "+1000" and "01000" parse to 1000 and "-0" to 0; "1x1", "" and "-" are refused |
| Text.ParseDecimalOfDecimal | src/ExceptionalLibrary.java:955 | a number's decimal form parses back to the number exactly when it is in range |
| Commands.CheckCommandArgumentsCount | src/ExceptionalLibrary.java:249-253 | an error with offset 0 exactly when the token count differs from the arity |
| Commands.ParsePinCode | src/ExceptionalLibrary.java:953-965 | succeeds exactly when parseInt accepts the string and the value is in [1000, 9999], with that value; otherwise a not-a-number error when parseInt refuses it, else an out-of-range error, at the given offset |
| Commands.ParseCardBarCode | src/ExceptionalLibrary.java:975-989 | succeeds exactly when parseInt accepts the string and checkCardBarCode passes, with that value; otherwise a not-an-integer error when parseInt refuses it, else a bad-code error, at the given offset |
| Commands.ParseBookId | src/ExceptionalLibrary.java:999-1007 | accepts exactly what parseInt accepts; a failure carries the given offset |
| Commands.ParsePhoneNumber | src/ExceptionalLibrary.java:263-269 | accepts exactly what parseLong accepts; a failure carries the given offset |
| Commands.PinCodeOfDecimal | src/ExceptionalLibrary.java:953-965 | a written number is an accepted PIN exactly when in [1000, 9999]; an int out of range and a non-int get different errors |
| Commands.CardBarCodeOfDecimal | src/ExceptionalLibrary.java:975-989 | a written number is an accepted card bar code exactly when checkCardBarCode holds, and parses to itself |
| Commands.BookIdOfDecimal | src/ExceptionalLibrary.java:999-1007 | a written number is an accepted book id exactly when it is a Java int |
| Commands.PhoneNumberOfDecimal | src/ExceptionalLibrary.java:263-269 | a written number is an accepted phone number exactly when it is a Java long |
| Commands.AddSubscriberArgs | src/ExceptionalLibrary.java:294-299 | five tokens and a valid PIN at offset 2; the count is checked first |
| Commands.CheckoutForArgs | src/ExceptionalLibrary.java:310-317 | three tokens, else the argument-count error at offset 0; then a book id at offset 2 and a card bar code at offset 1, the book id's error reported first |
| Commands.ReturnForArgs | src/ExceptionalLibrary.java:327-336 | three tokens, else the argument-count error at offset 0; then both the book id and the card bar code are parsed as book ids, the book id first |
| Commands.CardArg | src/ExceptionalLibrary.java:346-354 | two tokens and a valid card bar code at offset 1 |
| Commands.BookIdArg | src/ExceptionalLibrary.java:382-385 | two tokens and a book id at offset 1 |
| Commands.CheckoutForReportsBookIdFirst | src/ExceptionalBookLibraryTests.java:36-50 | checkout with card "butt" and book id "dead" fails on the book id, offset 2 |
| Commands.PinCodeSpellings | src/ExceptionalLibrary.java:953-965 | "+1000" and "01000" are accepted PINs, both 1000 |
| Commands.PinCodeLeadingZeroCounts | src/ExceptionalLibrary.java:953-965 | "0999" has four characters but is refused as out of range |
| Commands.HeadIsNotACardBarCode | src/ExceptionalBookLibraryTests.java:18-29 | "Head" is refused as a card bar code because it is not an integer |
| Commands.ClassifyMain | src/ExceptionalLibrary.java:645-655 | the main loop exits exactly on the single token "3"; "1" and "2" select the logins |
| Commands.ClassifyLibrarian | src/ExceptionalLibrary.java:692-765 | logout exactly on the single token "9"; load and save on "L"/"S" in either case |
| Commands.ClassifySubscriber | src/ExceptionalLibrary.java:793-846 | logout exactly on the single token "9"; "3" is the author search and "4" the title search |
| Commands.LibrarianCommandIgnoresCase | src/ExceptionalLibrary.java:695 | upper-casing the first token does not change the librarian command |
| BookFile.LineEnd | src/ExceptionalLibrary.java:557 | the position of the first line break, with no break before it |
| BookFile.ReadLines | src/ExceptionalLibrary.java:557 | the lines read from a content contain no line break |
| BookFile.WriteLines | src/ExceptionalLibrary.java:523-525 | println ends every line, the last included, with "\n"; no lines give the empty content |
| BookFile.ReadLineThenRest | src/ExceptionalLibrary.java:557 | a written line followed by more content is read back first |
| BookFile.ReadWrittenLines | src/ExceptionalLibrary.java:523-525 | reading what println wrote gives back the lines, when none holds a line break |
| BookFile.SaveLines | src/ExceptionalLibrary.java:523-525 | one "title:author" line per book, in order |
| BookFile.LoadInputs | src/ExceptionalLibrary.java:557-563 | the load's first loop keeps at most every line, each trimmed |
| BookFile.DecodeEach | src/ExceptionalLibrary.java:564-572 | one decoded value per input |
| BookFile.DecodeEntry | src/ExceptionalLibrary.java:565-572 | an input decodes exactly when split at ':' it has at least two parts, so it holds a ':'; the title and author are trimmed and free of ':' |
| BookFile.DecodeEachAt | src/ExceptionalLibrary.java:564-572 | the i-th decoded value is the i-th input split at ':' and trimmed |
| BookFile.Added | src/ExceptionalLibrary.java:564-572 | the load's second loop adds at most one book per input and crashes exactly when it stops early |
| BookFile.AddedIsPrefix | src/ExceptionalLibrary.java:564-572 | the books added are the decoded inputs in order, and a crash happens on a malformed input |
| BookFile.AddedSnoc | src/ExceptionalLibrary.java:564-572 | one more input after a run without a crash adds a book or crashes |
| BookFile.AddedAfterCrash | src/ExceptionalLibrary.java:564-572 | once the loop has crashed, later inputs change nothing |
| BookFile.AddedNext | src/ExceptionalLibrary.java:564-572 | a well-formed input at the loop's current index adds exactly its book |
| BookFile.AddedStops | src/ExceptionalLibrary.java:564-572 | a malformed input at the loop's current index ends the load with the books so far |
| BookFile.AddedAll | src/ExceptionalLibrary.java:564-572 | inputs that all decode add all their books without a crash |
| BookFile.AddedUpTo | src/ExceptionalLibrary.java:564-572 | the books before the first malformed input are added, then the load crashes |
| BookFile.Load | src/ExceptionalLibrary.java:557-572 | loading a content adds at most one book per line read, each with a trimmed title and author free of ':' |
| BookFile.DecodeSaveLine | src/ExceptionalLibrary.java:570-571 | a saved line of a storable book is kept, is already trimmed and decodes to that book |
| BookFile.LoadInputsOfSaveLines | src/ExceptionalLibrary.java:557-563 | the saved lines of storable books all reach the second loop unchanged |
| BookFile.LoadInputsAppend | src/ExceptionalLibrary.java:557-563 | the first loop works line by line |
| BookFile.SaveLineHasNoBreak | src/ExceptionalLibrary.java:525 | a saved line has no line break when the title and author have none |
| BookFile.ReadSavedLines | src/ExceptionalLibrary.java:523-525 | reading a saved file gives back its lines |
| BookFile.DecodeEachSaveLines | src/ExceptionalLibrary.java:570-571 | every saved line of a storable book decodes to that book |
| BookFile.LoadAfterSave | src/ExceptionalBookLibraryTests.java:112-133 | loading a saved file gives the same titles and authors in the same order, without a crash |
| BookFile.DecodeThreeParts | src/ExceptionalLibrary.java:570-571 | with two ':' in an input, the first part becomes the title and the second the author |
| BookFile.ColonInTitleIsCut | src/ExceptionalLibrary.java:570-571 | a title holding ':' comes back cut at it, with the rest as the author |
| BookFile.TitleOnlyInputs | src/ExceptionalLibrary.java:557-563 | a title-only line reaches the second loop as it is |
| BookFile.DecodeEachTitleOnly | src/ExceptionalLibrary.java:570-571 | a title-only line is malformed; the saved lines before it decode to their books |
| BookFile.TitleOnlyLineStopsLoad | src/ExceptionalLibrary.java:564-572 | a title-only line stops the load after adding the books of the lines before it |
| Libraries.Matching | src/ExceptionalLibrary.java:121-145 | the books whose title or author equals the text ignoring case, and all of them, from the list |
| Libraries.Entries | src/ExceptionalLibrary.java:523-525 | the title and author of each book, in list order |
| Libraries.EntriesSnoc | src/ExceptionalLibrary.java:571 | adding a book adds its title and author at the end |
| Libraries.Library.constructor | src/ExceptionalLibrary.java:67-73 | a valid library with its address and librarian, no books, no subscribers, and both counters at their start |
| Libraries.Library.LentBookHasOneHolder | src/Subscriber.java:133-150 | a lent book is held by exactly one subscriber, the one whose card it records |
| Libraries.Library.FindBook | src/ExceptionalLibrary.java:101-109 | a book of the library with that id, and none exactly when no book has it |
| Libraries.Library.FindSubscriber | src/ExceptionalLibrary.java:211-218 | a subscriber with that card bar code, and none exactly when nobody has it |
| Libraries.Library.FindMatching | src/ExceptionalLibrary.java:121-145 | the matching books in list order |
| Libraries.Library.FindBookByTitle | src/ExceptionalLibrary.java:121-129 | exactly the books whose title equals the given one ignoring case, in list order |
| Libraries.Library.FindBookByAuthor | src/ExceptionalLibrary.java:138-145 | exactly the books whose author equals the given one ignoring case, in list order |
| Libraries.Library.AddBook | src/ExceptionalLibrary.java:154-157 | one new available book with the next id is appended; nothing else changes |
| Libraries.Library.RemoveBook | src/ExceptionalLibrary.java:166-180 | an unknown id or a lent book leaves the list as it is; an available book is removed, the rest in order |
| Libraries.Library.AddSubscriber | src/ExceptionalLibrary.java:193-201 | a new subscriber with the next card is appended while cards remain; otherwise nothing changes |
| Libraries.Library.Lend | src/Subscriber.java:133-150 | checkout within the library keeps the loans invariant; "already checked out" means this subscriber holds it, "not available" means another one does |
| Libraries.Library.TakeBack | src/Subscriber.java:157-167 | a return succeeds exactly when the book records this subscriber's card, and keeps the loans invariant |
| Libraries.Library.RunAddBook | src/ExceptionalLibrary.java:278-284 | a wrong count is the arity error and changes nothing; otherwise one fresh available book, numbered with the old id counter, with tokens 1 and 2 as title and author, is appended, the id counter moves on by one, and nothing else changes |
| Libraries.Library.RunAddSubscriber | src/ExceptionalLibrary.java:294-299 | a bad count or PIN is reported and changes nothing; with the card counter at CARD_BAR_CODE_LAST or beyond the cards are exhausted and nothing changes; otherwise a fresh subscriber with the old counter's card, the given name, PIN, address and phone number and no books is appended, the card counter moves on by one, and nothing else changes |
| Libraries.Library.RunCheckoutFor | src/ExceptionalLibrary.java:310-317 | an argument error or a missing book or subscriber is reported and changes nothing; otherwise that subscriber checks that book out with checkoutBook's verdict, and every other book and subscriber, both lists and both counters stay as they were |
| Libraries.Library.RunReturnFor | src/ExceptionalLibrary.java:327-336 | an argument error or a missing book or subscriber is reported and changes nothing; otherwise that subscriber returns that book, successfully exactly when it holds it, and every other book and subscriber, both lists and both counters stay as they were |
| Libraries.Library.RunDisplayPersonalInfo | src/ExceptionalLibrary.java:346-354 | the subscriber with the given card, or the argument error or not-found report |
| Libraries.Library.RunDisplayBooksCheckedOut | src/ExceptionalLibrary.java:365-372 | the books checked out by the subscriber with the given card, or the error |
| Libraries.Library.RunRemoveBook | src/ExceptionalLibrary.java:382-385 | an argument error changes nothing; an unknown id or a lent book leaves the list; an available book with that id is removed; subscribers, counters and every book's state are kept |
| Libraries.Library.SaveContent | src/ExceptionalLibrary.java:523-525 | the file content is one "title:author" line per book in list order |
| Libraries.Library.RunSave | src/ExceptionalLibrary.java:517-536 | a wrong count changes no file; otherwise the named file holds the saved books |
| Libraries.Library.CollectInputs | src/ExceptionalLibrary.java:557-563 | the first loop collects the kept lines, trimmed |
| Libraries.Library.AddDecoded | src/ExceptionalLibrary.java:564-572 | the books before the first malformed input are appended in order, and it reports a crash exactly when it met one |
| Libraries.Library.RunLoad | src/ExceptionalLibrary.java:548-587 | a wrong count or a missing file is reported and changes nothing; otherwise the entries of Load are appended as fresh available books numbered on from the id counter, which moves past them, the subscribers and old books are kept, and the outcome counts them and tells whether the load crashed |
| Libraries.Library.LoadContent | src/ExceptionalLibrary.java:548-587 | both loops append what loading the content yields |
| Libraries.Library.RunCheckout | src/ExceptionalLibrary.java:396-403 | a bad book id or an unknown book is reported and changes nothing; otherwise the logged-in subscriber checks the book out with checkoutBook's verdict and nothing else changes |
| Libraries.Library.RunReturn | src/ExceptionalLibrary.java:413-421 | a bad book id or an unknown book is reported and changes nothing; otherwise the logged-in subscriber returns the book, successfully exactly when it holds it, and nothing else changes |
| Libraries.Library.RunFind | src/ExceptionalLibrary.java:457-489 | a wrong count is reported; otherwise the matching books |
| Libraries.Library.RunUpdateAddress | src/ExceptionalLibrary.java:500-506 | a wrong count keeps the address; otherwise it becomes token 1; nothing else changes |
| Libraries.Library.RunUpdatePhone | src/ExceptionalLibrary.java:433-444 | a wrong count or a number that is not a long keeps the phone number; otherwise it becomes token 1; nothing else changes |
| Libraries.Library.LibrarianLogin | src/ExceptionalLibrary.java:600-608 | logged in exactly with two tokens and the exact password; a wrong password and a wrong count are told apart |
| Libraries.Library.SubscriberLogin | src/ExceptionalLibrary.java:620-631 | logged in exactly when the card matches a subscriber and the PIN, parsed afterwards, is theirs |
| Libraries.Library.MatchingLoginEnters | src/ExceptionalLibrary.java:620-631 | a card and PIN that both match a subscriber log that subscriber in, since card bar codes are distinct |
| Libraries.Library.LibrarianStep | src/ExceptionalLibrary.java:685-777 | a librarian line has exactly the effect of the handler its command selects: the book list, load (its entries appended), save (only the named file written), logout only on "9", the syntax error, or an edit; only load can crash, and nothing else changes |
| Libraries.Library.EditStep | src/ExceptionalLibrary.java:696-751 | the librarian commands on books and subscribers: exactly the effect of the selected handler, and an outcome that never steers the menu |
| Libraries.Library.LoanStep | src/ExceptionalLibrary.java:714-727 | the librarian's checkout or return for a subscriber: exactly the effect of its handler, and an outcome that never steers the menu |
| Libraries.Library.RecordStep | src/ExceptionalLibrary.java:696-751 | adding a book or a subscriber, displaying a subscriber or removing a book: exactly the effect of its handler, and an outcome that never steers the menu |
| Libraries.Library.SubscriberStep | src/ExceptionalLibrary.java:786-855 | a subscriber line has exactly the effect of the handler its command selects: checkout, return, the searches, the two lists, the address and phone updates; logout only on "9"; an unknown line does nothing |
| Libraries.Library.SubscriberEditStep | src/ExceptionalLibrary.java:797-844 | checkout, return and the two updates: exactly the effect of the selected handler, never a logout or no-action outcome |
| Libraries.Library.Step | src/ExceptionalLibrary.java:639-676 | one line moves the console between menus as Transition says: the main menu exits only on "3"; the librarian logs in exactly with the password; a subscriber login gives the login's answer, entering that subscriber's space exactly when it succeeds; a librarian or subscriber space returns only on "9"; only a load crash aborts; a line of the main menu or of a subscriber's space keeps both lists and every file |
| Libraries.Library.Run | src/ExceptionalLibrary.java:639-676 | lines are handled until exit, crash or end of input, one outcome per line; every line moved the console from one mode of the trace to the next; no earlier outcome is an exit or a crash; a finished session ended on "3" and an aborted one on a load |
| Libraries.Library.TraceGrows | src/ExceptionalLibrary.java:645-675 | a line handled in the trace's last mode extends it by one transition |
| Libraries.Library.EarlierLinesGoOn | src/ExceptionalLibrary.java:645-676 | in a trace, every line but the last was neither an exit nor a crashed load |
| Libraries.Library.LastLineEnds | src/ExceptionalLibrary.java:645-676 | an ended session read a line, and its last line was "3" in the main menu or a crashed load in the librarian's space |
| Libraries.Library.StepEnds | src/ExceptionalLibrary.java:645-676 | a line ends the session exactly when its outcome is an exit or a crashed load; an exit is "3" in the main menu and a crash a load in the librarian's space |
| Libraries.Application | src/ExceptionalLibrary.java:935-943 | the Madison library with librarian "april" and password "abc" runs the console session, with Run's guarantees, and stays valid |

## Left out

- Console output: every printed message, the menus, `displayBooks`, `displayPersonalInfo` and the goodbye message. A message is an `Outcome` value; a displayed list is a `BookList`; personal information is the `PersonalInfo` subscriber.
- The text of each `ParseException` message and of `getSyntaxErrorMsg`. A `ParseError` keeps the failed check and the offset.
- `Scanner` and standard input. The console input is a finite sequence of lines. When it runs out, `Run` stops; the source would throw `NoSuchElementException`.
- `main`'s goodbye message and closing the scanner.
- File handles in save and load:
  - `PrintWriter`, `BufferedReader`, closing in `finally`;
  - the file-creation error on save (saving always succeeds on the map of files);
  - the `IOException` handler on load.
  - A missing file on load is kept, as `FileMissing`.
- `println` writes "\n" as the line separator; reading accepts "\n", "\r" and "\r\n".
- Unicode: `trim`, `toUpperCase`, `equalsIgnoreCase` and digit recognition in `parseInt`/`parseLong` are modelled on ASCII only.
- Getters (`getID`, `getTitle`, `getUsername`, `getPin`, ...) are field reads. `Librarian` is an immutable datatype, so no operation can change its username or password.
- The nested calls between the loops (login runs the librarian or subscriber loop inside the main loop) are flattened into `Mode`. The console reads the same lines in the same order either way.
- Libraries.Library.RunCheckoutFor: the source prints "book not found" before it parses the card bar code; so does the return command. The model reports a missing book and a missing subscriber together, after both arguments have parsed. So when the book is missing and the card bar code is malformed, the model only reports the `ParseError`.
- Libraries.Library.AddBook: Java's `int` overflow of the book id counter after 2^31 books is not modelled. Ids are unbounded.
- The exception class names are not kept: `InstantiationException` is `CardsExhausted` and the uncaught `ArrayIndexOutOfBoundsException` is `LoadCrashed`.
- Libraries.Library.Step: states the menu transition, the subscriber login's answer and, for the main menu and a subscriber's space, that both lists and every file are kept. The effect of a line on the books, the subscribers and the files is stated by LibrarianStep and SubscriberStep, which Step calls, and is not repeated here.
- Libraries.Library.Run: for each line it states the mode the line was read in and the mode it leads to. For a line of the librarian's or a subscriber's space, the outcome is constrained only where it steers the menu: logout, syntax error or no action, and a crashed load. For a subscriber login in the main menu, it only states that the console enters that subscriber's space on a matching card and PIN. It does not say that a matching card and PIN always get in, nor what each line does to the books and subscribers. Both depend on the state when the line is read, and a postcondition cannot name the states between lines. For a single line, Step states the login's answer, and LibrarianStep and SubscriberStep state the effects.
- Libraries.Application: it runs Run on the Madison library, so it has the same gaps as Run: outcomes are constrained only where they steer the menu, a subscriber login is stated one way only, and the effect of each line on the books and subscribers is not stated.
