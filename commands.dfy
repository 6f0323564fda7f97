/**
 * Command lines of the library's console: the argument validators of ExceptionalLibrary that
 * throw ParseException, the argument checks each command performs before it touches the library,
 * and the dispatch of a tokenised line to a command in each of the three menus.
 */
module Commands {
  import opened Wrappers
  import opened Text
  import Subscribers

  /** Which check threw; each one carries its own message in the source. */
  datatype Reason =
    | ArgumentCount     // the line has the wrong number of tokens
    | PinNotNumber      // Integer.parseInt refused the PIN (reported as "phone number MUST be a NUMBER")
    | PinOutOfRange     // the PIN parsed but is not in [1000, 9999]
    | CardNotInteger    // Integer.parseInt refused the card bar code
    | CardOutOfRange    // the card bar code parsed but fails checkCardBarCode
    | BookIdNotNumber   // Integer.parseInt refused the book id
    | PhoneNotNumber    // Long.parseLong refused the phone number

  /** A ParseException: the failed check and the error offset (the index of the bad token). */
  datatype ParseError = ParseError(reason: Reason, offset: nat)

  /** checkCommandArgumentsCount: the line must have exactly count tokens, else offset 0. */
  function CheckCommandArgumentsCount(tokens: seq<string>, count: nat): (r: Option<ParseError>)
    ensures r == None <==> |tokens| == count
    ensures r != None ==> r.value.offset == 0
  {
    if |tokens| != count then Some(ParseError(ArgumentCount, 0)) else None
  }

  /** parsePinCode: a Java int between 1000 and 9999. */
  function ParsePinCode(s: string, offset: nat): (r: Result<int, ParseError>)
    ensures r.Success? <==> ParseInt(s).Some? && 1000 <= ParseInt(s).value <= 9999
    ensures r.Success? ==> r.value == ParseInt(s).value
    ensures r.Failure? ==> r.error == ParseError(if ParseInt(s).None? then PinNotNumber else PinOutOfRange, offset)
  {
    match ParseInt(s)
    case None => Failure(ParseError(PinNotNumber, offset))
    case Some(pin) => if 1000 <= pin <= 9999 then Success(pin) else Failure(ParseError(PinOutOfRange, offset))
  }

  /** parseCardBarCode: a Java int that passes Subscriber.checkCardBarCode. */
  function ParseCardBarCode(s: string, offset: nat): (r: Result<int, ParseError>)
    ensures r.Success? <==> ParseInt(s).Some? && Subscribers.CheckCardBarCode(ParseInt(s).value)
    ensures r.Success? ==> r.value == ParseInt(s).value
    ensures r.Failure? ==> r.error == ParseError(if ParseInt(s).None? then CardNotInteger else CardOutOfRange, offset)
  {
    match ParseInt(s)
    case None => Failure(ParseError(CardNotInteger, offset))
    case Some(code) =>
      if Subscribers.CheckCardBarCode(code) then Success(code) else Failure(ParseError(CardOutOfRange, offset))
  }

  /** parseBookId: any Java int. */
  function ParseBookId(s: string, offset: nat): (r: Result<int, ParseError>)
    ensures r.Success? ==> ParseInt(s) == Some(r.value)
    ensures r.Failure? ==> ParseInt(s) == None && r.error == ParseError(BookIdNotNumber, offset)
  {
    match ParseInt(s)
    case None => Failure(ParseError(BookIdNotNumber, offset))
    case Some(id) => Success(id)
  }

  /** parsePhoneNumber: a Java long; the value itself is thrown away. */
  function ParsePhoneNumber(s: string, offset: nat): (r: Option<ParseError>)
    ensures r == None <==> ParseLong(s).Some?
    ensures r != None ==> r.value == ParseError(PhoneNotNumber, offset)
  {
    if ParseLong(s).Some? then None else Some(ParseError(PhoneNotNumber, offset))
  }

  /**
   * The decimal spelling of a number is an accepted PIN exactly when the number is in
   * [1000, 9999]; a number beyond the int range is reported as "not a number".
   */
  lemma PinCodeOfDecimal(n: int, offset: nat)
    ensures ParsePinCode(Decimal(n), offset) ==
      if 1000 <= n <= 9999 then Success(n)
      else if INT_MIN <= n <= INT_MAX then Failure(ParseError(PinOutOfRange, offset))
      else Failure(ParseError(PinNotNumber, offset))
  {
    ParseDecimalOfDecimal(n, INT_MIN, INT_MAX);
  }

  /** The decimal spelling of a number is an accepted card bar code exactly when it passes the check. */
  lemma CardBarCodeOfDecimal(n: int, offset: nat)
    ensures ParseCardBarCode(Decimal(n), offset).Success? <==> Subscribers.CheckCardBarCode(n)
    ensures ParseCardBarCode(Decimal(n), offset).Success? ==> ParseCardBarCode(Decimal(n), offset).value == n
  {
    ParseDecimalOfDecimal(n, INT_MIN, INT_MAX);
  }

  /** Every Java int written in decimal is accepted as a book id, and no larger number is. */
  lemma BookIdOfDecimal(n: int, offset: nat)
    ensures ParseBookId(Decimal(n), offset) ==
      if INT_MIN <= n <= INT_MAX then Success(n) else Failure(ParseError(BookIdNotNumber, offset))
  {
    ParseDecimalOfDecimal(n, INT_MIN, INT_MAX);
  }

  /** Every Java long written in decimal is accepted as a phone number, and no larger number is. */
  lemma PhoneNumberOfDecimal(n: int, offset: nat)
    ensures ParsePhoneNumber(Decimal(n), offset) == None <==> LONG_MIN <= n <= LONG_MAX
  {
    ParseDecimalOfDecimal(n, LONG_MIN, LONG_MAX);
  }

  /** The arguments of "2 <name> <pin> <address> <phone number>": five tokens, a valid PIN. */
  function AddSubscriberArgs(tokens: seq<string>): (r: Result<int, ParseError>)
    ensures r.Success? <==> |tokens| == 5 && ParsePinCode(tokens[2], 2).Success?
    ensures r.Success? ==> r.value == ParsePinCode(tokens[2], 2).value
    ensures |tokens| != 5 ==> r == Failure(ParseError(ArgumentCount, 0))
    ensures r.Failure? ==> r.error.offset == (if |tokens| == 5 then 2 else 0)
  {
    if |tokens| != 5 then Failure(CheckCommandArgumentsCount(tokens, 5).value)
    else ParsePinCode(tokens[2], 2)
  }

  /**
   * The arguments of the librarian's "3 <card bar code> <book ID>": three tokens; the book id
   * (offset 2) is parsed before the card bar code (offset 1), so when both are bad the book id
   * is the one reported.
   */
  function CheckoutForArgs(tokens: seq<string>): (r: Result<(int, int), ParseError>)
    ensures r.Success? <==>
      |tokens| == 3 && ParseBookId(tokens[2], 2).Success? && ParseCardBarCode(tokens[1], 1).Success?
    ensures r.Success? ==> r.value == (ParseBookId(tokens[2], 2).value, ParseCardBarCode(tokens[1], 1).value)
    ensures |tokens| != 3 ==> r == Failure(ParseError(ArgumentCount, 0))
    ensures r.Failure? && |tokens| == 3 ==>
      r.error == (if ParseBookId(tokens[2], 2).Failure? then ParseBookId(tokens[2], 2).error
                  else ParseCardBarCode(tokens[1], 1).error)
  {
    if |tokens| != 3 then Failure(CheckCommandArgumentsCount(tokens, 3).value)
    else
      match ParseBookId(tokens[2], 2)
      case Failure(e) => Failure(e)
      case Success(bookId) =>
        match ParseCardBarCode(tokens[1], 1)
        case Failure(e) => Failure(e)
        case Success(code) => Success((bookId, code))
  }

  /**
   * The arguments of the librarian's "4 <card bar code> <book ID>": three tokens, both parsed
   * with parseBookId, so a card bar code outside the card range is not refused here; it merely
   * matches no subscriber.
   */
  function ReturnForArgs(tokens: seq<string>): (r: Result<(int, int), ParseError>)
    ensures r.Success? <==>
      |tokens| == 3 && ParseBookId(tokens[2], 2).Success? && ParseBookId(tokens[1], 1).Success?
    ensures r.Success? ==> r.value == (ParseBookId(tokens[2], 2).value, ParseBookId(tokens[1], 1).value)
    ensures |tokens| != 3 ==> r == Failure(ParseError(ArgumentCount, 0))
    ensures r.Failure? && |tokens| == 3 ==>
      r.error == (if ParseBookId(tokens[2], 2).Failure? then ParseBookId(tokens[2], 2).error
                  else ParseBookId(tokens[1], 1).error)
  {
    if |tokens| != 3 then Failure(CheckCommandArgumentsCount(tokens, 3).value)
    else
      match ParseBookId(tokens[2], 2)
      case Failure(e) => Failure(e)
      case Success(bookId) =>
        match ParseBookId(tokens[1], 1)
        case Failure(e) => Failure(e)
        case Success(code) => Success((bookId, code))
  }

  /** "<command> <card bar code>": two tokens and a valid card bar code. */
  function CardArg(tokens: seq<string>): (r: Result<int, ParseError>)
    ensures r.Success? <==> |tokens| == 2 && ParseCardBarCode(tokens[1], 1).Success?
    ensures r.Success? ==> r.value == ParseCardBarCode(tokens[1], 1).value
    ensures |tokens| != 2 ==> r == Failure(ParseError(ArgumentCount, 0))
    ensures r.Failure? ==> r.error.offset == (if |tokens| == 2 then 1 else 0)
  {
    if |tokens| != 2 then Failure(CheckCommandArgumentsCount(tokens, 2).value)
    else ParseCardBarCode(tokens[1], 1)
  }

  /** "<command> <book ID>": two tokens and a book id that is an int. */
  function BookIdArg(tokens: seq<string>): (r: Result<int, ParseError>)
    ensures r.Success? <==> |tokens| == 2 && ParseBookId(tokens[1], 1).Success?
    ensures r.Success? ==> r.value == ParseBookId(tokens[1], 1).value
    ensures |tokens| != 2 ==> r == Failure(ParseError(ArgumentCount, 0))
    ensures r.Failure? ==> r.error.offset == (if |tokens| == 2 then 1 else 0)
  {
    if |tokens| != 2 then Failure(CheckCommandArgumentsCount(tokens, 2).value)
    else ParseBookId(tokens[1], 1)
  }

  /** The test scenario of the checkout command: with both arguments bad, offset 2 is reported. */
  lemma CheckoutForReportsBookIdFirst(command: string)
    ensures CheckoutForArgs([command, "butt", "dead"]) == Failure(ParseError(BookIdNotNumber, 2))
  {
    assert ParseInt("dead") == None by {
      assert !IsDigit('d');
    }
  }

  /** A PIN may be written with a '+' or a leading zero, as parseInt reads it. */
  lemma PinCodeSpellings()
    ensures ParsePinCode("+1000", 2) == Success(1000)
    ensures ParsePinCode("01000", 2) == Success(1000)
  {
    ParseIntScenarios();
  }

  /** Four characters do not make a PIN: a leading zero leaves "0999" below 1000. */
  lemma PinCodeLeadingZeroCounts()
    ensures ParsePinCode("0999", 2) == Failure(ParseError(PinOutOfRange, 2))
  {
    assert DigitsValue("0999") == 999 by {
      assert "0999"[..3] == "099" && "099"[..2] == "09" && "09"[..1] == "0";
    }
  }

  /** The test scenario of parseCardBarCode: "Head" is not an integer. */
  lemma HeadIsNotACardBarCode()
    ensures ParseCardBarCode("Head", 1) == Failure(ParseError(CardNotInteger, 1))
  {
    assert !IsDigit('H');
  }

  /** The commands of the main menu. */
  datatype MainCommand = LibrarianLogin | SubscriberLogin | Exit | MainSyntaxError

  /** The commands of the librarian's space. */
  datatype LibrarianCommand =
    | AddBookCmd | AddSubscriberCmd | CheckoutForCmd | ReturnForCmd | SubscriberInfoCmd
    | SubscriberBooksCmd | AllBooksCmd | RemoveBookCmd | LoadCmd | SaveCmd | LibrarianLogout
    | LibrarianSyntaxError

  /** The commands of the subscriber's space. */
  datatype SubscriberCommand =
    | CheckoutCmd | ReturnCmd | FindByAuthorCmd | FindByTitleCmd | CheckedOutCmd | HistoryCmd
    | UpdateAddressCmd | UpdatePhoneCmd | SubscriberLogout | NoCommand

  /** The main loop leaves only on the line "3" alone; any other first token is a syntax error. */
  function ClassifyMain(tokens: seq<string>): (c: MainCommand)
    requires |tokens| >= 1
    ensures c == Exit <==> tokens == ["3"]
    ensures c == LibrarianLogin <==> tokens[0] == "1"
    ensures c == SubscriberLogin <==> tokens[0] == "2"
  {
    if tokens[0] == "3" && |tokens| == 1 then Exit
    else if tokens[0] == "1" then LibrarianLogin
    else if tokens[0] == "2" then SubscriberLogin
    else MainSyntaxError
  }

  /**
   * The librarian's loop compares the upper-cased first token, so "l" and "s" also load and save;
   * it logs out only on the line "9" alone, and "9" followed by arguments is a syntax error.
   */
  function ClassifyLibrarian(tokens: seq<string>): (c: LibrarianCommand)
    requires |tokens| >= 1
    ensures c == LibrarianLogout <==> tokens == ["9"]
    ensures c == LoadCmd <==> ToUpper(tokens[0]) == "L"
    ensures c == SaveCmd <==> ToUpper(tokens[0]) == "S"
  {
    var key := ToUpper(tokens[0]);
    UpperIsNine(tokens[0]);
    if key == "9" && |tokens| == 1 then LibrarianLogout
    else if key == "1" then AddBookCmd
    else if key == "2" then AddSubscriberCmd
    else if key == "3" then CheckoutForCmd
    else if key == "4" then ReturnForCmd
    else if key == "5" then SubscriberInfoCmd
    else if key == "6" then SubscriberBooksCmd
    else if key == "7" then AllBooksCmd
    else if key == "8" then RemoveBookCmd
    else if key == "L" then LoadCmd
    else if key == "S" then SaveCmd
    else LibrarianSyntaxError
  }

  /**
   * The subscriber's loop: "3" runs the search by AUTHOR and "4" the search by TITLE, the other
   * way round from the menu it displays; an unknown command has no default case and does nothing.
   */
  function ClassifySubscriber(tokens: seq<string>): (c: SubscriberCommand)
    requires |tokens| >= 1
    ensures c == SubscriberLogout <==> tokens == ["9"]
    ensures c == FindByAuthorCmd <==> tokens[0] == "3"
    ensures c == FindByTitleCmd <==> tokens[0] == "4"
  {
    UpperIsNine(tokens[0]);
    if ToUpper(tokens[0]) == "9" && |tokens| == 1 then SubscriberLogout
    else if tokens[0] == "1" then CheckoutCmd
    else if tokens[0] == "2" then ReturnCmd
    else if tokens[0] == "3" then FindByAuthorCmd
    else if tokens[0] == "4" then FindByTitleCmd
    else if tokens[0] == "5" then CheckedOutCmd
    else if tokens[0] == "6" then HistoryCmd
    else if tokens[0] == "7" then UpdateAddressCmd
    else if tokens[0] == "8" then UpdatePhoneCmd
    else NoCommand
  }

  /** Upper-casing the first token does not change the librarian command it selects. */
  lemma {:induction false} LibrarianCommandIgnoresCase(tokens: seq<string>)
    requires |tokens| >= 1
    ensures ClassifyLibrarian([ToUpper(tokens[0])] + tokens[1..]) == ClassifyLibrarian(tokens)
  {
    var t := [ToUpper(tokens[0])] + tokens[1..];
    assert ToUpper(t[0]) == ToUpper(tokens[0]) by {
      ToUpperIdempotent(tokens[0]);
    }
  }
}
