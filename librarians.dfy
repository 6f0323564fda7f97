/** The library's single librarian (src/Librarian.java). */
module Librarians {
  import opened Text

  /** A librarian: a username and a password, both fixed once the librarian exists. */
  datatype Librarian = Librarian(username: string, password: string) {

    /** Librarian.checkPassword: String.equals, an exact and case-sensitive comparison. */
    predicate CheckPassword(attempt: string) {
      password == attempt
    }
  }

  /**
   * The check is case-sensitive: the upper-case spelling of a password that has a lower-case
   * letter is refused, although equalsIgnoreCase would take it for the same string.
   */
  lemma {:induction false} PasswordCheckIsCaseSensitive(l: Librarian)
    requires ToUpper(l.password) != l.password
    ensures !l.CheckPassword(ToUpper(l.password))
    ensures EqualsIgnoreCase(ToUpper(l.password), l.password)
  {
    var u := ToUpper(l.password);
    forall i | 0 <= i < |u| ensures CharsMatchIgnoringCase(u[i], l.password[i]) {
      CharsMatchIffSameLower(u[i], l.password[i]);
    }
  }
}
