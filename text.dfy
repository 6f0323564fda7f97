/**
 * The parts of java.lang.String, Integer and Long that the library's command reader relies on:
 * trim, split on a one-character separator, equalsIgnoreCase, toUpperCase, parseInt and parseLong.
 * Case conversion and digit recognition are modelled on ASCII only.
 */
module Text {
  import opened Wrappers

  // ---------------------------------------------------------------- trim

  /** String.trim() removes every leading and trailing character whose code is at most U+0020. */
  predicate IsTrimmable(c: char) {
    c <= ' '
  }

  /** A string that String.trim() leaves as it is. */
  predicate IsTrimmed(s: string) {
    s == [] || (!IsTrimmable(s[0]) && !IsTrimmable(s[|s| - 1]))
  }

  /** The index of the first character at or after i that trim() keeps, |s| when there is none. */
  function KeptFrom(s: string, i: nat): (k: nat)
    requires i <= |s|
    ensures i <= k <= |s|
    ensures forall j :: i <= j < k ==> IsTrimmable(s[j])
    ensures k < |s| ==> !IsTrimmable(s[k])
    decreases |s| - i
  {
    if i < |s| && IsTrimmable(s[i]) then KeptFrom(s, i + 1) else i
  }

  /** One past the last character before j, and not before lo, that trim() keeps; lo when there is none. */
  function KeptUntil(s: string, lo: nat, j: nat): (k: nat)
    requires lo <= j <= |s|
    ensures lo <= k <= j
    ensures forall m :: k <= m < j ==> IsTrimmable(s[m])
    ensures k > lo ==> !IsTrimmable(s[k - 1])
  {
    if j > lo && IsTrimmable(s[j - 1]) then KeptUntil(s, lo, j - 1) else j
  }

  /** String.trim(): the longest infix of s that neither starts nor ends with a trimmable character. */
  function Trim(s: string): (r: string)
    ensures IsTrimmed(r)
    ensures var k := KeptFrom(s, 0);
              k + |r| <= |s| && r == s[k..k + |r|]
              && (forall i :: 0 <= i < k ==> IsTrimmable(s[i]))
              && (forall i :: k + |r| <= i < |s| ==> IsTrimmable(s[i]))
  {
    var lo := KeptFrom(s, 0);
    s[lo..KeptUntil(s, lo, |s|)]
  }

  /** trim() changes a string exactly when the string starts or ends with a trimmable character. */
  lemma TrimFixedPoints(s: string)
    ensures Trim(s) == s <==> IsTrimmed(s)
  {
    if IsTrimmed(s) && s != [] {
      assert KeptFrom(s, 0) == 0;
      assert KeptUntil(s, 0, |s|) == |s|;
      assert s[0..|s|] == s;
    }
  }

  /** trim() is idempotent. */
  lemma TrimIdempotent(s: string)
    ensures Trim(Trim(s)) == Trim(s)
  {
    TrimFixedPoints(Trim(s));
  }

  // ---------------------------------------------------------------- split

  /** The pieces of s between occurrences of sep, empty pieces included. */
  function Pieces(s: string, sep: char): (r: seq<string>)
    ensures |r| >= 1
    ensures forall i :: 0 <= i < |r| ==> sep !in r[i]
  {
    if s == [] then [[]]
    else
      var rest := Pieces(s[1..], sep);
      if s[0] == sep then [[]] + rest else [[s[0]] + rest[0]] + rest[1..]
  }

  /** The parts with sep between consecutive ones. */
  function Join(parts: seq<string>, sep: char): string {
    if parts == [] then []
    else if |parts| == 1 then parts[0]
    else parts[0] + [sep] + Join(parts[1..], sep)
  }

  /** Joining the pieces of s gives s back. */
  lemma {:induction false} JoinPieces(s: string, sep: char)
    ensures Join(Pieces(s, sep), sep) == s
  {
    if s != [] {
      var rest := Pieces(s[1..], sep);
      JoinPieces(s[1..], sep);
      if s[0] != sep && |rest| > 1 {
        assert ([s[0]] + rest[0]) + [sep] + Join(rest[1..], sep)
            == [s[0]] + (rest[0] + [sep] + Join(rest[1..], sep));
      }
    }
  }

  lemma {:induction false} PiecesWithoutSeparator(a: string, sep: char)
    requires sep !in a
    ensures Pieces(a, sep) == [a]
  {
    if a != [] {
      PiecesWithoutSeparator(a[1..], sep);
      assert [a[0]] + a[1..] == a;
    }
  }

  lemma {:induction false} PiecesAfterFirstSeparator(a: string, b: string, sep: char)
    requires sep !in a
    ensures Pieces(a + [sep] + b, sep) == [a] + Pieces(b, sep)
  {
    if a == [] {
      assert ([sep] + b)[1..] == b;
    } else {
      assert (a + [sep] + b)[1..] == a[1..] + [sep] + b;
      PiecesAfterFirstSeparator(a[1..], b, sep);
      assert (a + [sep] + b)[0] == a[0] != sep;
      assert [a[0]] + a[1..] == a;
    }
  }

  /** Cutting the join of separator-free parts at sep gives the parts back. */
  lemma {:induction false} PiecesJoin(parts: seq<string>, sep: char)
    requires |parts| >= 1
    requires forall i :: 0 <= i < |parts| ==> sep !in parts[i]
    ensures Pieces(Join(parts, sep), sep) == parts
  {
    if |parts| == 1 {
      PiecesWithoutSeparator(parts[0], sep);
    } else {
      PiecesJoin(parts[1..], sep);
      PiecesAfterFirstSeparator(parts[0], Join(parts[1..], sep), sep);
    }
  }

  lemma {:induction false} LastPieceNonEmpty(s: string, sep: char)
    requires |s| > 0 && s[|s| - 1] != sep
    ensures Pieces(s, sep)[|Pieces(s, sep)| - 1] != []
  {
    if |s| > 1 {
      LastPieceNonEmpty(s[1..], sep);
    }
  }

  function DropTrailingEmpty(parts: seq<string>): (r: seq<string>)
    ensures |r| <= |parts| && r == parts[..|r|]
    ensures r == [] || r[|r| - 1] != []
    ensures forall i :: |r| <= i < |parts| ==> parts[i] == []
  {
    if |parts| > 0 && parts[|parts| - 1] == [] then DropTrailingEmpty(parts[..|parts| - 1]) else parts
  }

  /**
   * String.split(sep) for a one-character separator that is not a regex metacharacter:
   * a string without sep gives the one-element array [s]; otherwise the pieces, with the
   * trailing empty pieces removed.
   */
  function Split(s: string, sep: char): (r: seq<string>)
    ensures forall i :: 0 <= i < |r| ==> sep !in r[i]
    ensures sep !in s ==> r == [s]
    ensures sep in s ==> |r| <= |Pieces(s, sep)| && r == Pieces(s, sep)[..|r|]
    ensures sep in s ==> && (r == [] || r[|r| - 1] != [])
                         && forall i :: |r| <= i < |Pieces(s, sep)| ==> Pieces(s, sep)[i] == []
  {
    if sep !in s then [s] else DropTrailingEmpty(Pieces(s, sep))
  }

  /** The tokens of a command line, as line.trim().split(" ") yields them; there is always one. */
  function Tokenize(line: string): (tokens: seq<string>)
    ensures |tokens| >= 1
  {
    var t := Trim(line);
    SplitOfTrimmed(t);
    Split(t, ' ')
  }

  /** The tokens of a line are free of spaces, and joined by single spaces they give back the trimmed line. */
  lemma TokensRebuildLine(line: string)
    ensures forall i :: 0 <= i < |Tokenize(line)| ==> ' ' !in Tokenize(line)[i]
    ensures Join(Tokenize(line), ' ') == Trim(line)
  {
    SplitOfTrimmed(Trim(line));
  }

  /** Splitting a string that does not end with the separator drops no piece. */
  lemma SplitKeepsAllPieces(s: string, sep: char)
    requires sep in s && s[|s| - 1] != sep
    ensures Split(s, sep) == Pieces(s, sep)
  {
    LastPieceNonEmpty(s, sep);
  }

  /** A trimmed string split at spaces has at least one token, and joining them gives it back. */
  lemma SplitOfTrimmed(t: string)
    requires IsTrimmed(t)
    ensures |Split(t, ' ')| >= 1 && Join(Split(t, ' '), ' ') == t
  {
    if ' ' in t {
      SplitKeepsAllPieces(t, ' ');
      JoinPieces(t, ' ');
    }
  }

  // ---------------------------------------------------------------- case

  function AsciiUpper(c: char): char {
    if 'a' <= c <= 'z' then (c as int - 32) as char else c
  }

  function AsciiLower(c: char): char {
    if 'A' <= c <= 'Z' then (c as int + 32) as char else c
  }

  /** String.toUpperCase() on ASCII text. */
  function ToUpper(s: string): (r: string)
    ensures |r| == |s| && forall i :: 0 <= i < |s| ==> r[i] == AsciiUpper(s[i])
  {
    if s == [] then [] else [AsciiUpper(s[0])] + ToUpper(s[1..])
  }

  /** Upper-casing twice is upper-casing once. */
  lemma ToUpperIdempotent(s: string)
    ensures ToUpper(ToUpper(s)) == ToUpper(s)
  {
  }

  /** Lower-case folding, the reference against which equalsIgnoreCase is checked. */
  function ToLower(s: string): (r: string)
    ensures |r| == |s| && forall i :: 0 <= i < |s| ==> r[i] == AsciiLower(s[i])
  {
    if s == [] then [] else [AsciiLower(s[0])] + ToLower(s[1..])
  }

  /** String.regionMatches(true, ...) compares two characters this way. */
  predicate CharsMatchIgnoringCase(x: char, y: char) {
    x == y || AsciiUpper(x) == AsciiUpper(y) || AsciiLower(AsciiUpper(x)) == AsciiLower(AsciiUpper(y))
  }

  /** String.equalsIgnoreCase: same length and pairwise matching characters. */
  predicate EqualsIgnoreCase(a: string, b: string) {
    |a| == |b| && forall i :: 0 <= i < |a| ==> CharsMatchIgnoringCase(a[i], b[i])
  }

  lemma CharsMatchIffSameLower(x: char, y: char)
    ensures CharsMatchIgnoringCase(x, y) <==> AsciiLower(x) == AsciiLower(y)
  {
  }

  /** equalsIgnoreCase holds exactly when both strings fold to the same lower-case string. */
  lemma EqualsIgnoreCaseIffSameLower(a: string, b: string)
    ensures EqualsIgnoreCase(a, b) <==> ToLower(a) == ToLower(b)
  {
    if |a| == |b| {
      forall i | 0 <= i < |a| ensures CharsMatchIgnoringCase(a[i], b[i]) <==> ToLower(a)[i] == ToLower(b)[i] {
        CharsMatchIffSameLower(a[i], b[i]);
      }
      if EqualsIgnoreCase(a, b) {
        assert ToLower(a) == ToLower(b);
      }
    } else {
      assert |ToLower(a)| != |ToLower(b)|;
    }
  }

  /** Only "9" itself upper-cases to "9": the loops' exit test is not affected by case. */
  lemma UpperIsNine(t: string)
    ensures ToUpper(t) == "9" <==> t == "9"
  {
    if ToUpper(t) == "9" {
      assert |t| == 1 && AsciiUpper(t[0]) == '9';
    }
  }

  // ---------------------------------------------------------------- numbers

  const INT_MIN: int := -0x8000_0000
  const INT_MAX: int := 0x7FFF_FFFF
  const LONG_MIN: int := -0x8000_0000_0000_0000
  const LONG_MAX: int := 0x7FFF_FFFF_FFFF_FFFF

  predicate IsDigit(c: char) {
    '0' <= c <= '9'
  }

  predicate AllDigits(s: string) {
    forall i :: 0 <= i < |s| ==> IsDigit(s[i])
  }

  function DigitValue(c: char): nat
    requires IsDigit(c)
  {
    c as int - '0' as int
  }

  /** The value of a string of decimal digits, most significant first. */
  function DigitsValue(s: string): nat
    requires AllDigits(s)
  {
    if s == [] then 0 else DigitsValue(s[..|s| - 1]) * 10 + DigitValue(s[|s| - 1])
  }

  /** A numeral: one or more decimal digits, or a sign '-' or '+' followed by one or more digits. */
  predicate IsNumeral(s: string) {
    || (|s| >= 1 && AllDigits(s))
    || (|s| >= 2 && (s[0] == '-' || s[0] == '+') && AllDigits(s[1..]))
  }

  /** The value a numeral denotes; leading zeros do not matter. */
  function NumeralValue(s: string): int
    requires IsNumeral(s)
  {
    if AllDigits(s) then DigitsValue(s)
    else if s[0] == '-' then -(DigitsValue(s[1..]) as int)
    else DigitsValue(s[1..])
  }

  /**
   * Integer.parseInt (lo, hi = INT_MIN, INT_MAX) and Long.parseLong (LONG_MIN, LONG_MAX): a
   * numeral whose value lies in [lo, hi] is accepted with that value; anything else is a
   * NumberFormatException, here None.
   */
  function ParseDecimal(s: string, lo: int, hi: int): (r: Option<int>)
    ensures r.Some? <==> IsNumeral(s) && lo <= NumeralValue(s) <= hi
    ensures r.Some? ==> r.value == NumeralValue(s)
  {
    var signed := |s| > 0 && (s[0] == '-' || s[0] == '+');
    var digits := if signed then s[1..] else s;
    if digits == [] || !AllDigits(digits) then None
    else
      var v: int := if signed && s[0] == '-' then -(DigitsValue(digits) as int) else DigitsValue(digits);
      if lo <= v <= hi then Some(v) else None
  }

  /** Integer.parseInt: a numeral whose value fits a Java int. */
  function ParseInt(s: string): (r: Option<int>)
    ensures r.Some? <==> IsNumeral(s) && INT_MIN <= NumeralValue(s) <= INT_MAX
    ensures r.Some? ==> r.value == NumeralValue(s)
  {
    ParseDecimal(s, INT_MIN, INT_MAX)
  }

  /** Long.parseLong: a numeral whose value fits a Java long. */
  function ParseLong(s: string): (r: Option<int>)
    ensures r.Some? <==> IsNumeral(s) && LONG_MIN <= NumeralValue(s) <= LONG_MAX
    ensures r.Some? ==> r.value == NumeralValue(s)
  {
    ParseDecimal(s, LONG_MIN, LONG_MAX)
  }

  function DigitChar(d: nat): (c: char)
    requires d < 10
    ensures IsDigit(c) && DigitValue(c) == d
  {
    ('0' as int + d) as char
  }

  /** The shortest decimal digits of n. */
  function DigitsOf(n: nat): (s: string)
    ensures |s| >= 1 && AllDigits(s) && DigitsValue(s) == n
  {
    if n < 10 then [DigitChar(n)]
    else
      var front := DigitsOf(n / 10);
      var s := front + [DigitChar(n % 10)];
      assert s[..|s| - 1] == front;
      s
  }

  /** Integer.toString: the decimal form of n, with a leading '-' when n is negative. */
  function Decimal(n: int): string {
    if n < 0 then "-" + DigitsOf(-n) else DigitsOf(n)
  }

  /** The decimal form of n parses back to n exactly when n lies in range. */
  lemma ParseDecimalOfDecimal(n: int, lo: int, hi: int)
    ensures ParseDecimal(Decimal(n), lo, hi) == if lo <= n <= hi then Some(n) else None
  {
    var s := Decimal(n);
    if n < 0 {
      assert s[0] == '-' && s[1..] == DigitsOf(-n);
    } else {
      assert IsDigit(s[0]);
    }
  }

  /**
   * parseInt takes a leading '+' and leading zeros, and refuses a letter between digits and an
   * empty string.
   */
  lemma ParseIntScenarios()
    ensures ParseInt("+1000") == Some(1000)
    ensures ParseInt("01000") == Some(1000)
    ensures ParseInt("-0") == Some(0)
    ensures ParseInt("1x1") == None && ParseInt("") == None && ParseInt("-") == None
  {
    assert DigitsValue("1000") == 1000 by {
      assert "1000"[..3] == "100" && "100"[..2] == "10" && "10"[..1] == "1";
    }
    assert DigitsValue("01000") == 1000 by {
      assert "01000"[..4] == "0100" && "0100"[..3] == "010" && "010"[..2] == "01" && "01"[..1] == "0";
    }
    assert "+1000"[1..] == "1000";
    assert "-0"[1..] == "0";
    assert !IsDigit("1x1"[1]);
  }
}
