/**
 * The text file the librarian's "S" command writes and "L" command reads: one "title:author"
 * line per book. A file's content is a string; lines are cut the way BufferedReader.readLine cuts
 * them and written the way PrintWriter.println writes them (with "\n" as the line separator).
 */
module BookFile {
  import opened Wrappers
  import opened Text
  import Lists

  /** The title and author of one book, as stored in a line of the file. */
  datatype Entry = Entry(title: string, author: string)

  predicate IsLineBreak(c: char) {
    c == '\n' || c == '\r'
  }

  predicate NoLineBreak(s: string) {
    forall i :: 0 <= i < |s| ==> !IsLineBreak(s[i])
  }

  /** PrintWriter.println of each line in turn: every line, the last one included, ends with "\n". */
  function WriteLines(lines: seq<string>): (content: string)
    ensures content == [] <==> lines == []
    ensures lines != [] ==> content[|content| - 1] == '\n'
    ensures |content| >= |lines|
  {
    if lines == [] then [] else lines[0] + "\n" + WriteLines(lines[1..])
  }

  /** The position of the first line break in s, |s| when there is none. */
  function LineEnd(s: string): (k: nat)
    ensures k <= |s| && NoLineBreak(s[..k])
    ensures k < |s| ==> IsLineBreak(s[k])
  {
    if s == [] || IsLineBreak(s[0]) then 0
    else
      var k := 1 + LineEnd(s[1..]);
      assert s[..k] == [s[0]] + s[1..][..k - 1];
      k
  }

  /**
   * BufferedReader.readLine until it returns null: a line ends at "\n", "\r" or "\r\n", the
   * terminator is not part of the line, and a last line without terminator still counts.
   */
  function ReadLines(content: string): (lines: seq<string>)
    ensures forall i :: 0 <= i < |lines| ==> NoLineBreak(lines[i])
    decreases |content|
  {
    if content == [] then []
    else
      var k := LineEnd(content);
      if k == |content| then [content]
      else
        var next := if content[k] == '\r' && k + 1 < |content| && content[k + 1] == '\n' then k + 2 else k + 1;
        [content[..k]] + ReadLines(content[next..])
  }

  lemma {:induction false} LineEndOfLine(line: string, rest: string)
    requires NoLineBreak(line)
    ensures LineEnd(line + "\n" + rest) == |line|
  {
    if line != [] {
      assert (line + "\n" + rest)[1..] == line[1..] + "\n" + rest;
      LineEndOfLine(line[1..], rest);
    }
  }

  /** A line println wrote, followed by anything, reads back as that line first. */
  lemma ReadLineThenRest(line: string, rest: string)
    requires NoLineBreak(line)
    ensures ReadLines(line + "\n" + rest) == [line] + ReadLines(rest)
  {
    var content := line + "\n" + rest;
    LineEndOfLine(line, rest);
    var k := |line|;
    assert content[..k] == line;
    assert content[k] == '\n';
    assert content[k + 1..] == rest;
  }

  /** Reading back what println wrote gives the same lines, provided none holds a line break. */
  lemma {:induction false} ReadWrittenLines(lines: seq<string>)
    requires forall i :: 0 <= i < |lines| ==> NoLineBreak(lines[i])
    ensures ReadLines(WriteLines(lines)) == lines
  {
    if lines != [] {
      ReadLineThenRest(lines[0], WriteLines(lines[1..]));
      ReadWrittenLines(lines[1..]);
      assert lines == [lines[0]] + lines[1..];
    }
  }

  // ---------------------------------------------------------------- save

  /** The line the save command writes for one book. */
  function SaveLine(e: Entry): string {
    e.title + ":" + e.author
  }

  function SaveLines(entries: seq<Entry>): (lines: seq<string>)
    ensures |lines| == |entries|
    ensures forall i :: 0 <= i < |entries| ==> lines[i] == SaveLine(entries[i])
  {
    if entries == [] then [] else [SaveLine(entries[0])] + SaveLines(entries[1..])
  }

  // ---------------------------------------------------------------- load

  /** The load command skips the lines that are exactly "" or exactly ":", before trimming. */
  predicate KeptLine(line: string) {
    line != ":" && line != ""
  }

  /** The inputs the load command's first loop collects: the kept lines, trimmed, in order. */
  function LoadInputs(lines: seq<string>): (inputs: seq<string>)
    ensures |inputs| <= |lines|
    ensures forall i :: 0 <= i < |inputs| ==> IsTrimmed(inputs[i])
  {
    if lines == [] then []
    else (if KeptLine(lines[0]) then [Trim(lines[0])] else []) + LoadInputs(lines[1..])
  }

  /**
   * One input of the second loop: split at ':' and trim the first two parts. An input with fewer
   * than two parts makes the source index past the end of the array (None here); any parts after
   * the second are dropped.
   */
  function DecodeEntry(input: string): (r: Option<Entry>)
    ensures r.Some? <==> |Split(input, ':')| >= 2
    ensures r.Some? ==> ':' in input
    ensures r.Some? ==> && IsTrimmed(r.value.title) && IsTrimmed(r.value.author)
                        && ':' !in r.value.title && ':' !in r.value.author
  {
    var parts := Split(input, ':');
    if |parts| < 2 then None
    else
      var title, author := Trim(parts[0]), Trim(parts[1]);
      assert forall c :: c in title ==> c in parts[0];
      assert forall c :: c in author ==> c in parts[1];
      Some(Entry(title, author))
  }

  /**
   * What the second loop achieves: the entries it adds, in order, and whether it stopped on a
   * malformed input (an ArrayIndexOutOfBoundsException that no handler catches).
   */
  datatype Decoded = Decoded(entries: seq<Entry>, crashed: bool)

  /** Each input decoded on its own. */
  function DecodeEach(inputs: seq<string>): (decoded: seq<Option<Entry>>)
    ensures |decoded| == |inputs|
  {
    if inputs == [] then [] else [DecodeEntry(inputs[0])] + DecodeEach(inputs[1..])
  }

  /** The i-th decoded input is the i-th input decoded. */
  lemma {:induction false} DecodeEachAt(inputs: seq<string>)
    ensures forall i :: 0 <= i < |inputs| ==> DecodeEach(inputs)[i] == DecodeEntry(inputs[i])
  {
    if inputs != [] {
      DecodeEachAt(inputs[1..]);
    }
  }

  /**
   * The second loop adds decoded entries one at a time and stops at the first malformed one; it
   * crashed exactly when it did not get through all inputs.
   */
  function Added(decoded: seq<Option<Entry>>): (r: Decoded)
    ensures |r.entries| <= |decoded|
    ensures r.crashed <==> |r.entries| < |decoded|
  {
    if decoded == [] then Decoded([], false)
    else
      match decoded[0]
      case None => Decoded([], true)
      case Some(e) =>
        var rest := Added(decoded[1..]);
        Decoded([e] + rest.entries, rest.crashed)
  }

  /**
   * The entries added are the decoded inputs in order, up to the first malformed one, and a
   * crash happens on a malformed input.
   */
  lemma {:induction false} AddedIsPrefix(decoded: seq<Option<Entry>>)
    ensures forall i :: 0 <= i < |Added(decoded).entries| ==> decoded[i] == Some(Added(decoded).entries[i])
    ensures Added(decoded).crashed ==> decoded[|Added(decoded).entries|] == None
  {
    if decoded != [] && decoded[0].Some? {
      AddedIsPrefix(decoded[1..]);
    }
  }

  /** One more decoded input after a run that has not crashed: it is added, or it crashes the run. */
  lemma {:induction false} AddedSnoc(decoded: seq<Option<Entry>>, d: Option<Entry>)
    requires !Added(decoded).crashed
    ensures Added(decoded + [d]) ==
      match d
      case None => Decoded(Added(decoded).entries, true)
      case Some(e) => Decoded(Added(decoded).entries + [e], false)
  {
    if decoded != [] {
      assert (decoded + [d])[1..] == decoded[1..] + [d];
      AddedSnoc(decoded[1..], d);
    }
  }

  /** Once a prefix has crashed, the inputs after it change nothing. */
  lemma {:induction false} AddedAfterCrash(decoded: seq<Option<Entry>>, k: nat)
    requires k <= |decoded| && Added(decoded[..k]).crashed
    ensures Added(decoded) == Added(decoded[..k])
  {
    if decoded[0].Some? {
      assert decoded[..k][1..] == decoded[1..][..k - 1];
      AddedAfterCrash(decoded[1..], k - 1);
    }
  }

  /** The second loop's step at index j, while it has not crashed, on a well-formed input: one more entry. */
  lemma AddedNext(decoded: seq<Option<Entry>>, j: nat)
    requires j < |decoded| && !Added(decoded[..j]).crashed && decoded[j].Some?
    ensures Added(decoded[..j + 1]) == Decoded(Added(decoded[..j]).entries + [decoded[j].value], false)
  {
    Lists.PrefixSnoc(decoded, j);
    AddedSnoc(decoded[..j], decoded[j]);
  }

  /** The second loop's step at index j, while it has not crashed, on a malformed input: the load stops for good. */
  lemma AddedStops(decoded: seq<Option<Entry>>, j: nat)
    requires j < |decoded| && !Added(decoded[..j]).crashed && decoded[j].None?
    ensures Added(decoded) == Decoded(Added(decoded[..j]).entries, true)
  {
    Lists.PrefixSnoc(decoded, j);
    AddedSnoc(decoded[..j], decoded[j]);
    AddedAfterCrash(decoded, j + 1);
  }

  /**
   * What loading a file's content yields: at most one book per line, each with a trimmed title
   * and author free of ':'.
   */
  function Load(content: string): (r: Decoded)
    ensures |r.entries| <= |ReadLines(content)|
    ensures forall i :: 0 <= i < |r.entries| ==>
      && IsTrimmed(r.entries[i].title) && IsTrimmed(r.entries[i].author)
      && ':' !in r.entries[i].title && ':' !in r.entries[i].author
  {
    var decoded := DecodeEach(LoadInputs(ReadLines(content)));
    AddedIsPrefix(decoded);
    DecodeEachAt(LoadInputs(ReadLines(content)));
    Added(decoded)
  }

  // ---------------------------------------------------------------- round trip

  /**
   * An entry the file format can carry unchanged: no ':' and no line break in either part, both
   * parts already trimmed, and a non-empty author (an empty author leaves "title:", which splits
   * into one part).
   */
  predicate Storable(e: Entry) {
    && ':' !in e.title && ':' !in e.author
    && NoLineBreak(e.title) && NoLineBreak(e.author)
    && IsTrimmed(e.title) && IsTrimmed(e.author)
    && e.author != []
  }

  lemma {:induction false} DecodeSaveLine(e: Entry)
    requires Storable(e)
    ensures KeptLine(SaveLine(e))
    ensures Trim(SaveLine(e)) == SaveLine(e)
    ensures DecodeEntry(SaveLine(e)) == Some(e)
  {
    var line := SaveLine(e);
    assert line[|e.title|] == ':';
    assert line[|line| - 1] == e.author[|e.author| - 1];
    assert line[0] == if e.title == [] then ':' else e.title[0];
    TrimFixedPoints(line);
    PiecesAfterFirstSeparator(e.title, e.author, ':');
    PiecesWithoutSeparator(e.author, ':');
    var parts := Split(line, ':');
    assert Pieces(line, ':') == [e.title, e.author];
    assert |parts| == 2;
    TrimFixedPoints(e.title);
    TrimFixedPoints(e.author);
  }

  lemma {:induction false} LoadInputsOfSaveLines(entries: seq<Entry>)
    requires forall i :: 0 <= i < |entries| ==> Storable(entries[i])
    ensures LoadInputs(SaveLines(entries)) == SaveLines(entries)
  {
    if entries != [] {
      DecodeSaveLine(entries[0]);
      LoadInputsOfSaveLines(entries[1..]);
      assert SaveLines(entries)[1..] == SaveLines(entries[1..]);
    }
  }

  lemma SaveLineHasNoBreak(e: Entry)
    requires NoLineBreak(e.title) && NoLineBreak(e.author)
    ensures NoLineBreak(SaveLine(e))
  {
    var line := SaveLine(e);
    forall k | 0 <= k < |line| ensures !IsLineBreak(line[k]) {
      if k < |e.title| {
        assert line[k] == e.title[k];
      } else if k == |e.title| {
        assert line[k] == ':';
      } else {
        assert line[k] == e.author[k - |e.title| - 1];
      }
    }
  }

  lemma ReadSavedLines(entries: seq<Entry>)
    requires forall i :: 0 <= i < |entries| ==> Storable(entries[i])
    ensures ReadLines(WriteLines(SaveLines(entries))) == SaveLines(entries)
  {
    var lines := SaveLines(entries);
    forall i | 0 <= i < |lines| ensures NoLineBreak(lines[i]) {
      SaveLineHasNoBreak(entries[i]);
    }
    ReadWrittenLines(lines);
  }

  lemma {:induction false} DecodeEachSaveLines(entries: seq<Entry>)
    requires forall i :: 0 <= i < |entries| ==> Storable(entries[i])
    ensures forall i :: 0 <= i < |entries| ==> DecodeEach(SaveLines(entries))[i] == Some(entries[i])
  {
    DecodeEachAt(SaveLines(entries));
    forall i | 0 <= i < |entries| ensures DecodeEach(SaveLines(entries))[i] == Some(entries[i]) {
      DecodeSaveLine(entries[i]);
    }
  }

  lemma AddedAll(decoded: seq<Option<Entry>>, entries: seq<Entry>)
    requires |decoded| == |entries|
    requires forall i :: 0 <= i < |entries| ==> decoded[i] == Some(entries[i])
    ensures Added(decoded) == Decoded(entries, false)
  {
    var r := Added(decoded);
    AddedIsPrefix(decoded);
    assert !r.crashed;
    assert r.entries == entries;
  }

  /**
   * Loading the file the save command wrote for a list of storable books adds books with the same
   * titles and authors, in the same order, and does not crash.
   */
  lemma LoadAfterSave(entries: seq<Entry>)
    requires forall i :: 0 <= i < |entries| ==> Storable(entries[i])
    ensures Load(WriteLines(SaveLines(entries))) == Decoded(entries, false)
  {
    ReadSavedLines(entries);
    LoadInputsOfSaveLines(entries);
    DecodeEachSaveLines(entries);
    AddedAll(DecodeEach(SaveLines(entries)), entries);
  }

  lemma {:induction false} DecodeThreeParts(t1: string, t2: string, author: string)
    requires ':' !in t1 && ':' !in t2 && ':' !in author
    requires IsTrimmed(t1) && IsTrimmed(t2) && t2 != [] && author != []
    ensures DecodeEntry(t1 + ":" + t2 + ":" + author) == Some(Entry(t1, t2))
  {
    var line := t1 + ":" + t2 + ":" + author;
    assert line == t1 + [':'] + (t2 + [':'] + author);
    PiecesAfterFirstSeparator(t1, t2 + [':'] + author, ':');
    PiecesAfterFirstSeparator(t2, author, ':');
    PiecesWithoutSeparator(author, ':');
    assert line[|t1|] == ':';
    assert Pieces(line, ':') == [t1, t2, author];
    assert Split(line, ':') == [t1, t2, author];
    TrimFixedPoints(t1);
    TrimFixedPoints(t2);
  }

  lemma ColonLine(t1: string, t2: string, author: string)
    requires Storable(Entry(t1, author)) && Storable(Entry(t2, author))
    ensures var line := SaveLine(Entry(t1 + ":" + t2, author));
      NoLineBreak(line) && LoadInputs([line]) == [line]
  {
    var title := t1 + ":" + t2;
    var line := SaveLine(Entry(title, author));
    assert NoLineBreak(title) by {
      SaveLineHasNoBreak(Entry(t1, t2));
    }
    SaveLineHasNoBreak(Entry(title, author));
    assert line == t1 + ([':'] + t2 + ":" + author);
    assert line[0] == if t1 == [] then ':' else t1[0];
    assert line[|line| - 1] == author[|author| - 1];
    TrimFixedPoints(line);
    assert line != ":" && line != "" by {
      assert |line| > 1;
    }
  }

  /**
   * A title holding ':' does not survive a save and a load: it is cut at its first ':', and what
   * follows becomes the author.
   */
  lemma ColonInTitleIsCut(t1: string, t2: string, author: string)
    requires Storable(Entry(t1, author)) && Storable(Entry(t2, author))
    requires t2 != []
    ensures Load(WriteLines(SaveLines([Entry(t1 + ":" + t2, author)]))) == Decoded([Entry(t1, t2)], false)
  {
    var line := SaveLine(Entry(t1 + ":" + t2, author));
    calc {
      Load(WriteLines(SaveLines([Entry(t1 + ":" + t2, author)])));
      { assert SaveLines([Entry(t1 + ":" + t2, author)]) == [line]; }
      Added(DecodeEach(LoadInputs(ReadLines(WriteLines([line])))));
      { ColonLine(t1, t2, author); ReadWrittenLines([line]); }
      Added(DecodeEach([line]));
      { assert line == t1 + ":" + t2 + ":" + author;
        DecodeThreeParts(t1, t2, author); }
      Added([Some(Entry(t1, t2))]);
      { AddedAll([Some(Entry(t1, t2))], [Entry(t1, t2)]); }
      Decoded([Entry(t1, t2)], false);
    }
  }

  lemma {:induction false} LoadInputsAppend(a: seq<string>, b: seq<string>)
    ensures LoadInputs(a + b) == LoadInputs(a) + LoadInputs(b)
  {
    if a == [] {
      assert a + b == b;
    } else {
      var head := if KeptLine(a[0]) then [Trim(a[0])] else [];
      assert (a + b)[0] == a[0];
      assert (a + b)[1..] == a[1..] + b;
      LoadInputsAppend(a[1..], b);
      calc {
        LoadInputs(a + b);
        head + LoadInputs(a[1..] + b);
        head + (LoadInputs(a[1..]) + LoadInputs(b));
        (head + LoadInputs(a[1..])) + LoadInputs(b);
        LoadInputs(a) + LoadInputs(b);
      }
    }
  }

  lemma AddedUpTo(decoded: seq<Option<Entry>>, entries: seq<Entry>)
    requires |entries| < |decoded| && decoded[|entries|] == None
    requires forall i :: 0 <= i < |entries| ==> decoded[i] == Some(entries[i])
    ensures Added(decoded) == Decoded(entries, true)
  {
    var r := Added(decoded);
    AddedIsPrefix(decoded);
    assert r.entries == entries;
  }

  lemma TitleOnlyLinesHaveNoBreak(before: seq<Entry>, title: string, after: seq<string>)
    requires forall i :: 0 <= i < |before| ==> Storable(before[i])
    requires NoLineBreak(title)
    requires forall i :: 0 <= i < |after| ==> NoLineBreak(after[i])
    ensures var lines := SaveLines(before) + [title] + after;
      forall i :: 0 <= i < |lines| ==> NoLineBreak(lines[i])
  {
    var saved := SaveLines(before);
    var lines := saved + [title] + after;
    forall i | 0 <= i < |lines| ensures NoLineBreak(lines[i]) {
      if i < |saved| {
        SaveLineHasNoBreak(before[i]);
      } else if i > |saved| {
        assert lines[i] == after[i - |saved| - 1];
      }
    }
  }

  lemma TitleOnlyInputs(before: seq<Entry>, title: string, after: seq<string>)
    requires forall i :: 0 <= i < |before| ==> Storable(before[i])
    requires ':' !in title && IsTrimmed(title) && title != []
    ensures LoadInputs(SaveLines(before) + [title] + after) == SaveLines(before) + [title] + LoadInputs(after)
  {
    var saved := SaveLines(before);
    LoadInputsAppend(saved + [title], after);
    LoadInputsAppend(saved, [title]);
    LoadInputsOfSaveLines(before);
    TrimFixedPoints(title);
    assert title != ":" by { assert ':' in ":"; }
    assert LoadInputs([title]) == [title];
  }

  lemma DecodeEachTitleOnly(before: seq<Entry>, title: string, rest: seq<string>)
    requires forall i :: 0 <= i < |before| ==> Storable(before[i])
    requires ':' !in title
    ensures var decoded := DecodeEach(SaveLines(before) + [title] + rest);
      && (forall i :: 0 <= i < |before| ==> decoded[i] == Some(before[i]))
      && decoded[|before|] == None
  {
    var inputs := SaveLines(before) + [title] + rest;
    var decoded := DecodeEach(inputs);
    DecodeEachAt(inputs);
    forall i | 0 <= i < |before| ensures decoded[i] == Some(before[i]) {
      assert inputs[i] == SaveLine(before[i]);
      DecodeSaveLine(before[i]);
    }
    assert inputs[|before|] == title;
  }

  /**
   * A title-only line, with no author, stops the load: the books of the lines before it are
   * added, and nothing after it is read.
   */
  lemma TitleOnlyLineStopsLoad(before: seq<Entry>, title: string, after: seq<string>)
    requires forall i :: 0 <= i < |before| ==> Storable(before[i])
    requires ':' !in title && NoLineBreak(title) && IsTrimmed(title) && title != []
    requires forall i :: 0 <= i < |after| ==> NoLineBreak(after[i])
    ensures Load(WriteLines(SaveLines(before) + [title] + after)) == Decoded(before, true)
  {
    var lines := SaveLines(before) + [title] + after;
    TitleOnlyLinesHaveNoBreak(before, title, after);
    ReadWrittenLines(lines);
    TitleOnlyInputs(before, title, after);
    DecodeEachTitleOnly(before, title, LoadInputs(after));
    AddedUpTo(DecodeEach(SaveLines(before) + [title] + LoadInputs(after)), before);
  }
}
