/** The sample entries of the test suite (TestData.SampleEntries and its two
    line-ending variants) and what the library copy of ResXFile does with
    them. Multi-line samples are written as their lines joined by a line
    ending. */
module Samples {
  import opened Text
  import opened Container
  import LibraryResXFile

  /** The lines joined by the line-ending sequence nl. */
  function JoinLines(lines: seq<string>, nl: string): (joined: string)
    decreases |lines|
  {
    if lines == [] then ""
    else if |lines| == 1 then lines[0]
    else lines[0] + nl + JoinLines(lines[1..], nl)
  }

  /** Lines free of carriage returns joined by "\r\n" strip to the same
      lines joined by "\n", which hold no carriage return. */
  lemma {:induction false} StripJoinLines(lines: seq<string>)
    requires forall i :: 0 <= i < |lines| ==> '\r' !in lines[i]
    ensures Strip(JoinLines(lines, "\r\n")) == JoinLines(lines, "\n")
    ensures '\r' !in JoinLines(lines, "\n")
  {
    if |lines| > 1 {
      StripJoinLines(lines[1..]);
      var rest := JoinLines(lines[1..], "\r\n");
      StripConcat(lines[0] + "\r\n", rest);
      StripConcat(lines[0], "\r\n");
    }
  }

  /** TestData.SampleEntries: three entries with distinct ids. */
  function SampleEntries(): (entries: seq<Entry>)
    ensures |entries| == 3
    ensures forall i, j :: 0 <= i < j < |entries| ==> entries[i].id != entries[j].id
  {
    [ Entry("a", "1st item", "1st comment"),
      Entry("b", "2nd item", "2nd comment"),
      Entry("c", "3rd item", "3rd comment") ]
  }

  /** A join is not blank as soon as one of its lines is not. */
  lemma {:induction false} JoinLinesNotBlank(lines: seq<string>, nl: string, k: nat)
    requires k < |lines| && !IsNullOrWhiteSpace(lines[k])
    ensures !IsNullOrWhiteSpace(JoinLines(lines, nl))
  {
    var j :| 0 <= j < |lines[k]| && !IsWhiteSpace(lines[k][j]);
    if |lines| > 1 {
      var t := JoinLines(lines, nl);
      var rest := JoinLines(lines[1..], nl);
      assert t == lines[0] + nl + rest;
      if k == 0 {
        assert t[j] == lines[0][j];
      } else {
        JoinLinesNotBlank(lines[1..], nl, k - 1);
        var m :| 0 <= m < |rest| && !IsWhiteSpace(rest[m]);
        assert t[|lines[0]| + |nl| + m] == rest[m];
      }
    }
  }

  /** An entry whose value and comment carry no carriage return and whose
      comment is not blank. */
  predicate IsPlain(entry: Entry) {
    '\r' !in entry.value && '\r' !in entry.comment && !IsNullOrWhiteSpace(entry.comment)
  }

  lemma SampleEntriesArePlain()
    ensures forall i :: 0 <= i < |SampleEntries()| ==> IsPlain(SampleEntries()[i])
  {
    assert !IsWhiteSpace("1st comment"[0]);
    assert !IsWhiteSpace("2nd comment"[0]);
    assert !IsWhiteSpace("3rd comment"[0]);
  }

  /** A string of one line: no carriage return and no line feed. */
  predicate IsSingleLine(s: string): (b: bool)
    ensures b ==> '\r' !in s && '\n' !in s
  {
    forall i :: 0 <= i < |s| ==> s[i] != '\r' && s[i] != '\n'
  }

  /** WriteTest, WriteSkipCommentsTest: entries of one line each, with a
      comment that is not blank, are handed to the writer verbatim, with
      their comment under the default option and without it under
      SkipComments. */
  lemma SingleLineEntriesWritten(entries: seq<Entry>, newLine: string)
    requires forall i :: 0 <= i < |entries| ==>
      IsSingleLine(entries[i].value) && IsSingleLine(entries[i].comment) && !IsNullOrWhiteSpace(entries[i].comment)
    ensures var written := LibraryResXFile.WriteAll(entries, newLine, LibraryResXFile.None);
      forall i :: 0 <= i < |entries| ==> written[i] == Record(entries[i].id, entries[i].value, Comment(entries[i].comment))
    ensures var written := LibraryResXFile.WriteAll(entries, newLine, LibraryResXFile.SkipComments);
      forall i :: 0 <= i < |entries| ==> written[i] == Record(entries[i].id, entries[i].value, NoComment)
  {
  }

  /** A text made of letters, digits and spaces is a single line. */
  lemma LiteralIsSingleLine(s: string)
    requires forall i :: 0 <= i < |s| ==> s[i] == ' ' || 'a' <= s[i] <= 'z' || '0' <= s[i] <= '9'
    ensures IsSingleLine(s)
  {
  }

  lemma SampleEntriesAreSingleLine()
    ensures forall i :: 0 <= i < |SampleEntries()| ==>
      IsSingleLine(SampleEntries()[i].value) && IsSingleLine(SampleEntries()[i].comment)
  {
    assert IsSingleLine("1st item") && IsSingleLine("1st comment") by {
      LiteralIsSingleLine("1st item");
      LiteralIsSingleLine("1st comment");
    }
    assert IsSingleLine("2nd item") && IsSingleLine("2nd comment") by {
      LiteralIsSingleLine("2nd item");
      LiteralIsSingleLine("2nd comment");
    }
    assert IsSingleLine("3rd item") && IsSingleLine("3rd comment") by {
      LiteralIsSingleLine("3rd item");
      LiteralIsSingleLine("3rd comment");
    }
  }

  /** The sample entries are written with their ids and values verbatim,
      with their comments by default and without them under SkipComments. */
  lemma SampleEntriesWritten(newLine: string)
    ensures var written := LibraryResXFile.WriteAll(SampleEntries(), newLine, LibraryResXFile.None);
      forall i :: 0 <= i < |written| ==>
        written[i] == Record(SampleEntries()[i].id, SampleEntries()[i].value, Comment(SampleEntries()[i].comment))
    ensures var written := LibraryResXFile.WriteAll(SampleEntries(), newLine, LibraryResXFile.SkipComments);
      forall i :: 0 <= i < |written| ==>
        written[i] == Record(SampleEntries()[i].id, SampleEntries()[i].value, NoComment)
  {
    SampleEntriesArePlain();
    SampleEntriesAreSingleLine();
    SingleLineEntriesWritten(SampleEntries(), newLine);
  }

  /** ReadTest: the sample entries read back exactly as written under the
      default options, and with SkipComments on read they keep ids and
      values and lose every comment. */
  lemma SampleEntriesRoundTrip(newLine: string)
    requires IsNewLine(newLine)
    ensures LibraryResXFile.ReadAll(LibraryResXFile.WriteAll(SampleEntries(), newLine, LibraryResXFile.None), LibraryResXFile.None)
         == SampleEntries()
    ensures var read := LibraryResXFile.ReadAll(
                LibraryResXFile.WriteAll(SampleEntries(), newLine, LibraryResXFile.None), LibraryResXFile.SkipComments);
      forall i :: 0 <= i < |read| ==> read[i] == SampleEntries()[i].(comment := "")
  {
    SampleEntriesArePlain();
    PlainEntriesRoundTrip(SampleEntries(), newLine);
  }

  lemma PlainEntriesRoundTrip(entries: seq<Entry>, newLine: string)
    requires IsNewLine(newLine)
    requires forall i :: 0 <= i < |entries| ==> IsPlain(entries[i])
    ensures LibraryResXFile.ReadAll(LibraryResXFile.WriteAll(entries, newLine, LibraryResXFile.None), LibraryResXFile.None)
         == entries
    ensures var read := LibraryResXFile.ReadAll(
                LibraryResXFile.WriteAll(entries, newLine, LibraryResXFile.None), LibraryResXFile.SkipComments);
      && |read| == |entries|
      && forall i :: 0 <= i < |entries| ==> read[i] == entries[i].(comment := "")
  {
    LibraryResXFile.RoundTrip(entries, newLine, LibraryResXFile.None, LibraryResXFile.None);
    LibraryResXFile.RoundTrip(entries, newLine, LibraryResXFile.None, LibraryResXFile.SkipComments);
  }

  /** WriteWindowsEolTest, WriteUnixEolTest: an entry whose lines are joined
      by "\r\n" (TestData.SampleEntriesWithWindowsLineEndings) and the same
      entry with its lines joined by "\n" (SampleEntriesWithUnixLineEndings)
      read back identically after a write on either platform, as the "\n"
      form, whatever the options. */
  lemma JoinedLinesReadBackAlike(id: string, valueLines: seq<string>, commentLines: seq<string>,
                                 newLine: string, writeOptions: LibraryResXFile.Option, readOptions: LibraryResXFile.Option)
    requires IsNewLine(newLine)
    requires forall i :: 0 <= i < |valueLines| ==> '\r' !in valueLines[i]
    requires forall i :: 0 <= i < |commentLines| ==> '\r' !in commentLines[i]
    ensures var windows := Entry(id, JoinLines(valueLines, "\r\n"), JoinLines(commentLines, "\r\n"));
      var unix := Entry(id, JoinLines(valueLines, "\n"), JoinLines(commentLines, "\n"));
      var read := LibraryResXFile.ReadEntry(LibraryResXFile.WriteRecord(windows, newLine, writeOptions), readOptions);
      && read == LibraryResXFile.ReadEntry(LibraryResXFile.WriteRecord(unix, newLine, writeOptions), readOptions)
      && read.value == unix.value
      && read.comment == LibraryResXFile.RoundTripComment(unix, writeOptions, readOptions)
  {
    var windows := Entry(id, JoinLines(valueLines, "\r\n"), JoinLines(commentLines, "\r\n"));
    var unix := Entry(id, JoinLines(valueLines, "\n"), JoinLines(commentLines, "\n"));
    StripJoinLines(valueLines);
    StripJoinLines(commentLines);
    StripKeepsBlankness(windows.comment);
    StripKeepsBlankness(unix.comment);
    LibraryResXFile.EntryRoundTrip(windows, newLine, writeOptions, readOptions);
    LibraryResXFile.EntryRoundTrip(unix, newLine, writeOptions, readOptions);
  }

  /** WriteWindowsEolTest, WriteUnixEolTest, on the comment: as soon as one
      comment line is not blank, the default Write attaches a comment, and
      the default Read gives back exactly the entry with "\n" line endings.
      JoinedLinesWritten states the text written. */
  lemma JoinedCommentKept(id: string, valueLines: seq<string>, commentLines: seq<string>,
                          newLine: string, k: nat)
    requires IsNewLine(newLine)
    requires forall i :: 0 <= i < |valueLines| ==> '\r' !in valueLines[i]
    requires forall i :: 0 <= i < |commentLines| ==> '\r' !in commentLines[i]
    requires k < |commentLines| && !IsNullOrWhiteSpace(commentLines[k])
    ensures var windows := Entry(id, JoinLines(valueLines, "\r\n"), JoinLines(commentLines, "\r\n"));
      var node := LibraryResXFile.WriteRecord(windows, newLine, LibraryResXFile.None);
      && node.comment.Comment?
      && LibraryResXFile.ReadEntry(node, LibraryResXFile.None)
         == Entry(id, JoinLines(valueLines, "\n"), JoinLines(commentLines, "\n"))
  {
    JoinLinesNotBlank(commentLines, "\r\n", k);
    JoinLinesNotBlank(commentLines, "\n", k);
    StripJoinLines(commentLines);
    JoinedLinesReadBackAlike(id, valueLines, commentLines, newLine, LibraryResXFile.None, LibraryResXFile.None);
  }

  /** Lines without line breaks joined by "\n" expand to the same lines
      joined by nl. */
  lemma {:induction false} ExpandJoinLines(lines: seq<string>, nl: string)
    requires forall i :: 0 <= i < |lines| ==> IsSingleLine(lines[i])
    ensures Expand(JoinLines(lines, "\n"), nl) == JoinLines(lines, nl)
  {
    if |lines| == 1 {
      assert IsSingleLine(lines[0]);
    } else if |lines| > 1 {
      assert IsSingleLine(lines[0]);
      ExpandJoinLines(lines[1..], nl);
      var rest := JoinLines(lines[1..], "\n");
      ExpandConcat(lines[0] + "\n", rest, nl);
      ExpandConcat(lines[0], "\n", nl);
      assert Expand("\n", nl) == nl + Expand([], nl);
    }
  }

  /** WriteWindowsEolTest, WriteUnixEolTest: for lines without line breaks,
      the default Write hands to the writer the value and the comment of the
      Windows-joined entry and of the Unix-joined entry alike, as the lines
      joined by the platform's line ending. So on a "\r\n" platform the
      Windows entry is written verbatim, on a "\n" platform the Unix entry
      is, and with carriage returns removed the written text is the Unix
      entry's on either platform. */
  lemma JoinedLinesWritten(id: string, valueLines: seq<string>, commentLines: seq<string>,
                           newLine: string, k: nat)
    requires IsNewLine(newLine)
    requires forall i :: 0 <= i < |valueLines| ==> IsSingleLine(valueLines[i])
    requires forall i :: 0 <= i < |commentLines| ==> IsSingleLine(commentLines[i])
    requires k < |commentLines| && !IsNullOrWhiteSpace(commentLines[k])
    ensures var windows := Entry(id, JoinLines(valueLines, "\r\n"), JoinLines(commentLines, "\r\n"));
      var unix := Entry(id, JoinLines(valueLines, "\n"), JoinLines(commentLines, "\n"));
      var node := Record(id, JoinLines(valueLines, newLine), Comment(JoinLines(commentLines, newLine)));
      && LibraryResXFile.WriteRecord(windows, newLine, LibraryResXFile.None) == node
      && LibraryResXFile.WriteRecord(unix, newLine, LibraryResXFile.None) == node
      && (newLine == "\r\n" ==> node == Record(id, windows.value, Comment(windows.comment)))
      && (newLine == "\n" ==> node == Record(id, unix.value, Comment(unix.comment)))
      && Strip(node.value) == unix.value && Strip(node.comment.text) == unix.comment
  {
    StripJoinLines(valueLines);
    StripJoinLines(commentLines);
    ExpandJoinLines(valueLines, newLine);
    ExpandJoinLines(commentLines, newLine);
    JoinLinesNotBlank(commentLines, "\r\n", k);
    JoinLinesNotBlank(commentLines, "\n", k);
  }
}
