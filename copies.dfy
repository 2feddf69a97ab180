/** How the two copies of ResXFile relate. The library copy's flag
    SkipComments and the root copy's flag IncludeComments have opposite
    polarity, and both copies give their option the value Option.None by
    default for Write: so the library copy writes comments by default and
    the root copy does not. Read defaults agree: both read comments. */
module ResXFileCopies {
  import opened Text
  import opened Container
  import Library = LibraryResXFile
  import Root = RootResXFile

  /** Read under the library's Option.None is Read under the root's
      IncludeComments, and the library's SkipComments is the root's
      Option.None: the two Read defaults agree. */
  lemma ReadOptionsCorrespond(container: seq<Record>)
    ensures Library.ReadAll(container, Library.None) == Root.ReadAll(container, Root.IncludeComments)
    ensures Library.ReadAll(container, Library.SkipComments) == Root.ReadAll(container, Root.None)
  {
  }

  /** The Write defaults disagree: with its option left at Option.None the
      library copy writes every comment that is not blank, the root copy
      writes none. */
  lemma WriteDefaultsDisagree(entry: Entry, newLine: string)
    requires !IsNullOrWhiteSpace(entry.comment)
    ensures Library.WriteRecord(entry, newLine, Library.None).comment.Comment?
    ensures Root.WriteRecord(entry, newLine, Root.None).comment == NoComment
  {
  }

  /** On entries without carriage returns the pre-strip of the library copy
      changes nothing, so both copies hand the writer the same records
      under corresponding options. */
  lemma WritesAgreeWithoutCarriageReturns(entries: seq<Entry>, newLine: string)
    requires forall i :: 0 <= i < |entries| ==> '\r' !in entries[i].value && '\r' !in entries[i].comment
    ensures Library.WriteAll(entries, newLine, Library.None) == Root.WriteAll(entries, newLine, Root.IncludeComments)
    ensures Library.WriteAll(entries, newLine, Library.SkipComments) == Root.WriteAll(entries, newLine, Root.None)
  {
  }

  /** One entry reads back alike through both copies, under corresponding
      options. */
  lemma EntryRoundTripsAgree(entry: Entry, newLine: string)
    requires IsNewLine(newLine)
    ensures Library.ReadEntry(Library.WriteRecord(entry, newLine, Library.None), Library.None)
         == Root.ReadEntry(Root.WriteRecord(entry, newLine, Root.IncludeComments), Root.IncludeComments)
    ensures Library.ReadEntry(Library.WriteRecord(entry, newLine, Library.SkipComments), Library.SkipComments)
         == Root.ReadEntry(Root.WriteRecord(entry, newLine, Root.None), Root.None)
  {
    Library.EntryRoundTrip(entry, newLine, Library.None, Library.None);
    Root.EntryRoundTrip(entry, newLine, Root.IncludeComments, Root.IncludeComments);
    Library.EntryRoundTrip(entry, newLine, Library.SkipComments, Library.SkipComments);
    Root.EntryRoundTrip(entry, newLine, Root.None, Root.None);
  }

  /** With carriage returns in the input the two copies may write different
      containers (see RootResXFile.WriteDoublesCarriageReturn), yet what a
      Read gets back with comments is the same for both. */
  lemma RoundTripsAgree(entries: seq<Entry>, newLine: string)
    requires IsNewLine(newLine)
    ensures Library.ReadAll(Library.WriteAll(entries, newLine, Library.None), Library.None)
         == Root.ReadAll(Root.WriteAll(entries, newLine, Root.IncludeComments), Root.IncludeComments)
  {
    var written := Library.WriteAll(entries, newLine, Library.None);
    var rootWritten := Root.WriteAll(entries, newLine, Root.IncludeComments);
    var libraryRead := Library.ReadAll(written, Library.None);
    var rootRead := Root.ReadAll(rootWritten, Root.IncludeComments);
    forall i | 0 <= i < |entries| ensures libraryRead[i] == rootRead[i] {
      assert libraryRead[i] == Library.ReadEntry(written[i], Library.None);
      assert rootRead[i] == Root.ReadEntry(rootWritten[i], Root.IncludeComments);
      EntryRoundTripsAgree(entries[i], newLine);
    }
  }

  /** The same for a write and a read that both leave comments out. */
  lemma RoundTripsAgreeWithoutComments(entries: seq<Entry>, newLine: string)
    requires IsNewLine(newLine)
    ensures Library.ReadAll(Library.WriteAll(entries, newLine, Library.SkipComments), Library.SkipComments)
         == Root.ReadAll(Root.WriteAll(entries, newLine, Root.None), Root.None)
  {
    var written := Library.WriteAll(entries, newLine, Library.SkipComments);
    var rootWritten := Root.WriteAll(entries, newLine, Root.None);
    var libraryRead := Library.ReadAll(written, Library.SkipComments);
    var rootRead := Root.ReadAll(rootWritten, Root.None);
    forall i | 0 <= i < |entries| ensures libraryRead[i] == rootRead[i] {
      assert libraryRead[i] == Library.ReadEntry(written[i], Library.SkipComments);
      assert rootRead[i] == Root.ReadEntry(rootWritten[i], Root.None);
      EntryRoundTripsAgree(entries[i], newLine);
    }
  }
}
