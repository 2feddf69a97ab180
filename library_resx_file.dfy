/** ResXFile.Read and ResXFile.Write of the fmdev.ResX library: entries are
    read from and written to a container with carriage returns stripped on
    both paths and line feeds expanded to the platform line ending on the
    way out. Comments are kept unless SkipComments is given. */
module LibraryResXFile {
  import opened Text
  import opened Container

  /** ResXFile.Option, a [Flags] enumeration with the single flag SkipComments. */
  datatype Option = None | SkipComments

  /** What Read makes of one enumerated node. */
  function ReadEntry(node: Record, options: Option): (e: Entry)
    ensures e.id == node.id
    ensures '\r' !in e.value && Strip(e.value) == Strip(node.value)
    ensures '\r' !in e.comment
    ensures options == SkipComments ==> e.comment == ""
    ensures options == None ==> Strip(e.comment) == Strip(CommentText(node.comment))
    ensures node.comment.NoComment? ==> e.comment == ""
  {
    var comment := if options == SkipComments then "" else Strip(CommentText(node.comment));
    Entry(node.id, Strip(node.value), comment)
  }

  /** The entries Read returns for a container: one per record, in
      enumeration order. */
  function ReadAll(container: seq<Record>, options: Option): (entries: seq<Entry>)
    ensures |entries| == |container|
    ensures forall i :: 0 <= i < |container| ==> entries[i] == ReadEntry(container[i], options)
  {
    if container == [] then []
    else ReadAll(container[..|container| - 1], options) + [ReadEntry(container[|container| - 1], options)]
  }

  lemma ReadAllExtend(container: seq<Record>, k: nat, options: Option)
    requires k < |container|
    ensures ReadAll(container[..k + 1], options)
         == ReadAll(container[..k], options) + [ReadEntry(container[k], options)]
  {
    assert container[..k + 1][..k] == container[..k];
  }

  /** ResXFile.Read: enumerates the container and appends one entry per node. */
  method Read(container: seq<Record>, options: Option := None) returns (result: seq<Entry>)
    ensures result == ReadAll(container, options)
    ensures forall i :: 0 <= i < |result| ==> result[i].id == container[i].id && '\r' !in result[i].value
  {
    result := [];
    var i := 0;
    while i < |container|
      invariant 0 <= i <= |container|
      invariant result == ReadAll(container[..i], options)
    {
      var node := container[i];
      var comment := if options == SkipComments then "" else Strip(CommentText(node.comment));
      var entry := Entry(node.id, Strip(node.value), comment);
      assert entry == ReadEntry(container[i], options);
      ReadAllExtend(container, i, options);
      result := result + [entry];
      i := i + 1;
    }
    assert container[..i] == container;
  }

  /** The node Write builds for one entry. The comment is attached only when
      SkipComments is unset and the comment is not empty or white space. */
  function WriteRecord(entry: Entry, newLine: string, options: Option): (node: Record)
    ensures node.id == entry.id
    ensures node.comment.Comment? <==> options != SkipComments && !IsNullOrWhiteSpace(entry.comment)
  {
    var comment :=
      if options != SkipComments && !IsNullOrWhiteSpace(entry.comment)
      then Comment(Normalize(entry.comment, newLine))
      else NoComment;
    Record(entry.id, Normalize(entry.value, newLine), comment)
  }

  /** The records Write hands to the container writer: one per entry, in
      input order. */
  function WriteAll(entries: seq<Entry>, newLine: string, options: Option): (container: seq<Record>)
    ensures |container| == |entries|
    ensures forall i :: 0 <= i < |entries| ==> container[i] == WriteRecord(entries[i], newLine, options)
  {
    if entries == [] then []
    else WriteAll(entries[..|entries| - 1], newLine, options) + [WriteRecord(entries[|entries| - 1], newLine, options)]
  }

  lemma WriteAllExtend(entries: seq<Entry>, k: nat, newLine: string, options: Option)
    requires k < |entries|
    ensures WriteAll(entries[..k + 1], newLine, options)
         == WriteAll(entries[..k], newLine, options) + [WriteRecord(entries[k], newLine, options)]
  {
    assert entries[..k + 1][..k] == entries[..k];
  }

  /** ResXFile.Write: opens a fresh writer and adds one node per entry. */
  method Write(entries: seq<Entry>, newLine: string, options: Option := None) returns (container: seq<Record>)
    ensures container == WriteAll(entries, newLine, options)
    ensures forall i :: 0 <= i < |entries| ==> container[i].id == entries[i].id
  {
    var resx := new ResourceWriter();
    for k := 0 to |entries|
      invariant resx.records == WriteAll(entries[..k], newLine, options)
    {
      var entry := entries[k];
      var node := Record(entry.id, Expand(Strip(entry.value), newLine), NoComment);
      if options != SkipComments && !IsNullOrWhiteSpace(entry.comment) {
        node := node.(comment := Comment(Expand(Strip(entry.comment), newLine)));
      }
      assert node == WriteRecord(entries[k], newLine, options);
      WriteAllExtend(entries, k, newLine, options);
      resx.AddResource(node);
    }
    assert entries[..|entries|] == entries;
    container := resx.records;
  }

  /** A written value or comment is the canonical text in the platform's line
      endings: its Strip is the input's Strip and every line ending in it is
      newLine. By Text.UsesLineEndingIsExpansion no other string has both
      properties. */
  lemma WriteRecordNormalizes(entry: Entry, newLine: string, options: Option)
    requires IsNewLine(newLine)
    ensures var node := WriteRecord(entry, newLine, options);
      && Strip(node.value) == Strip(entry.value)
      && UsesLineEnding(node.value, newLine)
      && (node.comment.Comment? ==>
            Strip(node.comment.text) == Strip(entry.comment) && UsesLineEnding(node.comment.text, newLine))
  {
    NormalizeUsesLineEnding(entry.value, newLine);
    NormalizeUsesLineEnding(entry.comment, newLine);
  }

  /** The comment an entry reads back with after a write and a read: never
      one with a carriage return, and empty unless the entry's comment is
      not blank. */
  function RoundTripComment(entry: Entry, writeOptions: Option, readOptions: Option): (comment: string)
    ensures '\r' !in comment
    ensures IsNullOrWhiteSpace(entry.comment) ==> comment == ""
  {
    if readOptions == SkipComments || writeOptions == SkipComments || IsNullOrWhiteSpace(entry.comment)
    then ""
    else Strip(entry.comment)
  }

  lemma EntryRoundTrip(entry: Entry, newLine: string, writeOptions: Option, readOptions: Option)
    requires IsNewLine(newLine)
    ensures ReadEntry(WriteRecord(entry, newLine, writeOptions), readOptions)
         == Entry(entry.id, Strip(entry.value), RoundTripComment(entry, writeOptions, readOptions))
  {
    WriteRecordNormalizes(entry, newLine, writeOptions);
  }

  /** Reading back what Write produced gives the same ids in the same order,
      each value with its carriage returns stripped, and each comment
      stripped, or empty when either side skips comments or the comment was
      blank. */
  lemma RoundTrip(entries: seq<Entry>, newLine: string, writeOptions: Option, readOptions: Option)
    requires IsNewLine(newLine)
    ensures var read := ReadAll(WriteAll(entries, newLine, writeOptions), readOptions);
      && |read| == |entries|
      && forall i :: 0 <= i < |entries| ==>
           && read[i].id == entries[i].id
           && read[i].value == Strip(entries[i].value)
           && read[i].comment == RoundTripComment(entries[i], writeOptions, readOptions)
  {
    forall i | 0 <= i < |entries| {
      EntryRoundTrip(entries[i], newLine, writeOptions, readOptions);
    }
  }

  /** Two entries with the same id whose value and comment differ only in
      carriage returns. */
  predicate SameUpToCarriageReturns(x: Entry, y: Entry) {
    x.id == y.id && Strip(x.value) == Strip(y.value) && Strip(x.comment) == Strip(y.comment)
  }

  /** Two entries that differ only in carriage returns read back alike
      after a write. */
  lemma EntryReadBackIgnoresCarriageReturns(x: Entry, y: Entry, newLine: string,
                                            writeOptions: Option, readOptions: Option)
    requires IsNewLine(newLine)
    requires SameUpToCarriageReturns(x, y)
    ensures ReadEntry(WriteRecord(x, newLine, writeOptions), readOptions)
         == ReadEntry(WriteRecord(y, newLine, writeOptions), readOptions)
  {
    EntryRoundTrip(x, newLine, writeOptions, readOptions);
    EntryRoundTrip(y, newLine, writeOptions, readOptions);
    StripKeepsBlankness(x.comment);
    StripKeepsBlankness(y.comment);
  }

  /** Entries that differ only in carriage returns read back identically
      after a write: Windows and Unix line endings give the same entries. */
  lemma ReadBackIgnoresCarriageReturns(a: seq<Entry>, b: seq<Entry>, newLine: string,
                                       writeOptions: Option, readOptions: Option)
    requires IsNewLine(newLine)
    requires |a| == |b|
    requires forall i :: 0 <= i < |a| ==> SameUpToCarriageReturns(a[i], b[i])
    ensures ReadAll(WriteAll(a, newLine, writeOptions), readOptions)
         == ReadAll(WriteAll(b, newLine, writeOptions), readOptions)
  {
    var writtenA := WriteAll(a, newLine, writeOptions);
    var writtenB := WriteAll(b, newLine, writeOptions);
    var readA := ReadAll(writtenA, readOptions);
    var readB := ReadAll(writtenB, readOptions);
    forall i | 0 <= i < |a| ensures readA[i] == readB[i] {
      assert readA[i] == ReadEntry(writtenA[i], readOptions);
      assert readB[i] == ReadEntry(writtenB[i], readOptions);
      EntryReadBackIgnoresCarriageReturns(a[i], b[i], newLine, writeOptions, readOptions);
    }
  }
}
