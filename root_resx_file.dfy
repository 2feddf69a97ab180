/** ResXFile.Read and ResXFile.Write of the older copy at the repository
    root. Its option flag has the opposite polarity (IncludeComments, set by
    default for Read and unset by default for Write), and Write expands line
    feeds without stripping carriage returns first. */
module RootResXFile {
  import opened Text
  import opened Container

  /** ResXFile.Option, a [Flags] enumeration with the single flag IncludeComments. */
  datatype Option = None | IncludeComments

  /** What Read makes of one enumerated node. */
  function ReadEntry(node: Record, options: Option): (e: Entry)
    ensures e.id == node.id
    ensures '\r' !in e.value && Strip(e.value) == Strip(node.value)
    ensures '\r' !in e.comment
    ensures options == None ==> e.comment == ""
    ensures options == IncludeComments ==> Strip(e.comment) == Strip(CommentText(node.comment))
    ensures node.comment.NoComment? ==> e.comment == ""
  {
    var comment := if options == IncludeComments then Strip(CommentText(node.comment)) else "";
    Entry(node.id, Strip(node.value), comment)
  }

  /** The entries Read returns for a container: one per record, in
      enumeration order. */
  function ReadAll(container: seq<Record>, options: Option): (entries: seq<Entry>)
    ensures |entries| == |container|
    ensures forall i :: 0 <= i < |container| ==> entries[i] == ReadEntry(container[i], options)
  {
    if container == [] then []
    else ReadAll(container[..|container| - 1], options) + [ReadEntry(container[|container| - 1], options)]
  }

  lemma ReadAllExtend(container: seq<Record>, k: nat, options: Option)
    requires k < |container|
    ensures ReadAll(container[..k + 1], options)
         == ReadAll(container[..k], options) + [ReadEntry(container[k], options)]
  {
    assert container[..k + 1][..k] == container[..k];
  }

  /** ResXFile.Read: enumerates the container and appends one entry per
      node; comments are read unless the caller passes Option.None. */
  method Read(container: seq<Record>, options: Option := IncludeComments) returns (result: seq<Entry>)
    ensures result == ReadAll(container, options)
    ensures forall i :: 0 <= i < |result| ==> result[i].id == container[i].id && '\r' !in result[i].value
  {
    result := [];
    var i := 0;
    while i < |container|
      invariant 0 <= i <= |container|
      invariant result == ReadAll(container[..i], options)
    {
      var node := container[i];
      var comment := if options == IncludeComments then Strip(CommentText(node.comment)) else "";
      var entry := Entry(node.id, Strip(node.value), comment);
      assert entry == ReadEntry(container[i], options);
      ReadAllExtend(container, i, options);
      result := result + [entry];
      i := i + 1;
    }
    assert container[..i] == container;
  }

  /** The node Write builds for one entry. The comment is attached only when
      IncludeComments is set and the comment is not empty or white space, so
      under the default option no comment is written. */
  function WriteRecord(entry: Entry, newLine: string, options: Option): (node: Record)
    ensures node.id == entry.id
    ensures node.comment.Comment? <==> options == IncludeComments && !IsNullOrWhiteSpace(entry.comment)
    ensures options == None ==> node.comment == NoComment
  {
    var comment :=
      if options == IncludeComments && !IsNullOrWhiteSpace(entry.comment)
      then Comment(Expand(entry.comment, newLine))
      else NoComment;
    Record(entry.id, Expand(entry.value, newLine), comment)
  }

  /** The records Write hands to the container writer: one per entry, in
      input order. */
  function WriteAll(entries: seq<Entry>, newLine: string, options: Option): (container: seq<Record>)
    ensures |container| == |entries|
    ensures forall i :: 0 <= i < |entries| ==> container[i] == WriteRecord(entries[i], newLine, options)
  {
    if entries == [] then []
    else WriteAll(entries[..|entries| - 1], newLine, options) + [WriteRecord(entries[|entries| - 1], newLine, options)]
  }

  lemma WriteAllExtend(entries: seq<Entry>, k: nat, newLine: string, options: Option)
    requires k < |entries|
    ensures WriteAll(entries[..k + 1], newLine, options)
         == WriteAll(entries[..k], newLine, options) + [WriteRecord(entries[k], newLine, options)]
  {
    assert entries[..k + 1][..k] == entries[..k];
  }

  /** ResXFile.Write: opens a fresh writer and adds one node per entry. */
  method Write(entries: seq<Entry>, newLine: string, options: Option := None) returns (container: seq<Record>)
    ensures container == WriteAll(entries, newLine, options)
    ensures forall i :: 0 <= i < |entries| ==> container[i].id == entries[i].id
  {
    var resx := new ResourceWriter();
    for k := 0 to |entries|
      invariant resx.records == WriteAll(entries[..k], newLine, options)
    {
      var entry := entries[k];
      var node := Record(entry.id, Expand(entry.value, newLine), NoComment);
      if options == IncludeComments && !IsNullOrWhiteSpace(entry.comment) {
        node := node.(comment := Comment(Expand(entry.comment, newLine)));
      }
      assert node == WriteRecord(entries[k], newLine, options);
      WriteAllExtend(entries, k, newLine, options);
      resx.AddResource(node);
    }
    assert entries[..|entries|] == entries;
    container := resx.records;
  }

  /** Without the pre-strip a carriage return already in the input survives
      next to the one the expansion adds: "\r\n" is written as "\r\r\n" when
      Environment.NewLine is "\r\n". */
  lemma WriteDoublesCarriageReturn(id: string, comment: string, options: Option)
    ensures WriteRecord(Entry(id, "\r\n", comment), "\r\n", options).value == "\r\r\n"
    ensures !UsesLineEnding(WriteRecord(Entry(id, "\r\n", comment), "\r\n", options).value, "\r\n")
  {
    var t := Expand("\r\n", "\r\n");
    assert "\r\n"[1..] == "\n";
    assert Expand("\n", "\r\n") == "\r\n" + Expand("", "\r\n");
    assert t == ['\r'] + "\r\n";
    assert t[0] == '\r' && t[1] != '\n';
  }

  /** Every written value and comment still strips back to the input's
      Strip, so the missing pre-strip does no harm to a later Read. */
  lemma WriteRecordStrips(entry: Entry, newLine: string, options: Option)
    requires IsNewLine(newLine)
    ensures var node := WriteRecord(entry, newLine, options);
      && Strip(node.value) == Strip(entry.value)
      && (node.comment.Comment? ==> Strip(node.comment.text) == Strip(entry.comment))
  {
    StripExpand(entry.value, newLine);
    StripExpand(entry.comment, newLine);
  }

  /** The comment an entry reads back with after a write and a read: never
      one with a carriage return, and empty unless the entry's comment is
      not blank. */
  function RoundTripComment(entry: Entry, writeOptions: Option, readOptions: Option): (comment: string)
    ensures '\r' !in comment
    ensures IsNullOrWhiteSpace(entry.comment) ==> comment == ""
  {
    if readOptions == IncludeComments && writeOptions == IncludeComments && !IsNullOrWhiteSpace(entry.comment)
    then Strip(entry.comment)
    else ""
  }

  lemma EntryRoundTrip(entry: Entry, newLine: string, writeOptions: Option, readOptions: Option)
    requires IsNewLine(newLine)
    ensures ReadEntry(WriteRecord(entry, newLine, writeOptions), readOptions)
         == Entry(entry.id, Strip(entry.value), RoundTripComment(entry, writeOptions, readOptions))
  {
    WriteRecordStrips(entry, newLine, writeOptions);
  }

  /** Reading back what Write produced gives the same ids in the same order,
      each value with its carriage returns stripped, and each comment
      stripped when both sides include comments and it was not blank, else
      empty. */
  lemma RoundTrip(entries: seq<Entry>, newLine: string, writeOptions: Option, readOptions: Option)
    requires IsNewLine(newLine)
    ensures var read := ReadAll(WriteAll(entries, newLine, writeOptions), readOptions);
      && |read| == |entries|
      && forall i :: 0 <= i < |entries| ==>
           && read[i].id == entries[i].id
           && read[i].value == Strip(entries[i].value)
           && read[i].comment == RoundTripComment(entries[i], writeOptions, readOptions)
  {
    forall i | 0 <= i < |entries| {
      EntryRoundTrip(entries[i], newLine, writeOptions, readOptions);
    }
  }
}
