# ResX entry store, modelled in Dafny

This project models the entry store of fmdev.ResX. `ResXFile` reads the
resources of a .resx container into `ResXEntry` values (id, value, comment)
and writes a list of entries back into a container. On the way it normalises
line endings:

- Read removes every carriage return.
- Write expands every line feed to `Environment.NewLine`.
- A comment is written only when the option allows it and the comment is not
  blank.

The library copy can also generate a strongly typed `<className>.Designer.cs`
accessor class for a .resx file. It first checks three guards in a fixed
order.

The repository holds two copies of `ResXFile`, and both are modelled as
written, each in its own module:

- `LibraryResXFile` is `fmdev.ResX/ResXFile.cs`. Its flag is `SkipComments`.
  Write strips carriage returns before it expands line feeds.
- `RootResXFile` is the older `ResXFile.cs` at the repository root. Its flag is
  `IncludeComments`, so the polarity is opposite. Read defaults to
  `IncludeComments` and Write to `None`. Write expands line feeds without
  stripping first.

Three details of the code that the model keeps:

- The library copy's Write writes comments by default, because its default
  `Option.None` does not set `SkipComments`.
- A lone carriage return is deleted, not turned into a line feed.
- Write does not validate ids.

Modules:

- `Text`: the single-character `String.Replace` transforms.
  - `Strip` is `Replace("\r", "")`.
  - `Expand` is `Replace("\n", nl)`.
  - `Normalize` is `Expand(Strip(s), nl)`.
  - `UsesLineEnding` characterises strings whose every line ending is `nl`.
  - `IsNullOrWhiteSpace` uses the exact set of characters for which .NET's
    `Char.IsWhiteSpace` is true.
- `Container`: `Entry` (ResXEntry), `Record` (a ResXDataNode holding a string,
  whose comment may never have been set), and `ResourceWriter`.
  `ResourceWriter` is a class whose `AddResource` appends a node to the
  container being written. A container is the ordered sequence of its records,
  in enumeration order.
- `LibraryResXFile`, `RootResXFile`: Read and Write.
  - Each is a `method` with the loop of the source.
  - Each is proved equal to a specification function (`ReadAll`, `WriteAll`)
    built from the per-node functions `ReadEntry` and `WriteRecord`.
  - Round-trip lemmas relate the two directions.
- `ResXFileCopies`: how the two copies agree and disagree.
- `Designer`: `GenerateDesignerFile`, both public entry points and the private
  overload. The outcome is either the exception thrown or the file written
  together with the boolean returned.
- `Samples`: the test data (`TestData.SampleEntries` and its two line-ending
  variants) and the facts the tests check about them.

Things outside the code appear as parameters:

- `Environment.NewLine` is the parameter `newLine`, restricted to `"\n"` or
  `"\r\n"` where a property needs it.
- `File.Exists(resXFile)` is the boolean `fileExists`.
- `StronglyTypedResourceBuilder.Create` is a function-typed parameter that
  returns the ids it could not turn into properties.

## Model

| member | source | states |
|---|---|---|
| Text.Strip | fmdev.ResX/ResXFile.cs:40 | the result holds no carriage return, is no longer than the input, and equals the input when it had none |
| Text.Expand | fmdev.ResX/ResXFile.cs:57 | a string without line feeds, or an expansion to "\n", is unchanged; expansion never shortens |
| Text.StripExpand | ResXFile.cs:56 | for either platform line ending, Strip(Expand(s, nl)) == Strip(s), even when s still holds carriage returns |
| Text.Normalize | fmdev.ResX/ResXFile.cs:57-61 | the write normalisation leaves a single-line string as it is and, with "\n" as line ending, leaves no carriage return (its line endings in general: NormalizeUsesLineEnding) |
| Text.StripNewLine | ResXFile.cs:56 | either platform line ending strips to a single line feed |
| Text.StripConcat | fmdev.ResX/ResXFile.cs:40 | Strip distributes over concatenation |
| Text.ExpandConcat | fmdev.ResX/ResXFile.cs:57-61 | Expand distributes over concatenation |
| Text.NormalizeIdempotent | fmdev.ResX/ResXFile.cs:57 | normalising an already normalised value changes nothing |
| Text.UsesLineEndingConcat | fmdev.ResX/ResXFile.cs:57 | joining two strings whose line endings are all nl keeps that property |
| Text.ExpandUsesLineEnding | fmdev.ResX/ResXFile.cs:57 | expanding a string without carriage returns yields one whose every CR and LF belongs to an nl |
| Text.NormalizeUsesLineEnding | fmdev.ResX/ResXFile.cs:57 | the written form strips back to the input's Strip, and its only line ending is nl |
| Text.UsesLineEndingIsExpansion | fmdev.ResX/ResXFile.cs:61 | a string whose only line ending is nl is the expansion of its own Strip, so the normalised form is the unique such string |
| Text.UsesLineEndingTail | fmdev.ResX/ResXFile.cs:57 | dropping a prefix that does not end inside a "\r\n" keeps the line-ending property |
| Text.IsWhiteSpace | fmdev.ResX/ResXFile.cs:59 | space, tab, line feed and carriage return are white space; no ASCII letter or digit is |
| Text.IsNullOrWhiteSpace | fmdev.ResX/ResXFile.cs:59 | the front-to-back check is true exactly when every character is white space (so for "") |
| Text.StripKeepsBlankness | fmdev.ResX/ResXFile.cs:59 | a string is null-or-white-space exactly when its Strip is |
| Container.CommentText | fmdev.ResX/ResXFile.cs:36 | a node whose comment was never set reads as ""; otherwise its comment text |
| Container.ResourceWriter.constructor | fmdev.ResX/ResXFile.cs:53 | a freshly opened writer holds no records |
| Container.ResourceWriter.AddResource | fmdev.ResX/ResXFile.cs:64 | the node is appended after all earlier ones |
| LibraryResXFile.ReadEntry | fmdev.ResX/ResXFile.cs:35-41 | id is the record key; value has no CR and strips like the stored one; comment is "" under SkipComments or for a node without comment, else strips like the stored comment |
| LibraryResXFile.ReadAll | fmdev.ResX/ResXFile.cs:32-43 | exactly one entry per record, in enumeration order, each the ReadEntry of its record |
| LibraryResXFile.Read | fmdev.ResX/ResXFile.cs:26-49 | the loop returns ReadAll of the container under the given option (default None); every entry keeps its record's id and holds no CR in its value |
| LibraryResXFile.WriteRecord | fmdev.ResX/ResXFile.cs:57-62 | id unchanged; a comment is attached exactly when SkipComments is unset and the comment is not null or white space |
| LibraryResXFile.WriteAll | fmdev.ResX/ResXFile.cs:55-65 | one record per entry, in input order, each the WriteRecord of its entry |
| LibraryResXFile.Write | fmdev.ResX/ResXFile.cs:51-69 | the loop hands the writer exactly WriteAll of the entries (default None, which writes comments); ids are kept in order |
| LibraryResXFile.WriteRecordNormalizes | fmdev.ResX/ResXFile.cs:57-61 | each written value and comment strips to the input's Strip and uses newLine as its only line ending |
| LibraryResXFile.RoundTripComment | fmdev.ResX/ResXFile.cs:36-61 | the comment read back never holds a carriage return, and is "" for a blank comment |
| LibraryResXFile.EntryRoundTrip | fmdev.ResX/ResXFile.cs:36-40 | reading back a written entry gives its id, Strip(value), and Strip(comment) unless either side skips comments or the comment is blank, in which case "" |
| LibraryResXFile.RoundTrip | fmdev.ResX.Tests/ResXFileTests.cs:113-130 | Read after Write returns one entry per input, same ids in order, values stripped, comments as EntryRoundTrip says |
| LibraryResXFile.EntryReadBackIgnoresCarriageReturns | fmdev.ResX/ResXFile.cs:57 | two entries differing only in carriage returns read back identically after a write |
| LibraryResXFile.ReadBackIgnoresCarriageReturns | fmdev.ResX.Tests/TestData.cs:23-41 | entry lists differing only in carriage returns (Windows vs Unix line endings) read back identically after a write |
| RootResXFile.ReadEntry | ResXFile.cs:34-40 | id is the record key; value has no CR and strips like the stored one; comment is "" under None, strips like the stored comment under IncludeComments |
| RootResXFile.ReadAll | ResXFile.cs:32-42 | exactly one entry per record, in enumeration order |
| RootResXFile.Read | ResXFile.cs:25-48 | the loop returns ReadAll of the container under the given option (default IncludeComments); ids kept, values CR-free |
| RootResXFile.WriteRecord | ResXFile.cs:56-61 | id unchanged; a comment is attached exactly when IncludeComments is set and the comment is not blank; under None no comment is written |
| RootResXFile.WriteAll | ResXFile.cs:54-64 | one record per entry, in input order |
| RootResXFile.Write | ResXFile.cs:50-68 | the loop hands the writer exactly WriteAll of the entries (default None); ids kept in order |
| RootResXFile.WriteDoublesCarriageReturn | ResXFile.cs:56 | with newLine "\r\n" the value "\r\n" is written as "\r\r\n", which does not use "\r\n" as its only line ending |
| RootResXFile.WriteRecordStrips | ResXFile.cs:56-60 | despite the missing pre-strip, every written value and comment strips to the input's Strip |
| RootResXFile.RoundTripComment | ResXFile.cs:35-60 | the comment read back never holds a carriage return, and is "" for a blank comment |
| RootResXFile.EntryRoundTrip | ResXFile.cs:35-39 | reading back a written entry gives its id, Strip(value), and Strip(comment) when both sides include comments and it is not blank, else "" |
| RootResXFile.RoundTrip | ResXFile.cs:32-42 | Read after Write returns one entry per input, same ids in order, values stripped, comments as EntryRoundTrip says |
| ResXFileCopies.ReadOptionsCorrespond | ResXFile.cs:25 | the library's None reads like the root's IncludeComments and SkipComments like the root's None, so both Read defaults read comments |
| ResXFileCopies.WriteDefaultsDisagree | fmdev.ResX/ResXFile.cs:51 | under each copy's default Write option, the library writes a non-blank comment and the root copy writes none |
| ResXFileCopies.WritesAgreeWithoutCarriageReturns | ResXFile.cs:56 | on input without carriage returns both copies write the same records under corresponding options |
| ResXFileCopies.EntryRoundTripsAgree | ResXFile.cs:56 | one entry reads back alike through both copies under corresponding options |
| ResXFileCopies.RoundTripsAgree | ResXFile.cs:56-60 | with comments, Read after Write gives the same entries through both copies, carriage returns in the input or not |
| ResXFileCopies.RoundTripsAgreeWithoutComments | ResXFile.cs:56 | without comments, Read after Write gives the same entries through both copies |
| Designer.DirectoryPrefix | fmdev.ResX/ResXFile.cs:112 | the directory part is a prefix of the path, ends in a separator or is empty, and no separator follows it |
| Designer.IsNullOrEmpty | fmdev.ResX/ResXFile.cs:91-99 | a name passes the guard exactly when it is a string of at least one character; null and "" do not pass |
| Designer.FileNotFoundMessage | fmdev.ResX/ResXFile.cs:88 | the message quotes the .resx path verbatim between single quotes |
| Designer.IsRooted | fmdev.ResX/ResXFile.cs:112 | Path.IsPathRooted as Path.Combine applies it to the class-name argument: a path starting with a separator or with a drive (second character ':') is rooted; one with no separator and no drive is not |
| Designer.DesignerFileName | fmdev.ResX/ResXFile.cs:112 | a class name starting with a separator or a drive gives that name + ".Designer.cs" alone, as Path.Combine does for a rooted second argument; any other is appended to the directory part of the .resx path |
| Designer.GenerateDesignerFileAs | fmdev.ResX/ResXFile.cs:84-119 | missing file throws FileNotFound first, then an empty or null class name throws the class-name ArgumentError, then an empty or null namespace throws the namespace one; otherwise the file is written at DesignerFileName (beside the .resx for a class name without separator or drive) with the given access level, and the result is true exactly when no element is unmatched |
| Designer.GenerateDesignerFile | fmdev.ResX/ResXFile.cs:78-81 | the private overload with isInternal false; a written class is public |
| Designer.GenerateInternalDesignerFile | fmdev.ResX/ResXFile.cs:72-75 | the private overload with isInternal true; a written class is internal |
| Designer.EntryPointsDifferOnlyInAccess | fmdev.ResX/ResXFile.cs:72-81 | both entry points throw the same exceptions and write the same file; they differ only in access level, and in the result only through the builder |
| Designer.DirectoryPrefixOfChild | fmdev.ResX/ResXFile.cs:112 | the directory part of dir + name, for a separator-free name, is dir |
| Designer.DesignerFileIsSibling | fmdev.ResX/ResXFile.cs:112 | for a class name without separator or drive, the designer file lies in the .resx file's directory and is named className + ".Designer.cs" there |
| Designer.GuardOrder | fmdev.ResX.Tests/ResXFileTests.cs:167-180 | a missing file is reported before null names, a null class name before a null namespace |
| Samples.StripJoinLines | fmdev.ResX.Tests/TestData.cs:23-41 | lines joined by "\r\n" strip to the same lines joined by "\n" |
| Samples.JoinLinesNotBlank | fmdev.ResX.Tests/TestData.cs:27-39 | a join is not blank once one of its lines is not |
| Samples.SampleEntries | fmdev.ResX.Tests/TestData.cs:13-21 | three sample entries with distinct ids |
| Samples.SampleEntriesArePlain | fmdev.ResX.Tests/TestData.cs:13-21 | the sample entries hold no carriage return and have comments that are not blank |
| Samples.SingleLineEntriesWritten | fmdev.ResX.Tests/ResXFileTests.cs:16-57 | single-line entries with a non-blank comment are written verbatim, with the comment by default and without it under SkipComments |
| Samples.SampleEntriesAreSingleLine | fmdev.ResX.Tests/TestData.cs:13-21 | the sample values and comments hold no line break |
| Samples.SampleEntriesWritten | fmdev.ResX.Tests/ResXFileTests.cs:22-50 | each sample is written as a record with its id and value verbatim, with its comment by default and with no comment under SkipComments |
| Samples.PlainEntriesRoundTrip | fmdev.ResX.Tests/ResXFileTests.cs:113-130 | entries without carriage returns and with non-blank comments read back exactly; with SkipComments on read, with comment "" |
| Samples.SampleEntriesRoundTrip | fmdev.ResX.Tests/ResXFileTests.cs:105-137 | the samples read back exactly as written, and without comments under SkipComments |
| Samples.JoinedLinesReadBackAlike | fmdev.ResX.Tests/TestData.cs:23-41 | an entry whose lines are joined by "\r\n" and the same entry joined by "\n" read back identically, as the "\n" form |
| Samples.JoinedCommentKept | fmdev.ResX.Tests/ResXFileTests.cs:82-103 | once one comment line is not blank, the default Write attaches a comment and the default Read returns exactly the "\n"-joined entry |
| Samples.ExpandJoinLines | fmdev.ResX/ResXFile.cs:57-61 | lines without line breaks joined by "\n" become the same lines joined by the platform line ending when written |
| Samples.JoinedLinesWritten | fmdev.ResX.Tests/ResXFileTests.cs:59-103 | for lines without line breaks, the Windows-joined and the Unix-joined entry are both written as the lines joined by the platform line ending, with the comment attached: on "\r\n" the Windows entry verbatim, on "\n" the Unix entry verbatim, and with carriage returns removed the Unix entry's text on either platform |

## Left out

- The XML layout of a .resx file, its UTF-8 encoding, and the `using`/`Close`
  disposal of reader and writer are library I/O. A container is its ordered
  sequence of records, and a Write truncates it, so it starts from an empty
  writer.
- The `IDictionaryEnumerator` of `ResXResourceReader` is foreign library code.
  Enumeration is an index running over the record sequence.
- Null or empty ids are not modelled. The source does not check ids, and
  `ResXDataNode`'s constructor throws on them.
- LibraryResXFile.RoundTrip, RootResXFile.RoundTrip,
  LibraryResXFile.ReadBackIgnoresCarriageReturns, ResXFileCopies.RoundTripsAgree,
  ResXFileCopies.RoundTripsAgreeWithoutComments, Samples.PlainEntriesRoundTrip
  and Samples.SampleEntriesRoundTrip rest on one assumption: a container gives
  back every record written to it, in the order written. `ResXResourceReader`
  keeps the nodes it parses in a dictionary keyed by name, so this holds only
  for entries with distinct ids. For repeated ids these lemmas promise more
  records than the reader returns. The sample entries have distinct ids.
- The errors of opening a container are not modelled. `ResXResourceReader`
  throws when the file is missing or is not well-formed .resx, and Read
  always returns a list in the model.
- Null values and non-string resources are not modelled. A null value would
  make `Replace` throw, and `as string` yields null for a non-string resource.
  All string fields are non-null.
- The `[Flags]` bit values of `Option` are not modelled. Each copy has one flag,
  so `Option` is a two-valued datatype and `HasFlag` is equality with that flag.
- `StronglyTypedResourceBuilder.Create` and `CSharpCodeProvider` code emission
  are foreign. Only the list of unmatched elements is modelled, as a
  parameter. The content of the generated class is not modelled.
- Designer.DesignerFileName: `Path.GetDirectoryName` is modelled as the
  path up to and including its last '/' or '\\'. `Path.Combine` is modelled
  as returning a rooted file name alone and otherwise appending it to that
  directory part. Three things are not modelled:
  - separator normalisation;
  - a .resx path that is drive-relative, such as "C:x.resx";
  - the `ArgumentException` that `Path.GetDirectoryName` and `Path.Combine`
    throw for a path or class name with characters invalid in a path.
- `File.Exists` is a boolean parameter. The designer file is not modelled as
  being written to disk.
- The multi-line samples of `TestData` (Windows and Unix line endings) are
  stated generically, as lines joined by "\r\n" or by "\n". They are not
  spelled out as the six literal strings.
