/** GenerateDesignerFile of the fmdev.ResX library: after three guards it
    asks the strongly-typed resource builder for the accessor class of a
    .resx file, writes the class next to that file as
    <className>.Designer.cs, and reports whether every resource became a
    property. The builder and the C# emitter are not modelled; the builder
    is a parameter that yields the ids it could not turn into properties. */
module Designer {

  /** A .NET string reference, which may be null. */
  datatype NullableString = Null | Str(s: string)

  /** string.IsNullOrEmpty: a name passes this guard exactly when it is a
      string with at least one character. */
  predicate IsNullOrEmpty(n: NullableString): (b: bool)
    ensures !b ==> n.Str? && |n.s| > 0
    ensures n.Str? && |n.s| > 0 ==> !b
    ensures n == Str("") ==> b
  {
    n.Null? || n.s == []
  }

  /** StronglyTypedResourceBuilder.Create, reduced to the one result this
      code consumes: given the .resx path, the class name, the namespace name
      and whether the class is internal, the ids of the resources that could
      not be made into properties (its unmatchedElements out-parameter). */
  type UnmatchedElements = (string, string, string, bool) -> seq<string>

  /** The exceptions the guards throw. */
  datatype Error = FileNotFound(message: string) | ArgumentError(message: string)

  const ClassNameMessage := "The class name must not be empty or null"
  const NamespaceMessage := "The namespace name must not be empty or null"

  /** The message of the FileNotFoundException: the path, verbatim, between
      single quotes. */
  function FileNotFoundMessage(resXFile: string): (message: string)
    ensures |message| == |resXFile| + 30
    ensures message[9] == '\'' && message[10 + |resXFile|] == '\''
    ensures message[10..10 + |resXFile|] == resXFile
  {
    "The file '" + resXFile + "' could not be found"
  }

  /** The outcome of a call: an exception, or the designer file written, with
      the access level the class was generated with, the resources the
      builder could not match, and the boolean the call returns. */
  datatype Outcome =
    | Thrown(error: Error)
    | Written(designerFileName: string, isInternal: bool, unmatched: seq<string>, allGenerated: bool)

  /** Path separators of .NET on Windows: DirectorySeparatorChar and
      AltDirectorySeparatorChar. */
  predicate IsDirectorySeparator(c: char) {
    c == '\\' || c == '/'
  }

  predicate HasNoSeparator(name: string) {
    forall i :: 0 <= i < |name| ==> !IsDirectorySeparator(name[i])
  }

  /** The directory part of a path together with the separator that
      Path.Combine puts between it and a file name: everything up to and
      including the last separator, or nothing when there is none. */
  function DirectoryPrefix(path: string): (dir: string)
    ensures dir <= path
    ensures dir == [] || IsDirectorySeparator(dir[|dir| - 1])
    ensures HasNoSeparator(path[|dir|..])
  {
    if path == [] then []
    else if IsDirectorySeparator(path[|path| - 1]) then path
    else
      var dir := DirectoryPrefix(path[..|path| - 1]);
      assert path[|dir|..] == path[..|path| - 1][|dir|..] + [path[|path| - 1]];
      dir
  }

  /** Path.IsPathRooted on Windows: the path starts with a separator, or its
      second character is the volume separator ':'. */
  predicate IsRooted(path: string): (b: bool)
    ensures |path| >= 1 && IsDirectorySeparator(path[0]) ==> b
    ensures |path| >= 2 && path[1] == ':' ==> b
    ensures HasNoSeparator(path) && (|path| < 2 || path[1] != ':') ==> !b
  {
    || (|path| >= 1 && IsDirectorySeparator(path[0]))
    || (|path| >= 2 && path[1] == ':')
  }

  /** Path.Combine(Path.GetDirectoryName(resXFile), className + ".Designer.cs").
      Path.Combine returns its second argument alone when that is rooted, so
      a class name that starts with a separator or a drive leaves the
      directory of the .resx file; any other is placed in that directory. */
  function DesignerFileName(resXFile: string, className: string): (path: string)
    ensures IsRooted(className) ==> path == className + ".Designer.cs"
    ensures !IsRooted(className) ==> path == DirectoryPrefix(resXFile) + className + ".Designer.cs"
  {
    var name := className + ".Designer.cs";
    if IsRooted(name) then name else DirectoryPrefix(resXFile) + name
  }

  /** The private GenerateDesignerFile: the existence check, then the class
      name check, then the namespace check; when all pass, the designer file
      is written beside the .resx file and the result is true exactly when
      the builder matched every resource. The file system is reduced to
      whether the .resx file exists. */
  function GenerateDesignerFileAs(resXFile: string, fileExists: bool, className: NullableString,
                                  namespaceName: NullableString, isInternal: bool,
                                  create: UnmatchedElements): (o: Outcome)
    ensures !fileExists ==> o == Thrown(FileNotFound(FileNotFoundMessage(resXFile)))
    ensures fileExists && IsNullOrEmpty(className) ==> o == Thrown(ArgumentError(ClassNameMessage))
    ensures (fileExists && !IsNullOrEmpty(className) && IsNullOrEmpty(namespaceName)) ==>
              o == Thrown(ArgumentError(NamespaceMessage))
    ensures o.Written? <==> fileExists && !IsNullOrEmpty(className) && !IsNullOrEmpty(namespaceName)
    ensures o.Written? ==>
              && o.isInternal == isInternal
              && o.unmatched == create(resXFile, className.s, namespaceName.s, isInternal)
              && (o.allGenerated <==> |o.unmatched| == 0)
              && o.designerFileName == DesignerFileName(resXFile, className.s)
  {
    if !fileExists then Thrown(FileNotFound(FileNotFoundMessage(resXFile)))
    else if IsNullOrEmpty(className) then Thrown(ArgumentError(ClassNameMessage))
    else if IsNullOrEmpty(namespaceName) then Thrown(ArgumentError(NamespaceMessage))
    else
      var unmatched := create(resXFile, className.s, namespaceName.s, isInternal);
      Written(DesignerFileName(resXFile, className.s), isInternal, unmatched, |unmatched| == 0)
  }

  /** The public GenerateDesignerFile: generates a public class. */
  function GenerateDesignerFile(resXFile: string, fileExists: bool, className: NullableString,
                                namespaceName: NullableString, create: UnmatchedElements): (o: Outcome)
    ensures o == GenerateDesignerFileAs(resXFile, fileExists, className, namespaceName, false, create)
    ensures o.Written? ==> !o.isInternal && o.unmatched == create(resXFile, className.s, namespaceName.s, false)
  {
    GenerateDesignerFileAs(resXFile, fileExists, className, namespaceName, false, create)
  }

  /** GenerateInternalDesignerFile: generates an internal class. */
  function GenerateInternalDesignerFile(resXFile: string, fileExists: bool, className: NullableString,
                                        namespaceName: NullableString, create: UnmatchedElements): (o: Outcome)
    ensures o == GenerateDesignerFileAs(resXFile, fileExists, className, namespaceName, true, create)
    ensures o.Written? ==> o.isInternal && o.unmatched == create(resXFile, className.s, namespaceName.s, true)
  {
    GenerateDesignerFileAs(resXFile, fileExists, className, namespaceName, true, create)
  }

  /** The two public entry points differ only in the access level they ask
      for: they throw the same exceptions and write the same file, and when
      the builder's answer does not depend on the access level they return
      the same result. */
  lemma EntryPointsDifferOnlyInAccess(resXFile: string, fileExists: bool, className: NullableString,
                                      namespaceName: NullableString, create: UnmatchedElements)
    ensures var pub := GenerateDesignerFile(resXFile, fileExists, className, namespaceName, create);
      var internal := GenerateInternalDesignerFile(resXFile, fileExists, className, namespaceName, create);
      && (pub.Thrown? <==> internal.Thrown?)
      && (pub.Thrown? ==> pub == internal)
      && (pub.Written? ==>
            && pub.designerFileName == internal.designerFileName
            && !pub.isInternal && internal.isInternal
            && (create(resXFile, className.s, namespaceName.s, false) == create(resXFile, className.s, namespaceName.s, true) ==>
                  pub.allGenerated == internal.allGenerated))
  {
  }

  /** Any prefix that ends in a separator is the directory prefix of itself
      followed by a separator-free name. */
  lemma {:induction false} DirectoryPrefixOfChild(dir: string, name: string)
    requires dir == [] || IsDirectorySeparator(dir[|dir| - 1])
    requires HasNoSeparator(name)
    ensures DirectoryPrefix(dir + name) == dir
  {
    if name == [] {
      assert dir + name == dir;
    } else {
      var path := dir + name;
      assert path[..|path| - 1] == dir + name[..|name| - 1];
      assert path[|path| - 1] == name[|name| - 1];
      DirectoryPrefixOfChild(dir, name[..|name| - 1]);
    }
  }

  /** For a class name without separators and without a drive, as a C#
      identifier is, the designer file lies in the directory of the .resx
      file, and its name there is className + ".Designer.cs". */
  lemma DesignerFileIsSibling(resXFile: string, className: string)
    requires HasNoSeparator(className) && !IsRooted(className)
    ensures DirectoryPrefix(DesignerFileName(resXFile, className)) == DirectoryPrefix(resXFile)
    ensures var f := DesignerFileName(resXFile, className);
      f[|DirectoryPrefix(resXFile)|..] == className + ".Designer.cs"
  {
    var dir := DirectoryPrefix(resXFile);
    var name := className + ".Designer.cs";
    assert HasNoSeparator(".Designer.cs");
    assert HasNoSeparator(name) by {
      forall i | 0 <= i < |name| ensures !IsDirectorySeparator(name[i]) {
        if i >= |className| {
          assert name[i] == ".Designer.cs"[i - |className|];
        }
      }
    }
    assert DesignerFileName(resXFile, className) == dir + name;
    DirectoryPrefixOfChild(dir, name);
  }

  /** InvalidGenerateDesignerFileTest: a missing .resx file is reported
      before the names are looked at, a null class name before a null
      namespace. */
  lemma GuardOrder(create: UnmatchedElements)
    ensures GenerateDesignerFile("ThisResXFileDoesNotExist.rex", false, Str("someclass"), Str("some.namespace"), create).error.FileNotFound?
    ensures GenerateDesignerFile("tmp.resx", false, Null, Null, create).error.FileNotFound?
    ensures GenerateDesignerFile("tmp.resx", true, Null, Null, create) == Thrown(ArgumentError(ClassNameMessage))
    ensures GenerateDesignerFile("tmp.resx", true, Str("myClass"), Null, create) == Thrown(ArgumentError(NamespaceMessage))
  {
  }
}
