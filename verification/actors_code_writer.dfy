/** ActorsCodeWriter: the code model asks for a file by package and file
    name (`Name.java`); the writer asks the annotation-processing Filer for
    the source file `<package>.<Name>`. */
module ActorsCodeWriter {
  import opened Wrappers
  import opened Text

  /** Dropping the empty strings at the end, as `split` does. */
  function DropTrailingEmpty(parts: seq<string>): (r: seq<string>)
    ensures |r| <= |parts| && r == parts[..|r|]
    ensures r != [] ==> r[|r| - 1] != ""
    ensures forall i :: |r| <= i < |parts| ==> parts[i] == ""
  {
    if parts != [] && parts[|parts| - 1] == "" then DropTrailingEmpty(parts[..|parts| - 1]) else parts
  }

  /** `fileName.split("\\.")`: a string without a dot is its own only piece;
      otherwise the pieces with trailing empty ones dropped. */
  function JavaSplit(s: string): seq<string>
  {
    if '.' !in s then [s] else DropTrailingEmpty(Split(s, '.'))
  }

  const INVALID_NAME: string := "Invalid class file name: "

  /** `extractClassName(fileName)`: the part before the dot when the name
      splits into exactly two pieces, else an IOException. */
  function ExtractClassName(fileName: string): (r: Result<string, string>)
    ensures r.Err? ==> r.error == INVALID_NAME + fileName
    ensures r.Ok? ==> '.' !in r.value
  {
    var path := JavaSplit(fileName);
    if |path| != 2 then Err(INVALID_NAME + fileName) else Ok(path[0])
  }

  /** A class name and a non-empty extension, neither with a dot, give back
      the class name. */
  lemma ExtractClassNameOfFileName(name: string, extension: string)
    requires '.' !in name && '.' !in extension && extension != ""
    ensures ExtractClassName(name + "." + extension) == Ok(name)
  {
    var f := name + "." + extension;
    assert f[|name|] == '.';
    SplitPrefix(name, '.', extension);
    SplitFree(extension, '.');
    assert Split(f, '.') == [name, extension];
  }

  /** Whatever is accepted is such a file name, up to trailing dots: the
      class name, a dot, a non-empty extension and then only dots. */
  lemma ExtractClassNameAccepts(fileName: string)
    requires ExtractClassName(fileName).Ok?
    ensures var name := ExtractClassName(fileName).value;
      exists extension, tail ::
        && '.' !in extension && extension != ""
        && (forall i :: 0 <= i < |tail| ==> tail[i] == '.')
        && fileName == name + "." + extension + tail
  {
    var all := Split(fileName, '.');
    assert '.' in fileName;
    var path := DropTrailingEmpty(all);
    assert JavaSplit(fileName) == path;
    assert |path| == 2 && path == all[..2];
    assert all[1] == path[1];
    SplitJoins(fileName, '.');
    TrailingEmptyJoin(all);
    var tail := Dots(|all| - 2);
    assert fileName == all[0] + "." + all[1] + tail;
  }

  /** Two pieces followed by empty ones join to the two pieces and dots. */
  lemma TrailingEmptyJoin(all: seq<string>)
    requires |all| >= 2 && forall i :: 2 <= i < |all| ==> all[i] == ""
    ensures Join(all, ".") == all[0] + "." + all[1] + Dots(|all| - 2)
  {
    JoinFirstTwo(all);
    if |all| > 2 {
      var rest := all[2..];
      assert forall i :: 0 <= i < |rest| ==> rest[i] == "";
      EmptyPiecesJoin(rest);
    }
  }

  /** Joining two or more pieces is the first, a dot and the rest. */
  lemma JoinFirstTwo(parts: seq<string>)
    requires |parts| >= 2
    ensures |parts| == 2 ==> Join(parts, ".") == parts[0] + "." + parts[1]
    ensures |parts| > 2 ==> Join(parts, ".") == parts[0] + "." + parts[1] + "." + Join(parts[2..], ".")
  {
    var rest := parts[1..];
    assert Join(parts, ".") == parts[0] + "." + Join(rest, ".");
    if |parts| > 2 {
      var j := Join(parts[2..], ".");
      assert rest[0] == parts[1] && rest[1..] == parts[2..];
      assert Join(rest, ".") == parts[1] + "." + j;
      Associate(parts[0], parts[1], j);
    }
  }

  lemma Associate(a: string, b: string, c: string)
    ensures a + "." + (b + "." + c) == a + "." + b + "." + c
  {
  }

  /** `n` dots. */
  function Dots(n: nat): (r: string)
    ensures |r| == n && forall i :: 0 <= i < n ==> r[i] == '.'
  {
    if n == 0 then "" else "." + Dots(n - 1)
  }

  /** Empty pieces join to dots only. */
  lemma {:induction false} EmptyPiecesJoin(parts: seq<string>)
    requires forall i :: 0 <= i < |parts| ==> parts[i] == ""
    ensures |parts| >= 1 ==> Join(parts, ".") == Dots(|parts| - 1)
  {
    if |parts| > 1 {
      EmptyPiecesJoin(parts[1..]);
    }
  }

  const NULL_SOURCE_OPEN: string := "Source file for "
  const NULL_SOURCE_CLOSE: string := " is null"

  /** What the Filer's `createSourceFile` gives for a name: a file object,
      whose `openOutputStream()` opens a stream or throws an IOException
      with a message; null; or an IOException of its own. */
  datatype Created = FileObject(openOutputStream: Result<nat, string>) | NullObject | CreateFailed(message: string)

  /** What `openBinary` returns: the stream of the source file it created,
      or the IOException's message. */
  datatype Opened = Opened(sourceName: string, stream: nat) | Failed(message: string)

  /** `openBinary(pkg, name)`. `createSourceFile` is the Filer's, given as a
      function from the requested name to what it creates. */
  function OpenBinary(packageName: string, name: string, createSourceFile: string -> Created): (r: Opened)
    ensures ExtractClassName(name).Err? ==> r == Failed(ExtractClassName(name).error)
    ensures ExtractClassName(name).Ok? ==>
      var sourceName := packageName + "." + ExtractClassName(name).value;
      var created := createSourceFile(sourceName);
      && (r.Opened? <==> created.FileObject? && created.openOutputStream.Ok?)
      && (r.Opened? ==> r == Opened(sourceName, created.openOutputStream.value))
      && (created.NullObject? ==> r == Failed(NULL_SOURCE_OPEN + name + NULL_SOURCE_CLOSE))
      && (created.CreateFailed? ==> r == Failed(created.message))
      && (created.FileObject? && created.openOutputStream.Err? ==> r == Failed(created.openOutputStream.error))
  {
    match ExtractClassName(name)
    case Err(e) => Failed(e)
    case Ok(className) =>
      var sourceName := packageName + "." + className;
      match createSourceFile(sourceName)
      case CreateFailed(message) => Failed(message)
      case NullObject => Failed(NULL_SOURCE_OPEN + name + NULL_SOURCE_CLOSE)
      case FileObject(open) =>
        match open
        case Err(message) => Failed(message)
        case Ok(stream) => Opened(sourceName, stream)
  }

  /** A file `Name.ext` of a package becomes the source file
      `<package>.Name`: its stream once the Filer creates and opens it, and
      otherwise the IOException of whichever step failed. */
  lemma OpenBinaryOfFileName(packageName: string, className: string, extension: string, createSourceFile: string -> Created)
    requires '.' !in className && '.' !in extension && extension != ""
    ensures var created := createSourceFile(packageName + "." + className);
      OpenBinary(packageName, className + "." + extension, createSourceFile)
        == match created
           case FileObject(Ok(stream)) => Opened(packageName + "." + className, stream)
           case FileObject(Err(message)) => Failed(message)
           case CreateFailed(message) => Failed(message)
           case NullObject => Failed(NULL_SOURCE_OPEN + (className + "." + extension) + NULL_SOURCE_CLOSE)
  {
    ExtractClassNameOfFileName(className, extension);
    OpenBinaryOfClass(packageName, className + "." + extension, className, createSourceFile);
  }

  lemma OpenBinaryOfClass(packageName: string, name: string, className: string, createSourceFile: string -> Created)
    requires ExtractClassName(name) == Ok(className)
    ensures var created := createSourceFile(packageName + "." + className);
      OpenBinary(packageName, name, createSourceFile)
        == match created
           case FileObject(Ok(stream)) => Opened(packageName + "." + className, stream)
           case FileObject(Err(message)) => Failed(message)
           case CreateFailed(message) => Failed(message)
           case NullObject => Failed(NULL_SOURCE_OPEN + name + NULL_SOURCE_CLOSE)
  {
  }
}
