/** GenerationError: a problem the annotation processor found, with its
    severity and the element it concerns, and how it is printed. */
module GenerationError {
  import opened Wrappers

  datatype Code =
    | ER0001 | ER0002 | ER0003 | ER0004 | ER0005 | ER0006 | ER0007
    | ER0008 | ER0009 | ER0010 | ER0011

  /** The message texts of the codes, as GenerationError defines them. */
  const ER0001_TEXT: string := "Only interfaces can be annotated by @ActorInterface annotation"
  const ER0002_TEXT: string := "Actor interface can't be private"
  const ER0003_TEXT: string := "Actor's methods can not throw exceptions"
  const ER0004_TEXT: string := "Actor's methods can not be generic methods"
  const ER0005_TEXT: string := "Actor's methods can return only Promise"
  const ER0006_TEXT: string := "Actor's methods which return Promise MUST be annotated by @NonNull annotation"
  const ER0007_TEXT: string := "Specify promised type"
  const ER0008_TEXT: string := "Only packages can be annotated by @ActorsPackage annotation"
  const ER0009_TEXT: string := "Only one package can be marked by @ActorsPackage"
  const ER0010_TEXT: string := "You MUST mark package which will contain actors builder by @ActorsPackage annotation"

  /** The message text of each code. ER0011 is used by the argument check
      but no text is defined for it. */
  function Text(code: Code): Option<string>
  {
    match code
    case ER0001 => Some(ER0001_TEXT)
    case ER0002 => Some(ER0002_TEXT)
    case ER0003 => Some(ER0003_TEXT)
    case ER0004 => Some(ER0004_TEXT)
    case ER0005 => Some(ER0005_TEXT)
    case ER0006 => Some(ER0006_TEXT)
    case ER0007 => Some(ER0007_TEXT)
    case ER0008 => Some(ER0008_TEXT)
    case ER0009 => Some(ER0009_TEXT)
    case ER0010 => Some(ER0010_TEXT)
    case ER0011 => None
  }

  /** Every code but ER0011 has a text, and no two codes share one, so a
      printed message names its code. */
  lemma TextsDistinct(a: Code, b: Code)
    ensures Text(a).None? <==> a == ER0011
    ensures Text(a).Some? && Text(a) == Text(b) ==> a == b
  {
    if Text(a).Some? && Text(a) == Text(b) {
      TextLength(a);
      TextLength(b);
    }
  }

  /** The length of each code's text; all ten differ. */
  function Length(code: Code): nat
  {
    match code
    case ER0001 => 62 case ER0002 => 32 case ER0003 => 40 case ER0004 => 42
    case ER0005 => 39 case ER0006 => 77 case ER0007 => 21 case ER0008 => 59
    case ER0009 => 48 case ER0010 => 84 case ER0011 => 0
  }

  lemma TextLength(code: Code)
    ensures Text(code).Some? ==> |Text(code).value| == Length(code)
  {
    match code
    case ER0001 => case ER0002 => case ER0003 => case ER0004 =>
    case ER0005 => case ER0006 => case ER0007 => case ER0008 =>
    case ER0009 => case ER0010 => case ER0011 =>
  }

  datatype GenerationError = GenerationError(isError: bool, code: Code, element: Option<nat>)

  /** `new GenerationError(message, element)`: an error. */
  function NewError(code: Code, element: nat): (e: GenerationError)
    ensures e.isError && e.code == code && e.element == Some(element)
  {
    GenerationError(true, code, Some(element))
  }

  /** `new GenerationError(message)`: an error about no element. */
  function NewGlobalError(code: Code): (e: GenerationError)
    ensures e.isError && e.code == code && e.element.None?
  {
    GenerationError(true, code, None)
  }

  datatype Kind = ErrorKind | WarningKind

  /** One `Messager.printMessage` call: with or without an element. */
  datatype Diagnostic = Diagnostic(kind: Kind, code: Code, element: Option<nat>)

  /** `print(messager)`: ERROR for errors, WARNING otherwise, attaching the
      element when there is one. */
  function Print(e: GenerationError): (d: Diagnostic)
  {
    Diagnostic(if e.isError then ErrorKind else WarningKind, e.code, e.element)
  }

  /** Printing loses nothing: the error can be read back from its
      diagnostic. */
  function Unprint(d: Diagnostic): GenerationError
  {
    GenerationError(d.kind == ErrorKind, d.code, d.element)
  }

  lemma PrintReadsBack(e: GenerationError)
    ensures Unprint(Print(e)) == e
    ensures Print(e).kind == ErrorKind <==> e.isError
    ensures Print(e).element == e.element
  {
  }

  /** Whatever the constructors build is printed as an ERROR. */
  lemma ConstructedErrorsPrintAsErrors(code: Code, element: nat)
    ensures Print(NewError(code, element)) == Diagnostic(ErrorKind, code, Some(element))
    ensures Print(NewGlobalError(code)) == Diagnostic(ErrorKind, code, None)
  {
  }

  /** The codes of a list of problems, in order. */
  function Codes(errors: seq<GenerationError>): (r: seq<Code>)
    ensures |r| == |errors| && forall i :: 0 <= i < |errors| ==> r[i] == errors[i].code
  {
    if errors == [] then [] else [errors[0].code] + Codes(errors[1..])
  }

  /** Whether any of the errors is an error rather than a warning. */
  predicate AnyError(errors: seq<GenerationError>)
  {
    exists i :: 0 <= i < |errors| && errors[i].isError
  }

  /** Appending errors adds an error exactly when the appended part has one. */
  lemma AnyErrorAppend(a: seq<GenerationError>, b: seq<GenerationError>)
    ensures AnyError(a + b) <==> AnyError(a) || AnyError(b)
  {
    if AnyError(a + b) {
      var i :| 0 <= i < |a + b| && (a + b)[i].isError;
      if i >= |a| {
        assert b[i - |a|] == (a + b)[i];
      }
    }
    if AnyError(a) {
      var i :| 0 <= i < |a| && a[i].isError;
      assert (a + b)[i] == a[i];
    }
    if AnyError(b) {
      var i :| 0 <= i < |b| && b[i].isError;
      assert (a + b)[|a| + i] == b[i];
    }
  }
}
