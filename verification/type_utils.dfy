/** TypeUtils: translation of the compiler's type mirrors into the code
    model's types, and the two modifier/annotation tests the processor
    makes on elements. */
module TypeUtils {
  import opened JavaModel

  /** A type of the code model: `void`, a primitive, an array, or a class
      reference narrowed by its type arguments in order. */
  datatype JType =
    | JVoid
    | JPrimitive(primitive: PrimitiveKind)
    | JArray(component: JType)
    | JClassRef(fullName: string, typeArguments: seq<JType>)

  /** `toJType(mirror)`: void and the primitives map to the model's
      constants, an array to the array of its translated component, a
      declared type to a reference to its qualified name narrowed by each
      translated type argument, anything else to a reference named by the
      mirror's `toString()`. */
  function ToJType(t: TypeMirror): (r: JType)
    decreases t
  {
    match t
    case VoidType => JVoid
    case PrimitiveType(k) => JPrimitive(k)
    case ArrayType(c) => JArray(ToJType(c))
    case DeclaredType(q, _, args) => JClassRef(q, ToJTypes(args))
    case OtherType(text) => JClassRef(text, [])
  }

  function ToJTypes(args: seq<TypeMirror>): (r: seq<JType>)
    ensures |r| == |args|
    decreases args
  {
    if args == [] then [] else [ToJType(args[0])] + ToJTypes(args[1..])
  }

  /** The keywords and punctuation of printed type names. */
  const VOID_NAME: string := "void"
  const BOOLEAN_NAME: string := "boolean"
  const BYTE_NAME: string := "byte"
  const SHORT_NAME: string := "short"
  const INT_NAME: string := "int"
  const LONG_NAME: string := "long"
  const CHAR_NAME: string := "char"
  const FLOAT_NAME: string := "float"
  const DOUBLE_NAME: string := "double"
  const ARRAY_SUFFIX: string := "[]"
  const OPEN_ARGS: string := "<"
  const CLOSE_ARGS: string := ">"
  const TYPE_ARG_SEPARATOR: string := ","

  /** The keyword of a primitive type. */
  function PrimitiveName(k: PrimitiveKind): string
  {
    match k
    case Boolean => BOOLEAN_NAME
    case Byte => BYTE_NAME
    case Short => SHORT_NAME
    case Int => INT_NAME
    case Long => LONG_NAME
    case Char => CHAR_NAME
    case Float => FLOAT_NAME
    case Double => DOUBLE_NAME
  }

  /** Type arguments joined by commas, as both javac and the code model
      print them. */
  function JoinArguments(parts: seq<string>): string
  {
    if parts == [] then ""
    else if |parts| == 1 then parts[0]
    else parts[0] + TYPE_ARG_SEPARATOR + JoinArguments(parts[1..])
  }

  /** The compiler's `toString()` of a type mirror. */
  function MirrorText(t: TypeMirror): string
    decreases t
  {
    match t
    case VoidType => VOID_NAME
    case PrimitiveType(k) => PrimitiveName(k)
    case ArrayType(c) => MirrorText(c) + ARRAY_SUFFIX
    case DeclaredType(q, _, args) =>
      if args == [] then q else q + OPEN_ARGS + JoinArguments(MirrorTexts(args)) + CLOSE_ARGS
    case OtherType(text) => text
  }

  function MirrorTexts(args: seq<TypeMirror>): (r: seq<string>)
    ensures |r| == |args|
    decreases args
  {
    if args == [] then [] else [MirrorText(args[0])] + MirrorTexts(args[1..])
  }

  /** The code model's `fullName()` of a type. */
  function FullName(j: JType): string
    decreases j
  {
    match j
    case JVoid => VOID_NAME
    case JPrimitive(k) => PrimitiveName(k)
    case JArray(c) => FullName(c) + ARRAY_SUFFIX
    case JClassRef(n, args) =>
      if args == [] then n else n + OPEN_ARGS + JoinArguments(FullNames(args)) + CLOSE_ARGS
  }

  function FullNames(args: seq<JType>): (r: seq<string>)
    ensures |r| == |args|
    decreases args
  {
    if args == [] then [] else [FullName(args[0])] + FullNames(args[1..])
  }

  /** The generated code names every type exactly as the compiler printed
      it: translation loses nothing that shows in source text. */
  lemma {:induction false} ToJTypeKeepsText(t: TypeMirror)
    ensures FullName(ToJType(t)) == MirrorText(t)
    decreases t
  {
    match t
    case VoidType =>
    case PrimitiveType(k) =>
    case ArrayType(c) =>
      ToJTypeKeepsText(c);
    case DeclaredType(q, _, args) =>
      ToJTypesKeepText(args);
    case OtherType(text) =>
  }

  lemma {:induction false} ToJTypesKeepText(args: seq<TypeMirror>)
    ensures FullNames(ToJTypes(args)) == MirrorTexts(args)
    decreases args
  {
    if args != [] {
      ToJTypeKeepsText(args[0]);
      ToJTypesKeepText(args[1..]);
    }
  }

  /** The type arguments are translated one by one, in order. */
  lemma {:induction false} ToJTypesPointwise(args: seq<TypeMirror>)
    ensures forall i :: 0 <= i < |args| ==> ToJTypes(args)[i] == ToJType(args[i])
    decreases args
  {
    if args != [] {
      ToJTypesPointwise(args[1..]);
    }
  }

  /** The kinds of type are kept: void, primitive and array come from, and
      only from, the same kind of mirror. */
  lemma ToJTypeKinds(t: TypeMirror)
    ensures ToJType(t).JVoid? <==> t.VoidType?
    ensures ToJType(t).JPrimitive? <==> t.PrimitiveType?
    ensures t.PrimitiveType? ==> ToJType(t).primitive == t.primitive
    ensures ToJType(t).JArray? <==> t.ArrayType?
    ensures t.ArrayType? ==> ToJType(t).component == ToJType(t.component)
  {
  }

  /** `erasure()`: a class reference without its type arguments. */
  function Erasure(j: JType): (r: JType)
    ensures r.JClassRef? ==> r.typeArguments == []
    ensures j.JClassRef? ==> r.JClassRef? && r.fullName == j.fullName
    ensures !j.JClassRef? ==> r == j
  {
    if j.JClassRef? then JClassRef(j.fullName, []) else j
  }

  /** The erased translation of a declared type is named by its qualified
      name, whatever its type arguments. */
  lemma ErasureOfDeclared(q: string, s: string, args: seq<TypeMirror>)
    ensures Erasure(ToJType(DeclaredType(q, s, args))) == JClassRef(q, [])
  {
  }

  /** `isNotNull(variable)`: it carries `@NonNull`. */
  predicate IsNotNull(p: Parameter)
  {
    FindAnnotation(p.annotations, NON_NULL).Some?
  }

  lemma IsNotNullIff(p: Parameter)
    ensures IsNotNull(p) <==> exists a :: a in p.annotations && a.qualifiedName == NON_NULL
  {
    var r := FindAnnotation(p.annotations, NON_NULL);
    if r.None? {
      forall a | a in p.annotations
        ensures a.qualifiedName != NON_NULL
      {
        var i :| 0 <= i < |p.annotations| && p.annotations[i] == a;
      }
    }
  }

  /** `isPublic(element)`: the modifier loop, stopping at the first PUBLIC. */
  function IsPublic(modifiers: seq<Modifier>): (b: bool)
    ensures b <==> Public in modifiers
  {
    if modifiers == [] then false
    else if modifiers[0] == Public then true
    else IsPublic(modifiers[1..])
  }
}
