/** The part of the Java language model (javax.lang.model) the annotation
    processor looks at: element kinds, modifiers, type mirrors, annotation
    mirrors, and the elements an annotated type is made of. Every element
    carries an `id` so that diagnostics can point at it. */
module JavaModel {
  import opened Wrappers

  datatype ElementKind =
    | PackageKind | ClassKind | InterfaceKind | EnumKind | AnnotationTypeKind
    | MethodKind | ConstructorKind | FieldKind | OtherKind

  datatype Modifier = Public | Protected | Private | Abstract | Static | Final | OtherModifier

  datatype PrimitiveKind = Boolean | Byte | Short | Int | Long | Char | Float | Double

  /** A type as the compiler presents it. `OtherType` stands for type
      variables, wildcards and the rest, known only by their `toString()`. */
  datatype TypeMirror =
    | VoidType
    | PrimitiveType(primitive: PrimitiveKind)
    | ArrayType(component: TypeMirror)
    | DeclaredType(qualifiedName: string, simpleName: string, arguments: seq<TypeMirror>)
    | OtherType(text: string)

  /** An annotation on an element, with its qualified type name and, for
      `@SecureParameter`, the int it carries. */
  datatype AnnotationMirror = AnnotationMirror(qualifiedName: string, value: int)

  const NON_NULL: string := "android.support.annotation.NonNull"
  const SECURE_PARAMETER: string := "com.truecaller.androidactors.SecureParameter"
  const PROMISE_SIMPLE_NAME: string := "Promise"
  const PROMISE_CANONICAL_NAME: string := "com.truecaller.androidactors.Promise"

  datatype Parameter = Parameter(id: nat, name: string, paramType: TypeMirror, annotations: seq<AnnotationMirror>)

  datatype MethodElement = MethodElement(
    id: nat,
    name: string,
    thrown: seq<TypeMirror>,
    typeParameters: seq<string>,
    returnType: TypeMirror,
    annotations: seq<AnnotationMirror>,
    parameters: seq<Parameter>)

  /** A member of a type: a method, or anything else known by its kind. */
  datatype Member = MethodMember(declared: MethodElement) | OtherMember(kind: ElementKind)

  /** An element enclosing a type, known by its kind and names. */
  datatype Scope = Scope(kind: ElementKind, simpleName: string, qualifiedName: string)

  /** An element annotated by one of the processor's annotations, with its
      enclosing elements innermost first. */
  datatype Element = Element(
    id: nat,
    kind: ElementKind,
    modifiers: seq<Modifier>,
    simpleName: string,
    qualifiedName: string,
    enclosing: seq<Scope>,
    members: seq<Member>)

  /** The first annotation of the given type, as `getAnnotation` finds it. */
  function FindAnnotation(annotations: seq<AnnotationMirror>, name: string): (r: Option<AnnotationMirror>)
    ensures r.None? <==> forall i :: 0 <= i < |annotations| ==> annotations[i].qualifiedName != name
    ensures r.Some? ==> r.value in annotations && r.value.qualifiedName == name
  {
    if annotations == [] then None
    else if annotations[0].qualifiedName == name then Some(annotations[0])
    else FindAnnotation(annotations[1..], name)
  }

  /** The methods among a type's members, in declaration order. */
  function MethodsOf(members: seq<Member>): (r: seq<MethodElement>)
    ensures |r| <= |members|
  {
    if members == [] then []
    else (if members[0].MethodMember? then [members[0].declared] else []) + MethodsOf(members[1..])
  }

  /** Filtering keeps exactly the method members. */
  lemma {:induction false} MethodsOfExactly(members: seq<Member>)
    ensures forall m :: m in MethodsOf(members) <==> MethodMember(m) in members
  {
    if members != [] {
      MethodsOfExactly(members[1..]);
      assert members == [members[0]] + members[1..];
    }
  }

  /** Filtering keeps their order: the methods of two stretches of members
      are those of the first followed by those of the second. */
  lemma {:induction false} MethodsOfAppend(a: seq<Member>, b: seq<Member>)
    ensures MethodsOf(a + b) == MethodsOf(a) + MethodsOf(b)
  {
    if a == [] {
      assert a + b == b;
    } else {
      var ab := a + b;
      assert ab[0] == a[0] && ab[1..] == a[1..] + b;
      MethodsOfAppend(a[1..], b);
    }
  }
}
