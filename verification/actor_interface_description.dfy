/** ActorInterfaceDescriptionImpl: what the processor learns from an
    element annotated with @ActorInterface — whether it is a usable
    interface, its methods in declaration order, and, for each method and
    argument, the problems that keep a proxy from being generated. */
module ActorInterfaceDescription {
  import opened Wrappers
  import opened JavaModel
  import opened GenerationError

  /** The two bounds of `@SecureParameter` levels. */
  datatype SecureLevels = SecureLevels(noInfo: int, fullInfo: int)

  /** A method argument: its name and type, the annotations forwarded to the
      proxy (all but @SecureParameter) and its secure level. */
  datatype Argument = Argument(id: nat, name: string, argType: TypeMirror, annotations: seq<AnnotationMirror>, secureLevel: int)

  /** A method as recorded by `createMethodRecord`. */
  datatype Method = Method(
    id: nat,
    name: string,
    isNonNull: bool,
    hasTypeParameters: bool,
    returnType: TypeMirror,
    hasExceptions: bool,
    arguments: seq<Argument>)

  datatype Description = Description(errors: seq<GenerationError>, element: Option<Element>, methods: seq<Method>)

  /** The annotations an argument forwards: every one but @SecureParameter,
      in order. */
  function Forwarded(annotations: seq<AnnotationMirror>): (r: seq<AnnotationMirror>)
    ensures |r| <= |annotations|
  {
    if annotations == [] then []
    else (if annotations[0].qualifiedName == SECURE_PARAMETER then [] else [annotations[0]]) + Forwarded(annotations[1..])
  }

  lemma {:induction false} ForwardedExactly(annotations: seq<AnnotationMirror>)
    ensures forall a :: a in Forwarded(annotations) <==> a in annotations && a.qualifiedName != SECURE_PARAMETER
  {
    if annotations != [] {
      ForwardedExactly(annotations[1..]);
      assert annotations == [annotations[0]] + annotations[1..];
    }
  }

  /** `new Argument(param)`: the level of its @SecureParameter, FULL_INFO
      without one. */
  function NewArgument(p: Parameter, levels: SecureLevels): (a: Argument)
    ensures a.name == p.name && a.argType == p.paramType
    ensures FindAnnotation(p.annotations, SECURE_PARAMETER).None? ==> a.secureLevel == levels.fullInfo
    ensures FindAnnotation(p.annotations, SECURE_PARAMETER).Some? ==>
      a.secureLevel == FindAnnotation(p.annotations, SECURE_PARAMETER).value.value
    ensures forall x :: x in a.annotations ==> x.qualifiedName != SECURE_PARAMETER
  {
    var secure := FindAnnotation(p.annotations, SECURE_PARAMETER);
    ForwardedExactly(p.annotations);
    Argument(p.id, p.name, p.paramType, Forwarded(p.annotations),
             if secure.None? then levels.fullInfo else secure.value.value)
  }

  function NewArguments(ps: seq<Parameter>, levels: SecureLevels): (r: seq<Argument>)
    ensures |r| == |ps|
    ensures forall i :: 0 <= i < |ps| ==> r[i] == NewArgument(ps[i], levels)
  {
    if ps == [] then [] else [NewArgument(ps[0], levels)] + NewArguments(ps[1..], levels)
  }

  /** `createMethodRecord(method)`. */
  function MethodRecord(m: MethodElement, levels: SecureLevels): (r: Method)
    ensures r.name == m.name && r.returnType == m.returnType
    ensures r.isNonNull <==> FindAnnotation(m.annotations, NON_NULL).Some?
    ensures r.hasTypeParameters <==> |m.typeParameters| > 0
    ensures r.hasExceptions <==> |m.thrown| > 0
    ensures |r.arguments| == |m.parameters|
    ensures forall i :: 0 <= i < |m.parameters| ==> r.arguments[i].name == m.parameters[i].name
  {
    Method(m.id, m.name, FindAnnotation(m.annotations, NON_NULL).Some?, |m.typeParameters| > 0,
           m.returnType, |m.thrown| > 0, NewArguments(m.parameters, levels))
  }

  function MethodRecords(ms: seq<MethodElement>, levels: SecureLevels): (r: seq<Method>)
    ensures |r| == |ms|
    ensures forall i :: 0 <= i < |ms| ==> r[i] == MethodRecord(ms[i], levels)
  {
    if ms == [] then [] else [MethodRecord(ms[0], levels)] + MethodRecords(ms[1..], levels)
  }

  /** The constructor: a non-interface gets ER0001 and nothing else; an
      interface gets ER0002 if private, and a record of each of its methods,
      in declaration order. */
  function Describe(e: Element, levels: SecureLevels): (d: Description)
    ensures e.kind != InterfaceKind ==> d == Description([NewError(ER0001, e.id)], None, [])
    ensures e.kind == InterfaceKind ==>
      && d.element == Some(e)
      && d.errors == (if Private in e.modifiers then [NewError(ER0002, e.id)] else [])
      && d.methods == MethodRecords(MethodsOf(e.members), levels)
  {
    if e.kind != InterfaceKind then Description([NewError(ER0001, e.id)], None, [])
    else
      Description(if Private in e.modifiers then [NewError(ER0002, e.id)] else [], Some(e),
                  MethodRecords(MethodsOf(e.members), levels))
  }

  /** Whether a return type is a parameterised type named Promise. Only the
      simple name is compared. */
  predicate IsPromise(t: TypeMirror)
  {
    t.DeclaredType? && t.simpleName == PROMISE_SIMPLE_NAME
  }

  /** The return-type problems of `Method.validate`: nothing for void;
      ER0007 then ER0005 for a raw Promise; ER0006 for a Promise<T> without
      @NonNull; ER0005 for anything else. */
  function ReturnErrors(m: Method): seq<GenerationError>
  {
    if m.returnType.VoidType? then []
    else if IsPromise(m.returnType) && |m.returnType.arguments| == 0 then [NewError(ER0007, m.id), NewError(ER0005, m.id)]
    else if IsPromise(m.returnType) then (if m.isNonNull then [] else [NewError(ER0006, m.id)])
    else [NewError(ER0005, m.id)]
  }

  /** `Argument.validate`: ER0011 when the level is outside
      [NO_INFO, FULL_INFO]. */
  function ArgumentErrors(args: seq<Argument>, levels: SecureLevels): (r: seq<GenerationError>)
    ensures |r| <= |args|
  {
    if args == [] then []
    else
      (if args[0].secureLevel < levels.noInfo || args[0].secureLevel > levels.fullInfo
       then [NewError(ER0011, args[0].id)] else [])
      + ArgumentErrors(args[1..], levels)
  }

  /** `Method.validate`: exceptions, type parameters, return type, then the
      arguments, in that order. */
  function MethodErrors(m: Method, levels: SecureLevels): seq<GenerationError>
  {
    (if m.hasExceptions then [NewError(ER0003, m.id)] else [])
    + (if m.hasTypeParameters then [NewError(ER0004, m.id)] else [])
    + ReturnErrors(m)
    + ArgumentErrors(m.arguments, levels)
  }

  function AllMethodErrors(ms: seq<Method>, levels: SecureLevels): seq<GenerationError>
  {
    if ms == [] then [] else MethodErrors(ms[0], levels) + AllMethodErrors(ms[1..], levels)
  }

  /** `validate()`: false without an element; otherwise every method's
      problems are appended (again, on every call) and the description is
      valid iff none of its problems is an error. */
  function Validate(d: Description, levels: SecureLevels): (res: (bool, Description))
    ensures d.element.None? ==> res == (false, d)
    ensures d.element.Some? ==>
      && res.1 == d.(errors := d.errors + AllMethodErrors(d.methods, levels))
      && (res.0 <==> !AnyError(res.1.errors))
  {
    if d.element.None? then (false, d)
    else
      var d' := d.(errors := d.errors + AllMethodErrors(d.methods, levels));
      (!AnyError(d'.errors), d')
  }

  /** `describeProblems(errors)`: the recorded problems are appended. */
  function DescribeProblems(d: Description, errors: seq<GenerationError>): (r: seq<GenerationError>)
    ensures |r| == |errors| + |d.errors| && r[..|errors|] == errors && r[|errors|..] == d.errors
  {
    errors + d.errors
  }

  /** What `getPromisedType()` throws: the cast to a declared type fails
      for any other non-void type, and reading the first type argument fails
      for a declared type without any. */
  datatype PromisedTypeFailure = ClassCastException | IndexOutOfBoundsException

  /** `getPromisedType()`: none for void; otherwise the first type argument
      of the return type, whatever the type's name. */
  function PromisedType(m: Method): (r: Result<Option<TypeMirror>, PromisedTypeFailure>)
    ensures r == Ok(None) <==> m.returnType.VoidType?
    ensures r == Err(ClassCastException) <==> !m.returnType.VoidType? && !m.returnType.DeclaredType?
    ensures r == Err(IndexOutOfBoundsException) <==> m.returnType.DeclaredType? && m.returnType.arguments == []
    ensures r.Ok? && r.value.Some? ==>
      m.returnType.DeclaredType? && |m.returnType.arguments| > 0 && r.value.value == m.returnType.arguments[0]
  {
    if m.returnType.VoidType? then Ok(None)
    else if !m.returnType.DeclaredType? then Err(ClassCastException)
    else if m.returnType.arguments == [] then Err(IndexOutOfBoundsException)
    else Ok(Some(m.returnType.arguments[0]))
  }

  // Properties

  /** The return-type rules as a table: which codes a return type yields. */
  lemma ReturnCodes(m: Method)
    ensures ER0005 in Codes(ReturnErrors(m))
      <==> !m.returnType.VoidType? && !(IsPromise(m.returnType) && |m.returnType.arguments| > 0)
    ensures ER0006 in Codes(ReturnErrors(m))
      <==> IsPromise(m.returnType) && |m.returnType.arguments| > 0 && !m.isNonNull
    ensures ER0007 in Codes(ReturnErrors(m))
      <==> IsPromise(m.returnType) && |m.returnType.arguments| == 0
    ensures ReturnErrors(m) == [] <==> m.returnType.VoidType? || (IsPromise(m.returnType) && |m.returnType.arguments| > 0 && m.isNonNull)
  {
    var c := Codes(ReturnErrors(m));
    if m.returnType.VoidType? {
      assert c == [];
    } else if IsPromise(m.returnType) && |m.returnType.arguments| == 0 {
      assert c == [ER0007, ER0005];
    } else if IsPromise(m.returnType) {
      assert c == if m.isNonNull then [] else [ER0006];
    } else {
      assert c == [ER0005];
    }
  }

  /** A method passes `Method.validate` exactly when it throws nothing, is
      not generic, returns void or a @NonNull Promise<T>, and every argument's
      level is in range; such a method has a promised type. */
  lemma {:induction false} MethodValidIff(m: Method, levels: SecureLevels)
    ensures MethodErrors(m, levels) == [] <==>
      && !m.hasExceptions && !m.hasTypeParameters
      && (m.returnType.VoidType? || (IsPromise(m.returnType) && |m.returnType.arguments| > 0 && m.isNonNull))
      && forall i :: 0 <= i < |m.arguments| ==> levels.noInfo <= m.arguments[i].secureLevel <= levels.fullInfo
  {
    ReturnCodes(m);
    ArgumentsValidIff(m.arguments, levels);
  }

  /** Every return type the validator accepts without ER0005 can be read:
      a method that passes `Method.validate` promises nothing when void and
      its Promise's type argument otherwise. */
  lemma PromisedTypeOfAccepted(m: Method, levels: SecureLevels)
    requires ER0005 !in Codes(ReturnErrors(m))
    ensures PromisedType(m).Ok?
    ensures MethodErrors(m, levels) == [] ==>
      PromisedType(m) == if m.returnType.VoidType? then Ok(None) else Ok(Some(m.returnType.arguments[0]))
  {
    ReturnCodes(m);
    MethodValidIff(m, levels);
  }

  /** The converse fails: `getPromisedType()` reads any declared type's
      first argument, so a `List<String>` return that validation rejects
      reads as `String`. */
  lemma PromisedTypeIgnoresName(m: Method, t: TypeMirror)
    requires m.returnType == DeclaredType("java.util.List", "List", [t])
    ensures PromisedType(m) == Ok(Some(t))
    ensures ER0005 in Codes(ReturnErrors(m))
  {
    ReturnCodes(m);
  }

  lemma {:induction false} ArgumentsValidIff(args: seq<Argument>, levels: SecureLevels)
    ensures ArgumentErrors(args, levels) == [] <==>
      forall i :: 0 <= i < |args| ==> levels.noInfo <= args[i].secureLevel <= levels.fullInfo
  {
    if args != [] {
      ArgumentsValidIff(args[1..], levels);
      assert forall i :: 1 <= i < |args| ==> args[i] == args[1..][i - 1];
    }
  }

  /** Every problem the validator records is an error, so an interface is
      valid iff no problem was recorded at all. */
  lemma {:induction false} AllErrorsAreErrors(ms: seq<Method>, levels: SecureLevels)
    ensures forall i :: 0 <= i < |AllMethodErrors(ms, levels)| ==> AllMethodErrors(ms, levels)[i].isError
  {
    if ms != [] {
      AllErrorsAreErrors(ms[1..], levels);
      ArgumentErrorsAreErrors(ms[0].arguments, levels);
    }
  }

  lemma {:induction false} ArgumentErrorsAreErrors(args: seq<Argument>, levels: SecureLevels)
    ensures forall i :: 0 <= i < |ArgumentErrors(args, levels)| ==> ArgumentErrors(args, levels)[i].isError
  {
    if args != [] {
      ArgumentErrorsAreErrors(args[1..], levels);
    }
  }

  lemma {:induction false} AllMethodErrorsEmpty(ms: seq<Method>, levels: SecureLevels)
    ensures AllMethodErrors(ms, levels) == [] <==> forall i :: 0 <= i < |ms| ==> MethodErrors(ms[i], levels) == []
  {
    if ms != [] {
      AllMethodErrorsEmpty(ms[1..], levels);
      assert forall i :: 1 <= i < |ms| ==> ms[i] == ms[1..][i - 1];
    }
  }

  /** An annotated interface validates iff it is not private and every one of
      its methods passes `Method.validate`. */
  lemma InterfaceValidIff(e: Element, levels: SecureLevels)
    requires e.kind == InterfaceKind
    ensures var d := Describe(e, levels);
      Validate(d, levels).0 <==>
        Private !in e.modifiers && forall i :: 0 <= i < |d.methods| ==> MethodErrors(d.methods[i], levels) == []
  {
    var d := Describe(e, levels);
    var errs := d.errors + AllMethodErrors(d.methods, levels);
    AllErrorsAreErrors(d.methods, levels);
    AllMethodErrorsEmpty(d.methods, levels);
    if Private in e.modifiers {
      assert errs[0].isError;
    } else {
      assert errs == AllMethodErrors(d.methods, levels);
      if AllMethodErrors(d.methods, levels) != [] {
        assert errs[0].isError;
      }
    }
  }

  /** A non-interface is never valid and reports exactly ER0001. */
  lemma NonInterfaceRejected(e: Element, levels: SecureLevels)
    requires e.kind != InterfaceKind
    ensures var d := Describe(e, levels);
      !Validate(d, levels).0 && DescribeProblems(d, []) == [NewError(ER0001, e.id)]
  {
  }

  /** Validating twice appends the method problems twice and gives the same
      answer. */
  lemma ValidateTwice(d: Description, levels: SecureLevels)
    requires d.element.Some?
    ensures var (ok1, d1) := Validate(d, levels);
      var (ok2, d2) := Validate(d1, levels);
      && d2.errors == d.errors + AllMethodErrors(d.methods, levels) + AllMethodErrors(d.methods, levels)
      && ok1 == ok2
  {
    var (ok1, d1) := Validate(d, levels);
    var (ok2, d2) := Validate(d1, levels);
    var extra := AllMethodErrors(d.methods, levels);
    AnyErrorAppend(d.errors, extra);
    AnyErrorAppend(d1.errors, extra);
  }
}
