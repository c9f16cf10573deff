/** ProxyMessageGenerator: the message class the processor generates for one
    actor method. The class is named after the proxy and the method, takes
    the invoke exception and then the method's parameters in its
    constructor, extends `MessageBase<actor, result>`, calls the method on
    the target in `invoke` and describes the call in `toString`. */
module ProxyMessageGenerator {
  import opened Wrappers
  import opened JavaModel
  import opened Text
  import opened TypeUtils
  import NP = NamesProvider

  const MESSAGE_BASE: string := "com.truecaller.androidactors.MessageBase"
  const INVOKE_EXCEPTION: string := "com.truecaller.androidactors.ActorMethodInvokeException"
  const VOID_REF: JType := JClassRef("java.lang.Void", [])
  const EXCEPTION_PARAMETER: string := "exception"
  const TARGET_PARAMETER: string := "target"
  const VERIFY_RESULT: string := "verifyResult"

  /** The code model's classes, by full name: `_class` fails for a name
      already defined. */
  datatype CodeModel = CodeModel(classes: set<string>)

  // Naming

  /** The name tried with counter `index`: the proxy's name, the
      capitalised method name, `Message`, and the counter unless it is 0. */
  function ClassName(proxyName: string, methodName: string, index: nat): string
  {
    proxyName + NP.Candidate(methodName, index)
  }

  lemma ClassNameInjective(proxyName: string, methodName: string, i: nat, j: nat)
    requires ClassName(proxyName, methodName, i) == ClassName(proxyName, methodName, j)
    ensures i == j
  {
    var a := NP.Candidate(methodName, i);
    var b := NP.Candidate(methodName, j);
    assert a == (proxyName + a)[|proxyName|..];
    assert b == (proxyName + b)[|proxyName|..];
    NP.CandidateInjective(methodName, i, j);
  }

  /** A positive counter is written after the message suffix. */
  lemma CountedClassName(proxyName: string, methodName: string, counter: nat)
    requires counter > 0
    ensures ClassName(proxyName, methodName, counter)
      == proxyName + NP.Capitalize(methodName) + NP.MESSAGE_SUFFIX + NP.Decimal(counter)
  {
  }

  /** The names tried so far, with the next candidate, are the names of
      the next counter values. */
  lemma TriedGrows(proxyName: string, methodName: string, index: nat, tried: set<string>)
    requires tried == set j | 0 <= j < index :: ClassName(proxyName, methodName, j)
    ensures var next := index + 1;
      tried + {ClassName(proxyName, methodName, index)} == set j | 0 <= j < next :: ClassName(proxyName, methodName, j)
  {
    var next := index + 1;
    var grown := set j | 0 <= j < next :: ClassName(proxyName, methodName, j);
    forall n | n in grown
      ensures n in tried + {ClassName(proxyName, methodName, index)}
    {
      var j :| 0 <= j < next && ClassName(proxyName, methodName, j) == n;
      if j < index {
        assert n in tried;
      }
    }
  }

  /** The `_class` loop of `generateMessage`: the counter goes up until the
      code model accepts the name, which it then holds. */
  method DefineClass(m: CodeModel, proxyName: string, methodName: string)
    returns (name: string, m': CodeModel, ghost index: nat)
    ensures name == ClassName(proxyName, methodName, index)
    ensures name !in m.classes
    ensures forall j :: 0 <= j < index ==> ClassName(proxyName, methodName, j) in m.classes
    ensures m'.classes == m.classes + {name}
  {
    index := 0;
    var counter := 0;
    name := ClassName(proxyName, methodName, 0);
    ghost var tried: set<string> := {};
    while name in m.classes
      invariant counter == index
      invariant name == ClassName(proxyName, methodName, index)
      invariant forall j :: 0 <= j < index ==> ClassName(proxyName, methodName, j) in m.classes
      invariant tried == set j | 0 <= j < index :: ClassName(proxyName, methodName, j)
      invariant |tried| == index
      invariant tried <= m.classes
      decreases |m.classes| - index
    {
      if name in tried {
        var j :| 0 <= j < index && ClassName(proxyName, methodName, j) == name;
        ClassNameInjective(proxyName, methodName, j, index);
        assert false;
      }
      TriedGrows(proxyName, methodName, index, tried);
      tried := tried + {name};
      assert |tried| <= |m.classes| by { NP.SubsetCard(tried, m.classes); }
      counter := counter + 1;
      index := index + 1;
      name := proxyName + NP.Capitalize(methodName) + NP.MESSAGE_SUFFIX + NP.Decimal(counter);
      CountedClassName(proxyName, methodName, counter);
    }
    m' := CodeModel(m.classes + {name});
  }

  // Constructor and fields

  /** A final field, or a parameter, with its translated type. */
  datatype Field = Field(name: string, fieldType: JType)

  const EXCEPTION_TYPE: JType := JClassRef(INVOKE_EXCEPTION, [])

  /** The constructor: its parameters, the one passed to `super`, and the
      fields assigned from the same-named parameters, in order. */
  datatype Constructor = Constructor(parameters: seq<Field>, superArgument: string, assignments: seq<string>)

  /** No name occurs twice. */
  predicate Distinct(names: seq<string>)
  {
    forall i, j :: 0 <= i < j < |names| ==> names[i] != names[j]
  }

  /** The names of fields, or parameters, in order. */
  function NamesOf(fs: seq<Field>): (r: seq<string>)
    ensures |r| == |fs| && forall i :: 0 <= i < |fs| ==> r[i] == fs[i].name
  {
    seq(|fs|, i requires 0 <= i < |fs| => fs[i].name)
  }

  /** No two fields, or parameters, share a name, as Java requires. */
  predicate DistinctFields(fs: seq<Field>)
  {
    Distinct(NamesOf(fs))
  }

  /** A name apart from distinct names can be put in front of them. */
  lemma DistinctCons(name: string, names: seq<string>)
    requires Distinct(names) && name !in names
    ensures Distinct([name] + names)
  {
    var all := [name] + names;
    forall i, j | 0 <= i < j < |all|
      ensures all[i] != all[j]
    {
      assert all[j] == names[j - 1];
      if i > 0 {
        assert all[i] == names[i - 1];
      }
    }
  }

  /** A field per method parameter, with the translated type. */
  function FieldsOf(params: seq<Parameter>): (r: seq<Field>)
    ensures |r| == |params|
    ensures forall i :: 0 <= i < |params| ==> r[i] == Field(params[i].name, ToJType(params[i].paramType))
  {
    seq(|params|, i requires 0 <= i < |params| => Field(params[i].name, ToJType(params[i].paramType)))
  }

  /** The constructor's parameters as written: the exception parameter is
      always named `exception`, whatever the method's parameters are
      called. */
  function ConstructorParametersAsWritten(params: seq<Parameter>): seq<Field>
  {
    [Field(EXCEPTION_PARAMETER, EXCEPTION_TYPE)] + FieldsOf(params)
  }

  /** As written, the constructor of a method whose parameter names are
      distinct (as Java demands of the method) declares distinct parameters
      exactly when no parameter is named `exception`; a parameter of that
      name gives a constructor with two parameters named `exception`, which
      does not compile. */
  lemma ConstructorClashAsWritten(params: seq<Parameter>)
    requires Distinct(ParameterNames(params))
    ensures DistinctFields(ConstructorParametersAsWritten(params)) <==> EXCEPTION_PARAMETER !in ParameterNames(params)
  {
    var fs := ConstructorParametersAsWritten(params);
    var names := ParameterNames(params);
    if EXCEPTION_PARAMETER in names {
      var i :| 0 <= i < |names| && names[i] == EXCEPTION_PARAMETER;
      assert fs[0].name == fs[i + 1].name;
    } else {
      ConstructorNamesDistinct(EXCEPTION_PARAMETER, params, FieldsOf(params));
    }
  }

  /** An exception parameter named apart from the method's parameters
      leaves the constructor's parameters distinct. */
  lemma ConstructorNamesDistinct(name: string, params: seq<Parameter>, fields: seq<Field>)
    requires |fields| == |params| && forall i :: 0 <= i < |params| ==> fields[i].name == params[i].name
    requires Distinct(ParameterNames(params)) && name !in ParameterNames(params)
    ensures DistinctFields([Field(name, EXCEPTION_TYPE)] + fields)
  {
    var fs := [Field(name, EXCEPTION_TYPE)] + fields;
    var names := ParameterNames(params);
    assert NamesOf(fs) == [name] + names;
    DistinctCons(name, names);
  }

  /** `n` underscores. */
  function Underscores(n: nat): (r: string)
    ensures |r| == n
  {
    seq(n, _ => '_')
  }

  /** The length of the longest name. */
  function Longest(names: seq<string>): (r: nat)
    ensures forall i :: 0 <= i < |names| ==> |names[i]| <= r
  {
    if names == [] then 0
    else
      var rest := Longest(names[1..]);
      assert forall i :: 1 <= i < |names| ==> names[i] == names[1..][i - 1];
      if |names[0]| > rest then |names[0]| else rest
  }

  /** The exception parameter's name in the corrected generator: `exception`,
      unless a method parameter already has that name; then `exception`
      followed by as many underscores as the longest parameter name has
      characters, which is longer than every parameter name. */
  function ExceptionName(names: seq<string>): (r: string)
    ensures r !in names
    ensures EXCEPTION_PARAMETER !in names ==> r == EXCEPTION_PARAMETER
    ensures |EXCEPTION_PARAMETER| <= |r| && r[..|EXCEPTION_PARAMETER|] == EXCEPTION_PARAMETER
  {
    if EXCEPTION_PARAMETER !in names then EXCEPTION_PARAMETER
    else
      var r := EXCEPTION_PARAMETER + Underscores(Longest(names));
      assert r[..|EXCEPTION_PARAMETER|] == EXCEPTION_PARAMETER;
      r
  }

  /** `generateConstructors`, with the exception parameter named apart from
      the method's parameters: the exception parameter goes to `super`,
      then each method parameter becomes a field and a constructor parameter
      and is assigned `this.name = name`. With no parameter named
      `exception` this is the constructor as written; in every case the
      constructor's parameters are distinct when the method's are. */
  method GenerateConstructors(params: seq<Parameter>) returns (fields: seq<Field>, ctor: Constructor)
    ensures |fields| == |params|
    ensures forall i :: 0 <= i < |params| ==>
      fields[i] == Field(params[i].name, ToJType(params[i].paramType))
    ensures ctor.parameters == [Field(ExceptionName(ParameterNames(params)), EXCEPTION_TYPE)] + fields
    ensures ctor.superArgument == ExceptionName(ParameterNames(params))
    ensures EXCEPTION_PARAMETER !in ParameterNames(params) ==> ctor.parameters == ConstructorParametersAsWritten(params)
    ensures Distinct(ParameterNames(params)) ==> DistinctFields(ctor.parameters)
    ensures |ctor.assignments| == |params|
    ensures forall i :: 0 <= i < |params| ==> ctor.assignments[i] == params[i].name
  {
    var exceptionName := ExceptionName(ParameterNames(params));
    var exception := Field(exceptionName, EXCEPTION_TYPE);
    var parameters := [exception];
    var assignments := [];
    fields := [];
    var i := 0;
    while i < |params|
      invariant 0 <= i <= |params|
      invariant |fields| == i && |assignments| == i
      invariant forall k :: 0 <= k < i ==> fields[k] == Field(params[k].name, ToJType(params[k].paramType))
      invariant forall k :: 0 <= k < i ==> assignments[k] == params[k].name
      invariant parameters == [exception] + fields
    {
      var field := Field(params[i].name, ToJType(params[i].paramType));
      fields := fields + [field];
      parameters := parameters + [field];
      assignments := assignments + [params[i].name];
      i := i + 1;
    }
    ctor := Constructor(parameters, exceptionName, assignments);
    assert fields == FieldsOf(params);
    if Distinct(ParameterNames(params)) {
      ConstructorNamesDistinct(exceptionName, params, fields);
    }
  }

  // invoke

  /** `target.method(arguments)`. */
  datatype Invocation = Invocation(target: string, methodName: string, arguments: seq<string>)

  datatype Statement =
    | ReturnWrapped(wrapper: string, call: Invocation)
    | CallStatement(call: Invocation)
    | ReturnNull

  /** `invoke(target)`: its declared return type and its body. */
  datatype InvokeMethod = InvokeMethod(returnType: JType, targetType: JType, body: seq<Statement>)

  /** The names of the generator's parameters, in order. The generator
      works on its own `Parameter` records (name and type as written into
      the message class), not on the interface description's arguments, so
      it reads the names off them. */
  function ParameterNames(params: seq<Parameter>): (r: seq<string>)
    ensures |r| == |params|
    ensures forall i :: 0 <= i < |params| ==> r[i] == params[i].name
  {
    if params == [] then [] else [params[0].name] + ParameterNames(params[1..])
  }

  /** `generateInvoke`. */
  function GenerateInvoke(actor: JType, methodName: string, params: seq<Parameter>, result: Option<JType>): InvokeMethod
  {
    var call := Invocation(TARGET_PARAMETER, methodName, ParameterNames(params));
    var promised := if result.Some? then result.value else VOID_REF;
    InvokeMethod(JClassRef(PROMISE_CANONICAL_NAME, [promised]), actor,
                 if result.Some? then [ReturnWrapped(VERIFY_RESULT, call)] else [CallStatement(call), ReturnNull])
  }

  /** The call made by an `invoke` body. */
  function CallOf(body: seq<Statement>): Option<Invocation>
  {
    if |body| >= 1 && !body[0].ReturnNull? then Some(body[0].call) else None
  }

  /** `invoke` calls the method on the target with the fields in parameter
      order (each written `this.name` in the corrected generator, see
      `InvokeClashAsWritten` for the code as written); its result goes through `verifyResult` and is returned exactly
      when there is a result type, otherwise `null` is returned after the
      call; it promises the result type, or Void. */
  lemma InvokeCallsMethod(actor: JType, methodName: string, params: seq<Parameter>, result: Option<JType>)
    ensures var inv := GenerateInvoke(actor, methodName, params, result);
      && CallOf(inv.body) == Some(Invocation(TARGET_PARAMETER, methodName, ParameterNames(params)))
      && inv.targetType == actor
      && (result.Some? <==> inv.body[0].ReturnWrapped?)
      && (result.Some? ==> inv.body == [ReturnWrapped(VERIFY_RESULT, CallOf(inv.body).value)])
      && (result.None? <==> inv.body[|inv.body| - 1] == ReturnNull)
      && inv.returnType.JClassRef? && inv.returnType.fullName == PROMISE_CANONICAL_NAME
      && inv.returnType.typeArguments == [if result.Some? then result.value else VOID_REF]
  {
  }

  /** What an argument of the generated call denotes. The corrected
      generator writes each argument as `this.name`, the message's field;
      as written, JCodeModel prints the field as its bare name, and Java
      resolves a bare name to the parameter of `invoke` that has it first. */
  datatype Binding = TargetParameter | MessageField(name: string)

  /** An argument as written: the bare name `target` is the actor passed to
      `invoke`, any other name is the field. */
  function ArgumentAsWritten(name: string): Binding
  {
    if name == TARGET_PARAMETER then TargetParameter else MessageField(name)
  }

  /** As written, the generated call passes the actor itself wherever the
      method has a parameter named `target`, and the field of that name
      everywhere else. */
  lemma InvokeClashAsWritten(actor: JType, methodName: string, params: seq<Parameter>, result: Option<JType>)
    ensures var call := CallOf(GenerateInvoke(actor, methodName, params, result).body).value;
      && |call.arguments| == |params|
      && forall i :: 0 <= i < |params| ==>
        && (ArgumentAsWritten(call.arguments[i]) == TargetParameter <==> params[i].name == TARGET_PARAMETER)
        && (params[i].name != TARGET_PARAMETER ==> ArgumentAsWritten(call.arguments[i]) == MessageField(params[i].name))
  {
    InvokeCallsMethod(actor, methodName, params, result);
  }

  // toString

  /** A string expression of the code model: a literal, a field of the
      message, or the concatenation of two expressions. */
  datatype Expr = Lit(text: string) | FieldRef(name: string) | Plus(left: Expr, right: Expr)

  /** The string an expression evaluates to, given each field's text: the
      reading of the corrected generator, which writes a field as
      `this.name`. */
  function Eval(x: Expr, values: string -> string): string
  {
    match x
    case Lit(t) => t
    case FieldRef(n) => values(n)
    case Plus(l, r) => Eval(l, values) + Eval(r, values)
  }

  /** The string an expression evaluates to as written. JCodeModel prints a
      field as its bare name, and Java resolves a bare name to a local
      variable of that name first: `locals` holds the locals in scope with
      their values. `Eval` reads the fields themselves, as the corrected
      generator's `this.name` does. */
  function EvalAsWritten(x: Expr, locals: map<string, string>, values: string -> string): string
  {
    match x
    case Lit(t) => t
    case FieldRef(n) => if n in locals then locals[n] else values(n)
    case Plus(l, r) => EvalAsWritten(l, locals, values) + EvalAsWritten(r, locals, values)
  }

  /** The field values as a method body sees them through bare names. */
  function Shadowed(values: string -> string, locals: map<string, string>): string -> string
  {
    n => if n in locals then locals[n] else values(n)
  }

  lemma {:induction false} EvalAsWrittenShadows(x: Expr, locals: map<string, string>, values: string -> string)
    ensures EvalAsWritten(x, locals, values) == Eval(x, Shadowed(values, locals))
  {
    match x
    case Lit(_) =>
    case FieldRef(_) =>
    case Plus(l, r) =>
      EvalAsWrittenShadows(l, locals, values);
      EvalAsWrittenShadows(r, locals, values);
  }

  /** The fields an expression reads, left to right. */
  function FieldsRead(x: Expr): seq<string>
  {
    match x
    case Lit(_) => []
    case FieldRef(n) => [n]
    case Plus(l, r) => FieldsRead(l) + FieldsRead(r)
  }

  /** The texts of the named fields. */
  function Texts(names: seq<string>, values: string -> string): (r: seq<string>)
    ensures |r| == |names|
    ensures forall i :: 0 <= i < |names| ==> r[i] == values(names[i])
  {
    if names == [] then [] else [values(names[0])] + Texts(names[1..], values)
  }

  /** What `toString` promises to return: `.method(v1, v2, ...)`. */
  function CallText(methodName: string, texts: seq<string>): string
  {
    "." + methodName + "(" + Join(texts, ", ") + ")"
  }

  /** `generateToString`: `"." + m + "("`, then the fields with `", "`
      between them, then `")"`, each added with `+` on the left. Read with
      `Eval`, the fields are read as `this.name`; `ToStringClashAsWritten`
      gives the reading of the code as written. */
  method GenerateToString(methodName: string, params: seq<Parameter>) returns (x: Expr)
    ensures FieldsRead(x) == ParameterNames(params)
    ensures forall values: string -> string {:trigger Eval(x, values)} ::
      Eval(x, values) == CallText(methodName, Texts(ParameterNames(params), values))
  {
    var names := ParameterNames(params);
    var head := "." + methodName + "(";
    x := Lit(head);
    if |params| > 0 {
      FirstFieldStep(head, params[0].name);
      x := Plus(x, FieldRef(params[0].name));
      assert names[..1] == [names[0]];
      var i := 1;
      while i < |params|
        invariant 1 <= i <= |params|
        invariant FieldsRead(x) == names[..i]
        invariant forall values: string -> string {:trigger Eval(x, values)} ::
          Eval(x, values) == head + Join(Texts(names[..i], values), ", ")
      {
        assert names[..i + 1] == names[..i] + [names[i]];
        AppendFieldStep(x, params[i].name, head, names[..i]);
        x := Plus(Plus(x, Lit(", ")), FieldRef(params[i].name));
        i := i + 1;
      }
      assert names[..i] == names;
    }
    CloseCallStep(x, methodName, names);
    x := Plus(x, Lit(")"));
  }

  /** The first field, right after the opening parenthesis. */
  lemma FirstFieldStep(head: string, name: string)
    ensures var x := Plus(Lit(head), FieldRef(name));
      && FieldsRead(x) == [name]
      && forall values: string -> string {:trigger Eval(x, values)} ::
        Eval(x, values) == head + Join(Texts([name], values), ", ")
  {
  }

  /** The closing parenthesis completes the call text. */
  lemma CloseCallStep(x: Expr, methodName: string, names: seq<string>)
    requires FieldsRead(x) == names
    requires names == [] ==> x == Lit("." + methodName + "(")
    requires forall values: string -> string {:trigger Eval(x, values)} ::
      Eval(x, values) == "." + methodName + "(" + Join(Texts(names, values), ", ")
    ensures var closed := Plus(x, Lit(")"));
      && FieldsRead(closed) == names
      && forall values: string -> string {:trigger Eval(closed, values)} ::
        Eval(closed, values) == CallText(methodName, Texts(names, values))
  {
  }

  /** One more field, after a separator, in the loop of `generateToString`. */
  lemma AppendFieldStep(before: Expr, name: string, head: string, names: seq<string>)
    requires |names| >= 1 && FieldsRead(before) == names
    requires forall values: string -> string {:trigger Eval(before, values)} ::
      Eval(before, values) == head + Join(Texts(names, values), ", ")
    ensures var after := Plus(Plus(before, Lit(", ")), FieldRef(name));
      && FieldsRead(after) == names + [name]
      && forall values: string -> string {:trigger Eval(after, values)} ::
        Eval(after, values) == head + Join(Texts(names + [name], values), ", ")
  {
    var after := Plus(Plus(before, Lit(", ")), FieldRef(name));
    assert FieldsRead(Plus(before, Lit(", "))) == names;
    forall values: string -> string
      ensures Eval(after, values) == head + Join(Texts(names + [name], values), ", ")
    {
      EvalStep(before, name, head, names, values);
    }
  }

  lemma EvalStep(before: Expr, name: string, head: string, names: seq<string>, values: string -> string)
    requires |names| >= 1
    requires Eval(before, values) == head + Join(Texts(names, values), ", ")
    ensures Eval(Plus(Plus(before, Lit(", ")), FieldRef(name)), values) == head + Join(Texts(names + [name], values), ", ")
  {
    var t := Texts(names, values);
    TextsAppend(names, name, values);
    JoinAppend(t, values(name), ", ");
    EvalAppend(before, name, values);
  }

  lemma EvalAppend(before: Expr, name: string, values: string -> string)
    ensures Eval(Plus(Plus(before, Lit(", ")), FieldRef(name)), values) == Eval(before, values) + ", " + values(name)
  {
    var comma := Lit(", ");
    var m := Plus(before, comma);
    assert Eval(m, values) == Eval(before, values) + Eval(comma, values);
    assert Eval(Plus(m, FieldRef(name)), values) == Eval(m, values) + values(name);
  }

  lemma TextsAppend(names: seq<string>, name: string, values: string -> string)
    ensures Texts(names + [name], values) == Texts(names, values) + [values(name)]
  {
  }

  /** The texts can be read back from the call text when none holds a
      comma. */
  lemma CallTextReadsBack(methodName: string, texts: seq<string>)
    requires |texts| >= 1
    requires forall i :: 0 <= i < |texts| ==> ',' !in texts[i]
    ensures var s := CallText(methodName, texts);
      var head := "." + methodName + "(";
      && |head| + 1 <= |s| && s[..|head|] == head
      && ReadList(s[|head|..|s| - 1]) == texts
  {
    var head := "." + methodName + "(";
    var body := Join(texts, ", ");
    var s := CallText(methodName, texts);
    assert s == head + body + ")";
    assert s[|head|..|s| - 1] == body;
    ReadListJoin(texts);
  }

  /** `toString` mentions every field once, in parameter order, and its
      text gives back the fields' texts when none holds a comma. */
  lemma ToStringReadsBack(methodName: string, params: seq<Parameter>, x: Expr, values: string -> string)
    requires FieldsRead(x) == ParameterNames(params)
    requires Eval(x, values) == CallText(methodName, Texts(ParameterNames(params), values))
    requires |params| >= 1
    requires forall i :: 0 <= i < |params| ==> ',' !in values(params[i].name)
    ensures var s := Eval(x, values);
      var head := "." + methodName + "(";
      && |head| + 1 <= |s| && s[..|head|] == head
      && ReadList(s[|head|..|s| - 1]) == Texts(FieldsRead(x), values)
  {
    CallTextReadsBack(methodName, Texts(ParameterNames(params), values));
  }

  /** The local `String result` of the generated `toString`, holding the
      text up to the opening parenthesis. */
  const RESULT_LOCAL: string := "result"

  /** As written, `toString` reads every parameter named `result` from its
      own local, which holds `.method(`, instead of from the field; with no
      such parameter it prints the intended text. */
  lemma ToStringClashAsWritten(methodName: string, params: seq<Parameter>, x: Expr, values: string -> string)
    requires FieldsRead(x) == ParameterNames(params)
    requires forall values: string -> string {:trigger Eval(x, values)} ::
      Eval(x, values) == CallText(methodName, Texts(ParameterNames(params), values))
    ensures var locals := map[RESULT_LOCAL := "." + methodName + "("];
      var printed := EvalAsWritten(x, locals, values);
      && printed == CallText(methodName, Texts(ParameterNames(params), Shadowed(values, locals)))
      && (RESULT_LOCAL !in ParameterNames(params) ==>
            printed == CallText(methodName, Texts(ParameterNames(params), values)))
  {
    var locals := map[RESULT_LOCAL := "." + methodName + "("];
    EvalAsWrittenShadows(x, locals, values);
    var names := ParameterNames(params);
    if RESULT_LOCAL !in names {
      assert Texts(names, Shadowed(values, locals)) == Texts(names, values);
    }
  }

  /** A method `m(String result)`, whose argument is "v": the generated
      `toString` prints `.m(.m()` where `.m(v)` was meant. */
  lemma ResultParameterShadowed(x: Expr, t: TypeMirror, values: string -> string)
    requires FieldsRead(x) == [RESULT_LOCAL]
    requires forall values: string -> string {:trigger Eval(x, values)} ::
      Eval(x, values) == CallText("m", Texts([RESULT_LOCAL], values))
    requires values(RESULT_LOCAL) == "v"
    ensures EvalAsWritten(x, map[RESULT_LOCAL := ".m("], values) == ".m(.m()"
    ensures Eval(x, values) == ".m(v)"
  {
    var params := [Parameter(0, RESULT_LOCAL, t, [])];
    var head := ".m(";
    assert "." + "m" + "(" == head;
    assert ParameterNames(params) == [RESULT_LOCAL];
    ToStringClashAsWritten("m", params, x, values);
    var locals := map[RESULT_LOCAL := head];
    assert Texts([RESULT_LOCAL], Shadowed(values, locals)) == [head];
    assert Join([head], ", ") == head;
    assert CallText("m", [head]) == head + head + ")";
    assert Texts([RESULT_LOCAL], values) == ["v"];
  }

  // The message class

  /** A generated message class. */
  datatype MessageClassDef = MessageClassDef(
    name: string,
    superclass: JType,
    fields: seq<Field>,
    ctor: Constructor,
    invoke: InvokeMethod,
    toString: Expr)

  /** `MessageBase<actor, Void>` without a result, `MessageBase<actor,
      result>` with one. */
  function Superclass(actor: JType, result: Option<JType>): (r: JType)
    ensures r.JClassRef? && r.fullName == MESSAGE_BASE && |r.typeArguments| == 2
    ensures r.typeArguments[0] == actor
    ensures result.None? ==> r.typeArguments[1] == VOID_REF
    ensures result.Some? ==> r.typeArguments[1] == result.value
  {
    JClassRef(MESSAGE_BASE, [actor, if result.Some? then result.value else VOID_REF])
  }

  /** What the message class generated for `actorMethod` holds, whatever
      its name: the superclass, a field per parameter, the constructor
      taking the exception and then the parameters, `invoke` and
      `toString`. */
  ghost predicate MessageClassFor(cls: MessageClassDef, actor: JType, actorMethod: MethodElement, result: Option<JType>)
  {
    && cls.superclass == Superclass(actor, result)
    && |cls.fields| == |actorMethod.parameters|
    && (forall i :: 0 <= i < |actorMethod.parameters| ==>
          cls.fields[i] == Field(actorMethod.parameters[i].name, ToJType(actorMethod.parameters[i].paramType)))
    && cls.ctor.parameters == [Field(ExceptionName(ParameterNames(actorMethod.parameters)), EXCEPTION_TYPE)] + cls.fields
    && cls.ctor.superArgument == ExceptionName(ParameterNames(actorMethod.parameters))
    && cls.ctor.assignments == ParameterNames(actorMethod.parameters)
    && cls.invoke == GenerateInvoke(actor, actorMethod.name, actorMethod.parameters, result)
    && FieldsRead(cls.toString) == ParameterNames(actorMethod.parameters)
    && (forall values: string -> string {:trigger Eval(cls.toString, values)} ::
          Eval(cls.toString, values) == CallText(actorMethod.name, Texts(ParameterNames(actorMethod.parameters), values)))
  }

  /** `generateMessage(proxyName, actor, method, result)`: the first free
      name, and the class described above. */
  method GenerateMessage(m: CodeModel, proxyName: string, actor: JType, actorMethod: MethodElement, result: Option<JType>)
    returns (cls: MessageClassDef, m': CodeModel, ghost index: nat)
    ensures cls.name == ClassName(proxyName, actorMethod.name, index)
    ensures cls.name !in m.classes && m'.classes == m.classes + {cls.name}
    ensures forall j :: 0 <= j < index ==> ClassName(proxyName, actorMethod.name, j) in m.classes
    ensures MessageClassFor(cls, actor, actorMethod, result)
  {
    var name;
    name, m', index := DefineClass(m, proxyName, actorMethod.name);
    var fields, ctor := GenerateConstructors(actorMethod.parameters);
    assert ctor.assignments == ParameterNames(actorMethod.parameters);
    var toString := GenerateToString(actorMethod.name, actorMethod.parameters);
    cls := MessageClassDef(name, Superclass(actor, result), fields, ctor,
                           GenerateInvoke(actor, actorMethod.name, actorMethod.parameters, result), toString);
  }
}
