/** ActorsProcessor: one round of annotation processing. Every element
    annotated `@ActorInterface` must be a public interface whose methods
    throw nothing and return void or a `@NonNull` Promise; each gets a proxy
    class `<package>.<Outer>_<Inner>Proxy` with one message class per
    method. The proxies are remembered across rounds, and the actors
    builder is generated, in the single `@ActorsPackage` package, only when
    the round brought a proxy for an interface not seen before. */
module ActorsProcessor {
  import opened Wrappers
  import opened JavaModel
  import opened Text
  import opened TypeUtils
  import PI = ProxyItem
  import PMG = ProxyMessageGenerator

  const ONLY_INTERFACES: string := "Only interfaces can be annotated by this annotation."
  const MUST_BE_PUBLIC: string := "Actor interface must be public"
  const NO_EXCEPTIONS: string := "Actor's methods can not throw exceptions"
  const ONLY_PROMISE: string := "Actor's methods can return only Promise"
  const MUST_BE_NON_NULL: string := "Actor's methods which return Promise MUST be annotated by @NonNull annotation"
  const ONE_PACKAGE: string := "Only one package can be marked by @ActorsPackage"
  const MARK_PACKAGE: string := "You MUST mark package which will contain actors builder by @ActorsPackage annotation"
  const PROXY_SUFFIX: string := "Proxy"
  const PACKAGE_SEPARATOR: string := "."
  const NESTED_SEPARATOR: string := "_"
  const OBJECT_REF: JType := JClassRef("java.lang.Object", [])

  /** An error printed through the Messager, with the element it is about. */
  datatype Diagnostic = Diagnostic(message: string, element: Option<nat>)

  // buildProxyName

  /** The kinds of a TypeElement. */
  predicate IsTypeKind(k: ElementKind)
  {
    k == ClassKind || k == InterfaceKind || k == EnumKind || k == AnnotationTypeKind
  }

  /** What the compiler guarantees of a type's enclosing elements, innermost
      first: types, then a package. */
  predicate Nested(chain: seq<Scope>)
  {
    |chain| > 0 && (chain[0].kind == PackageKind || (IsTypeKind(chain[0].kind) && Nested(chain[1..])))
  }

  /** The `buildProxyName` loop: an enclosing type puts its simple name and
      `_` in front; the package puts its qualified name and `.` in front
      and ends the loop. */
  function NameLoop(result: string, chain: seq<Scope>): string
    requires Nested(chain)
    decreases |chain|
  {
    if chain[0].kind == PackageKind then chain[0].qualifiedName + PACKAGE_SEPARATOR + result
    else NameLoop(chain[0].simpleName + NESTED_SEPARATOR + result, chain[1..])
  }

  /** `buildProxyName(type)`. */
  function BuildProxyName(e: Element): string
    requires Nested(e.enclosing)
  {
    NameLoop(e.simpleName, e.enclosing)
  }

  /** The package a nested chain ends in. */
  function PackageOf(chain: seq<Scope>): string
    requires Nested(chain)
  {
    if chain[0].kind == PackageKind then chain[0].qualifiedName else PackageOf(chain[1..])
  }

  /** The simple names of the enclosing types, outermost first. */
  function Outer(chain: seq<Scope>): seq<string>
    requires Nested(chain)
  {
    if chain[0].kind == PackageKind then [] else Outer(chain[1..]) + [chain[0].simpleName]
  }

  /** The loop puts the outer names, outermost first, before the parts
      already joined by `_`, and the package before them. */
  lemma {:induction false} NameLoopJoins(chain: seq<Scope>, parts: seq<string>)
    requires Nested(chain) && |parts| >= 1
    ensures NameLoop(Join(parts, NESTED_SEPARATOR), chain) == PackageOf(chain) + PACKAGE_SEPARATOR + Join(Outer(chain) + parts, NESTED_SEPARATOR)
  {
    if chain[0].kind == PackageKind {
      assert Outer(chain) + parts == parts;
    } else {
      var parts' := [chain[0].simpleName] + parts;
      assert parts'[1..] == parts;
      assert chain[0].simpleName + NESTED_SEPARATOR + Join(parts, NESTED_SEPARATOR) == Join(parts', NESTED_SEPARATOR);
      NameLoopJoins(chain[1..], parts');
      assert Outer(chain[1..]) + parts' == Outer(chain) + parts;
    }
  }

  /** The proxy name is the package, a dot, and the simple names of the
      enclosing types and the interface, outermost first, joined by `_`. */
  lemma BuildProxyNameJoins(e: Element)
    requires Nested(e.enclosing)
    ensures BuildProxyName(e) == PackageOf(e.enclosing) + PACKAGE_SEPARATOR + Join(Outer(e.enclosing) + [e.simpleName], NESTED_SEPARATOR)
  {
    assert Join([e.simpleName], NESTED_SEPARATOR) == e.simpleName;
    NameLoopJoins(e.enclosing, [e.simpleName]);
  }

  /** Every outer name is the simple name of some enclosing scope. */
  lemma {:induction false} OuterFree(chain: seq<Scope>, c: char)
    requires Nested(chain)
    requires forall i :: 0 <= i < |chain| ==> c !in chain[i].simpleName
    ensures forall j :: 0 <= j < |Outer(chain)| ==> c !in Outer(chain)[j]
  {
    if chain[0].kind != PackageKind {
      assert forall i :: 0 <= i < |chain[1..]| ==> chain[1..][i] == chain[i + 1];
      OuterFree(chain[1..], c);
    }
  }

  /** When no simple name holds `_`, the names can be read back: after the
      package and its dot, splitting at `_` gives the enclosing types'
      names and the interface's, outermost first. */
  lemma ProxyNameReadsBack(e: Element)
    requires Nested(e.enclosing)
    requires '_' !in e.simpleName
    requires forall i :: 0 <= i < |e.enclosing| ==> '_' !in e.enclosing[i].simpleName
    ensures var s := BuildProxyName(e);
      var pkg := PackageOf(e.enclosing);
      && |pkg| + 1 <= |s| && s[..|pkg| + 1] == pkg + PACKAGE_SEPARATOR
      && Split(s[|pkg| + 1..], '_') == Outer(e.enclosing) + [e.simpleName]
  {
    BuildProxyNameJoins(e);
    var names := Outer(e.enclosing) + [e.simpleName];
    var pkg := PackageOf(e.enclosing);
    var s := BuildProxyName(e);
    assert s[|pkg| + 1..] == Join(names, NESTED_SEPARATOR);
    OuterFree(e.enclosing, '_');
    JoinSplits(names, '_');
  }

  /** `_` inside a name cannot be told from the separator: an interface
      `A_B` and an interface `B` nested in `A`, in the same package, get the
      same proxy name. */
  lemma ProxyNamesCanCollide()
    ensures var p := Scope(PackageKind, "p", "p");
      var top := Element(0, InterfaceKind, [Public], "A_B", "p.A_B", [p], []);
      var inner := Element(1, InterfaceKind, [Public], "B", "p.A.B", [Scope(InterfaceKind, "A", "p.A"), p], []);
      && Nested(top.enclosing) && Nested(inner.enclosing)
      && top.qualifiedName != inner.qualifiedName
      && BuildProxyName(top) == BuildProxyName(inner) == "p.A_B"
  {
  }

  // generateProxy

  /** The binary name of a type's erasure: the name of its class, without
      type arguments, or the full name of a primitive or array type. */
  function ErasedName(j: JType): string
  {
    var erased := Erasure(j);
    if erased.JClassRef? then erased.fullName else FullName(erased)
  }

  /** The erasure is named `Promise`'s canonical name exactly when the type
      is a reference to that class. */
  lemma ErasedNameIsPromise(j: JType)
    ensures ErasedName(j) == PROMISE_CANONICAL_NAME <==> j.JClassRef? && j.fullName == PROMISE_CANONICAL_NAME
  {
    if j.JArray? {
      var n := FullName(j.component) + ARRAY_SUFFIX;
      assert n[|n| - 1] == ']';
      assert PROMISE_CANONICAL_NAME[|PROMISE_CANONICAL_NAME| - 1] == 'e';
    }
  }

  /** The first rule a method breaks: it throws, returns neither void nor a
      Promise, or returns a Promise without `@NonNull`. */
  function MethodProblem(md: MethodElement): Option<Diagnostic>
  {
    if md.thrown != [] then Some(Diagnostic(NO_EXCEPTIONS, Some(md.id)))
    else if md.returnType.VoidType? then None
    else if ErasedName(ToJType(md.returnType)) != PROMISE_CANONICAL_NAME then Some(Diagnostic(ONLY_PROMISE, Some(md.id)))
    else if FindAnnotation(md.annotations, NON_NULL).None? then Some(Diagnostic(MUST_BE_NON_NULL, Some(md.id)))
    else None
  }

  /** Whether a return type is acceptable, in terms of the compiler's
      mirror: a class named `Promise`'s canonical name, with any arguments. */
  predicate ReturnsPromise(t: TypeMirror)
  {
    (t.DeclaredType? && t.qualifiedName == PROMISE_CANONICAL_NAME) || (t.OtherType? && t.text == PROMISE_CANONICAL_NAME)
  }

  /** A method passes exactly when it throws nothing and returns void, or a
      Promise and is `@NonNull`; each failure is reported on the method. */
  lemma MethodProblemIff(md: MethodElement)
    ensures MethodProblem(md).None? <==>
      && md.thrown == []
      && (md.returnType.VoidType? || (ReturnsPromise(md.returnType) && FindAnnotation(md.annotations, NON_NULL).Some?))
    ensures MethodProblem(md).Some? ==> MethodProblem(md).value.element == Some(md.id)
    ensures md.thrown != [] ==> MethodProblem(md).value.message == NO_EXCEPTIONS
  {
    ErasedNameIsPromise(ToJType(md.returnType));
  }

  /** The index of the first method that breaks a rule. */
  function FirstMethodProblem(mds: seq<MethodElement>): (r: Option<nat>)
    ensures r.Some? ==> (r.value < |mds| && MethodProblem(mds[r.value]).Some?
      && forall k :: 0 <= k < r.value ==> MethodProblem(mds[k]).None?)
    ensures r.None? ==> forall k :: 0 <= k < |mds| ==> MethodProblem(mds[k]).None?
  {
    if mds == [] then None
    else if MethodProblem(mds[0]).Some? then Some(0)
    else
      var rest := FirstMethodProblem(mds[1..]);
      if rest.None? then None else Some(rest.value + 1)
  }

  /** When every method before `i` passes and method `i` does not, `i` is
      the first problem. */
  lemma {:induction false} FirstMethodProblemAt(mds: seq<MethodElement>, i: nat)
    requires i < |mds| && MethodProblem(mds[i]).Some?
    requires forall k :: 0 <= k < i ==> MethodProblem(mds[k]).None?
    ensures FirstMethodProblem(mds) == Some(i)
  {
    if i > 0 {
      FirstMethodProblemAt(mds[1..], i - 1);
    }
  }

  lemma {:induction false} FirstMethodProblemNone(mds: seq<MethodElement>)
    requires forall k :: 0 <= k < |mds| ==> MethodProblem(mds[k]).None?
    ensures FirstMethodProblem(mds).None?
  {
    if mds != [] {
      assert MethodProblem(mds[0]).None?;
      FirstMethodProblemNone(mds[1..]);
    }
  }

  /** A proxy method parameter: name, translated type, and whether it is
      annotated `@NonNull` like the interface's. */
  datatype ProxyParameter = ProxyParameter(name: string, paramType: JType, nonNull: bool)

  /** The proxy method body: `return Promise.wrap(mMessageSender, new
      M(args))` with a result, `mMessageSender.deliver(new M(args))`
      without; the first argument is always a new invoke exception. */
  datatype Body = WrapPromise(messageClass: string, arguments: seq<string>) | Deliver(messageClass: string, arguments: seq<string>)

  const NEW_INVOKE_EXCEPTION: string := "new ActorMethodInvokeException()"

  datatype ProxyMethod = ProxyMethod(name: string, returnType: JType, nonNull: bool, parameters: seq<ProxyParameter>, body: Body)

  function ProxyParameters(ps: seq<Parameter>): (r: seq<ProxyParameter>)
    ensures |r| == |ps|
    ensures forall i :: 0 <= i < |ps| ==> r[i] == ProxyParameter(ps[i].name, ToJType(ps[i].paramType), IsNotNull(ps[i]))
  {
    if ps == [] then [] else [ProxyParameter(ps[0].name, ToJType(ps[0].paramType), IsNotNull(ps[0]))] + ProxyParameters(ps[1..])
  }

  /** The return type of the proxy method. */
  function ReturnJType(md: MethodElement): JType
  {
    if md.returnType.VoidType? then JVoid else ToJType(md.returnType)
  }

  /** The result type handed to the message generator: none for void,
      otherwise the Promise's type argument (Object for a raw Promise). */
  function ResultOf(md: MethodElement): Option<JType>
  {
    if md.returnType.VoidType? then None
    else
      var j := ToJType(md.returnType);
      if j.JClassRef? && |j.typeArguments| > 0 then Some(j.typeArguments[0]) else Some(OBJECT_REF)
  }

  /** The proxy's override of an interface method, sending the message
      class `messageClass`. */
  function ProxyMethodOf(md: MethodElement, messageClass: string): (pm: ProxyMethod)
  {
    var arguments := [NEW_INVOKE_EXCEPTION] + PMG.ParameterNames(md.parameters);
    ProxyMethod(md.name, ReturnJType(md), !md.returnType.VoidType?, ProxyParameters(md.parameters),
                if md.returnType.VoidType? then Deliver(messageClass, arguments) else WrapPromise(messageClass, arguments))
  }

  /** The proxy method keeps the interface method's name, parameters and
      return type; it is `@NonNull` and returns the wrapped Promise exactly
      when the method has a result; and the message gets the invoke
      exception and then the parameters, in order. */
  lemma ProxyMethodForwards(md: MethodElement, messageClass: string)
    ensures var pm := ProxyMethodOf(md, messageClass);
      && pm.name == md.name
      && (pm.nonNull <==> pm.returnType != JVoid)
      && (pm.body.WrapPromise? <==> pm.returnType != JVoid)
      && pm.body.messageClass == messageClass
      && pm.body.arguments[0] == NEW_INVOKE_EXCEPTION
      && pm.body.arguments[1..] == PMG.ParameterNames(md.parameters)
      && |pm.parameters| == |md.parameters|
      && (forall i :: 0 <= i < |md.parameters| ==> pm.parameters[i].name == pm.body.arguments[i + 1])
  {
    ToJTypeKinds(md.returnType);
    var pm := ProxyMethodOf(md, messageClass);
    assert pm.body.arguments[1..] == PMG.ParameterNames(md.parameters);
  }

  /** A generated proxy: its name, the interface it implements, whether the
      code model already had a class of that name, its methods and the
      message classes they send, one per method. */
  datatype ProxyClass = ProxyClass(
    name: string,
    actor: JType,
    reused: bool,
    methods: seq<ProxyMethod>,
    messages: seq<PMG.MessageClassDef>)

  /** What a generated message class is for method `md`. */
  ghost predicate MessageFor(cls: PMG.MessageClassDef, actor: JType, md: MethodElement)
  {
    PMG.MessageClassFor(cls, actor, md, ResultOf(md))
  }

  /** The proxy methods for the interface methods, each sending its
      message class. */
  function ProxyMethods(mds: seq<MethodElement>, messages: seq<PMG.MessageClassDef>): (r: seq<ProxyMethod>)
    requires |messages| == |mds|
    ensures |r| == |mds|
    ensures forall k :: 0 <= k < |mds| ==> r[k] == ProxyMethodOf(mds[k], messages[k].name)
  {
    if mds == [] then [] else [ProxyMethodOf(mds[0], messages[0].name)] + ProxyMethods(mds[1..], messages[1..])
  }

  /** What the proxy generated for `e` is, given the code model it started
      from: named `<buildProxyName>Proxy`, implementing the interface, with
      a proxy method and a fresh, distinct message class per method. */
  ghost predicate ProxyFor(p: ProxyClass, model: PMG.CodeModel, e: Element)
    requires Nested(e.enclosing)
  {
    var mds := MethodsOf(e.members);
    && p.actor == JClassRef(e.qualifiedName, [])
    && p.reused == (BuildProxyName(e) + PROXY_SUFFIX in model.classes)
    && |p.methods| == |mds| && |p.messages| == |mds|
    && (forall k :: 0 <= k < |mds| ==> p.methods[k] == ProxyMethodOf(mds[k], p.messages[k].name))
    && (forall k :: 0 <= k < |mds| ==> MessageFor(p.messages[k], p.actor, mds[k]))
    && (forall k :: 0 <= k < |mds| ==> p.messages[k].name !in model.classes)
    && (forall k, l :: 0 <= k < l < |mds| ==> p.messages[k].name != p.messages[l].name)
  }

  /** The message classes for a list of methods: one per method, made for
      it, each named fresh for the code model `before` and held by the
      code model `after`, no two alike. */
  ghost predicate MessagesFor(messages: seq<PMG.MessageClassDef>, actor: JType, mds: seq<MethodElement>,
                              before: set<string>, after: set<string>)
  {
    && |messages| == |mds|
    && (forall k :: 0 <= k < |mds| ==> MessageFor(messages[k], actor, mds[k]))
    && (forall k :: 0 <= k < |mds| ==> messages[k].name !in before && messages[k].name in after)
    && (forall k, l :: 0 <= k < l < |mds| ==> messages[k].name != messages[l].name)
  }

  /** One more message class, fresh for the code model it was added to. */
  lemma AppendMessage(messages: seq<PMG.MessageClassDef>, cls: PMG.MessageClassDef, actor: JType,
                      mds: seq<MethodElement>, md: MethodElement, before: set<string>, after: set<string>)
    requires MessagesFor(messages, actor, mds, before, after - {cls.name})
    requires MessageFor(cls, actor, md) && cls.name !in before && cls.name in after
    requires forall k :: 0 <= k < |messages| ==> messages[k].name != cls.name
    ensures MessagesFor(messages + [cls], actor, mds + [md], before, after)
  {
    var ms := messages + [cls];
    var ds := mds + [md];
    forall k | 0 <= k < |ds|
      ensures MessageFor(ms[k], actor, ds[k])
      ensures ms[k].name !in before && ms[k].name in after
    {
      if k < |messages| {
        assert ms[k] == messages[k] && ds[k] == mds[k];
      }
    }
  }

  /** The message class for one method, as the loop of `generateProxy`
      sees it: fresh, added to the code model, and made for the method. */
  method NextMessage(model: PMG.CodeModel, className: string, actor: JType, md: MethodElement)
    returns (cls: PMG.MessageClassDef, model': PMG.CodeModel)
    ensures cls.name !in model.classes && model'.classes == model.classes + {cls.name}
    ensures MessageFor(cls, actor, md)
  {
    ghost var index: nat;
    cls, model', index := PMG.GenerateMessage(model, className, actor, md, ResultOf(md));
  }

  /** One pass of that loop for a method that passes: its message class is
      appended to those made so far, fresh for the code model it joins. */
  method AppendNextMessage(before: set<string>, model: PMG.CodeModel, className: string, actor: JType,
                           mds: seq<MethodElement>, md: MethodElement, messages: seq<PMG.MessageClassDef>)
    returns (messages': seq<PMG.MessageClassDef>, model': PMG.CodeModel)
    requires MessagesFor(messages, actor, mds, before, model.classes) && before <= model.classes
    ensures MessagesFor(messages', actor, mds + [md], before, model'.classes) && before <= model'.classes
  {
    var cls: PMG.MessageClassDef;
    cls, model' := NextMessage(model, className, actor, md);
    AppendMessage(messages, cls, actor, mds, md, before, model'.classes);
    messages' := messages + [cls];
  }

  /** The loop of `generateProxy` over the interface methods: it stops at
      the first method that breaks a rule, with its diagnostic; otherwise
      each method gets its message class, named fresh in the code model. */
  method GenerateMessages(model: PMG.CodeModel, className: string, actor: JType, mds: seq<MethodElement>)
    returns (r: Result<seq<PMG.MessageClassDef>, Diagnostic>, model': PMG.CodeModel)
    ensures FirstMethodProblem(mds).Some? <==> r.Err?
    ensures r.Err? ==> r.error == MethodProblem(mds[FirstMethodProblem(mds).value]).value
    ensures r.Ok? ==> MessagesFor(r.value, actor, mds, model.classes, model'.classes)
  {
    model' := model;
    var messages: seq<PMG.MessageClassDef> := [];
    var i := 0;
    while i < |mds|
      invariant 0 <= i <= |mds| && |messages| == i
      invariant forall k :: 0 <= k < i ==> MethodProblem(mds[k]).None?
      invariant MessagesFor(messages, actor, mds[..i], model.classes, model'.classes)
      invariant model.classes <= model'.classes
    {
      var md := mds[i];
      var problem := MethodProblem(md);
      if problem.Some? {
        FirstMethodProblemAt(mds, i);
        return Err(problem.value), model';
      }
      messages, model' := AppendNextMessage(model.classes, model', className, actor, mds[..i], md, messages);
      assert mds[..i + 1] == mds[..i] + [md];
      i := i + 1;
    }
    assert mds[..i] == mds;
    FirstMethodProblemNone(mds);
    r := Ok(messages);
  }

  /** `generateProxy(type)`: null, with the diagnostic, at the first method
      that breaks a rule; otherwise the proxy with a method and a message
      class per interface method. */
  method GenerateProxy(model: PMG.CodeModel, e: Element) returns (r: Result<ProxyClass, Diagnostic>, model': PMG.CodeModel)
    requires Nested(e.enclosing)
    ensures var mds := MethodsOf(e.members);
      && (FirstMethodProblem(mds).Some? <==> r.Err?)
      && (r.Err? ==> r.error == MethodProblem(mds[FirstMethodProblem(mds).value]).value)
    ensures r.Ok? ==> r.value.name == BuildProxyName(e) + PROXY_SUFFIX && ProxyFor(r.value, model, e)
  {
    var className := BuildProxyName(e);
    var proxyName := className + PROXY_SUFFIX;
    var reused := proxyName in model.classes;
    var actor := JClassRef(e.qualifiedName, []);
    var mds := MethodsOf(e.members);
    var messages;
    messages, model' := GenerateMessages(PMG.CodeModel(model.classes + {proxyName}), className, actor, mds);
    if messages.Err? {
      return Err(messages.error), model';
    }
    r := Ok(ProxyClass(proxyName, actor, reused, ProxyMethods(mds, messages.value), messages.value));
  }

  // buildActorsBuilder

  /** The packages among the `@ActorsPackage` elements, in order. */
  function Packages(es: seq<Element>): (r: seq<Element>)
    ensures |r| <= |es|
    ensures forall i :: 0 <= i < |r| ==> r[i].kind == PackageKind
  {
    if es == [] then [] else (if es[0].kind == PackageKind then [es[0]] else []) + Packages(es[1..])
  }

  /** The package loop of `buildActorsBuilder`: other elements are passed
      over; a second package is an error reported on the first; none at all
      is an error about no element. */
  method FindActorsPackage(es: seq<Element>) returns (r: Result<Element, Diagnostic>)
    ensures r.Ok? <==> |Packages(es)| == 1
    ensures r.Ok? ==> r.value == Packages(es)[0]
    ensures |Packages(es)| >= 2 ==> r == Err(Diagnostic(ONE_PACKAGE, Some(Packages(es)[0].id)))
    ensures |Packages(es)| == 0 ==> r == Err(Diagnostic(MARK_PACKAGE, None))
  {
    var pkg: Option<Element> := None;
    var i := 0;
    while i < |es|
      invariant 0 <= i <= |es|
      invariant |Packages(es[..i])| <= 1
      invariant pkg.None? <==> Packages(es[..i]) == []
      invariant pkg.Some? ==> Packages(es[..i]) == [pkg.value]
      invariant Packages(es) == Packages(es[..i]) + Packages(es[i..])
    {
      PackagesSplit(es, i);
      if es[i].kind != PackageKind {
        i := i + 1;
        continue;
      }
      if pkg.Some? {
        assert Packages(es[i..])[0] == es[i];
        r := Err(Diagnostic(ONE_PACKAGE, Some(pkg.value.id)));
        return;
      }
      pkg := Some(es[i]);
      i := i + 1;
    }
    assert es[i..] == [];
    if pkg.None? {
      r := Err(Diagnostic(MARK_PACKAGE, None));
      return;
    }
    r := Ok(pkg.value);
  }

  lemma {:induction false} PackagesAppend(a: seq<Element>, b: seq<Element>)
    ensures Packages(a + b) == Packages(a) + Packages(b)
  {
    if a != [] {
      PackagesAppend(a[1..], b);
      assert (a + b)[1..] == a[1..] + b;
    } else {
      assert a + b == b;
    }
  }

  lemma PackagesSplit(es: seq<Element>, i: nat)
    requires i < |es|
    ensures Packages(es[..i + 1]) == Packages(es[..i]) + Packages([es[i]])
    ensures Packages(es[i..]) == Packages([es[i]]) + Packages(es[i + 1..])
  {
    assert es[..i + 1] == es[..i] + [es[i]];
    PackagesAppend(es[..i], [es[i]]);
    assert es[i..] == [es[i]] + es[i + 1..];
    PackagesAppend([es[i]], es[i + 1..]);
  }

  // process

  /** The proxy remembered for an interface. */
  function ItemOf(e: Element): PI.ProxyItem
  {
    PI.ProxyItem(e.qualifiedName, e.id)
  }

  /** The proxy set after adding the proxies of `es`, in order. */
  function AddAll(items: seq<PI.ProxyItem>, es: seq<Element>): seq<PI.ProxyItem>
  {
    if es == [] then items else PI.Add(AddAll(items, es[..|es| - 1]), ItemOf(es[|es| - 1])).1
  }

  /** `hasNewProxy`: whether some `add` in the loop returned true. */
  function AnyAdded(items: seq<PI.ProxyItem>, es: seq<Element>): bool
  {
    if es == [] then false
    else AnyAdded(items, es[..|es| - 1]) || PI.Add(AddAll(items, es[..|es| - 1]), ItemOf(es[|es| - 1])).0
  }

  /** The interface names a proxy set holds. */
  function Held(items: seq<PI.ProxyItem>): set<string>
  {
    set i | 0 <= i < |items| :: items[i].typeName
  }

  /** Adding proxies adds exactly their interfaces' names. */
  lemma {:induction false} AddAllHeld(items: seq<PI.ProxyItem>, es: seq<Element>)
    ensures Held(AddAll(items, es)) == Held(items) + set k | 0 <= k < |es| :: es[k].qualifiedName
  {
    if es != [] {
      var init := es[..|es| - 1];
      var e := es[|es| - 1];
      AddAllHeld(items, init);
      var before := AddAll(items, init);
      var r := PI.Add(before, ItemOf(e));
      if r.0 {
        HeldAppend(before, ItemOf(e));
      } else {
        var j :| 0 <= j < |before| && PI.Equals(ItemOf(e), Some(before[j]));
        assert e.qualifiedName in Held(before);
      }
      assert (set k | 0 <= k < |es| :: es[k].qualifiedName)
          == (set k | 0 <= k < |init| :: init[k].qualifiedName) + {e.qualifiedName};
    }
  }

  lemma HeldAppend(items: seq<PI.ProxyItem>, item: PI.ProxyItem)
    ensures Held(items + [item]) == Held(items) + {item.typeName}
  {
    var a := Held(items + [item]);
    assert (items + [item])[|items|] == item;
    forall n | n in Held(items) ensures n in a {
      var j :| 0 <= j < |items| && items[j].typeName == n;
      assert (items + [item])[j] == items[j];
    }
  }

  /** Some `add` returns true exactly when the round has an interface
      whose proxy was not held before the round. */
  lemma {:induction false} AnyAddedIff(items: seq<PI.ProxyItem>, es: seq<Element>)
    ensures AnyAdded(items, es) <==> exists k :: 0 <= k < |es| && es[k].qualifiedName !in Held(items)
  {
    if es != [] {
      var init := es[..|es| - 1];
      var e := es[|es| - 1];
      AnyAddedIff(items, init);
      AddAllHeld(items, init);
      var before := AddAll(items, init);
      var added := PI.Add(before, ItemOf(e)).0;
      assert added <==> e.qualifiedName !in Held(before);
      if exists k :: 0 <= k < |init| && init[k].qualifiedName !in Held(items) {
        var k :| 0 <= k < |init| && init[k].qualifiedName !in Held(items);
        assert es[k] == init[k];
      }
      if e.qualifiedName !in Held(items) && e.qualifiedName in Held(before) {
        var k :| 0 <= k < |init| && init[k].qualifiedName == e.qualifiedName;
      }
      if exists k :: 0 <= k < |es| && es[k].qualifiedName !in Held(items) {
        var k :| 0 <= k < |es| && es[k].qualifiedName !in Held(items);
        if k < |init| {
          assert init[k] == es[k];
        }
      }
    }
  }

  /** What the compiler guarantees of an annotated element that passes the
      kind and visibility checks: a public interface is a type, so its
      enclosing elements are types and then a package. Elements rejected by
      those checks may sit anywhere. */
  predicate Checkable(e: Element)
  {
    e.kind == InterfaceKind && IsPublic(e.modifiers) ==> Nested(e.enclosing)
  }

  /** The first rule an annotated element breaks: it is not an interface,
      not public, or one of its methods breaks a rule. */
  function ElementProblem(e: Element): Option<Diagnostic>
  {
    if e.kind != InterfaceKind then Some(Diagnostic(ONLY_INTERFACES, Some(e.id)))
    else if !IsPublic(e.modifiers) then Some(Diagnostic(MUST_BE_PUBLIC, Some(e.id)))
    else MembersProblem(e.members)
  }

  /** The problem of the first enclosed method that breaks a rule, passing
      over members that are not methods. */
  function MembersProblem(members: seq<Member>): Option<Diagnostic>
  {
    if members == [] then None
    else if members[0].MethodMember? && MethodProblem(members[0].declared).Some? then MethodProblem(members[0].declared)
    else MembersProblem(members[1..])
  }

  /** That problem is the one of the method `FirstMethodProblem` finds among
      the interface's methods. */
  lemma {:induction false} MembersProblemIsFirst(members: seq<Member>)
    ensures var mds := MethodsOf(members);
      var k := FirstMethodProblem(mds);
      MembersProblem(members) == if k.Some? then MethodProblem(mds[k.value]) else None
  {
    if members != [] {
      MembersProblemIsFirst(members[1..]);
      var rest := MethodsOf(members[1..]);
      if members[0].MethodMember? {
        var mds := MethodsOf(members);
        assert mds == [members[0].declared] + rest;
        assert mds[1..] == rest;
      } else {
        assert MethodsOf(members) == rest;
      }
    }
  }

  /** The index of the first annotated element that breaks a rule. */
  function FirstProblem(es: seq<Element>): (r: Option<nat>)
    ensures r.Some? ==> (r.value < |es| && ElementProblem(es[r.value]).Some?
      && forall k :: 0 <= k < r.value ==> ElementProblem(es[k]).None?)
    ensures r.None? ==> forall k :: 0 <= k < |es| ==> ElementProblem(es[k]).None?
  {
    if es == [] then None
    else if ElementProblem(es[0]).Some? then Some(0)
    else
      var rest := FirstProblem(es[1..]);
      if rest.None? then None else Some(rest.value + 1)
  }

  /** A round: the elements annotated `@ActorInterface` and those annotated
      `@ActorsPackage`, in the order the round gives them. */
  datatype Round = Round(interfaces: seq<Element>, packages: seq<Element>)

  /** The end of `process`: its return value, the proxy set it leaves, the
      diagnostics it printed, the proxies it generated, the package the
      builder was asked for, and whether the code model was written. */
  datatype Outcome = Outcome(
    ok: bool,
    proxies: seq<PI.ProxyItem>,
    diagnostics: seq<Diagnostic>,
    generated: seq<ProxyClass>,
    builderPackage: Option<Element>,
    written: bool)

  /** `process(annotations, round)`. The builder generator and the writing
      of the code model are outside: `generateBuilder` answers for the
      former, `writeError` is the IOException message of the latter, if
      any. */
  method Process(proxies: seq<PI.ProxyItem>, round: Round,
                 generateBuilder: (Element, seq<PI.ProxyItem>) -> bool, writeError: Option<string>)
    returns (out: Outcome)
    requires forall i :: 0 <= i < |round.interfaces| ==> Checkable(round.interfaces[i])
    ensures var es := round.interfaces;
      es == [] ==> out == Outcome(true, proxies, [], [], None, false)
    ensures var es := round.interfaces; var bad := FirstProblem(es);
      bad.Some? ==>
        && !out.ok && !out.written && out.builderPackage.None?
        && out.diagnostics == [ElementProblem(es[bad.value]).value]
        && out.proxies == AddAll(proxies, es[..bad.value])
        && |out.generated| == bad.value
    ensures var es := round.interfaces;
      es != [] && FirstProblem(es).None? ==>
        && out.proxies == AddAll(proxies, es)
        && |out.generated| == |es|
        && (forall k :: 0 <= k < |es| ==> ProxyOf(out.generated[k], es[k]))
        && (out.builderPackage.Some? ==> AnyAdded(proxies, es) && Packages(round.packages) == [out.builderPackage.value])
        && (out.written <==> out.ok)
        && (out.ok <==> (!AnyAdded(proxies, es) || (|Packages(round.packages)| == 1 && generateBuilder(Packages(round.packages)[0], out.proxies))) && writeError.None?)
  {
    var es := round.interfaces;
    if es == [] {
      return Outcome(true, proxies, [], [], None, false);
    }
    var problem, generated := GenerateAll(es);
    var items, hasNewProxy := AddProxies(proxies, es[..|generated|]);
    assert problem.None? ==> es[..|generated|] == es;
    if problem.Some? {
      return Outcome(false, items, [problem.value], generated, None, false);
    }
    var builderPackage: Option<Element> := None;
    if hasNewProxy {
      var pkg := FindActorsPackage(round.packages);
      if pkg.Err? {
        return Outcome(false, items, [pkg.error], generated, None, false);
      }
      builderPackage := Some(pkg.value);
      if !generateBuilder(pkg.value, items) {
        return Outcome(false, items, [], generated, builderPackage, false);
      }
    }
    if writeError.Some? {
      return Outcome(false, items, [Diagnostic(writeError.value, None)], generated, builderPackage, false);
    }
    out := Outcome(true, items, [], generated, builderPackage, true);
  }

  /** The proxy class generated for interface `e`, which is nested in types
      and a package: named after it, and implementing it. */
  predicate ProxyOf(p: ProxyClass, e: Element)
  {
    && Nested(e.enclosing)
    && p.name == BuildProxyName(e) + PROXY_SUFFIX && p.actor == JClassRef(e.qualifiedName, [])
  }

  /** One annotated element in the loop of `process`: the checks on the
      element itself, then `generateProxy`. */
  method CheckedProxy(model: PMG.CodeModel, e: Element) returns (r: Result<ProxyClass, Diagnostic>, model': PMG.CodeModel)
    requires Checkable(e)
    ensures r.Err? <==> ElementProblem(e).Some?
    ensures r.Err? ==> r.error == ElementProblem(e).value
    ensures r.Ok? ==> ProxyOf(r.value, e) && ProxyFor(r.value, model, e)
  {
    model' := model;
    if e.kind != InterfaceKind {
      return Err(Diagnostic(ONLY_INTERFACES, Some(e.id))), model';
    }
    if !IsPublic(e.modifiers) {
      return Err(Diagnostic(MUST_BE_PUBLIC, Some(e.id))), model';
    }
    r, model' := GenerateProxy(model, e);
    if r.Err? {
      MethodFailure(e);
    } else {
      MethodsPass(e);
    }
  }

  /** The loop of `process` over the annotated elements: it stops at the
      first element that breaks a rule, with its diagnostic; each element
      before it had its proxy generated, in order. */
  method GenerateAll(es: seq<Element>) returns (problem: Option<Diagnostic>, generated: seq<ProxyClass>)
    requires forall i :: 0 <= i < |es| ==> Checkable(es[i])
    ensures var bad := FirstProblem(es);
      && (problem.Some? <==> bad.Some?)
      && (bad.Some? ==> problem == ElementProblem(es[bad.value]))
      && |generated| == (if bad.Some? then bad.value else |es|)
    ensures forall k :: 0 <= k < |generated| ==> ProxyOf(generated[k], es[k])
  {
    var model := PMG.CodeModel({});
    generated := [];
    var i := 0;
    while i < |es|
      invariant 0 <= i <= |es| && |generated| == i
      invariant forall k :: 0 <= k < i ==> ElementProblem(es[k]).None?
      invariant forall k :: 0 <= k < i ==> ProxyOf(generated[k], es[k])
    {
      var cls;
      cls, model := CheckedProxy(model, es[i]);
      if cls.Err? {
        FirstProblemAt(es, i);
        return Some(cls.error), generated;
      }
      ProxiesAppend(generated, cls.value, es);
      generated := generated + [cls.value];
      i := i + 1;
    }
    FirstProblemNone(es);
    problem := None;
  }

  /** One more proxy, generated for the next element. */
  lemma ProxiesAppend(generated: seq<ProxyClass>, p: ProxyClass, es: seq<Element>)
    requires |generated| < |es| && forall i :: 0 <= i <= |generated| ==> Nested(es[i].enclosing)
    requires forall k :: 0 <= k < |generated| ==> ProxyOf(generated[k], es[k])
    requires ProxyOf(p, es[|generated|])
    ensures forall k :: 0 <= k < |generated| + 1 ==> ProxyOf((generated + [p])[k], es[k])
  {
    forall k | 0 <= k < |generated| + 1
      ensures ProxyOf((generated + [p])[k], es[k])
    {
      if k < |generated| {
        assert (generated + [p])[k] == generated[k];
      }
    }
  }

  /** The `add` calls of that loop, one per element whose proxy was
      generated; `hasNewProxy` tells whether one of them added. */
  method AddProxies(proxies: seq<PI.ProxyItem>, es: seq<Element>) returns (items: seq<PI.ProxyItem>, hasNewProxy: bool)
    ensures items == AddAll(proxies, es)
    ensures hasNewProxy == AnyAdded(proxies, es)
  {
    items := proxies;
    hasNewProxy := false;
    var i := 0;
    while i < |es|
      invariant 0 <= i <= |es|
      invariant items == AddAll(proxies, es[..i])
      invariant hasNewProxy == AnyAdded(proxies, es[..i])
    {
      AddAllStep(proxies, es, i);
      var added := PI.Add(items, ItemOf(es[i]));
      hasNewProxy := hasNewProxy || added.0;
      items := added.1;
      i := i + 1;
    }
    assert es[..i] == es;
  }

  /** A public interface whose methods all pass has no problem. */
  lemma MethodsPass(e: Element)
    requires Nested(e.enclosing) && e.kind == InterfaceKind && IsPublic(e.modifiers)
    requires FirstMethodProblem(MethodsOf(e.members)).None?
    ensures ElementProblem(e).None?
  {
    MembersProblemIsFirst(e.members);
  }

  /** A public interface with a failing method has that method's problem. */
  lemma MethodFailure(e: Element)
    requires Nested(e.enclosing) && e.kind == InterfaceKind && IsPublic(e.modifiers)
    requires FirstMethodProblem(MethodsOf(e.members)).Some?
    ensures var mds := MethodsOf(e.members);
      ElementProblem(e) == MethodProblem(mds[FirstMethodProblem(mds).value])
  {
    MembersProblemIsFirst(e.members);
  }

  /** One more element in the loop of `process`. */
  lemma AddAllStep(items: seq<PI.ProxyItem>, es: seq<Element>, i: nat)
    requires i < |es|
    ensures var before := AddAll(items, es[..i]);
      && AddAll(items, es[..i + 1]) == PI.Add(before, ItemOf(es[i])).1
      && AnyAdded(items, es[..i + 1]) == (AnyAdded(items, es[..i]) || PI.Add(before, ItemOf(es[i])).0)
  {
    assert es[..i + 1][..i] == es[..i];
  }

  /** When every element before `i` passes and element `i` does not, `i`
      is the first problem. */
  lemma {:induction false} FirstProblemAt(es: seq<Element>, i: nat)
    requires i < |es| && ElementProblem(es[i]).Some?
    requires forall k :: 0 <= k < i ==> ElementProblem(es[k]).None?
    ensures FirstProblem(es) == Some(i)
  {
    if i > 0 {
      FirstProblemAt(es[1..], i - 1);
    }
  }

  lemma {:induction false} FirstProblemNone(es: seq<Element>)
    requires forall k :: 0 <= k < |es| ==> ElementProblem(es[k]).None?
    ensures FirstProblem(es).None?
  {
    if es != [] {
      assert ElementProblem(es[0]).None?;
      FirstProblemNone(es[1..]);
    }
  }
}
