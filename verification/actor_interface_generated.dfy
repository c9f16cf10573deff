/** ActorInterfaceGeneratedImpl: the proxy class generated for a validated
    actor interface. The proxy is named after the interface and the types
    enclosing it (`Outer$Inner$Proxy`) and lives in the interface's
    package; each interface method becomes a nested message class and a
    proxy method whose body sends a new message carrying the arguments.
    The Java statements are built as text; this module builds the same
    text and reads the arguments back out of it. */
module ActorInterfaceGenerated {
  import opened Wrappers
  import opened JavaModel
  import opened Text
  import NP = NamesProvider
  import AID = ActorInterfaceDescription

  const MESSAGE_SENDER_FIELD: string := "mMessageSender"
  const PROXY_SUFFIX: string := "Proxy"

  // Names

  /** The kinds whose simple names make up the proxy name. */
  predicate IsTypeScope(s: Scope)
  {
    s.kind == ClassKind || s.kind == InterfaceKind
  }

  /** The element and then its enclosing elements, innermost first, as the
      `getEnclosingElement()` walk visits them. */
  function Chain(e: Element): seq<Scope>
  {
    [Scope(e.kind, e.simpleName, e.qualifiedName)] + e.enclosing
  }

  /** One turn of the `extractActorName` loop: a class or interface puts its
      simple name in front, with a `$` when the name so far is not empty. */
  function NameStep(result: string, s: Scope): string
  {
    if !IsTypeScope(s) then result
    else if |result| > 0 then s.simpleName + "$" + result
    else s.simpleName + result
  }

  function NameLoop(chain: seq<Scope>, result: string): string
  {
    if chain == [] then result else NameLoop(chain[1..], NameStep(result, chain[0]))
  }

  /** `extractActorName(mActor)`. */
  function ExtractActorName(e: Element): string
  {
    NameLoop(Chain(e), "")
  }

  /** `getProxyName()`. */
  function ProxyName(e: Element): string
  {
    ExtractActorName(e) + "$" + PROXY_SUFFIX
  }

  /** The simple names of the classes and interfaces of a chain, outermost
      first. */
  function TypeNames(chain: seq<Scope>): seq<string>
  {
    if chain == [] then []
    else TypeNames(chain[1..]) + (if IsTypeScope(chain[0]) then [chain[0].simpleName] else [])
  }

  /** Classes and interfaces have non-empty simple names. */
  predicate NamedTypes(chain: seq<Scope>)
  {
    forall i :: 0 <= i < |chain| && IsTypeScope(chain[i]) ==> chain[i].simpleName != ""
  }

  /** The loop builds the outermost-first names joined by `$`. */
  lemma {:induction false} NameLoopJoins(chain: seq<Scope>, parts: seq<string>)
    requires NamedTypes(chain)
    requires forall i :: 0 <= i < |parts| ==> parts[i] != ""
    ensures NameLoop(chain, Join(parts, "$")) == Join(TypeNames(chain) + parts, "$")
  {
    if chain != [] {
      var c := chain[0];
      assert NamedTypes(chain[1..]) by {
        forall i | 0 <= i < |chain[1..]| && IsTypeScope(chain[1..][i])
          ensures chain[1..][i].simpleName != ""
        {
          assert chain[1..][i] == chain[i + 1];
        }
      }
      if IsTypeScope(c) {
        var parts' := [c.simpleName] + parts;
        assert parts'[1..] == parts;
        if parts != [] {
          assert |Join(parts, "$")| > 0;
        }
        assert NameStep(Join(parts, "$"), c) == Join(parts', "$");
        NameLoopJoins(chain[1..], parts');
        assert TypeNames(chain[1..]) + parts' == TypeNames(chain) + parts;
      } else {
        var rest := TypeNames(chain[1..]);
        assert TypeNames(chain) == rest + [];
        assert rest + [] == rest;
        assert NameStep(Join(parts, "$"), c) == Join(parts, "$");
        NameLoopJoins(chain[1..], parts);
        assert NameLoop(chain, Join(parts, "$")) == NameLoop(chain[1..], Join(parts, "$"));
      }
    } else {
      assert TypeNames(chain) + parts == parts;
    }
  }

  /** Every type name comes from the chain, so what no simple name holds no
      type name holds. */
  lemma {:induction false} TypeNamesFree(chain: seq<Scope>, c: char)
    requires forall i :: 0 <= i < |chain| ==> c !in chain[i].simpleName
    ensures forall j :: 0 <= j < |TypeNames(chain)| ==> c !in TypeNames(chain)[j]
  {
    if chain != [] {
      assert forall i :: 0 <= i < |chain[1..]| ==> chain[1..][i] == chain[i + 1];
      TypeNamesFree(chain[1..], c);
    }
  }

  /** The proxy name is the class and interface names, outermost first,
      then `Proxy`, with `$` between each two: split at the `$`s it gives
      them back. */
  lemma ProxyNameReadsBack(e: Element)
    requires IsTypeScope(Chain(e)[0])
    requires NamedTypes(Chain(e))
    requires forall i :: 0 <= i < |Chain(e)| ==> '$' !in Chain(e)[i].simpleName
    ensures Split(ProxyName(e), '$') == TypeNames(Chain(e)) + [PROXY_SUFFIX]
  {
    var chain := Chain(e);
    var names := TypeNames(chain);
    NameLoopJoins(chain, []);
    assert names + [] == names;
    assert ExtractActorName(e) == Join(names, "$");
    assert names == TypeNames(chain[1..]) + [e.simpleName];
    JoinAppend(names, PROXY_SUFFIX, "$");
    assert ProxyName(e) == Join(names + [PROXY_SUFFIX], "$");
    TypeNamesFree(chain, '$');
    assert '$' !in PROXY_SUFFIX;
    JoinSplits(names + [PROXY_SUFFIX], '$');
  }

  /** `extractActorPackage`: the qualified name of the first package met
      walking outwards, or "" when there is none. */
  function FirstPackage(chain: seq<Scope>): (r: string)
    ensures (forall i :: 0 <= i < |chain| ==> chain[i].kind != PackageKind) ==> r == ""
    ensures forall i :: 0 <= i < |chain| && chain[i].kind == PackageKind
                        && (forall j :: 0 <= j < i ==> chain[j].kind != PackageKind)
                        ==> r == chain[i].qualifiedName
  {
    if chain == [] then ""
    else if chain[0].kind == PackageKind then chain[0].qualifiedName
    else
      assert forall i :: 0 <= i < |chain[1..]| ==> chain[1..][i] == chain[i + 1];
      FirstPackage(chain[1..])
  }

  /** `getProxyPackage()`. */
  function ProxyPackage(e: Element): string
  {
    FirstPackage(Chain(e))
  }

  // Messages

  /** What the constructor keeps of a method: its name, its promised type
      (none for void) and its arguments. */
  datatype Message = Message(methodName: string, resultType: Option<TypeMirror>, arguments: seq<AID.Argument>)

  /** `new Message(method)`: it fails with whatever `getPromisedType()`
      throws. */
  function NewMessage(m: AID.Method): (r: Result<Message, AID.PromisedTypeFailure>)
    ensures r.Ok? <==> AID.PromisedType(m).Ok?
    ensures r.Ok? ==> r.value == Message(m.name, AID.PromisedType(m).value, m.arguments)
    ensures r.Err? ==> r.error == AID.PromisedType(m).error
  {
    match AID.PromisedType(m)
    case Err(f) => Err(f)
    case Ok(promised) => Ok(Message(m.name, promised, m.arguments))
  }

  /** The constructor: one message per method, in order; the first method
      whose promised type cannot be read throws out of it. */
  function Messages(methods: seq<AID.Method>): (r: Result<seq<Message>, AID.PromisedTypeFailure>)
    ensures r.Ok? <==> forall i :: 0 <= i < |methods| ==> NewMessage(methods[i]).Ok?
    ensures r.Ok? ==> |r.value| == |methods| && forall i :: 0 <= i < |methods| ==> r.value[i] == NewMessage(methods[i]).value
    ensures r.Err? ==> exists j :: 0 <= j < |methods| && NewMessage(methods[j]) == Err(r.error)
                                   && forall i :: 0 <= i < j ==> NewMessage(methods[i]).Ok?
  {
    if methods == [] then Ok([])
    else
      var first := NewMessage(methods[0]);
      var rest := Messages(methods[1..]);
      assert forall i :: 1 <= i < |methods| ==> methods[i] == methods[1..][i - 1];
      if first.Err? then Err(first.error)
      else if rest.Err? then Err(rest.error)
      else Ok([first.value] + rest.value)
  }

  /** The messages of a validated interface: one per method, each with the
      method's name and arguments and, for a Promise method, the Promise's
      type argument as its result type. */
  lemma ValidatedMessages(methods: seq<AID.Method>, levels: AID.SecureLevels)
    requires forall i :: 0 <= i < |methods| ==> AID.MethodErrors(methods[i], levels) == []
    ensures Messages(methods).Ok?
    ensures forall i :: 0 <= i < |methods| ==>
      var m := methods[i];
      Messages(methods).value[i]
        == Message(m.name, if m.returnType.VoidType? then None else Some(m.returnType.arguments[0]), m.arguments)
  {
    forall i | 0 <= i < |methods|
      ensures NewMessage(methods[i]).Ok?
      ensures NewMessage(methods[i]).value
        == Message(methods[i].name, if methods[i].returnType.VoidType? then None else Some(methods[i].returnType.arguments[0]), methods[i].arguments)
    {
      AID.ReturnCodes(methods[i]);
      AID.MethodValidIff(methods[i], levels);
      AID.PromisedTypeOfAccepted(methods[i], levels);
    }
  }

  /** The names of a message's arguments, in order. */
  function Names(args: seq<AID.Argument>): (r: seq<string>)
    ensures |r| == |args|
    ensures forall i :: 0 <= i < |args| ==> r[i] == args[i].name
  {
    if args == [] then [] else [args[0].name] + Names(args[1..])
  }

  // The proxy method's statement

  const INVOKE_EXCEPTION: string := "new ActorMethodInvokeException()"

  /** How the call starts: a void method delivers the message, a Promise
      method wraps it. */
  function CallPrefix(msg: Message): string
  {
    if msg.resultType.None? then MESSAGE_SENDER_FIELD + ".deliver("
    else "return Promise.wrap(" + MESSAGE_SENDER_FIELD + ", "
  }

  function CallHead(msg: Message, messageClass: string): string
  {
    CallPrefix(msg) + "new " + messageClass + "(" + INVOKE_EXCEPTION
  }

  /** `, a1, a2, ...`: nothing when there are no arguments. */
  function ArgumentsAfter(names: seq<string>): string
  {
    if names == [] then "" else ", " + Join(names, ", ")
  }

  /** The statement of a proxy method: send a new message built from a new
      exception template and the arguments in order. */
  function ProxyCall(msg: Message, messageClass: string): string
  {
    CallHead(msg, messageClass) + ArgumentsAfter(Names(msg.arguments)) + "))"
  }

  lemma ArgumentsAfterAppend(names: seq<string>, i: nat)
    requires i < |names|
    ensures ArgumentsAfter(names[..i + 1]) == ArgumentsAfter(names[..i]) + ", " + names[i]
  {
    assert names[..i + 1] == names[..i] + [names[i]];
    if i > 0 {
      JoinAppend(names[..i], names[i], ", ");
    }
  }

  /** `generateMethod`'s StringBuilder: the head, `, name` per argument,
      then `))`. */
  method BuildProxyCall(msg: Message, messageClass: string) returns (call: string)
    ensures call == ProxyCall(msg, messageClass)
  {
    if msg.resultType.None? {
      call := MESSAGE_SENDER_FIELD + ".deliver(";
    } else {
      call := "return Promise.wrap(" + MESSAGE_SENDER_FIELD + ", ";
    }
    call := call + "new " + messageClass + "(" + INVOKE_EXCEPTION;
    ghost var head := call;
    ghost var names := Names(msg.arguments);
    var i := 0;
    while i < |msg.arguments|
      invariant 0 <= i <= |msg.arguments|
      invariant call == head + ArgumentsAfter(names[..i])
    {
      ArgumentsAfterAppend(names, i);
      call := call + ", " + msg.arguments[i].name;
      i := i + 1;
    }
    assert names[..i] == names;
    call := call + "))";
  }

  /** Reads the arguments back from the text between the head and `))`. */
  function ReadArguments(s: string): seq<string>
  {
    if |s| < 2 then [] else ReadList(s[2..])
  }

  /** Names without commas, as Java identifiers are. */
  predicate CommaFree(names: seq<string>)
  {
    forall i :: 0 <= i < |names| ==> ',' !in names[i]
  }

  /** The call passes exactly the method's arguments, in order: the text
      between its head and `))` reads back as their names. */
  lemma ProxyCallReadsBack(msg: Message, messageClass: string)
    requires CommaFree(Names(msg.arguments))
    ensures var call := ProxyCall(msg, messageClass);
      var head := CallHead(msg, messageClass);
      && |head| + 2 <= |call|
      && call[..|head|] == head
      && call[|call| - 2..] == "))"
      && ReadArguments(call[|head|..|call| - 2]) == Names(msg.arguments)
  {
    var names := Names(msg.arguments);
    var call := ProxyCall(msg, messageClass);
    var head := CallHead(msg, messageClass);
    var middle := ArgumentsAfter(names);
    assert call == head + middle + "))";
    assert call[|head|..|call| - 2] == middle;
    if names != [] {
      assert middle[2..] == Join(names, ", ");
      ReadListJoin(names);
    }
  }

  // The message's invoke body

  const THIS_PREFIX: string := "this."

  /** `target.m(this.a1, this.a2, ...)`, wrapped in `verifyResult(...)` and
      returned when there is a result. */
  function InvokeHead(msg: Message): string
  {
    (if msg.resultType.Some? then "return verifyResult(" else "") + "target." + msg.methodName + "("
  }

  function InvokeTail(msg: Message): string
  {
    if msg.resultType.Some? then "))" else ")"
  }

  function InvokeCall(msg: Message): string
  {
    InvokeHead(msg) + Join(Prefixed(THIS_PREFIX, Names(msg.arguments)), ", ") + InvokeTail(msg)
  }

  /** The statements of `invoke`: the call, then `return null` for a void
      method. */
  function InvokeStatements(msg: Message): seq<string>
  {
    [InvokeCall(msg)] + (if msg.resultType.None? then ["return null"] else [])
  }

  lemma PrefixedAppend(t: string, names: seq<string>, i: nat)
    requires 1 <= i < |names|
    ensures Join(Prefixed(t, names[..i + 1]), ", ") == Join(Prefixed(t, names[..i]), ", ") + ", " + t + names[i]
  {
    assert Prefixed(t, names[..i + 1]) == Prefixed(t, names[..i]) + [t + names[i]];
    JoinAppend(Prefixed(t, names[..i]), t + names[i], ", ");
  }

  /** `createInvoke`'s iterator loop: the first field, then `, this.` and
      each further one. */
  method BuildInvoke(msg: Message) returns (statements: seq<string>)
    ensures statements == InvokeStatements(msg)
  {
    ghost var names := Names(msg.arguments);
    var fields := "";
    if |msg.arguments| > 0 {
      fields := THIS_PREFIX + msg.arguments[0].name;
      assert Prefixed(THIS_PREFIX, names[..1]) == [THIS_PREFIX + names[0]];
      var i := 1;
      while i < |msg.arguments|
        invariant 1 <= i <= |msg.arguments|
        invariant fields == Join(Prefixed(THIS_PREFIX, names[..i]), ", ")
      {
        PrefixedAppend(THIS_PREFIX, names, i);
        fields := fields + ", " + THIS_PREFIX + msg.arguments[i].name;
        i := i + 1;
      }
      assert names[..i] == names;
    } else {
      assert Prefixed(THIS_PREFIX, names) == [];
    }
    var call := InvokeHead(msg) + fields + InvokeTail(msg);
    statements := [call];
    if msg.resultType.None? {
      statements := statements + ["return null"];
    }
  }

  /** Reads the fields back from the text between `(` and the closing
      parenthesis. */
  function ReadFields(s: string): seq<string>
  {
    if s == [] then [] else Unprefixed(|THIS_PREFIX|, ReadList(s))
  }

  /** `invoke` calls the target's method with the message's fields, in the
      order of the method's arguments. */
  lemma InvokeReadsBack(msg: Message)
    requires CommaFree(Names(msg.arguments))
    ensures var call := InvokeCall(msg);
      var head := InvokeHead(msg);
      var tail := InvokeTail(msg);
      && |head| + |tail| <= |call|
      && call[..|head|] == head
      && call[|call| - |tail|..] == tail
      && ReadFields(call[|head|..|call| - |tail|]) == Names(msg.arguments)
  {
    var names := Names(msg.arguments);
    var fields := Prefixed(THIS_PREFIX, names);
    var middle := Join(fields, ", ");
    var call := InvokeCall(msg);
    var head := InvokeHead(msg);
    var tail := InvokeTail(msg);
    assert call == head + middle + tail;
    assert call[|head|..|call| - |tail|] == middle;
    if names != [] {
      assert forall i :: 0 <= i < |fields| ==> fields[i] == THIS_PREFIX + names[i];
      assert ',' !in THIS_PREFIX;
      assert CommaFree(fields);
      ReadListJoin(fields);
      assert middle != [] by { assert |middle| >= |fields[0]|; }
      UnprefixedPrefixed(THIS_PREFIX, names);
    }
  }

  // The message's toString body

  /** `StringBuilder.append(int)`. */
  function IntText(i: int): string
  {
    if i < 0 then "-" + NP.Decimal(-i) else NP.Decimal(i)
  }

  /** `appendParameterValue`: `logParam(name,level)`. */
  function LogParam(a: AID.Argument): string
  {
    "logParam(" + a.name + "," + IntText(a.secureLevel) + ")"
  }

  function LogParams(args: seq<AID.Argument>): (r: seq<string>)
    ensures |r| == |args|
    ensures forall i :: 0 <= i < |args| ==> r[i] == LogParam(args[i])
  {
    if args == [] then [] else [LogParam(args[0])] + LogParams(args[1..])
  }

  const TO_STRING_OPEN: string := "return \"."
  const TO_STRING_JOIN: string := " + \",\" + "
  const TO_STRING_CLOSE: string := " + \")\""

  /** The part of `toString` after `".m("`: ` + ` and the parameter
      values joined by ` + "," + `, or nothing. */
  function ToStringArguments(params: seq<string>): string
  {
    if params == [] then "" else " + " + Join(params, TO_STRING_JOIN)
  }

  /** `return ".m(" + logParam(a1,L1) + "," + ... + ")"`. */
  function ToStringStatement(msg: Message): string
  {
    TO_STRING_OPEN + msg.methodName + "(\"" + ToStringArguments(LogParams(msg.arguments)) + TO_STRING_CLOSE
  }

  /** `createToString`'s iterator loop. */
  method BuildToString(msg: Message) returns (statement: string)
    ensures statement == ToStringStatement(msg)
  {
    ghost var params := LogParams(msg.arguments);
    var values := "";
    if |msg.arguments| > 0 {
      values := " + " + LogParam(msg.arguments[0]);
      assert params[..1] == [params[0]];
      var i := 1;
      while i < |msg.arguments|
        invariant 1 <= i <= |msg.arguments|
        invariant values == " + " + Join(params[..i], TO_STRING_JOIN)
      {
        ToStringStep(params, i);
        values := values + TO_STRING_JOIN + LogParam(msg.arguments[i]);
        i := i + 1;
      }
      assert params[..i] == params;
    }
    statement := TO_STRING_OPEN + msg.methodName + "(\"" + values + TO_STRING_CLOSE;
  }

  lemma ToStringStep(params: seq<string>, i: nat)
    requires 1 <= i < |params|
    ensures Join(params[..i + 1], TO_STRING_JOIN) == Join(params[..i], TO_STRING_JOIN) + TO_STRING_JOIN + params[i]
  {
    assert params[..i + 1] == params[..i] + [params[i]];
    JoinAppend(params[..i], params[i], TO_STRING_JOIN);
  }

  // The generated proxy

  /** A proxy method parameter: the argument's name, type and forwarded
      annotations. */
  datatype ProxyParameter = ProxyParameter(name: string, paramType: TypeMirror, annotations: seq<AnnotationMirror>)

  function ProxyParameters(args: seq<AID.Argument>): (r: seq<ProxyParameter>)
    ensures |r| == |args|
    ensures forall i :: 0 <= i < |args| ==>
      r[i] == ProxyParameter(args[i].name, args[i].argType, args[i].annotations)
  {
    if args == [] then []
    else [ProxyParameter(args[0].name, args[0].argType, args[0].annotations)] + ProxyParameters(args[1..])
  }

  /** A proxy method: `@NonNull` and returning `Promise<T>` when there is a
      result type T, void otherwise. */
  datatype ProxyMethod = ProxyMethod(
    name: string,
    nonNull: bool,
    promised: Option<TypeMirror>,
    parameters: seq<ProxyParameter>,
    statement: string)

  /** `generateMethod(message, messageClass)`. */
  function GenerateMethod(msg: Message, messageClass: string): ProxyMethod
  {
    ProxyMethod(msg.methodName, msg.resultType.Some?, msg.resultType,
                ProxyParameters(msg.arguments), ProxyCall(msg, messageClass))
  }

  /** The proxy method overrides the interface method with the same
      parameters, and its statement sends them on in the same order. */
  lemma ProxyMethodForwardsParameters(msg: Message, messageClass: string)
    requires CommaFree(Names(msg.arguments))
    ensures var pm := GenerateMethod(msg, messageClass);
      var head := CallHead(msg, messageClass);
      && pm.name == msg.methodName
      && (pm.nonNull <==> pm.promised.Some?)
      && |pm.parameters| == |msg.arguments|
      && (forall i :: 0 <= i < |msg.arguments| ==>
            pm.parameters[i].name == msg.arguments[i].name
            && pm.parameters[i].paramType == msg.arguments[i].argType
            && pm.parameters[i].annotations == msg.arguments[i].annotations)
      && |head| + 2 <= |pm.statement|
      && ReadArguments(pm.statement[|head|..|pm.statement| - 2]) == ParameterNames(pm.parameters)
  {
    ProxyCallReadsBack(msg, messageClass);
    var pm := GenerateMethod(msg, messageClass);
    assert ParameterNames(pm.parameters) == Names(msg.arguments);
  }

  /** The names of a proxy method's parameters, in order. These are read
      off the generated method itself, so that `ProxyMethodForwardsParameters`
      can state that the method forwards the parameters it declares, and
      that those carry the arguments' names. */
  function ParameterNames(ps: seq<ProxyParameter>): (r: seq<string>)
    ensures |r| == |ps|
    ensures forall i :: 0 <= i < |ps| ==> r[i] == ps[i].name
  {
    if ps == [] then [] else [ps[0].name] + ParameterNames(ps[1..])
  }

  const VOID_CLASS: TypeMirror := DeclaredType("java.lang.Void", "Void", [])

  /** A private final field of a message class: a name and a type, without
      the argument's annotations. */
  datatype MessageField = MessageField(name: string, fieldType: TypeMirror)

  /** One field per argument, in order. */
  function MessageFields(args: seq<AID.Argument>): (r: seq<MessageField>)
    ensures |r| == |args|
    ensures forall i :: 0 <= i < |args| ==> r[i] == MessageField(args[i].name, args[i].argType)
  {
    if args == [] then [] else [MessageField(args[0].name, args[0].argType)] + MessageFields(args[1..])
  }

  /** A nested message class: `MessageBase<actor, result>` with the result
      `Void` for a void method, a field per argument, and its `invoke` and
      `toString` bodies. */
  datatype MessageClass = MessageClass(
    name: string,
    actor: TypeMirror,
    result: TypeMirror,
    fields: seq<MessageField>,
    invoke: seq<string>,
    toString: string)

  /** `Message.generate(actor, namesProvider)` once the name is chosen. */
  function MessageClassOf(msg: Message, actor: TypeMirror, name: string): MessageClass
  {
    MessageClass(name, actor, if msg.resultType.Some? then msg.resultType.value else VOID_CLASS,
                 MessageFields(msg.arguments), InvokeStatements(msg), ToStringStatement(msg))
  }

  /** The generated file: package, proxy class name, one message class and
      one proxy method per interface method. */
  datatype ProxyFile = ProxyFile(packageName: string, className: string, messages: seq<MessageClass>, methods: seq<ProxyMethod>)

  /** The message classes for the methods under the chosen names. */
  function MessageClasses(msgs: seq<Message>, actor: TypeMirror, names: seq<string>): (r: seq<MessageClass>)
    requires |names| == |msgs|
    ensures |r| == |msgs|
    ensures forall k :: 0 <= k < |msgs| ==> r[k] == MessageClassOf(msgs[k], actor, names[k])
  {
    seq(|msgs|, k requires 0 <= k < |msgs| => MessageClassOf(msgs[k], actor, names[k]))
  }

  /** The proxy methods for the methods, each sending its message class. */
  function ProxyMethods(msgs: seq<Message>, names: seq<string>): (r: seq<ProxyMethod>)
    requires |names| == |msgs|
    ensures |r| == |msgs|
    ensures forall k :: 0 <= k < |msgs| ==> r[k] == GenerateMethod(msgs[k], names[k])
  {
    seq(|msgs|, k requires 0 <= k < |msgs| => GenerateMethod(msgs[k], names[k]))
  }

  lemma SetOfAppend(names: seq<string>, name: string)
    ensures (set k | 0 <= k < |names| + 1 :: (names + [name])[k]) == (set k | 0 <= k < |names| :: names[k]) + {name}
  {
    var a := set k | 0 <= k < |names| + 1 :: (names + [name])[k];
    var b := (set k | 0 <= k < |names| :: names[k]) + {name};
    assert (names + [name])[|names|] == name;
    forall x | x in b ensures x in a {
      if x != name {
        var k :| 0 <= k < |names| && names[k] == x;
        assert (names + [name])[k] == x;
      }
    }
  }

  /** The names the names provider hands out, one per method in order:
      each unused before and taken afterwards. */
  method ChooseNames(msgs: seq<Message>, p: NP.NamesProvider) returns (names: seq<string>, p': NP.NamesProvider)
    ensures |names| == |msgs|
    ensures forall k :: 0 <= k < |msgs| ==> names[k] !in p.used
    ensures forall k, l :: 0 <= k < l < |msgs| ==> names[k] != names[l]
    ensures p'.used == p.used + (set k | 0 <= k < |msgs| :: names[k])
    ensures forall k :: 0 <= k < |msgs| ==> NP.IsCandidate(names[k], msgs[k].methodName)
  {
    names := [];
    p' := p;
    var i := 0;
    while i < |msgs|
      invariant 0 <= i <= |msgs| && |names| == i
      invariant forall k :: 0 <= k < i ==> names[k] !in p.used
      invariant forall k, l :: 0 <= k < l < i ==> names[k] != names[l]
      invariant p'.used == p.used + (set k | 0 <= k < i :: names[k])
      invariant forall k :: 0 <= k < i ==> NP.IsCandidate(names[k], msgs[k].methodName)
    {
      var name: string;
      ghost var index: nat;
      name, p', index := NP.BuildMessageName(p', msgs[i].methodName);
      SetOfAppend(names, name);
      assert forall k :: 0 <= k < i ==> (names + [name])[k] == names[k];
      assert NP.IsCandidate((names + [name])[i], msgs[i].methodName);
      names := names + [name];
      i := i + 1;
    }
  }

  /** `generate(namesProvider)`: each message class takes a fresh name from
      the names provider, in method order; `names` are those names. */
  method Generate(e: Element, actor: TypeMirror, msgs: seq<Message>, p: NP.NamesProvider)
    returns (file: ProxyFile, names: seq<string>, p': NP.NamesProvider)
    ensures file.packageName == ProxyPackage(e) && file.className == ProxyName(e)
    ensures |names| == |msgs| && |file.messages| == |msgs| && |file.methods| == |msgs|
    ensures forall i :: 0 <= i < |msgs| ==> names[i] !in p.used
    ensures forall i, j :: 0 <= i < j < |msgs| ==> names[i] != names[j]
    ensures forall i :: 0 <= i < |msgs| ==>
      && file.messages[i] == MessageClassOf(msgs[i], actor, names[i])
      && file.methods[i] == GenerateMethod(msgs[i], names[i])
    ensures p'.used == p.used + (set i | 0 <= i < |msgs| :: names[i])
    ensures forall i :: 0 <= i < |msgs| ==>
      file.messages[i].name == names[i] && NP.IsCandidate(names[i], msgs[i].methodName)
  {
    names, p' := ChooseNames(msgs, p);
    file := ProxyFile(ProxyPackage(e), ProxyName(e), MessageClasses(msgs, actor, names), ProxyMethods(msgs, names));
  }
}
