/** The message side of the result-delivery protocol: the exception template
    every message carries (ActorInvokeException), the null check generated
    `invoke` bodies run on an actor method's promise (MessageBase), and the
    message that carries a result back to a listener living on another actor
    thread (ResultListenerProxy). */
module ActorMessages {
  import opened Wrappers
  import opened Runtime

  /** ActorInvokeException: a call description fixed at construction and a
      message text that stays null until the method signature is set.
      The exception is built with no message of its own, so before that the
      inherited `getMessage()` is null as well. */
  datatype InvokeException = InvokeException(description: string, text: Option<string>)

  function NewInvokeException(description: string): (e: InvokeException)
    ensures e.description == description && GetMessage(e).None?
  {
    InvokeException(description, None)
  }

  /** `getMessage()`: the text set by `setMethodSignature`, else null. */
  function GetMessage(e: InvokeException): Option<string>
  {
    e.text
  }

  /** `setMethodSignature(cls, message)`: description, a space, the class's
      simple name, then the message's `toString()`, replacing any earlier
      text. */
  function SetMethodSignature(e: InvokeException, simpleName: string, messageText: string): (e': InvokeException)
    ensures e'.description == e.description
    ensures GetMessage(e').Some?
    ensures var m := GetMessage(e').value;
      && |m| == |e.description| + 1 + |simpleName| + |messageText|
      && m[..|e.description|] == e.description
      && m[|e.description|] == ' '
      && m[|e.description| + 1..|e.description| + 1 + |simpleName|] == simpleName
      && m[|e.description| + 1 + |simpleName|..] == messageText
  {
    var m := e.description + " " + simpleName + messageText;
    assert m[..|e.description|] == e.description;
    assert m[|e.description| + 1..|e.description| + 1 + |simpleName|] == simpleName;
    assert m[|e.description| + 1 + |simpleName|..] == messageText;
    e.(text := Some(m))
  }

  /** The text only depends on the last signature set. */
  lemma SignatureOverwrites(e: InvokeException, n1: string, t1: string, n2: string, t2: string)
    ensures GetMessage(SetMethodSignature(SetMethodSignature(e, n1, t1), n2, t2))
         == GetMessage(SetMethodSignature(e, n2, t2))
  {
  }

  /** MessageBase: a message remembers its exception template. */
  datatype MessageBase = MessageBase(template: Ref)

  const NULL_PROMISE: string := "Actor methods are not allowed to return null"

  /** The AssertionError `verifyResult` throws, with its cause. */
  datatype NullPromiseError = NullPromiseError(text: string, cause: Ref)

  /** `verifyResult(result)`: a non-null promise passes through unchanged; a
      null one is an AssertionError whose cause is the message's template. */
  function VerifyResult(m: MessageBase, result: Option<Ref>): (r: Result<Ref, NullPromiseError>)
    ensures r.Ok? <==> result.Some?
    ensures r.Ok? ==> result == Some(r.value)
    ensures r.Err? ==> r.error.text == NULL_PROMISE && r.error.cause == Exception(m)
  {
    if result.Some? then Ok(result.value) else Err(NullPromiseError(NULL_PROMISE, m.template))
  }

  /** `exception()`: the template given at construction (or installed by a
      result-listener message's `invoke`). */
  function Exception(m: MessageBase): Ref
  {
    m.template
  }

  /** A Java value as far as string concatenation and `instanceof Message`
      can tell: null, a Message with its `toString()`, or any other object
      with its `toString()`. */
  datatype JavaValue = Null | MessageValue(text: string) | OtherValue(text: string)

  /** `String.valueOf(value)`, which string concatenation uses. */
  function ValueOf(v: JavaValue): (s: string)
    ensures v.Null? ==> s == "null"
    ensures !v.Null? ==> s == v.text
  {
    match v
    case Null => "null"
    case MessageValue(t) => t
    case OtherValue(t) => t
  }

  /** ResultListenerMessage: the result to hand to the listener. */
  datatype ListenerMessage = ListenerMessage(base: MessageBase, result: JavaValue)

  /** A listener target, and the template it provides when it is an
      ExceptionTemplateProvider. */
  datatype Listener = Listener(self: Ref, ownTemplate: Option<Ref>)

  datatype ListenerEvent =
    | MessageSent(sender: Ref, message: ListenerMessage)
    | ResultHandled(listener: Ref, result: JavaValue)

  /** `ResultListenerProxy.onResult(result)`: one message, carrying the
      result and a fresh ActorMethodInvokeException, goes to the sender. */
  function ProxyOnResult(sender: Ref, freshTemplate: Ref, result: JavaValue): (events: seq<ListenerEvent>)
    ensures |events| == 1 && events[0].MessageSent? && events[0].sender == sender
    ensures events[0].message.result == result && Exception(events[0].message.base) == freshTemplate
  {
    [MessageSent(sender, ListenerMessage(MessageBase(freshTemplate), result))]
  }

  /** `ResultListenerMessage.invoke(target)`: adopt the target's template if
      it provides one, call `target.onResult` with the carried result, and
      return null. */
  function Invoke(m: ListenerMessage, target: Listener): (res: (ListenerMessage, seq<ListenerEvent>, Option<Ref>))
    ensures res.0.result == m.result
    ensures target.ownTemplate.Some? ==> Exception(res.0.base) == target.ownTemplate.value
    ensures target.ownTemplate.None? ==> res.0 == m
    ensures res.1 == [ResultHandled(target.self, m.result)]
    ensures res.2.None?
  {
    var m' := if target.ownTemplate.Some? then m.(base := MessageBase(target.ownTemplate.value)) else m;
    (m', [ResultHandled(target.self, m.result)], None)
  }

  const ON_RESULT_OPEN: string := ".onResult("

  /** `ResultListenerMessage.toString()`: a Message result speaks for itself;
      anything else is shown as `.onResult(<value>)`. */
  function ToString(m: ListenerMessage): (s: string)
    ensures m.result.MessageValue? ==> s == m.result.text
  {
    if m.result.MessageValue? then m.result.text else ON_RESULT_OPEN + ValueOf(m.result) + ")"
  }

  /** Reading the value back out of a `.onResult(...)` rendering. */
  function ParseOnResult(s: string): Option<string>
  {
    if |s| >= |ON_RESULT_OPEN| + 1 && s[..|ON_RESULT_OPEN|] == ON_RESULT_OPEN && s[|s| - 1] == ')'
    then Some(s[|ON_RESULT_OPEN|..|s| - 1])
    else None
  }

  /** The rendering of a non-Message result is the `.onResult(...)` wrapper
      around exactly `String.valueOf(result)`, so it reads back. */
  lemma ToStringReadsBack(m: ListenerMessage)
    requires !m.result.MessageValue?
    ensures ParseOnResult(ToString(m)) == Some(ValueOf(m.result))
  {
    var s := ToString(m);
    assert s[..|ON_RESULT_OPEN|] == ON_RESULT_OPEN;
    assert s[|ON_RESULT_OPEN|..|s| - 1] == ValueOf(m.result);
  }

  /** A result sent through the proxy reaches the listener once, unchanged,
      when the message is invoked on the listener's own thread; the call
      returns null, so the runtime has no promise to dispatch. */
  lemma ResultReachesListener(sender: Ref, freshTemplate: Ref, result: JavaValue, target: Listener)
    ensures var sent := ProxyOnResult(sender, freshTemplate, result);
      var (m', handled, returned) := Invoke(sent[0].message, target);
      && handled == [ResultHandled(target.self, result)]
      && returned.None?
      && Exception(m'.base) == (if target.ownTemplate.Some? then target.ownTemplate.value else freshTemplate)
  {
  }

  /** A failure report for a null result: the signature text of a listener
      message carrying null ends in `.onResult(null)`. */
  lemma NullResultSignature(description: string, simpleName: string, template: Ref)
    ensures var m := ListenerMessage(MessageBase(template), Null);
      GetMessage(SetMethodSignature(NewInvokeException(description), simpleName, ToString(m)))
        == Some(description + " " + simpleName + ".onResult(null)")
  {
    assert ON_RESULT_OPEN + ValueOf(Null) + ")" == ".onResult(null)";
    assert description + " " + simpleName + (ON_RESULT_OPEN + ValueOf(Null) + ")")
        == description + " " + simpleName + ".onResult(null)";
  }
}
