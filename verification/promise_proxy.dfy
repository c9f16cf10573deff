/** The promise a generated actor proxy returns to the caller (PromiseProxy).
    It is itself the message sent to the actor: `then*` and `get` record
    where the result should go and send the proxy once. When the actor's
    method has run, the proxy dispatches the method's own promise either on
    the calling thread or through a bound thread, and `deliverResult` hands
    the result to the listener or, when nobody listens any more, to the
    cleaner. */
module PromiseProxy {
  import opened Wrappers
  import opened Runtime
  import PI = PromiseImpl

  datatype ProxyPromise = ProxyPromise(
    self: Ref,
    sender: Ref,
    message: Message,
    thread: Option<Ref>,
    listener: Option<Ref>)

  function NewProxy(self: Ref, sender: Ref, message: Message): (p: ProxyPromise)
    ensures p.thread.None? && p.listener.None?
  {
    ProxyPromise(self, sender, message, None, None)
  }

  /** Sending the proxy itself to the actor. */
  function Send(p: ProxyPromise): seq<PI.Event>
  {
    [PI.SentToActor(p.sender, p.self)]
  }

  /** `thenNothing()`: send without a listener. */
  function ThenNothing(p: ProxyPromise): (res: (ProxyPromise, seq<PI.Event>))
    ensures res.0 == p && res.1 == [PI.SentToActor(p.sender, p.self)]
  {
    (p, Send(p))
  }

  /** `then(listener)`: record the listener only, send, return the proxy as
      the handle. */
  function Then(p: ProxyPromise, listener: Ref): (res: (ProxyPromise, seq<PI.Event>, Ref))
    ensures res.0 == p.(listener := Some(listener)) && res.2 == p.self
    ensures res.1 == [PI.SentToActor(p.sender, p.self)]
  {
    (p.(listener := Some(listener)), Send(p), p.self)
  }

  /** `then(thread, listener)`: record both, then send. */
  function ThenOn(p: ProxyPromise, thread: Ref, listener: Ref): (res: (ProxyPromise, seq<PI.Event>, Ref))
    ensures res.0 == p.(thread := Some(thread), listener := Some(listener)) && res.2 == p.self
    ensures res.1 == [PI.SentToActor(p.sender, p.self)]
  {
    (p.(thread := Some(thread), listener := Some(listener)), Send(p), p.self)
  }

  /** `get()`, first half: install a fresh BlockResultListener `blocker` and
      send; the caller then waits on the blocker. */
  function Get(p: ProxyPromise, blocker: Ref): (res: (ProxyPromise, seq<PI.Event>))
    ensures res.0 == p.(listener := Some(blocker))
    ensures res.1 == [PI.SentToActor(p.sender, p.self)]
  {
    (p.(listener := Some(blocker)), Send(p))
  }

  /** `deliverResult(result, cleaner)`: take and clear the listener; with a
      listener, give it the result; without one, clean a non-null result if
      there is a cleaner. */
  function DeliverResult(p: ProxyPromise, result: Option<Ref>, cleaner: Option<Ref>): (res: (ProxyPromise, seq<PI.Event>))
    ensures res.0 == p.(listener := None)
    ensures p.listener.Some? ==> res.1 == [PI.ListenerCalled(p.listener.value, result)]
    ensures p.listener.None? ==>
      && PI.Cleanings(res.1) == (if result.Some? && cleaner.Some? then 1 else 0)
      && forall i :: 0 <= i < |res.1| ==> cleaner.Some? && result.Some? && res.1[i] == PI.Cleaned(cleaner.value, result.value)
  {
    var p' := p.(listener := None);
    if p.listener.None? then
      if cleaner.Some? && result.Some? then
        var events := [PI.Cleaned(cleaner.value, result.value)];
        assert events[1..] == [];
        (p', events)
      else (p', [])
    else (p', [PI.ListenerCalled(p.listener.value, result)])
  }

  /** `dispatch(promise)`, called with the promise the actor's method
      returned: take and clear the recorded thread; with a thread, let the
      promise deliver through it (the proxy's `deliverResult` runs later on
      that thread); without one, the promise calls `deliverResult` at once. */
  function Dispatch(p: ProxyPromise, promise: PI.Promise): (res: (ProxyPromise, PI.Promise, seq<PI.Event>))
    ensures res.1 == PI.Promise(None, None) && res.0.thread.None?
    ensures p.thread.Some? ==>
      && res.0 == p.(thread := None)
      && res.2 == [PI.ContainerBound(p.thread.value, p.self),
                   PI.ContainerResultPosted(p.thread.value, p.self, promise.result, promise.cleaner)]
    ensures p.thread.None? ==>
      && |res.2| >= 1 && res.2[0] == PI.ContainerResult(p.self, promise.result, promise.cleaner)
      && (res.0, res.2[1..]) == DeliverResult(p, promise.result, promise.cleaner)
  {
    var p1 := p.(thread := None);
    if p.thread.Some? then
      var (promise', events) := PI.DeliverOn(promise, p.thread.value, p.self);
      (p1, promise', events)
    else
      var (promise', events) := PI.Deliver(promise, p.self);
      var (p2, delivered) := DeliverResult(p1, promise.result, promise.cleaner);
      assert (events + delivered)[1..] == delivered;
      (p2, promise', events + delivered)
  }

  /** `forget()`: drop the listener only. */
  function Forget(p: ProxyPromise): (p': ProxyPromise)
    ensures p'.listener.None? && p'.thread == p.thread && p'.self == p.self
  {
    p.(listener := None)
  }

  /** `exception()` delegates to the wrapped message. */
  function Exception(p: ProxyPromise): (template: Ref)
    ensures template == p.message.template
  {
    p.message.template
  }

  /** `toString()` delegates to the wrapped message, whose text is given. */
  function ToString(p: ProxyPromise, messageText: string): (s: string)
    ensures s == messageText
  {
    messageText
  }

  /** Both `deliver` overloads must never be called on a proxy. */
  function DeliverToContainer(p: ProxyPromise, container: Ref): (r: Result<(), PI.JavaError>)
    ensures r == Err(PI.AssertionError(PI.NEVER_CALLED))
  {
    Err(PI.AssertionError(PI.NEVER_CALLED))
  }

  function DeliverOnThread(p: ProxyPromise, thread: Ref, container: Ref): (r: Result<(), PI.JavaError>)
    ensures r == Err(PI.AssertionError(PI.NEVER_CALLED))
  {
    Err(PI.AssertionError(PI.NEVER_CALLED))
  }

  /** BlockResultListener: empty until `onResult`, then holding the value
      given, null included. */
  datatype Block = Empty | Holding(value: Option<Ref>)

  function OnResult(b: Block, result: Option<Ref>): (b': Block)
    ensures b' == Holding(result)
  {
    Holding(result)
  }

  /** `waitAndGet()`: None while empty (the caller keeps waiting); otherwise
      the held value, after which the listener holds null. */
  function WaitAndGet(b: Block): (r: Option<(Block, Option<Ref>)>)
    ensures r.None? <==> b.Empty?
    ensures r.Some? ==> r.value == (Holding(None), b.value)
  {
    match b
    case Empty => None
    case Holding(v) => Some((Holding(None), v))
  }

  /** Each result reaches exactly one party: the listener if one is still
      recorded, otherwise the cleaner, and the cleaner only for a non-null
      result; the listener is cleared either way, so a second delivery finds
      no listener. */
  lemma ListenerOrCleaner(p: ProxyPromise, result: Option<Ref>, cleaner: Option<Ref>)
    ensures var (p', events) := DeliverResult(p, result, cleaner);
      && |events| <= 1
      && (p.listener.Some? ==> PI.Cleanings(events) == 0 && events == [PI.ListenerCalled(p.listener.value, result)])
      && (PI.Cleanings(events) == 1 ==> p.listener.None? && result.Some? && cleaner.Some?)
      && p'.listener.None?
  {
    var (p', events) := DeliverResult(p, result, cleaner);
    if p.listener.Some? {
      assert events[1..] == [];
    }
  }

  /** After `forget`, a delivered result goes to the cleaner, never to the
      forgotten listener. */
  lemma ForgetThenDeliver(p: ProxyPromise, result: Option<Ref>, cleaner: Option<Ref>)
    ensures var events := DeliverResult(Forget(p), result, cleaner).1;
      forall i :: 0 <= i < |events| ==> !events[i].ListenerCalled?
  {
  }

  /** `get()` end to end without a recorded thread: the proxy is sent once,
      the actor's promise is delivered to the proxy, the blocker receives the
      method's result, and `waitAndGet` returns exactly that result (null
      included); the promise keeps nothing to clean. */
  lemma GetReturnsResult(p: ProxyPromise, blocker: Ref, promise: PI.Promise)
    requires p.thread.None?
    ensures var (p1, sent) := Get(p, blocker);
      var (p2, promise2, events) := Dispatch(p1, promise);
      && sent == [PI.SentToActor(p.sender, p.self)]
      && events == [PI.ContainerResult(p.self, promise.result, promise.cleaner),
                    PI.ListenerCalled(blocker, promise.result)]
      && WaitAndGet(OnResult(Empty, promise.result)).value.1 == promise.result
      && PI.Forget(promise2).1 == [] && p2.listener.None?
  {
  }

  /** `then(thread, listener)` end to end: the result is posted through the
      thread, and when the thread runs it the listener gets the result once;
      the thread is recorded for this call only. */
  lemma ThenOnThreadDelivers(p: ProxyPromise, thread: Ref, listener: Ref, promise: PI.Promise)
    ensures var (p1, _, _) := ThenOn(p, thread, listener);
      var (p2, promise2, posted) := Dispatch(p1, promise);
      && posted == [PI.ContainerBound(thread, p.self),
                    PI.ContainerResultPosted(thread, p.self, promise.result, promise.cleaner)]
      && p2.thread.None?
      && DeliverResult(p2, promise.result, promise.cleaner).1 == [PI.ListenerCalled(listener, promise.result)]
      && PI.Forget(promise2).1 == []
  {
  }
}
