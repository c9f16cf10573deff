/** The promise an actor method returns (PromiseImpl, built by
    `Promise.wrap(result, cleaner)`): it holds the method's result and an
    optional resource cleaner until the result is handed to a listener
    container, taken by `get`, or forgotten. Whatever happens first, the
    promise lets go of both afterwards, so the result reaches at most one
    consumer and the cleaner runs at most once, never on null. */
module PromiseImpl {
  import opened Wrappers
  import opened Runtime

  /** What the result-delivery classes do to the objects around them. */
  datatype Event =
    | ContainerResult(container: Ref, result: Option<Ref>, cleaner: Option<Ref>)
    | ContainerBound(thread: Ref, container: Ref)
    | ContainerResultPosted(thread: Ref, container: Ref, result: Option<Ref>, cleaner: Option<Ref>)
    | Cleaned(cleanedBy: Ref, resource: Ref)
    | ListenerCalled(listener: Ref, result: Option<Ref>)
    | SentToActor(sender: Ref, message: Ref)

  /** A Java error the model raises instead of returning. */
  datatype JavaError = AssertionError(text: string)

  const NEVER_CALLED: string := "Should never be called"

  datatype Promise = Promise(result: Option<Ref>, cleaner: Option<Ref>)

  /** Number of cleaner calls in a sequence of events. */
  function Cleanings(events: seq<Event>): nat
  {
    if events == [] then 0
    else (if events[0].Cleaned? then 1 else 0) + Cleanings(events[1..])
  }

  lemma {:induction false} CleaningsAppend(a: seq<Event>, b: seq<Event>)
    ensures Cleanings(a + b) == Cleanings(a) + Cleanings(b)
  {
    if a == [] {
      assert a + b == b;
    } else {
      assert (a + b)[1..] == a[1..] + b;
      CleaningsAppend(a[1..], b);
    }
  }

  /** `Promise.wrap(result)` and `Promise.wrap(result, cleaner)`. */
  function Wrap(result: Option<Ref>, cleaner: Option<Ref>): Promise
  {
    Promise(result, cleaner)
  }

  /** `get()`: hand out the held result and forget it (the cleaner stays). */
  function Get(p: Promise): (res: (Promise, Option<Ref>))
    ensures res.1 == p.result && res.0.result.None? && res.0.cleaner == p.cleaner
  {
    (p.(result := None), p.result)
  }

  /** `deliver(container)`: pass result and cleaner to the container once,
      on the calling thread, then forget both. */
  function Deliver(p: Promise, container: Ref): (res: (Promise, seq<Event>))
    ensures res.0 == Promise(None, None)
    ensures res.1 == [ContainerResult(container, p.result, p.cleaner)]
  {
    (Promise(None, None), [ContainerResult(container, p.result, p.cleaner)])
  }

  /** `deliver(thread, container)`: bind the container on `thread` and send
      result and cleaner through the bound proxy once, then forget both. */
  function DeliverOn(p: Promise, thread: Ref, container: Ref): (res: (Promise, seq<Event>))
    ensures res.0 == Promise(None, None)
    ensures res.1 == [ContainerBound(thread, container), ContainerResultPosted(thread, container, p.result, p.cleaner)]
  {
    (Promise(None, None), [ContainerBound(thread, container), ContainerResultPosted(thread, container, p.result, p.cleaner)])
  }

  /** `forget()`: clean the result if there is both a cleaner and a
      non-null result, then forget both. */
  function Forget(p: Promise): (res: (Promise, seq<Event>))
    ensures res.0 == Promise(None, None)
    ensures Cleanings(res.1) == (if p.result.Some? && p.cleaner.Some? then 1 else 0)
    ensures forall i :: 0 <= i < |res.1| ==> p.cleaner.Some? && p.result.Some? && res.1[i] == Cleaned(p.cleaner.value, p.result.value)
  {
    if p.cleaner.Some? && p.result.Some? then
      var events := [Cleaned(p.cleaner.value, p.result.value)];
      assert events[1..] == [];
      (Promise(None, None), events)
    else (Promise(None, None), [])
  }

  /** `thenNothing()` and both `then` overloads must never reach a wrapped
      result: they throw AssertionError. */
  function ThenNothing(p: Promise): (r: Result<(), JavaError>)
    ensures r == Err(AssertionError(NEVER_CALLED))
  {
    Err(AssertionError(NEVER_CALLED))
  }

  function Then(p: Promise, listener: Ref): (r: Result<Ref, JavaError>)
    ensures r == Err(AssertionError(NEVER_CALLED))
  {
    Err(AssertionError(NEVER_CALLED))
  }

  function ThenOn(p: Promise, thread: Ref, listener: Ref): (r: Result<Ref, JavaError>)
    ensures r == Err(AssertionError(NEVER_CALLED))
  {
    Err(AssertionError(NEVER_CALLED))
  }

  /** A second `get` returns null. */
  lemma GetTwice(p: Promise)
    ensures Get(Get(p).0).1.None?
  {
  }

  /** Calling `forget` twice cleans at most once. */
  lemma ForgetTwice(p: Promise)
    ensures var (p1, e1) := Forget(p);
      var (p2, e2) := Forget(p1);
      Cleanings(e1 + e2) <= 1 && e2 == []
  {
    var (p1, e1) := Forget(p);
    var (p2, e2) := Forget(p1);
    CleaningsAppend(e1, e2);
  }

  /** After either `deliver`, `forget` never calls the cleaner: the result
      belongs to the container. */
  lemma NoCleanAfterDeliver(p: Promise, thread: Ref, container: Ref)
    ensures Forget(Deliver(p, container).0).1 == []
    ensures Forget(DeliverOn(p, thread, container).0).1 == []
  {
  }
}
