/** ActorCallLoader: an Android loader that obtains its data by calling an
    actor and listening for the result on the UI thread. It is NONE until
    asked to load, CALLING while a call is outstanding, and DONE with a
    cached result afterwards. Each call gets a new listener, and a result
    that arrives for a listener other than the current one is stale: it is
    never delivered, and a non-null stale result is cleaned up. */
module ActorCallLoader {
  import opened Wrappers
  import opened Runtime

  datatype State = NoneState | Calling | Done

  datatype LoaderEvent =
    | CallStarted(listener: nat, handle: Ref)
    | HandleForgotten(handle: Ref)
    | ResultArrived(listener: nat, result: Option<Ref>)
    | CleanedUp(resource: Ref)
    | Delivered(result: Option<Ref>)

  /** The loader's fields: listeners are numbered in creation order, and
      `nextListener` is the number the next `new CallResultListener()` gets. */
  datatype Loader = Loader(
    state: State,
    result: Option<Ref>,
    handle: Option<Ref>,
    listener: Option<nat>,
    nextListener: nat,
    events: seq<LoaderEvent>)

  function NewLoader(): (l: Loader)
    ensures l.state == NoneState && l.result.None? && l.handle.None? && l.listener.None? && l.events == []
  {
    Loader(NoneState, None, None, None, 0, [])
  }

  /** `doLoad()`: become CALLING, install a incoming listener and keep the
      handle returned by `doCall(ref).then(ui, listener)`. */
  function DoLoad(l: Loader, handle: Ref): (l': Loader)
    ensures l'.state == Calling && l'.handle == Some(handle)
    ensures l'.listener == Some(l.nextListener) && l'.nextListener == l.nextListener + 1
    ensures l'.result == l.result
    ensures l'.events == l.events + [CallStarted(l.nextListener, handle)]
  {
    l.(state := Calling, listener := Some(l.nextListener), nextListener := l.nextListener + 1,
       handle := Some(handle), events := l.events + [CallStarted(l.nextListener, handle)])
  }

  /** `onStartLoading()`: nothing while CALLING, redeliver the cached result
      when DONE, start a call otherwise. `handle` is what the call would
      return. */
  function OnStartLoading(l: Loader, handle: Ref): (l': Loader)
    ensures l.state == Calling ==> l' == l
    ensures l.state == Done ==> l' == l.(events := l.events + [Delivered(l.result)])
    ensures l.state == NoneState ==> l' == DoLoad(l, handle)
  {
    match l.state
    case Calling => l
    case Done => l.(events := l.events + [Delivered(l.result)])
    case NoneState => DoLoad(l, handle)
  }

  /** `onForceLoad()`: nothing while CALLING, a new call otherwise. */
  function OnForceLoad(l: Loader, handle: Ref): (l': Loader)
    ensures l.state == Calling ==> l' == l
    ensures l.state != Calling ==> l' == DoLoad(l, handle)
  {
    if l.state == Calling then l else DoLoad(l, handle)
  }

  /** `onReset()`: drop the listener, become NONE, forget a pending call,
      clean a cached non-null result and drop it. */
  function OnReset(l: Loader): (l': Loader)
    ensures l'.state == NoneState && l'.listener.None? && l'.handle.None? && l'.result.None?
    ensures l'.events == l.events
      + (if l.handle.Some? then [HandleForgotten(l.handle.value)] else [])
      + (if l.result.Some? then [CleanedUp(l.result.value)] else [])
  {
    var forgotten := if l.handle.Some? then [HandleForgotten(l.handle.value)] else [];
    var cleaned := if l.result.Some? then [CleanedUp(l.result.value)] else [];
    l.(listener := None, state := NoneState, handle := None, result := None,
       events := l.events + forgotten + cleaned)
  }

  /** `CallResultListener.onResult(result)` for listener number `listener`:
      a stale listener's non-null result is cleaned and nothing else
      happens; the current listener's result replaces the cached one (which
      is cleaned if non-null), the loader becomes DONE, forgets the handle
      and delivers the result. */
  function OnResult(l: Loader, listener: nat, result: Option<Ref>): (l': Loader)
    ensures l.listener != Some(listener) ==>
      l' == l.(events := l.events + [ResultArrived(listener, result)]
                         + (if result.Some? then [CleanedUp(result.value)] else []))
    ensures l.listener == Some(listener) ==>
      && l'.state == Done && l'.result == result && l'.handle.None? && l'.listener == l.listener
      && l'.events == l.events + [ResultArrived(listener, result)]
           + (if l.result.Some? then [CleanedUp(l.result.value)] else []) + [Delivered(result)]
  {
    var arrived := l.events + [ResultArrived(listener, result)];
    if l.listener != Some(listener) then
      l.(events := arrived + (if result.Some? then [CleanedUp(result.value)] else []))
    else
      var cleaned := if l.result.Some? then [CleanedUp(l.result.value)] else [];
      l.(result := result, state := Done, handle := None, events := arrived + cleaned + [Delivered(result)])
  }

  /** How many times the non-null result `x` arrived at a listener. */
  function ReceivedCount(events: seq<LoaderEvent>, x: Ref): nat
  {
    if events == [] then 0
    else (if events[0].ResultArrived? && events[0].result == Some(x) then 1 else 0) + ReceivedCount(events[1..], x)
  }

  /** How many times `x` was handed to `cleanUp`. */
  function CleanedCount(events: seq<LoaderEvent>, x: Ref): nat
  {
    if events == [] then 0
    else (if events[0] == CleanedUp(x) then 1 else 0) + CleanedCount(events[1..], x)
  }

  /** The results delivered to the loader's clients, in order. */
  function DeliveredResults(events: seq<LoaderEvent>): seq<Option<Ref>>
  {
    if events == [] then [] else DeliveredOne(events[0]) + DeliveredResults(events[1..])
  }

  function DeliveredOne(e: LoaderEvent): seq<Option<Ref>>
  {
    if e.Delivered? then [e.result] else []
  }

  lemma {:induction false} CountsAppend(a: seq<LoaderEvent>, e: LoaderEvent, x: Ref)
    ensures ReceivedCount(a + [e], x) == ReceivedCount(a, x) + (if e.ResultArrived? && e.result == Some(x) then 1 else 0)
    ensures CleanedCount(a + [e], x) == CleanedCount(a, x) + (if e == CleanedUp(x) then 1 else 0)
  {
    if a == [] {
      assert a + [e] == [e];
      assert [e][1..] == [];
    } else {
      assert (a + [e])[1..] == a[1..] + [e];
      CountsAppend(a[1..], e, x);
    }
  }

  lemma {:induction false} DeliveredAppend(a: seq<LoaderEvent>, e: LoaderEvent)
    ensures DeliveredResults(a + [e]) == DeliveredResults(a) + DeliveredOne(e)
  {
    if a == [] {
      assert a + [e] == [e];
      assert [e][1..] == [];
    } else {
      assert (a + [e])[1..] == a[1..] + [e];
      DeliveredAppend(a[1..], e);
      calc {
        DeliveredResults(a + [e]);
        DeliveredOne(a[0]) + DeliveredResults(a[1..] + [e]);
        DeliveredOne(a[0]) + (DeliveredResults(a[1..]) + DeliveredOne(e));
        (DeliveredOne(a[0]) + DeliveredResults(a[1..])) + DeliveredOne(e);
      }
    }
  }

  function Held(r: Option<Ref>, x: Ref): nat
  {
    if r == Some(x) then 1 else 0
  }

  /** Every non-null result that arrived was cleaned up exactly once, or is
      still held: in the cache, or (within `onResult`) just received. */
  ghost predicate Balanced(events: seq<LoaderEvent>, cached: Option<Ref>, pending: Option<Ref>)
  {
    forall x :: ReceivedCount(events, x) == CleanedCount(events, x) + Held(cached, x) + Held(pending, x)
  }

  /** The loader's invariant: listeners in use were issued; a CALLING loader
      has a listener and a handle, a NONE loader has neither and caches
      nothing, a DONE loader holds no handle; and the books balance against
      the cached result. */
  ghost predicate Inv(l: Loader)
  {
    && (l.listener.Some? ==> l.listener.value < l.nextListener)
    && (l.state == Calling ==> l.listener.Some? && l.handle.Some?)
    && (l.state == NoneState ==> l.listener.None? && l.handle.None? && l.result.None?)
    && (l.state == Done ==> l.handle.None?)
    && Balanced(l.events, l.result, None)
  }

  /** An event that neither receives nor cleans keeps the books. */
  lemma NeutralStep(a: seq<LoaderEvent>, cached: Option<Ref>, e: LoaderEvent)
    requires Balanced(a, cached, None)
    requires !e.ResultArrived? && !e.CleanedUp?
    ensures Balanced(a + [e], cached, None)
  {
    forall x
      ensures ReceivedCount(a + [e], x) == CleanedCount(a + [e], x) + Held(cached, x)
    {
      CountsAppend(a, e, x);
    }
  }

  /** A result that arrives is pending until it is cached or cleaned. */
  lemma ArriveStep(a: seq<LoaderEvent>, cached: Option<Ref>, listener: nat, result: Option<Ref>)
    requires Balanced(a, cached, None)
    ensures Balanced(a + [ResultArrived(listener, result)], cached, result)
  {
    forall x
      ensures ReceivedCount(a + [ResultArrived(listener, result)], x)
        == CleanedCount(a + [ResultArrived(listener, result)], x) + Held(cached, x) + Held(result, x)
    {
      CountsAppend(a, ResultArrived(listener, result), x);
    }
  }

  /** Cleaning the held `v` moves it to the cleaned side. */
  lemma CleanStep(a: seq<LoaderEvent>, kept: Option<Ref>, v: Ref)
    requires Balanced(a, kept, Some(v))
    ensures Balanced(a + [CleanedUp(v)], kept, None)
  {
    forall x
      ensures ReceivedCount(a + [CleanedUp(v)], x) == CleanedCount(a + [CleanedUp(v)], x) + Held(kept, x)
    {
      CountsAppend(a, CleanedUp(v), x);
    }
  }

  lemma NewLoaderInv()
    ensures Inv(NewLoader())
  {
  }

  lemma OnStartLoadingPreservesInv(l: Loader, handle: Ref)
    requires Inv(l)
    ensures Inv(OnStartLoading(l, handle))
  {
    NeutralStep(l.events, l.result, Delivered(l.result));
    NeutralStep(l.events, l.result, CallStarted(l.nextListener, handle));
  }

  lemma OnForceLoadPreservesInv(l: Loader, handle: Ref)
    requires Inv(l)
    ensures Inv(OnForceLoad(l, handle))
  {
    NeutralStep(l.events, l.result, CallStarted(l.nextListener, handle));
  }

  lemma OnResetPreservesInv(l: Loader)
    requires Inv(l)
    ensures Inv(OnReset(l))
  {
    var l' := OnReset(l);
    var e1 := if l.handle.Some? then l.events + [HandleForgotten(l.handle.value)] else l.events;
    if l.handle.Some? {
      NeutralStep(l.events, l.result, HandleForgotten(l.handle.value));
    }
    assert Balanced(e1, l.result, None);
    if l.result.Some? {
      assert Balanced(e1, None, l.result);
      CleanStep(e1, None, l.result.value);
      assert l'.events == e1 + [CleanedUp(l.result.value)];
    } else {
      assert l'.events == e1;
    }
  }

  lemma OnResultPreservesInv(l: Loader, listener: nat, result: Option<Ref>)
    requires Inv(l)
    ensures Inv(OnResult(l, listener, result))
  {
    var l' := OnResult(l, listener, result);
    var arrived := l.events + [ResultArrived(listener, result)];
    ArriveStep(l.events, l.result, listener, result);
    if l.listener != Some(listener) {
      if result.Some? {
        CleanStep(arrived, l.result, result.value);
        assert l'.events == arrived + [CleanedUp(result.value)];
      } else {
        assert l'.events == arrived;
      }
    } else {
      var e1 := if l.result.Some? then arrived + [CleanedUp(l.result.value)] else arrived;
      if l.result.Some? {
        assert Balanced(arrived, result, l.result);
        CleanStep(arrived, result, l.result.value);
      }
      assert Balanced(e1, result, None);
      NeutralStep(e1, result, Delivered(result));
      assert l'.events == e1 + [Delivered(result)];
    }
  }

  /** A stale result is never delivered; the current listener's result is
      delivered exactly once. */
  lemma StaleResultNotDelivered(l: Loader, listener: nat, result: Option<Ref>)
    ensures var l' := OnResult(l, listener, result);
      DeliveredResults(l'.events) ==
        DeliveredResults(l.events) + (if l.listener == Some(listener) then [result] else [])
  {
    var l' := OnResult(l, listener, result);
    var arrived := l.events + [ResultArrived(listener, result)];
    DeliveredAppend(l.events, ResultArrived(listener, result));
    if l.listener != Some(listener) {
      if result.Some? {
        DeliveredAppend(arrived, CleanedUp(result.value));
        assert l'.events == arrived + [CleanedUp(result.value)];
      } else {
        assert l'.events == arrived;
      }
    } else {
      var e1 := if l.result.Some? then arrived + [CleanedUp(l.result.value)] else arrived;
      if l.result.Some? {
        DeliveredAppend(arrived, CleanedUp(l.result.value));
      }
      assert DeliveredResults(e1) == DeliveredResults(l.events);
      DeliveredAppend(e1, Delivered(result));
      assert l'.events == e1 + [Delivered(result)];
    }
  }

  /** A forced reload while DONE starts a new call and makes the first
      call's listener stale: a result that listener delivers late is cleaned
      up rather than cached, and the cache keeps the first result. */
  lemma ReloadMakesOldListenerStale(l: Loader, h1: Ref, h2: Ref, r1: Ref, r2: Ref)
    requires Inv(l) && l.state == NoneState
    ensures var a := OnStartLoading(l, h1);
      var b := OnResult(a, l.nextListener, Some(r1));
      var c := OnForceLoad(b, h2);
      var d := OnResult(c, l.nextListener, Some(r2));
      && b.state == Done && b.result == Some(r1)
      && c.state == Calling && c.listener == Some(l.nextListener + 1)
      && d.result == Some(r1) && d.state == Calling
      && d.events[|d.events| - 1] == CleanedUp(r2)
  {
  }
}
