/** DefaultActorThread: an actor thread that starts a dedicated worker (a
    HandlerThread with its own handler) on demand, and lets the handler stop
    the worker after an idle period. `mHandler` is the current handler or null.

    Handlers are named by their position in `handlers`; a handler that has
    decided to stop (its poison pill matched) but has not yet run `stopThread`
    is in `stopping`, so that other calls can interleave between the two. The
    envelope pool is the shared Transaction pool. */
module DefaultThread {
  import opened Wrappers
  import opened Runtime
  import opened Int32
  import opened EnvelopePool
  import H = ActorHandler

  datatype World = World(
    stopDelay: int,
    handlers: seq<H.Handler>,
    current: Option<nat>,
    stopping: set<nat>,
    pool: Pool)

  /** A new actor thread: no worker yet. */
  function Init(stopDelay: int, pool: Pool): World
  {
    World(stopDelay, [], None, {}, pool)
  }

  /** `handler != null && handler.sendTransaction(transaction)` on the
      current handler. */
  function TrySend(w: World, envelope: Ref): (res: (World, bool))
    ensures |res.0.handlers| == |w.handlers| && res.0.current == w.current
    ensures res.0.pool == w.pool && res.0.stopping == w.stopping
    ensures forall j :: 0 <= j < |w.handlers| ==>
      (res.0.handlers[j].queue ==
        if res.1 && w.current == Some(j) then w.handlers[j].queue + [H.Queued(res.0.handlers[j].lastId, envelope)]
        else w.handlers[j].queue)
    ensures res.1 ==> w.current.Some? && w.current.value < |w.handlers|
    ensures forall j :: 0 <= j < |w.handlers| && w.handlers[j].lastId == H.STOPPED ==> res.0.handlers[j] == w.handlers[j]
  {
    match w.current
    case Some(i) =>
      if i < |w.handlers| then
        var (h', posted) := H.SendTransaction(w.handlers[i], envelope);
        (w.(handlers := w.handlers[i := h']), posted)
      else (w, false)
    case None => (w, false)
  }

  /** The current handler accepts transactions. */
  predicate Live(w: World)
  {
    w.current.Some? && w.current.value < |w.handlers|
    && w.handlers[w.current.value].lastId != H.STOPPED && !w.handlers[w.current.value].quit
  }

  /** There is no current handler, or it has stopped. */
  predicate Refuses(w: World)
  {
    w.current.None? || w.current.value >= |w.handlers| || w.handlers[w.current.value].lastId == H.STOPPED
  }

  /** `sendTransaction(transaction)`: try the current handler; under the lock
      try it again; otherwise start a new worker, make its handler current and
      post the transaction there. */
  function SendTransaction(w: World, envelope: Ref): (w': World)
    ensures w'.current.Some? && w'.current.value < |w'.handlers|
    ensures var q := w'.handlers[w'.current.value].queue; q != [] && q[|q| - 1].envelope == envelope
    ensures w'.pool == w.pool && w'.stopping == w.stopping
    ensures Live(w) ==> |w'.handlers| == |w.handlers| && w'.current == w.current
    ensures Refuses(w) ==>
      && |w'.handlers| == |w.handlers| + 1 && w'.current == Some(|w.handlers|)
      && w'.handlers[..|w.handlers|] == w.handlers
      && w'.handlers[|w.handlers|].queue == [H.Queued(1, envelope)]
      && w'.handlers[|w.handlers|].lastId == 1
  {
    var (w1, ok) := TrySend(w, envelope);
    if ok then w1
    else
      var (w2, ok2) := TrySend(w1, envelope);
      if ok2 then w2
      else
        var h := H.SendTransaction(H.NewHandler(H.DedicatedThread, w.stopDelay, false), envelope).0;
        w2.(handlers := w2.handlers + [h], current := Some(|w2.handlers|))
  }

  /** `MessageSenderProxy.deliver(message)`: wrap the message in a pooled
      envelope and send it. */
  function Deliver(w: World, impl: Ref, message: Message, failureHandler: Ref): (w': World)
    requires Valid(w.pool)
    ensures w'.current.Some? && w'.current.value < |w'.handlers|
    ensures var q := w'.handlers[w'.current.value].queue;
      q != [] && Valid(w'.pool) && q[|q| - 1].envelope in w'.pool.heap
      && w'.pool.heap[q[|q| - 1].envelope] == Envelope(Some(message), Some(impl), Some(failureHandler), None)
  {
    var o := Obtain(w.pool, impl, message, failureHandler);
    SendTransaction(w.(pool := o.pool), o.envelope)
  }

  /** The worker of handler `i` dispatches its next transaction, unless its
      thread has ended. */
  function HandleNext(w: World, i: nat, outcome: Outcome): (w': World)
    requires Inv(w) && i < |w.handlers|
    ensures |w'.handlers| == |w.handlers| && w'.current == w.current && w'.stopping == w.stopping
    ensures var h := w.handlers[i];
      w'.handlers[i].queue == (if h.queue == [] || h.crashed then h.queue else h.queue[1..])
    ensures var h := w.handlers[i];
      w'.handlers[i].crashed <==> h.crashed || (h.queue != [] && outcome.Threw? && outcome.rethrown)
    ensures forall j :: 0 <= j < |w.handlers| && j != i ==> w'.handlers[j] == w.handlers[j]
  {
    QueueFilledHead(w, i);
    var (h', p') := H.HandleNext(w.handlers[i], w.pool, outcome);
    w.(handlers := w.handlers[i := h'], pool := p')
  }

  /** Handler `i`'s poison pill fires; if it matches, the handler stops
      accepting transactions and will call `stopThread`. */
  function FirePill(w: World, i: nat): (w': World)
    ensures |w'.handlers| == |w.handlers| && w'.current == w.current && w'.pool == w.pool
    ensures i < |w.handlers| && w.handlers[i].pill.Some? && w.handlers[i].pill.value == w.handlers[i].lastId ==>
      w'.stopping == w.stopping + {i} && w'.handlers[i].lastId == H.STOPPED
    ensures !(i < |w.handlers| && w.handlers[i].pill.Some? && w.handlers[i].pill.value == w.handlers[i].lastId) ==>
      w'.stopping == w.stopping
  {
    if i < |w.handlers| then
      var h := w.handlers[i];
      var stops := h.pill.Some? && h.pill.value == h.lastId;
      w.(handlers := w.handlers[i := H.FirePill(h)],
         stopping := if stops then w.stopping + {i} else w.stopping)
    else w
  }

  /** `stopThread(looper)` exactly as written: the handler it compares against
      is `mHandler` itself, read just before, so the comparison always holds
      and `mHandler` is cleared whichever handler is current. */
  function StopThreadAsWritten(w: World, i: nat): (w': World)
    ensures |w'.handlers| == |w.handlers| && w'.pool == w.pool
    ensures i in w.stopping && i < |w.handlers| ==> w'.current.None? && w'.handlers[i].quit
    ensures forall j :: 0 <= j < |w.handlers| && j != i ==> w'.handlers[j] == w.handlers[j]
    ensures i !in w.stopping ==> w' == w
  {
    if i in w.stopping && i < |w.handlers| then
      w.(stopping := w.stopping - {i}, handlers := w.handlers[i := H.Quit(w.handlers[i])], current := None)
    else if i in w.stopping then w.(stopping := w.stopping - {i})
    else w
  }

  /** `stopThread` comparing against the stopping handler: `mHandler` is
      cleared only if it still is that handler; its looper quits either way. */
  function StopThread(w: World, i: nat): (w': World)
    ensures |w'.handlers| == |w.handlers| && w'.pool == w.pool
    ensures i in w.stopping && i < |w.handlers| ==>
      && w'.handlers[i].quit
      && w'.current == (if w.current == Some(i) then None else w.current)
    ensures forall j :: 0 <= j < |w.handlers| && j != i ==> w'.handlers[j] == w.handlers[j]
    ensures i !in w.stopping ==> w' == w
  {
    if i in w.stopping && i < |w.handlers| then
      w.(stopping := w.stopping - {i}, handlers := w.handlers[i := H.Quit(w.handlers[i])],
         current := if w.current == Some(i) then None else w.current)
    else if i in w.stopping then w.(stopping := w.stopping - {i})
    else w
  }

  /** What every handler of this actor thread satisfies. */
  predicate HandlerOk(stopDelay: int, h: H.Handler)
  {
    && H.Inv(h)
    && h.kind == H.DedicatedThread && h.stopDelay == stopDelay && !h.wakeLock
    && (h.quit ==> h.lastId == H.STOPPED)
  }

  /** The current handler's queued envelopes are distinct and in use. */
  predicate QueueOk(w: World)
    requires Valid(w.pool)
  {
    w.current.Some? && w.current.value < |w.handlers| ==>
      var q := w.handlers[w.current.value].queue;
      && (forall k :: 0 <= k < |q| ==> Filled(w.pool, q[k].envelope))
      && (forall k, l :: 0 <= k < l < |q| ==> q[k].envelope != q[l].envelope)
  }

  /** The actor thread's invariant: every handler but the current one has
      stopped, and so has every handler about to run `stopThread`. */
  predicate Inv(w: World)
  {
    && Valid(w.pool)
    && (w.current.Some? ==> w.current.value < |w.handlers|)
    && (forall j :: 0 <= j < |w.handlers| ==> HandlerOk(w.stopDelay, w.handlers[j]))
    && (forall j :: 0 <= j < |w.handlers| && w.current != Some(j) ==> w.handlers[j].lastId == H.STOPPED)
    && (forall j :: j in w.stopping ==> j < |w.handlers| && w.handlers[j].lastId == H.STOPPED)
    && QueueOk(w)
  }

  lemma QueueFilledHead(w: World, i: nat)
    requires Inv(w) && i < |w.handlers|
    ensures H.QueuedFilled(w.handlers[i], w.pool)
  {
    if w.current != Some(i) {
      H.StoppedIsIdle(w.handlers[i]);
    }
  }

  /** Actor transactions run one at a time: at most one handler of the actor
      thread has transactions waiting, so no two workers run the same actor
      concurrently, and they run in the order they were sent. */
  lemma SerialExecution(w: World, j: nat, k: nat)
    requires Inv(w) && j < |w.handlers| && k < |w.handlers| && j != k
    ensures w.handlers[j].queue == [] || w.handlers[k].queue == []
  {
    if w.current != Some(j) {
      H.StoppedIsIdle(w.handlers[j]);
    } else {
      H.StoppedIsIdle(w.handlers[k]);
    }
  }

  lemma InitInv(stopDelay: int, pool: Pool)
    requires Valid(pool)
    ensures Inv(Init(stopDelay, pool))
  {
  }

  lemma SendPreservesInv(w: World, envelope: Ref)
    requires Inv(w) && Filled(w.pool, envelope)
    requires w.current.Some? ==> w.handlers[w.current.value].lastId < INT_MAX
    requires w.current.Some? ==> forall k :: 0 <= k < |w.handlers[w.current.value].queue| ==>
      w.handlers[w.current.value].queue[k].envelope != envelope
    ensures Inv(SendTransaction(w, envelope))
  {
    if Live(w) {
      SendLivePreservesInv(w, envelope);
    } else {
      SendStartPreservesInv(w, envelope);
    }
  }

  lemma SendLivePreservesInv(w: World, envelope: Ref)
    requires Inv(w) && Filled(w.pool, envelope) && Live(w)
    requires w.handlers[w.current.value].lastId < INT_MAX
    requires forall k :: 0 <= k < |w.handlers[w.current.value].queue| ==>
      w.handlers[w.current.value].queue[k].envelope != envelope
    ensures Inv(SendTransaction(w, envelope))
  {
    var i := w.current.value;
    var h' := H.SendTransaction(w.handlers[i], envelope).0;
    H.SendPreservesInv(w.handlers[i], envelope);
    var w' := w.(handlers := w.handlers[i := h']);
    assert SendTransaction(w, envelope) == w';
    assert HandlerOk(w.stopDelay, h');
    assert forall j :: 0 <= j < |w.handlers| && j != i ==> w'.handlers[j] == w.handlers[j];
  }

  lemma SendStartPreservesInv(w: World, envelope: Ref)
    requires Inv(w) && Filled(w.pool, envelope) && !Live(w)
    ensures Inv(SendTransaction(w, envelope))
  {
    var h := H.NewHandler(H.DedicatedThread, w.stopDelay, false);
    H.NewHandlerInv(H.DedicatedThread, w.stopDelay, false);
    H.SendPreservesInv(h, envelope);
    var h' := H.SendTransaction(h, envelope).0;
    assert Refuses(w);
    TrySendRefused(w, envelope);
    assert SendTransaction(w, envelope) == w.(handlers := w.handlers + [h'], current := Some(|w.handlers|));
    assert HandlerOk(w.stopDelay, h');
    AllStopped(w);
    StartedPreservesInv(w, h', envelope);
  }

  /** A thread whose current handler has stopped leaves the world as it is
      when it tries to send. */
  lemma TrySendRefused(w: World, envelope: Ref)
    requires Refuses(w)
    ensures TrySend(w, envelope) == (w, false)
  {
    if w.current.Some? && w.current.value < |w.handlers| {
      var i := w.current.value;
      assert w.handlers[i := w.handlers[i]] == w.handlers;
    }
  }

  /** Without a live current handler, every handler has stopped. */
  lemma AllStopped(w: World)
    requires Inv(w) && !Live(w)
    ensures forall j :: 0 <= j < |w.handlers| ==> w.handlers[j].lastId == H.STOPPED
  {
    forall j | 0 <= j < |w.handlers|
      ensures w.handlers[j].lastId == H.STOPPED
    {
      assert HandlerOk(w.stopDelay, w.handlers[j]);
    }
  }

  /** Appending a new current handler, holding just `envelope`, to stopped
      ones keeps the invariant. */
  lemma StartedPreservesInv(w: World, h': H.Handler, envelope: Ref)
    requires Inv(w) && Filled(w.pool, envelope)
    requires forall j :: 0 <= j < |w.handlers| ==> w.handlers[j].lastId == H.STOPPED
    requires HandlerOk(w.stopDelay, h') && h'.queue == [H.Queued(1, envelope)]
    ensures Inv(w.(handlers := w.handlers + [h'], current := Some(|w.handlers|)))
  {
    var n := |w.handlers|;
    var w' := w.(handlers := w.handlers + [h'], current := Some(n));
    assert forall j :: 0 <= j < n ==> w'.handlers[j] == w.handlers[j];
    assert w'.handlers[n] == h';
    assert QueueOk(w');
  }

  lemma DeliverPreservesInv(w: World, impl: Ref, message: Message, failureHandler: Ref)
    requires Inv(w)
    requires w.current.Some? ==> w.handlers[w.current.value].lastId < INT_MAX
    ensures Inv(Deliver(w, impl, message, failureHandler))
  {
    var o := Obtain(w.pool, impl, message, failureHandler);
    var w0 := w.(pool := o.pool);
    if w.current.Some? {
      var q := w.handlers[w.current.value].queue;
      forall k | 0 <= k < |q| ensures Filled(o.pool, q[k].envelope) && q[k].envelope != o.envelope {
        ObtainKeepsFilled(w.pool, impl, message, failureHandler, q[k].envelope);
      }
    }
    assert Inv(w0);
    SendPreservesInv(w0, o.envelope);
  }

  lemma HandleNextPreservesInv(w: World, i: nat, outcome: Outcome)
    requires Inv(w) && i < |w.handlers|
    ensures Inv(HandleNext(w, i, outcome))
  {
    if w.handlers[i].queue == [] || w.handlers[i].crashed {
      assert w.handlers[i := w.handlers[i]] == w.handlers;
    } else {
      CurrentHasWork(w, i);
      HandleCurrentPreservesInv(w, i, outcome);
    }
  }

  /** Only the current handler can have queued work. */
  lemma CurrentHasWork(w: World, i: nat)
    requires Inv(w) && i < |w.handlers| && w.handlers[i].queue != []
    ensures w.current == Some(i)
  {
    if w.current != Some(i) {
      H.StoppedIsIdle(w.handlers[i]);
    }
  }

  lemma HandleCurrentPreservesInv(w: World, i: nat, outcome: Outcome)
    requires Inv(w) && i < |w.handlers| && w.current == Some(i) && w.handlers[i].queue != []
    requires !w.handlers[i].crashed
    ensures Inv(HandleNext(w, i, outcome))
  {
    var h := w.handlers[i];
    QueueFilledHead(w, i);
    var (h', p') := H.HandleNext(h, w.pool, outcome);
    var w' := w.(handlers := w.handlers[i := h'], pool := p');
    assert HandleNext(w, i, outcome) == w';
    H.HandleNextPreservesInv(h, w.pool, outcome);
    assert HandlerOk(w.stopDelay, h');
    RestFilled(w.pool, h.queue);
    assert h'.queue == h.queue[1..];
  }

  /** Recycling the head of a queue of distinct in-use envelopes keeps the
      others in use and filled. */
  lemma RestFilled(p: Pool, q: seq<H.Queued>)
    requires Valid(p) && q != []
    requires forall k :: 0 <= k < |q| ==> Filled(p, q[k].envelope)
    requires forall k, l :: 0 <= k < l < |q| ==> q[k].envelope != q[l].envelope
    ensures InFlight(p, q[0].envelope)
    ensures forall k :: 1 <= k < |q| ==> Filled(Recycle(p, q[0].envelope), q[k].envelope)
  {
    assert Filled(p, q[0].envelope);
    forall k | 1 <= k < |q|
      ensures Filled(Recycle(p, q[0].envelope), q[k].envelope)
    {
      RecycleKeepsFilled(p, q[0].envelope, q[k].envelope);
    }
  }

  lemma FirePillPreservesInv(w: World, i: nat)
    requires Inv(w)
    ensures Inv(FirePill(w, i))
  {
    if i < |w.handlers| {
      H.FirePillPreservesInv(w.handlers[i]);
    }
  }

  lemma StopThreadPreservesInv(w: World, i: nat)
    requires Inv(w)
    ensures Inv(StopThread(w, i))
  {
  }

  /** As written, a stop that races with a send drops the live handler that
      the send just started: the next send starts yet another worker, and two
      workers now hold transactions of the same actor. */
  lemma StopRaceAsWritten(w: World, i: nat, impl: Ref, m2: Message, m3: Message, failureHandler: Ref)
    requires Valid(w.pool) && w.current == Some(i) && i < |w.handlers|
    requires w.handlers[i].pill == Some(w.handlers[i].lastId) && w.handlers[i].lastId != H.STOPPED
    ensures var w1 := FirePill(w, i);
      var w2 := Deliver(w1, impl, m2, failureHandler);
      var w3 := StopThreadAsWritten(w2, i);
      var w4 := Deliver(w3, impl, m3, failureHandler);
      var n := |w.handlers|;
      && |w4.handlers| == n + 2
      && w4.handlers[n].queue != [] && w4.handlers[n + 1].queue != []
      && w4.handlers[n].lastId != H.STOPPED && w4.handlers[n + 1].lastId != H.STOPPED
  {
    var n := |w.handlers|;
    var w1 := FirePill(w, i);
    assert Refuses(w1);
    var o2 := Obtain(w1.pool, impl, m2, failureHandler);
    var w2 := Deliver(w1, impl, m2, failureHandler);
    assert w2 == SendTransaction(w1.(pool := o2.pool), o2.envelope);
    assert w2.current == Some(n) && w2.handlers[n].lastId == 1 && w2.handlers[n].queue != [];
    var w3 := StopThreadAsWritten(w2, i);
    assert w3.current.None? && w3.handlers[n] == w2.handlers[n];
    var o3 := Obtain(w3.pool, impl, m3, failureHandler);
    var w4 := Deliver(w3, impl, m3, failureHandler);
    assert w4 == SendTransaction(w3.(pool := o3.pool), o3.envelope);
    assert w4.handlers[..n + 1] == w3.handlers;
    assert w4.handlers[n] == w3.handlers[n];
  }

  /** With the comparison against the stopping handler, the same interleaving
      keeps the new handler current: the second send queues behind the first
      on the one live worker. */
  lemma StopRaceFixed(w: World, i: nat, impl: Ref, m2: Message, m3: Message, failureHandler: Ref)
    requires Valid(w.pool) && w.current == Some(i) && i < |w.handlers|
    requires w.handlers[i].pill == Some(w.handlers[i].lastId) && w.handlers[i].lastId != H.STOPPED
    ensures var w1 := FirePill(w, i);
      var w2 := Deliver(w1, impl, m2, failureHandler);
      var w3 := StopThread(w2, i);
      var w4 := Deliver(w3, impl, m3, failureHandler);
      var n := |w.handlers|;
      && |w4.handlers| == n + 1 && w4.current == Some(n)
      && |w4.handlers[n].queue| == 2
  {
    var n := |w.handlers|;
    var w1 := FirePill(w, i);
    assert Refuses(w1);
    var o2 := Obtain(w1.pool, impl, m2, failureHandler);
    var w2 := Deliver(w1, impl, m2, failureHandler);
    assert w2 == SendTransaction(w1.(pool := o2.pool), o2.envelope);
    assert w2.current == Some(n) && w2.handlers[n].lastId == 1 && !w2.handlers[n].quit;
    var w3 := StopThread(w2, i);
    assert w3.current == Some(n) && w3.handlers[n] == w2.handlers[n];
    assert Live(w3);
    var o3 := Obtain(w3.pool, impl, m3, failureHandler);
    var w4 := Deliver(w3, impl, m3, failureHandler);
    assert w4 == SendTransaction(w3.(pool := o3.pool), o3.envelope);
  }
}
