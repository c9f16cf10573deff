/** ServiceActorThread's message sender (ServiceMessageSenderProxy): the
    client side of an actor that lives in an ActorService. Envelopes wait in a
    FIFO queue until the service is connected; a valid connection drains the
    queue in order and is then used directly. A dead or refusing service is
    stopped and started again, and a connection that does not expose the
    service's message sender is stopped and restarted once only. */
module ServiceActorThread {
  import opened Wrappers
  import opened Runtime
  import opened EnvelopePool
  import AS = ActorService

  /** The binder handed to `onServiceConnected`: a reachable binder, or one
      whose `getInterfaceDescriptor` throws RemoteException. */
  datatype Connection = Reachable(binder: AS.Binder) | Unreachable

  /** What the connected sender does with a `deliver` attempt: its binder is
      dead (nothing is called), it returns false, or it returns true. */
  datatype Peer = Dead | Rejects | Accepts

  /** How the platform answers a start request: whether `startService`
      succeeds (rather than throwing IllegalStateException), what `bindService`
      returns, and whether the device runs Android O or later, where a failed
      start falls back to scheduling a job. */
  datatype Platform = Platform(startAllowed: bool, bindAccepted: bool, atLeastO: bool)

  datatype Postman = Postman(
    impl: Ref,
    failureHandler: Ref,
    queue: seq<Ref>,
    sender: Option<Ref>,
    restartAttempt: bool,
    serviceBound: bool,
    pool: Pool,
    platform: Platform,
    log: seq<Effect>)

  /** A new sender bound to `impl`: nothing queued, not connected. */
  function NewPostman(impl: Ref, failureHandler: Ref, pool: Pool, platform: Platform): (m: Postman)
    ensures m.queue == [] && m.sender.None? && !m.restartAttempt && !m.serviceBound && m.log == []
  {
    Postman(impl, failureHandler, [], None, false, false, pool, platform, [])
  }

  /** The effects of `startService()`: the start request, then the bind when
      the start was allowed, or the job fallback on Android O and later. */
  function StartEffects(platform: Platform): (effects: seq<Effect>)
    ensures |effects| >= 1 && effects[0] == StartService
    ensures BindService in effects <==> platform.startAllowed
    ensures JobScheduled in effects <==> !platform.startAllowed && platform.atLeastO
  {
    if platform.startAllowed then [StartService, BindService]
    else if platform.atLeastO then [StartService, JobScheduled]
    else [StartService]
  }

  function StartActorService(m: Postman): (m': Postman)
    ensures m'.serviceBound <==> m.platform.startAllowed && m.platform.bindAccepted
    ensures m'.log == m.log + StartEffects(m.platform)
    ensures m'.queue == m.queue && m'.sender == m.sender && m'.restartAttempt == m.restartAttempt
  {
    m.(serviceBound := m.platform.startAllowed && m.platform.bindAccepted,
       log := m.log + StartEffects(m.platform))
  }

  /** The effects of `stopActorService()`: unbind if bound, stop, and cancel
      the job on Android O and later. */
  function StopEffects(serviceBound: bool, platform: Platform): (effects: seq<Effect>)
    ensures StopService in effects && StartService !in effects
    ensures UnbindService in effects <==> serviceBound
  {
    (if serviceBound then [UnbindService] else []) + [StopService] + (if platform.atLeastO then [JobCancelled] else [])
  }

  /** `stopActorService()` also forgets the sender; the bound flag is left as
      it is. */
  function StopActorService(m: Postman): (m': Postman)
    ensures m'.sender.None? && m'.log == m.log + StopEffects(m.serviceBound, m.platform)
    ensures m'.queue == m.queue && m'.serviceBound == m.serviceBound && m'.restartAttempt == m.restartAttempt
  {
    m.(sender := None, log := m.log + StopEffects(m.serviceBound, m.platform))
  }

  /** `deliver(message)`: wrap the message in a pooled envelope, then
      dispatch it. */
  function Deliver(m: Postman, message: Message, peer: Peer): (res: (Postman, Ref))
    requires Valid(m.pool)
    ensures var (m', envelope) := res;
      && Valid(m'.pool) && envelope in m'.pool.heap
      && m'.pool.heap[envelope] == Envelope(Some(message), Some(m.impl), Some(m.failureHandler), None)
      && InFlight(m'.pool, envelope)
      && m' == Dispatch(m.(pool := m'.pool), envelope, peer)
  {
    var o := Obtain(m.pool, m.impl, message, m.failureHandler);
    (Dispatch(m.(pool := o.pool), o.envelope, peer), o.envelope)
  }

  /** The rest of `deliver` for a filled envelope: with no sender, queue it
      and start the service; with a live sender that accepts, hand it over;
      otherwise queue it, stop the service and start it again. */
  function Dispatch(m: Postman, envelope: Ref, peer: Peer): (m': Postman)
    ensures m'.pool == m.pool && m'.restartAttempt == m.restartAttempt
    ensures m.sender.None? ==>
      && m'.queue == m.queue + [envelope] && m'.sender.None?
      && m'.log == m.log + StartEffects(m.platform)
    ensures m.sender.Some? && peer.Accepts? ==>
      && m'.queue == m.queue && m'.sender == m.sender
      && m'.log == m.log + [RemoteDeliver(m.sender.value, envelope)]
    ensures m.sender.Some? && !peer.Accepts? ==>
      && m'.queue == m.queue + [envelope] && m'.sender.None?
      && m'.log == m.log + (if peer.Rejects? then [RemoteDeliver(m.sender.value, envelope)] else [])
                         + StopEffects(m.serviceBound, m.platform) + StartEffects(m.platform)
  {
    match m.sender
    case None =>
      StartActorService(m.(queue := m.queue + [envelope]))
    case Some(sender) =>
      if peer.Accepts? then
        m.(log := m.log + [RemoteDeliver(sender, envelope)])
      else
        var tried := if peer.Rejects? then m.log + [RemoteDeliver(sender, envelope)] else m.log;
        StartActorService(StopActorService(m.(queue := m.queue + [envelope], log := tried)))
  }

  /** `getMessageSender(binder)`: the service's sender when the binder's
      descriptor is LOCAL_SENDER_INTERFACE, null on a mismatch, a null
      descriptor or a RemoteException. */
  function GetMessageSender(c: Connection): (r: Option<Ref>)
    ensures r.Some? <==> c.Reachable? && c.binder.descriptor == Some(AS.LOCAL_SENDER_INTERFACE)
    ensures r.Some? ==> r.value == c.binder.sender
  {
    match c
    case Unreachable => None
    case Reachable(b) => AS.LocalSender(Some(b))
  }

  /** The deliveries made while draining `queue` into `sender`, in order. */
  function DeliverEach(sender: Ref, queue: seq<Ref>): (effects: seq<Effect>)
    ensures |effects| == |queue|
    ensures forall i :: 0 <= i < |queue| ==> effects[i] == RemoteDeliver(sender, queue[i])
  {
    if queue == [] then [] else [RemoteDeliver(sender, queue[0])] + DeliverEach(sender, queue[1..])
  }

  /** `onServiceConnected(name, binder)`: an invalid binder stops the service
      and, unless a restart was already attempted, starts it again once; a
      valid one receives every queued envelope in FIFO order (its answers
      ignored), becomes the sender and clears the restart flag. */
  function OnServiceConnected(m: Postman, c: Connection): (m': Postman)
    ensures GetMessageSender(c).None? ==>
      && m'.sender.None? && m'.queue == m.queue && m'.restartAttempt
      && m'.log == m.log + StopEffects(m.serviceBound, m.platform)
                         + (if m.restartAttempt then [] else StartEffects(m.platform))
    ensures GetMessageSender(c).Some? ==>
      && m'.sender == GetMessageSender(c) && m'.queue == [] && !m'.restartAttempt
      && |m'.log| == |m.log| + |m.queue| && m'.log[..|m.log|] == m.log
      && (forall i :: 0 <= i < |m.queue| ==> m'.log[|m.log| + i] == RemoteDeliver(m'.sender.value, m.queue[i]))
    ensures m'.pool == m.pool
  {
    match GetMessageSender(c)
    case None =>
      var stopped := StopActorService(m);
      if m.restartAttempt then stopped
      else StartActorService(stopped).(restartAttempt := true)
    case Some(sender) =>
      m.(queue := [], log := m.log + DeliverEach(sender, m.queue), sender := Some(sender), restartAttempt := false)
  }

  /** The drain loop of `onServiceConnected`: poll the queue until it is
      empty, delivering each envelope to the sender. */
  method Drain(log: seq<Effect>, sender: Ref, queue: seq<Ref>) returns (out: seq<Effect>)
    ensures out == log + DeliverEach(sender, queue)
  {
    out := log;
    var rest := queue;
    while rest != []
      invariant |rest| <= |queue| && rest == queue[|queue| - |rest|..]
      invariant |out| == |log| + |queue| - |rest| && out[..|log|] == log
      invariant forall i :: 0 <= i < |queue| - |rest| ==> out[|log| + i] == RemoteDeliver(sender, queue[i])
      decreases |rest|
    {
      out := out + [RemoteDeliver(sender, rest[0])];
      rest := rest[1..];
    }
  }

  /** `onServiceDisconnected(name)`: forget the sender and the binding. */
  function OnServiceDisconnected(m: Postman): (m': Postman)
    ensures m'.sender.None? && !m'.serviceBound
    ensures m'.queue == m.queue && m'.log == m.log && m'.restartAttempt == m.restartAttempt
  {
    m.(sender := None, serviceBound := false)
  }

  /** A connected postman has nothing queued: every path that records a
      sender drains the queue first, and every path that queues an envelope
      forgets the sender. */
  predicate Inv(m: Postman)
  {
    Valid(m.pool) && (m.sender.Some? ==> m.queue == [])
  }

  lemma DeliverPreservesInv(m: Postman, message: Message, peer: Peer)
    requires Inv(m)
    ensures Inv(Deliver(m, message, peer).0)
  {
  }

  lemma OnServiceConnectedPreservesInv(m: Postman, c: Connection)
    requires Inv(m)
    ensures Inv(OnServiceConnected(m, c))
  {
  }

  lemma OnServiceDisconnectedPreservesInv(m: Postman)
    requires Inv(m)
    ensures Inv(OnServiceDisconnected(m))
  {
  }

  /** Of two consecutive invalid connections, only the first requests a
      restart; both stop the service and the queue survives them. */
  lemma TwoInvalidConnects(m: Postman, c1: Connection, c2: Connection)
    requires !m.restartAttempt
    requires GetMessageSender(c1).None? && GetMessageSender(c2).None?
    ensures var m1 := OnServiceConnected(m, c1);
      var m2 := OnServiceConnected(m1, c2);
      && m1.log == m.log + StopEffects(m.serviceBound, m.platform) + StartEffects(m.platform)
      && m2.log == m1.log + StopEffects(m1.serviceBound, m.platform)
      && m2.queue == m.queue && m2.sender.None?
  {
  }

  /** A run of deliveries, one per message, each to a dead peer; with no
      sender the peer is never asked. */
  function DeliverAll(m: Postman, messages: seq<Message>): (res: (Postman, seq<Ref>))
    requires Valid(m.pool)
    ensures Valid(res.0.pool) && |res.1| == |messages|
    decreases |messages|
  {
    if messages == [] then (m, [])
    else
      var (m1, e) := Deliver(m, messages[0], Dead);
      var (m2, es) := DeliverAll(m1, messages[1..]);
      (m2, [e] + es)
  }

  /** While unconnected, every delivered message gets its own envelope,
      distinct from the others and from every envelope already in flight,
      and the envelopes join the queue in delivery order. */
  lemma QueuedWhileUnconnected(m: Postman, messages: seq<Message>)
    requires Valid(m.pool) && m.sender.None?
    ensures var run := DeliverAll(m, messages);
      var m' := run.0;
      var es := run.1;
      && m'.sender.None? && m'.queue == m.queue + es
      && (forall i :: 0 <= i < |es| ==> Filled(m'.pool, es[i]))
      && Distinct(es)
      && (forall x :: Filled(m.pool, x) ==> Filled(m'.pool, x) && x !in es)
  {
    QueuedInOrder(m, messages);
    FreshEnvelopes(m, messages);
  }

  /** While unconnected, the delivered envelopes join the queue in order. */
  lemma {:induction false} QueuedInOrder(m: Postman, messages: seq<Message>)
    requires Valid(m.pool) && m.sender.None?
    ensures var run := DeliverAll(m, messages);
      var m' := run.0;
      var es := run.1;
      m'.sender.None? && m'.queue == m.queue + es
    decreases |messages|
  {
    if messages != [] {
      var (m1, e) := Deliver(m, messages[0], Dead);
      QueuedInOrder(m1, messages[1..]);
      var (m2, es) := DeliverAll(m1, messages[1..]);
      assert DeliverAll(m, messages) == (m2, [e] + es);
      Requeued(m.queue, m1.queue, m2.queue, e, es);
    }
  }

  /** A queue extended by one envelope and then by a run of them is the
      first queue extended by the whole run. */
  lemma Requeued(q0: seq<Ref>, q1: seq<Ref>, q2: seq<Ref>, e: Ref, es: seq<Ref>)
    requires q1 == q0 + [e] && q2 == q1 + es
    ensures q2 == q0 + ([e] + es)
  {
    assert (q0 + [e]) + es == q0 + ([e] + es);
  }

  /** While unconnected, the delivered envelopes are filled, pairwise
      distinct and distinct from every envelope already in flight, which
      stays so. */
  lemma {:induction false} FreshEnvelopes(m: Postman, messages: seq<Message>)
    requires Valid(m.pool) && m.sender.None?
    ensures var run := DeliverAll(m, messages);
      var m' := run.0;
      var es := run.1;
      && (forall i :: 0 <= i < |es| ==> Filled(m'.pool, es[i]))
      && Distinct(es)
      && (forall x :: Filled(m.pool, x) ==> Filled(m'.pool, x) && x !in es)
    decreases |messages|
  {
    if messages != [] {
      DeliverUnconnected(m, messages[0]);
      var (m1, e) := Deliver(m, messages[0], Dead);
      FreshEnvelopes(m1, messages[1..]);
      var (m2, es) := DeliverAll(m1, messages[1..]);
      assert DeliverAll(m, messages) == (m2, [e] + es);
      FreshBeforeRest(m.pool, m1.pool, m2.pool, e, es);
    }
  }

  /** An envelope filled fresh before a run of distinct fresh ones is
      distinct from them, and what was in flight before both stays so and is
      none of them. */
  lemma FreshBeforeRest(p0: Pool, p1: Pool, p2: Pool, e: Ref, es: seq<Ref>)
    requires Valid(p0) && Valid(p1) && Valid(p2)
    requires Filled(p1, e) && forall x :: Filled(p0, x) ==> Filled(p1, x) && x != e
    requires forall i :: 0 <= i < |es| ==> Filled(p2, es[i])
    requires Distinct(es)
    requires forall x :: Filled(p1, x) ==> Filled(p2, x) && x !in es
    ensures forall i :: 0 <= i < |[e] + es| ==> Filled(p2, ([e] + es)[i])
    ensures Distinct([e] + es)
    ensures forall x :: Filled(p0, x) ==> Filled(p2, x) && x !in [e] + es
  {
    var all := [e] + es;
    forall i, j | 0 <= i < j < |all| ensures all[i] != all[j] {
      if i == 0 {
        assert all[j] == es[j - 1];
      }
    }
  }

  /** One delivery while unconnected queues a fresh filled envelope and
      keeps every envelope already in flight filled. */
  lemma DeliverUnconnected(m: Postman, message: Message)
    requires Valid(m.pool) && m.sender.None?
    ensures var (m1, e) := Deliver(m, message, Dead);
      && m1.sender.None? && m1.queue == m.queue + [e] && Filled(m1.pool, e)
      && (forall x :: Filled(m.pool, x) ==> Filled(m1.pool, x) && x != e)
  {
    var o := Obtain(m.pool, m.impl, message, m.failureHandler);
    forall x | Filled(m.pool, x) ensures Filled(o.pool, x) && x != o.envelope {
      ObtainKeepsFilled(m.pool, m.impl, message, m.failureHandler, x);
    }
  }

  /** Envelopes queued while unconnected reach the service in the order
      they were delivered, each exactly once, as soon as it connects; the
      queue is then empty. */
  lemma QueuedThenConnected(m: Postman, messages: seq<Message>, c: Connection)
    requires Valid(m.pool) && m.sender.None? && GetMessageSender(c).Some?
    ensures var run := DeliverAll(m, messages);
      var m1 := run.0;
      var es := run.1;
      var m2 := OnServiceConnected(m1, c);
      && Distinct(es)
      && m2.queue == [] && m2.sender == GetMessageSender(c)
      && |m2.log| == |m1.log| + |m.queue| + |es|
      && forall i :: 0 <= i < |es| ==> m2.log[|m1.log| + |m.queue| + i] == RemoteDeliver(m2.sender.value, es[i])
  {
    var run := DeliverAll(m, messages);
    assert Distinct(run.1) by {
      FreshEnvelopes(m, messages);
    }
    assert run.0.queue == m.queue + run.1 by {
      QueuedInOrder(m, messages);
    }
    DrainsAfter(run.0, c, m.queue, run.1);
  }

  /** Connecting delivers the envelopes queued after the first `|q|` right
      after those, in queue order. */
  lemma DrainsAfter(m: Postman, c: Connection, q: seq<Ref>, es: seq<Ref>)
    requires GetMessageSender(c).Some? && m.queue == q + es
    ensures var m' := OnServiceConnected(m, c);
      && m'.queue == [] && m'.sender == GetMessageSender(c)
      && |m'.log| == |m.log| + |q| + |es|
      && forall i :: 0 <= i < |es| ==> m'.log[|m.log| + |q| + i] == RemoteDeliver(m'.sender.value, es[i])
  {
    var m' := OnServiceConnected(m, c);
    forall i | 0 <= i < |es|
      ensures m'.log[|m.log| + |q| + i] == RemoteDeliver(m'.sender.value, es[i])
    {
      assert m.queue[|q| + i] == es[i];
    }
  }

  lemma DrainTail(m: Postman, c: Connection, e1: Ref, e2: Ref)
    requires GetMessageSender(c).Some? && |m.queue| >= 2
    requires m.queue[|m.queue| - 2..] == [e1, e2]
    ensures var m' := OnServiceConnected(m, c);
      |m'.log| >= 2 && m'.log[|m'.log| - 2..] == [RemoteDeliver(m'.sender.value, e1), RemoteDeliver(m'.sender.value, e2)]
  {
    var m' := OnServiceConnected(m, c);
    var sender := GetMessageSender(c).value;
    var effects := DeliverEach(sender, m.queue);
    assert m'.log == m.log + effects;
    DeliverEachTail(sender, m.queue, e1, e2);
    assert m'.log[|m'.log| - 2..] == effects[|effects| - 2..];
  }

  /** The last two deliveries of a drain are those of the last two queued
      envelopes, in order. */
  lemma DeliverEachTail(sender: Ref, queue: seq<Ref>, e1: Ref, e2: Ref)
    requires |queue| >= 2 && queue[|queue| - 2..] == [e1, e2]
    ensures var effects := DeliverEach(sender, queue);
      effects[|effects| - 2..] == [RemoteDeliver(sender, e1), RemoteDeliver(sender, e2)]
  {
    var effects := DeliverEach(sender, queue);
    var k := |queue|;
    assert queue[k - 2] == e1 && queue[k - 1] == e2;
    assert effects[k - 2..] == [effects[k - 2], effects[k - 1]];
  }

  /** An envelope still in flight is never handed out again. */
  lemma ObtainAvoidsInFlight(p: Pool, impl: Ref, message: Message, failureHandler: Ref, x: Ref)
    requires Valid(p) && InFlight(p, x)
    ensures Obtain(p, impl, message, failureHandler).envelope != x
  {
  }

  /** After a disconnect the next delivery is queued and starts the service
      again. */
  lemma DisconnectThenDeliver(m: Postman, message: Message, peer: Peer)
    requires Inv(m)
    ensures var (m', e) := Deliver(OnServiceDisconnected(m), message, peer);
      && m'.queue == m.queue + [e]
      && m'.log == m.log + StartEffects(m.platform)
  {
  }
}
