/** ActorService: an Android service that runs actor transactions on its own
    looper thread. On creation it builds the service flavour of the actor
    handler and exposes it through a binder whose interface descriptor is
    LOCAL_SENDER_INTERFACE; on destruction it detaches that interface and
    quits the thread. Transactions reach it from other components through the
    binder and are taken from the service's own envelope pool (the nested
    Transaction class, which behaves exactly like EnvelopePool). */
module ActorService {
  import opened Wrappers
  import opened Runtime
  import opened EnvelopePool
  import H = ActorHandler
  import I = Int32

  const LOCAL_SENDER_INTERFACE: string := "ServiceMessageSender"

  /** The service's binder: the descriptor of the attached interface (None
      once detached) and the identity of the message sender behind it. */
  datatype Binder = Binder(descriptor: Option<string>, sender: Ref)

  datatype Service = Service(
    stopDelay: int,
    useWakeLocks: bool,
    binder: Option<Binder>,
    handler: Option<H.Handler>,
    pool: Pool,
    log: seq<Effect>)

  /** The three constructors: the one-argument form uses a stop delay of 0
      and no wake locks. */
  function NewService(stopDelay: int, useWakeLocks: bool, pool: Pool): (s: Service)
    ensures s.binder.None? && s.handler.None? && s.log == []
  {
    Service(stopDelay, useWakeLocks, None, None, pool, [])
  }

  function DefaultService(pool: Pool): (s: Service)
    ensures s.stopDelay == 0 && !s.useWakeLocks
  {
    NewService(0, false, pool)
  }

  /** `onCreate()`: start the thread, build the service handler with the
      configured delay and wake-lock choice, and attach the message sender
      (identity `sender`) to a new binder under LOCAL_SENDER_INTERFACE. */
  function OnCreate(s: Service, sender: Ref): (s': Service)
    ensures s'.handler.Some? && s'.handler.value.kind.ServiceThread?
    ensures s'.handler.value.stopDelay == s.stopDelay && s'.handler.value.wakeLock == s.useWakeLocks
    ensures H.Inv(s'.handler.value) && s'.handler.value.lastId == 0 && s'.handler.value.queue == []
    ensures s'.log == s.log + [BinderAttached(LOCAL_SENDER_INTERFACE)]
    ensures s'.pool == s.pool
  {
    H.NewHandlerInv(H.ServiceThread, s.stopDelay, s.useWakeLocks);
    s.(binder := Some(Binder(Some(LOCAL_SENDER_INTERFACE), sender)),
       handler := Some(H.NewHandler(H.ServiceThread, s.stopDelay, s.useWakeLocks)),
       log := s.log + [BinderAttached(LOCAL_SENDER_INTERFACE)])
  }

  /** `onBind(intent)`: the binder built by `onCreate`, or null before it. */
  function OnBind(s: Service): Option<Binder>
  {
    s.binder
  }

  /** `onDestroy()`: detach the interface from the binder, if there is one,
      and quit the looper. The platform destroys only a created service. */
  function OnDestroy(s: Service): (s': Service)
    requires s.handler.Some?
    ensures s'.handler.Some? && s'.handler.value.quit && s'.handler.value.queue == []
    ensures s'.binder.Some? <==> s.binder.Some?
    ensures s'.binder.Some? ==> s'.binder.value.descriptor.None? && s'.binder.value.sender == s.binder.value.sender
    ensures s'.pool == s.pool
  {
    var binder := if s.binder.Some? then Some(s.binder.value.(descriptor := None)) else None;
    var log := if s.binder.Some? then s.log + [BinderDetached] else s.log;
    s.(binder := binder, handler := Some(H.Quit(s.handler.value)), log := log)
  }

  /** `ServiceMessageSender.deliver(transaction)`: the handler's
      `sendTransaction`, whose answer is returned to the caller. */
  function Deliver(s: Service, envelope: Ref): (res: (Service, bool))
    requires s.handler.Some?
    ensures res.0.handler.Some?
    ensures res.1 <==> s.handler.value.lastId != H.STOPPED && !s.handler.value.quit
    ensures res.0.handler.value.queue ==
      s.handler.value.queue + (if res.1 then [H.Queued(res.0.handler.value.lastId, envelope)] else [])
    ensures res.0.pool == s.pool && res.0.binder == s.binder && res.0.log == s.log
  {
    var (h, accepted) := H.SendTransaction(s.handler.value, envelope);
    (s.(handler := Some(h)), accepted)
  }

  /** The same delivery with the service handler's `++mLastId` exactly as
      written: the increment wraps in 32 bits and can land on the sentinel. */
  function DeliverAsWritten(s: Service, envelope: Ref): (res: (Service, bool))
    requires s.handler.Some?
    ensures res.0.handler.Some?
    ensures res.1 <==> s.handler.value.lastId != H.STOPPED && !s.handler.value.quit
    ensures s.handler.value.lastId != H.STOPPED ==>
      res.0.handler.value.lastId == H.NextIdAsWritten(s.handler.value.lastId)
  {
    var (h, accepted) := H.SendTransactionAsWritten(s.handler.value, envelope);
    (s.(handler := Some(h)), accepted)
  }

  /** As written, a service whose handler has accepted 2^32 - 2 deliveries
      accepts the next one and then refuses every later delivery, although
      its pill never fired and `stopSelf` was never called. */
  lemma SentinelReachedAsWritten(s: Service, e1: Ref, e2: Ref)
    requires s.handler.Some? && !s.handler.value.quit
    requires s.handler.value.lastId == H.IdsAfterAsWritten(I.MODULUS - 2)
    ensures DeliverAsWritten(s, e1).1
    ensures DeliverAsWritten(s, e1).0.handler.value.lastId == H.STOPPED
    ensures !DeliverAsWritten(DeliverAsWritten(s, e1).0, e2).1
    ensures DeliverAsWritten(DeliverAsWritten(s, e1).0, e2).0.log == s.log
  {
    H.SentinelReachedAsWritten(s.handler.value, e1, e2);
  }

  /** Whether each delivery of a run is accepted, in order. */
  predicate AllAccepted(s: Service, envelopes: seq<Ref>)
    requires s.handler.Some?
    decreases |envelopes|
  {
    envelopes == [] || (Deliver(s, envelopes[0]).1 && AllAccepted(Deliver(s, envelopes[0]).0, envelopes[1..]))
  }

  /** With the corrected step, a created service whose pill has not fired
      and whose looper runs accepts every delivery of any run, and is still
      running afterwards. */
  lemma {:induction false} DeliveriesAccepted(s: Service, envelopes: seq<Ref>)
    requires s.handler.Some? && !s.handler.value.quit && s.handler.value.lastId != H.STOPPED
    ensures AllAccepted(s, envelopes)
    decreases |envelopes|
  {
    if envelopes != [] {
      var (s1, accepted) := Deliver(s, envelopes[0]);
      DeliveriesAccepted(s1, envelopes[1..]);
    }
  }

  /** A client fills an envelope from the service's pool and delivers it. */
  function Post(s: Service, impl: Ref, message: Message, failureHandler: Ref): (res: (Service, bool))
    requires s.handler.Some? && Valid(s.pool)
    ensures res.0.handler.Some? && Valid(res.0.pool)
    ensures res.1 <==> s.handler.value.lastId != H.STOPPED && !s.handler.value.quit
    ensures res.1 ==>
      var q := res.0.handler.value.queue;
      && |q| == |s.handler.value.queue| + 1
      && q[|q| - 1].envelope in res.0.pool.heap
      && res.0.pool.heap[q[|q| - 1].envelope] == Envelope(Some(message), Some(impl), Some(failureHandler), None)
  {
    var o := Obtain(s.pool, impl, message, failureHandler);
    Deliver(s.(pool := o.pool), o.envelope)
  }

  /** The looper runs the next queued transaction on the service handler. */
  function HandleNext(s: Service, outcome: Outcome): (s': Service)
    requires s.handler.Some? && Valid(s.pool) && H.QueuedFilled(s.handler.value, s.pool)
    ensures s'.handler.Some? && Valid(s'.pool)
    ensures s'.binder == s.binder && s'.log == s.log
  {
    var (h, p) := H.HandleNext(s.handler.value, s.pool, outcome);
    s.(handler := Some(h), pool := p)
  }

  /** The looper delivers the pending poison pill. */
  function FirePill(s: Service): (s': Service)
    requires s.handler.Some?
    ensures s'.handler.Some? && s'.pool == s.pool
  {
    s.(handler := Some(H.FirePill(s.handler.value)))
  }

  /** Whether a connecting client finds the message sender behind a binder:
      the descriptor must be LOCAL_SENDER_INTERFACE. */
  function LocalSender(b: Option<Binder>): (r: Option<Ref>)
    ensures r.Some? <==> b.Some? && b.value.descriptor == Some(LOCAL_SENDER_INTERFACE)
    ensures r.Some? ==> r.value == b.value.sender
  {
    if b.Some? && b.value.descriptor == Some(LOCAL_SENDER_INTERFACE) then Some(b.value.sender) else None
  }

  /** A created service exposes its message sender under
      LOCAL_SENDER_INTERFACE; after `onDestroy` the same binder exposes
      nothing, its looper has quit and every later delivery is refused. */
  lemma BinderLifecycle(s: Service, sender: Ref, envelope: Ref)
    ensures LocalSender(OnBind(OnCreate(s, sender))) == Some(sender)
    ensures var d := OnDestroy(OnCreate(s, sender));
      && OnBind(d).Some? && OnBind(d).value.sender == sender
      && LocalSender(OnBind(d)).None?
      && d.log == s.log + [BinderAttached(LOCAL_SENDER_INTERFACE), BinderDetached]
      && d.handler.value.quit && d.handler.value.queue == []
      && !Deliver(d, envelope).1
  {
  }

  /** The service handler schedules a pill after every transaction that
      returns from `handleTransaction`, whatever the configured delay (there
      is no NO_DELAY exemption): the pill carries the transaction's id and is
      scheduled with the service's delay. A transaction whose failure
      handler throws schedules none (see `RethrowSkipsPill`). */
  lemma PillAfterEveryTransaction(s: Service, outcome: Outcome)
    requires s.handler.Some? && s.handler.value.kind.ServiceThread? && !s.handler.value.crashed
    requires Valid(s.pool) && H.QueuedFilled(s.handler.value, s.pool) && s.handler.value.queue != []
    requires !(outcome.Threw? && outcome.rethrown)
    ensures HandleNext(s, outcome).handler.value.pill == Some(s.handler.value.queue[0].id)
    ensures var log := HandleNext(s, outcome).handler.value.log;
      |log| >= 2 && log[|log| - 2..] == [PillRemoved, PillScheduled(s.handler.value.queue[0].id, s.handler.value.stopDelay)]
  {
    Delegates(s, outcome);
    H.HandleNextPill(s.handler.value, s.pool, outcome);
  }

  /** When the failure handler throws, its exception leaves the service
      handler's `handleTransaction` after the wake lock is released and the
      envelope recycled, and no pill is scheduled: the service's looper
      thread has ended. */
  lemma RethrowSkipsPill(s: Service, outcome: Outcome)
    requires s.handler.Some? && !s.handler.value.crashed
    requires Valid(s.pool) && H.QueuedFilled(s.handler.value, s.pool) && s.handler.value.queue != []
    requires outcome.Threw? && outcome.rethrown
    ensures var h := s.handler.value;
      var h' := HandleNext(s, outcome).handler.value;
      && h'.crashed && h'.pill.None? && |h'.log| > |h.log|
      && (h.wakeLock ==> h'.log[|h'.log| - 1] == WakeLockReleased)
      && (forall k :: |h.log| <= k < |h'.log| ==> !h'.log[k].PillScheduled? && h'.log[k] != PillRemoved)
      && HandleNext(s, outcome).pool.heap[h.queue[0].envelope].message.None?
  {
    Delegates(s, outcome);
    H.RethrowSkipsPill(s.handler.value, s.pool, outcome);
  }

  /** The service's wake lock, when it uses one, is held only around the
      invocation: acquired first, released before the pill is rescheduled,
      whether or not the invocation threw; and the transaction adds exactly
      one failure report if it threw. */
  lemma WakeLockAroundInvocation(s: Service, outcome: Outcome)
    requires s.handler.Some? && s.handler.value.kind.ServiceThread? && !s.handler.value.crashed
    requires Valid(s.pool) && H.QueuedFilled(s.handler.value, s.pool) && s.handler.value.queue != []
    ensures var h := s.handler.value;
      H.TransactionLogged(h.log, HandleNext(s, outcome).handler.value.log, h,
                          s.pool.heap[h.queue[0].envelope], h.queue[0].id, outcome)
  {
    Delegates(s, outcome);
    H.HandleNextReports(s.handler.value, s.pool, outcome);
  }

  /** The service looper's step is the handler's. */
  lemma Delegates(s: Service, outcome: Outcome)
    requires s.handler.Some? && Valid(s.pool) && H.QueuedFilled(s.handler.value, s.pool)
    ensures HandleNext(s, outcome).handler.value == H.HandleNext(s.handler.value, s.pool, outcome).0
  {
  }

  /** One delivery to a freshly created service produces two looper tasks:
      the first runs the message and, unless the failure handler threw,
      leaves the service running with a pill pending; the second is that
      pill, which stops the service through `stopSelf` and closes the
      handler. If the failure handler threw, the looper's thread has ended
      and no pill is pending. */
  lemma OneDeliveryTwoTasks(stopDelay: int, useWakeLocks: bool, pool: Pool, sender: Ref,
                            impl: Ref, message: Message, failureHandler: Ref, outcome: Outcome)
    requires Valid(pool)
    ensures var s0 := OnCreate(NewService(stopDelay, useWakeLocks, pool), sender);
      var (s1, accepted) := Post(s0, impl, message, failureHandler);
      && accepted
      && H.QueuedFilled(s1.handler.value, s1.pool)
      && var s2 := HandleNext(s1, outcome);
      && s2.handler.value.lastId == 1 && s2.handler.value.queue == []
      && Invocations(s2.handler.value.log) == [message.id]
      && (outcome.Threw? && outcome.rethrown ==> s2.handler.value.crashed && s2.handler.value.pill.None?)
      && (!(outcome.Threw? && outcome.rethrown) ==>
            && s2.handler.value.pill == Some(1)
            && var s3 := FirePill(s2);
            && s3.handler.value.lastId == H.STOPPED
            && s3.handler.value.log == s2.handler.value.log + [ServiceStopSelf])
  {
    var s0 := OnCreate(NewService(stopDelay, useWakeLocks, pool), sender);
    var o := Obtain(s0.pool, impl, message, failureHandler);
    var (s1, accepted) := Post(s0, impl, message, failureHandler);
    var h1 := s1.handler.value;
    assert h1.queue == [H.Queued(1, o.envelope)];
    assert H.QueuedFilled(h1, s1.pool);
    var e := s1.pool.heap[o.envelope];
    var effects := H.TransactionEffects(h1, e, 1, outcome);
    var s2 := HandleNext(s1, outcome);
    assert s2.handler.value.log == effects;
    TransactionInvocations(h1, e, outcome);
  }

  /** The effects of one transaction record exactly one invocation, of the
      envelope's message. */
  lemma TransactionInvocations(h: H.Handler, e: Envelope, outcome: Outcome)
    requires e.message.Some? && e.impl.Some? && e.handler.Some?
    ensures Invocations(H.TransactionEffects(h, e, 1, outcome)) == [e.message.value.id]
  {
    var run := InvokeOrReport(e.handler.value, e.impl.value, e.message.value, outcome).log;
    var acquired := H.WakeLockEffect(h, WakeLockAcquired);
    var released := H.WakeLockEffect(h, WakeLockReleased);
    var pill := H.AfterEffects(h, 1, outcome);
    assert Invocations(acquired) == [] by {
      if h.wakeLock { assert acquired[1..] == []; }
    }
    assert Invocations(released) == [] by {
      if h.wakeLock { assert released[1..] == []; }
    }
    assert Invocations(pill) == [] by {
      if pill != [] { assert pill[1..][1..] == []; }
    }
    InvocationsAppend(acquired, run);
    InvocationsAppend(acquired + run, released);
    InvocationsAppend(acquired + run + released, pill);
  }
}
