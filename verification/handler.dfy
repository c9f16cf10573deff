/** The looper-bound handler that runs transactions one at a time and stops
    its worker after an idle period (ActorHandlerBase, used by
    DefaultActorThread, and ActorService.ActorHandler, used inside the
    service). The two differ only in when the poison pill is scheduled and in
    what stopping means, so one model with a `kind` covers both.

    Each transaction gets a fresh id from the `lastId` counter. After every
    transaction a delayed poison pill carrying that transaction's id replaces
    any pending one; when the pill fires and no transaction was sent since,
    the counter is set to the sentinel -1 and the handler stops, refusing
    every later transaction. */
module ActorHandler {
  import opened Wrappers
  import opened Runtime
  import opened Int32
  import opened EnvelopePool

  /** A stop delay of NO_DELAY keeps a dedicated worker alive forever. */
  const NO_DELAY: int := -1
  /** The value of `lastId` once the handler has stopped. */
  const STOPPED: int := -1

  datatype Kind =
    | DedicatedThread   // ActorHandlerBase as used by DefaultActorThread
    | ServiceThread     // ActorService.ActorHandler

  /** A MSG_TRANSACTION message waiting in the looper's queue. */
  datatype Queued = Queued(id: int, envelope: Ref)

  /** The handler together with the part of its looper it owns: the queued
      transactions in FIFO order, the pending poison pill (at most one, since
      scheduling a pill removes the previous one), whether the looper has
      quit, and whether an exception escaped `handleMessage` and ended the
      looper's thread, after which nothing queued is dispatched. Platform
      effects are appended to `log`. */
  datatype Handler = Handler(
    kind: Kind,
    stopDelay: int,
    wakeLock: bool,
    lastId: int,
    queue: seq<Queued>,
    pill: Option<int>,
    quit: bool,
    crashed: bool,
    log: seq<Effect>)

  function NewHandler(kind: Kind, stopDelay: int, wakeLock: bool): (h: Handler)
    ensures h.lastId == 0 && h.queue == [] && h.pill.None? && !h.quit && !h.crashed && h.log == []
  {
    Handler(kind, stopDelay, wakeLock, 0, [], None, false, false, [])
  }

  /** `++mLastId` exactly as written: Java's increment wraps at 2^31 - 1. */
  function NextIdAsWritten(x: int): (r: int)
    ensures IsInt32(x) && x < INT_MAX ==> r == x + 1
    ensures x == INT_MAX ==> r == INT_MIN
  {
    Wrap32(x + 1)
  }

  /** The id increment with the sentinel skipped: a counter that is not the
      sentinel never becomes the sentinel. */
  function NextId(x: int): (r: int)
    ensures IsInt32(r) && r != STOPPED
    ensures IsInt32(x) && x < INT_MAX && x != -2 ==> r == x + 1
    ensures x == INT_MAX ==> r == INT_MIN
  {
    var n := Wrap32(x + 1);
    if n == STOPPED then 0 else n
  }

  /** `sendTransaction(transaction)`: refuse once stopped; otherwise take the
      next id and post the transaction, which fails only when the looper has
      quit (the id is consumed even then). */
  function SendTransaction(h: Handler, envelope: Ref): (res: (Handler, bool))
    ensures var (h', posted) := res;
      && (posted <==> h.lastId != STOPPED && !h.quit)
      && (h.lastId == STOPPED ==> h' == h)
      && (h.lastId != STOPPED ==> h'.lastId != STOPPED && h'.lastId == NextId(h.lastId))
      && h'.queue == (if posted then h.queue + [Queued(h'.lastId, envelope)] else h.queue)
      && h'.pill == h.pill && h'.quit == h.quit && h'.crashed == h.crashed && h'.log == h.log
      && h'.kind == h.kind && h'.stopDelay == h.stopDelay && h'.wakeLock == h.wakeLock
  {
    if h.lastId == STOPPED then (h, false)
    else
      var id := NextId(h.lastId);
      var h1 := h.(lastId := id);
      if h.quit then (h1, false)
      else (h1.(queue := h.queue + [Queued(id, envelope)]), true)
  }

  /** The same operation with the increment exactly as written. */
  function SendTransactionAsWritten(h: Handler, envelope: Ref): (res: (Handler, bool))
    ensures (res.1 <==> h.lastId != STOPPED && !h.quit)
    ensures h.lastId != STOPPED ==> res.0.lastId == NextIdAsWritten(h.lastId)
  {
    if h.lastId == STOPPED then (h, false)
    else
      var id := NextIdAsWritten(h.lastId);
      var h1 := h.(lastId := id);
      if h.quit then (h1, false)
      else (h1.(queue := h.queue + [Queued(id, envelope)]), true)
  }

  /** Whether handling a transaction (re)schedules the poison pill. The service
      handler always does; the dedicated one does unless its delay is NO_DELAY. */
  predicate SchedulesPill(h: Handler)
  {
    h.kind.ServiceThread? || h.stopDelay != NO_DELAY
  }

  predicate QueuedFilled(h: Handler, p: Pool)
    requires Valid(p)
  {
    h.queue != [] ==> Filled(p, h.queue[0].envelope)
  }

  function WakeLockEffect(h: Handler, e: Effect): seq<Effect>
  {
    if h.wakeLock then [e] else []
  }

  function PillEffects(h: Handler, id: int): seq<Effect>
  {
    if SchedulesPill(h) then [PillRemoved, PillScheduled(id, h.stopDelay)] else []
  }

  /** What `handleTransaction` does after its `finally`: reschedule the pill,
      unless the failure handler threw, in which case its exception leaves
      the method before that point. */
  function AfterEffects(h: Handler, id: int, outcome: Outcome): seq<Effect>
  {
    if Escapes(outcome) then [] else PillEffects(h, id)
  }

  /** The platform effects of `handleTransaction` for one envelope: wake lock
      around the invocation (and the failure report if it threw), then the
      pill rescheduling when no exception escaped. */
  function TransactionEffects(h: Handler, e: Envelope, id: int, outcome: Outcome): (log: seq<Effect>)
    requires e.message.Some? && e.impl.Some? && e.handler.Some?
    ensures Reports(log) == (if outcome.Threw? then 1 else 0)
    ensures var tail := AfterEffects(h, id, outcome);
      |log| >= 1 + |tail| && log[|log| - |tail|..] == tail
    ensures Invoked(e.impl.value, e.message.value.id) in log
  {
    var run := InvokeOrReport(e.handler.value, e.impl.value, e.message.value, outcome).log;
    RunHoldsNoLock(e.handler.value, e.impl.value, e.message.value, outcome);
    AfterEffectsLockFree(h, id, outcome);
    Bracket(h, run, AfterEffects(h, id, outcome));
    WakeLockEffect(h, WakeLockAcquired) + run + WakeLockEffect(h, WakeLockReleased) + AfterEffects(h, id, outcome)
  }

  /** The `finally` of `handleTransaction`: with a wake lock, it is acquired
      first and released right before the pill effects, whether or not the
      invocation threw and whether or not the failure handler threw, and the
      stretch in between (the invocation and its report) neither acquires
      nor releases; without one, no wake-lock effect appears at all. */
  lemma TransactionHoldsLock(h: Handler, e: Envelope, id: int, outcome: Outcome)
    requires e.message.Some? && e.impl.Some? && e.handler.Some?
    ensures var log := TransactionEffects(h, e, id, outcome);
      && HeldAround(log, h.wakeLock, |AfterEffects(h, id, outcome)|, Invoked(e.impl.value, e.message.value.id))
      && (!h.wakeLock ==> WakeLockAcquired !in log && WakeLockReleased !in log)
  {
    var run := InvokeOrReport(e.handler.value, e.impl.value, e.message.value, outcome).log;
    RunHoldsNoLock(e.handler.value, e.impl.value, e.message.value, outcome);
    AfterEffectsLockFree(h, id, outcome);
    Bracket(h, run, AfterEffects(h, id, outcome));
  }

  /** A lock-free stretch `run` put between the handler's wake-lock effects
      and followed by a lock-free `tail` without reports keeps its reports,
      ends with the tail and has the lock held exactly around it. */
  lemma Bracket(h: Handler, run: seq<Effect>, tail: seq<Effect>)
    requires |run| >= 1 && WakeLockAcquired !in run && WakeLockReleased !in run
    requires Reports(tail) == 0 && WakeLockAcquired !in tail && WakeLockReleased !in tail
    ensures var log := WakeLockEffect(h, WakeLockAcquired) + run + WakeLockEffect(h, WakeLockReleased) + tail;
      && Reports(log) == Reports(run)
      && log[|log| - |tail|..] == tail
      && HeldAround(log, h.wakeLock, |tail|, run[0])
      && (!h.wakeLock ==> WakeLockAcquired !in log && WakeLockReleased !in log)
  {
    var acquired := WakeLockEffect(h, WakeLockAcquired);
    var released := WakeLockEffect(h, WakeLockReleased);
    LockEffectsReportNothing(h);
    Reports4(acquired, run, released, tail);
    LockBracket(acquired + run + released + tail, acquired, run, released, tail, h.wakeLock);
    Slices(acquired, run, released, tail);
  }

  /** Wake-lock effects are no failure reports. */
  lemma LockEffectsReportNothing(h: Handler)
    ensures Reports(WakeLockEffect(h, WakeLockAcquired)) == 0
    ensures Reports(WakeLockEffect(h, WakeLockReleased)) == 0
  {
    NoReports(WakeLockEffect(h, WakeLockAcquired));
    NoReports(WakeLockEffect(h, WakeLockReleased));
  }

  /** The effects after the `finally` report nothing and take no lock. */
  lemma AfterEffectsLockFree(h: Handler, id: int, outcome: Outcome)
    ensures var tail := AfterEffects(h, id, outcome);
      Reports(tail) == 0 && WakeLockAcquired !in tail && WakeLockReleased !in tail
  {
    NoReports(AfterEffects(h, id, outcome));
  }

  /** Reports of a log made of four stretches. */
  lemma Reports4(a: seq<Effect>, b: seq<Effect>, c: seq<Effect>, d: seq<Effect>)
    ensures Reports(a + b + c + d) == Reports(a) + Reports(b) + Reports(c) + Reports(d)
  {
    ReportsAppend(a, b);
    ReportsAppend(a + b, c);
    ReportsAppend(a + b + c, d);
  }

  /** The wake lock is held exactly around the invocation `invoked`: with a
      lock, `log` acquires it first, then invokes, and releases it right
      before its last `tail` effects; the stretch from the invocation to the
      release neither acquires nor releases, and neither do the last `tail`
      effects. */
  predicate HeldAround(log: seq<Effect>, wakeLock: bool, tail: nat, invoked: Effect)
  {
    var w := if wakeLock then 1 else 0;
    && 2 * w + 1 + tail <= |log|
    && log[w] == invoked
    && (wakeLock ==> log[0] == WakeLockAcquired && log[|log| - tail - 1] == WakeLockReleased)
    && WakeLockAcquired !in log[w..] && WakeLockReleased !in log[..|log| - tail - w]
    && WakeLockReleased !in log[|log| - tail..]
  }

  /** A stretch with no wake-lock effect, between an optional acquire and
      the matching release, followed by effects that take no lock. */
  lemma LockBracket(log: seq<Effect>, acquired: seq<Effect>, run: seq<Effect>, released: seq<Effect>,
                    pill: seq<Effect>, wakeLock: bool)
    requires acquired == (if wakeLock then [WakeLockAcquired] else [])
    requires released == (if wakeLock then [WakeLockReleased] else [])
    requires |run| >= 1 && WakeLockAcquired !in run && WakeLockReleased !in run
    requires WakeLockAcquired !in pill && WakeLockReleased !in pill
    requires log == acquired + run + released + pill
    ensures HeldAround(log, wakeLock, |pill|, run[0])
    ensures !wakeLock ==> WakeLockAcquired !in log && WakeLockReleased !in log
  {
    Slices(acquired, run, released, pill);
  }

  /** The three cuts of a log made of four stretches. */
  lemma Slices(a: seq<Effect>, b: seq<Effect>, c: seq<Effect>, d: seq<Effect>)
    ensures (a + b + c + d)[|a|..] == b + c + d
    ensures (a + b + c + d)[..|a| + |b|] == a + b
    ensures (a + b + c + d)[|a| + |b| + |c|..] == d
  {
    var log := a + b + c + d;
    assert log[|a|..] == b + c + d;
    assert log[..|a| + |b|] == a + b;
    assert log[|a| + |b| + |c|..] == d;
  }

  /** The invoke-or-report stretch takes no wake lock. */
  lemma RunHoldsNoLock(handler: Ref, impl: Ref, message: Message, outcome: Outcome)
    ensures var run := InvokeOrReport(handler, impl, message, outcome).log;
      WakeLockAcquired !in run && WakeLockReleased !in run
  {
  }

  /** `handleMessage(MSG_TRANSACTION)` for the head of the queue: invoke the
      message (`outcome` says whether it threw), report a failure to the
      failure handler, release the wake lock and recycle the envelope whatever
      happened, then replace the pending pill by one carrying this id. If the
      failure handler threw, its exception leaves `handleMessage` right after
      the recycle: no pill is scheduled and the looper's thread ends, so the
      pending pill, if any, never fires either. With an empty queue, or once
      the thread has ended, nothing is dispatched and nothing changes. */
  function HandleNext(h: Handler, p: Pool, outcome: Outcome): (res: (Handler, Pool))
    requires Valid(p) && QueuedFilled(h, p)
    ensures Valid(res.1)
    ensures h.queue == [] || h.crashed ==> res == (h, p)
    ensures h.queue != [] && !h.crashed ==>
      var head := h.queue[0];
      var (h', p') := res;
      && h'.queue == h.queue[1..]
      && h'.lastId == h.lastId && h'.quit == h.quit
      && (h'.crashed <==> outcome.Threw? && outcome.rethrown)
      && h'.pill == (if Escapes(outcome) then None else if SchedulesPill(h) then Some(head.id) else h.pill)
      && h'.log == h.log + TransactionEffects(h, p.heap[head.envelope], head.id, outcome)
      && (|FreeList(p)| < MAX_POOL_SIZE ==> FreeList(p') == [head.envelope] + FreeList(p))
      && head.envelope in p'.heap && p'.heap[head.envelope].message.None?
  {
    if h.queue == [] || h.crashed then (h, p)
    else
      var head := h.queue[0];
      var effects := TransactionEffects(h, p.heap[head.envelope], head.id, outcome);
      var h' := h.(queue := h.queue[1..],
                   pill := if Escapes(outcome) then None else if SchedulesPill(h) then Some(head.id) else h.pill,
                   crashed := Escapes(outcome),
                   log := h.log + effects);
      (h', Recycle(p, head.envelope))
  }

  /** `after` is `before` extended by the effects of handling one
      transaction of `e` under id `id`: the effects added hold exactly one
      failure report if the invocation threw and none otherwise, end with the
      pill effects unless the failure handler threw, and hold the wake lock
      exactly around the invocation. */
  predicate TransactionLogged(before: seq<Effect>, after: seq<Effect>, h: Handler, e: Envelope, id: int, outcome: Outcome)
    requires e.message.Some? && e.impl.Some?
  {
    && |before| < |after| && after[..|before|] == before
    && var added := after[|before|..];
    && Reports(added) == (if outcome.Threw? then 1 else 0)
    && var tail := AfterEffects(h, id, outcome);
    && |tail| < |added|
    && added[|added| - |tail|..] == tail
    && HeldAround(added, h.wakeLock, |tail|, Invoked(e.impl.value, e.message.value.id))
  }

  /** A live handler's transaction invokes its message once and reports at
      most one failure, exactly when the invocation threw; a scheduled pill
      is the last effect. With a wake lock, the effects it adds start by
      acquiring it and release it right before the pill effects, the
      invocation in between, whether or not the invocation or the failure
      handler threw; without one they touch no lock. The handler goes on
      exactly when the failure handler did not throw. */
  lemma HandleNextReports(h: Handler, p: Pool, outcome: Outcome)
    requires Valid(p) && QueuedFilled(h, p) && h.queue != [] && !h.crashed
    ensures var h' := HandleNext(h, p, outcome).0;
      TransactionLogged(h.log, h'.log, h, p.heap[h.queue[0].envelope], h.queue[0].id, outcome)
    ensures HandleNext(h, p, outcome).0.crashed <==> outcome.Threw? && outcome.rethrown
  {
    var h' := HandleNext(h, p, outcome).0;
    LogStep(h.log, h'.log, h, p.heap[h.queue[0].envelope], h.queue[0].id, outcome);
  }

  /** With a pill scheduled, a transaction whose failure handler (if it was
      called) returned leaves the pill carrying its id and ends the log with
      removing the old pill and scheduling the new one with the stop delay. */
  lemma HandleNextPill(h: Handler, p: Pool, outcome: Outcome)
    requires Valid(p) && QueuedFilled(h, p) && h.queue != [] && !h.crashed && SchedulesPill(h)
    requires !(outcome.Threw? && outcome.rethrown)
    ensures var h' := HandleNext(h, p, outcome).0;
      && h'.pill == Some(h.queue[0].id)
      && |h'.log| >= 2 && h'.log[|h'.log| - 2..] == [PillRemoved, PillScheduled(h.queue[0].id, h.stopDelay)]
  {
    var e := p.heap[h.queue[0].envelope];
    var effects := TransactionEffects(h, e, h.queue[0].id, outcome);
    assert AfterEffects(h, h.queue[0].id, outcome) == [PillRemoved, PillScheduled(h.queue[0].id, h.stopDelay)];
    AppendedSlices(h.log, effects, 2);
  }

  /** When the failure handler throws, the transaction still releases the
      wake lock and recycles its envelope, but schedules no pill: the effects
      it adds end with the release (with a wake lock) or with the failure
      report (without one), and the handler's thread has ended with no pill
      pending. */
  lemma RethrowSkipsPill(h: Handler, p: Pool, outcome: Outcome)
    requires Valid(p) && QueuedFilled(h, p) && h.queue != [] && !h.crashed
    requires outcome.Threw? && outcome.rethrown
    ensures var (h', p') := HandleNext(h, p, outcome);
      var e := p.heap[h.queue[0].envelope];
      && h'.crashed && h'.pill.None? && |h'.log| > |h.log|
      && h'.log[|h'.log| - 1] ==
           (if h.wakeLock then WakeLockReleased
            else FailureReported(e.handler.value, e.impl.value, e.message.value.id, e.message.value.template))
      && (forall k :: |h.log| <= k < |h'.log| ==> !h'.log[k].PillScheduled? && h'.log[k] != PillRemoved)
      && h.queue[0].envelope in p'.heap && p'.heap[h.queue[0].envelope].message.None?
  {
    var e := p.heap[h.queue[0].envelope];
    RethrowEffects(h, e, h.queue[0].id, outcome);
  }

  /** The effects of a transaction whose failure handler threw: they end with
      the release (with a wake lock) or the failure report, and hold no pill
      effect. */
  lemma RethrowEffects(h: Handler, e: Envelope, id: int, outcome: Outcome)
    requires e.message.Some? && e.impl.Some? && e.handler.Some?
    requires Escapes(outcome)
    ensures var added := TransactionEffects(h, e, id, outcome);
      && |added| >= 1
      && added[|added| - 1] ==
           (if h.wakeLock then WakeLockReleased
            else FailureReported(e.handler.value, e.impl.value, e.message.value.id, e.message.value.template))
      && forall k :: 0 <= k < |added| ==> !added[k].PillScheduled? && added[k] != PillRemoved
  {
    var run := InvokeOrReport(e.handler.value, e.impl.value, e.message.value, outcome);
    assert AfterEffects(h, id, outcome) == [];
    var added := WakeLockEffect(h, WakeLockAcquired) + run.log + WakeLockEffect(h, WakeLockReleased);
    assert TransactionEffects(h, e, id, outcome) == added;
    assert forall k :: 0 <= k < |run.log| ==> !run.log[k].PillScheduled? && run.log[k] != PillRemoved;
  }

  /** Once its thread has ended, the handler still accepts transactions while
      its counter is not the sentinel and its looper has not quit, but never
      dispatches them. */
  lemma CrashedSwallowsSends(h: Handler, p: Pool, envelope: Ref, outcome: Outcome)
    requires h.crashed && !h.quit && h.lastId != STOPPED && Valid(p)
    ensures var (h', posted) := SendTransaction(h, envelope);
      && posted && h'.queue == h.queue + [Queued(h'.lastId, envelope)]
      && (QueuedFilled(h', p) ==> HandleNext(h', p, outcome) == (h', p))
  {
  }

  /** A log extended by the effects of one transaction. */
  lemma LogStep(before: seq<Effect>, after: seq<Effect>, h: Handler, e: Envelope, id: int, outcome: Outcome)
    requires e.message.Some? && e.impl.Some? && e.handler.Some?
    requires after == before + TransactionEffects(h, e, id, outcome)
    ensures TransactionLogged(before, after, h, e, id, outcome)
  {
    AppendedSlices(before, TransactionEffects(h, e, id, outcome), 0);
    TransactionHoldsLock(h, e, id, outcome);
  }

  /** Slicing a log extended by `added` gives back what was added, and its
      last `k` effects are the last `k` of `added`. */
  lemma AppendedSlices(before: seq<Effect>, added: seq<Effect>, k: nat)
    requires k <= |added|
    ensures (before + added)[..|before|] == before
    ensures (before + added)[|before|..] == added
    ensures (before + added)[|before + added| - k..] == added[|added| - k..]
  {
    var after := before + added;
    assert after[..|before|] == before;
    assert after[|before|..] == added;
    assert after[|after| - k..] == added[|added| - k..];
  }

  /** `handleMessage(MSG_POISON_PILL)`: the pending pill fires. If no
      transaction was sent since the one that scheduled it, the counter becomes
      the sentinel and the handler asks for its worker to stop (the dedicated
      handler stops its thread, the service handler calls `stopSelf`). */
  function FirePill(h: Handler): (h': Handler)
    ensures h'.pill.None? && h'.queue == h.queue && h'.quit == h.quit
    ensures h.pill.None? || h.pill.value != h.lastId ==> h'.lastId == h.lastId && h'.log == h.log
    ensures h.pill.Some? && h.pill.value == h.lastId ==>
      && h'.lastId == STOPPED
      && h'.log == h.log + [if h.kind.DedicatedThread? then ThreadStopRequested else ServiceStopSelf]
  {
    match h.pill
    case None => h
    case Some(id) =>
      if h.lastId == id then
        h.(pill := None, lastId := STOPPED,
           log := h.log + [if h.kind.DedicatedThread? then ThreadStopRequested else ServiceStopSelf])
      else h.(pill := None)
  }

  /** `Looper.quit()`: pending messages, the pill among them, are dropped and
      every later `sendMessage` fails. */
  function Quit(h: Handler): (h': Handler)
    ensures h'.quit && h'.queue == [] && h'.pill.None? && h'.lastId == h.lastId
  {
    h.(quit := true, queue := [], pill := None)
  }

  /** The invariant of a handler whose ids have not wrapped: queued ids are
      positive, strictly increasing and issued already; the pending pill
      carries an id older than every queued one; and a stopped or quit handler
      has nothing queued and no pill pending. */
  predicate Inv(h: Handler)
  {
    && (h.lastId == STOPPED || 0 <= h.lastId)
    && (forall i, j :: 0 <= i < j < |h.queue| ==> h.queue[i].id < h.queue[j].id)
    && (forall i :: 0 <= i < |h.queue| ==> 0 < h.queue[i].id <= h.lastId)
    && (h.pill.Some? ==> 0 <= h.pill.value <= h.lastId)
    && (h.pill.Some? ==> forall i :: 0 <= i < |h.queue| ==> h.pill.value < h.queue[i].id)
    && (h.quit ==> h.queue == [] && h.pill.None?)
    && (h.crashed ==> h.pill.None?)
  }

  lemma NewHandlerInv(kind: Kind, stopDelay: int, wakeLock: bool)
    ensures Inv(NewHandler(kind, stopDelay, wakeLock))
  {
  }

  lemma SendPreservesInv(h: Handler, envelope: Ref)
    requires Inv(h) && h.lastId < INT_MAX
    ensures Inv(SendTransaction(h, envelope).0)
  {
  }

  lemma HandleNextPreservesInv(h: Handler, p: Pool, outcome: Outcome)
    requires Inv(h) && Valid(p) && QueuedFilled(h, p)
    ensures Inv(HandleNext(h, p, outcome).0)
  {
    if h.queue != [] && !h.crashed {
      var h' := HandleNext(h, p, outcome).0;
      assert h'.queue == h.queue[1..] && h'.lastId == h.lastId && h'.quit == h.quit;
    }
  }

  lemma FirePillPreservesInv(h: Handler)
    requires Inv(h)
    ensures Inv(FirePill(h))
  {
  }

  /** No transaction is lost to the idle stop: when the pill stops the handler,
      nothing is left in its queue, and from then on every send is refused. */
  lemma StopLosesNothing(h: Handler, envelope: Ref)
    requires Inv(h) && h.pill.Some? && h.pill.value == h.lastId
    ensures FirePill(h).lastId == STOPPED && FirePill(h).queue == []
    ensures SendTransaction(FirePill(h), envelope) == (FirePill(h), false)
  {
    HeadAfterPill(h);
  }

  /** A stopped handler has nothing queued. */
  lemma StoppedIsIdle(h: Handler)
    requires Inv(h) && h.lastId == STOPPED
    ensures h.queue == []
  {
    HeadIssued(h);
  }

  lemma HeadIssued(h: Handler)
    requires Inv(h)
    ensures h.queue != [] ==> 0 < h.queue[0].id <= h.lastId
  {
  }

  lemma HeadAfterPill(h: Handler)
    requires Inv(h) && h.pill.Some?
    ensures h.queue != [] ==> h.pill.value < h.queue[0].id <= h.lastId
  {
  }

  /** A pill scheduled before a later send is stale: it does not stop the
      handler, and the later transaction is still accepted. */
  lemma StalePillKeepsRunning(h: Handler, p: Pool, outcome: Outcome, envelope: Ref)
    requires Inv(h) && Valid(p) && QueuedFilled(h, p) && h.queue != [] && SchedulesPill(h)
    requires h.lastId < INT_MAX
    ensures var h1 := HandleNext(h, p, outcome).0;
      var h2 := SendTransaction(h1, envelope).0;
      && SendTransaction(h1, envelope).1 == !h.quit
      && FirePill(h2).lastId == h2.lastId != STOPPED
  {
    HandleNextPreservesInv(h, p, outcome);
  }

  /** Counter values after `n` accepted sends with the increment as written. */
  function IdsAfterAsWritten(n: nat): (x: int)
  {
    if n == 0 then 0 else NextIdAsWritten(IdsAfterAsWritten(n - 1))
  }

  lemma {:induction false} IdsAfterAsWrittenWraps(n: nat)
    ensures IdsAfterAsWritten(n) == Wrap32(n)
  {
    if n > 0 {
      IdsAfterAsWrittenWraps(n - 1);
      NextIdWraps(n - 1);
    }
  }

  /** The written increment of a wrapped count is the wrapped successor. */
  lemma NextIdWraps(m: nat)
    ensures NextIdAsWritten(Wrap32(m)) == Wrap32(m + 1)
  {
    WrapAdd(m, 1);
  }

  /** As written, a fresh handler that has accepted 2^32 - 2 transactions
      accepts the next one and then refuses every later transaction, although
      no poison pill fired: the increment landed on the sentinel. */
  lemma SentinelReachedAsWritten(h: Handler, e1: Ref, e2: Ref)
    requires !h.quit && h.lastId == IdsAfterAsWritten(MODULUS - 2)
    ensures SendTransactionAsWritten(h, e1).1
    ensures SendTransactionAsWritten(h, e1).0.lastId == STOPPED
    ensures !SendTransactionAsWritten(SendTransactionAsWritten(h, e1).0, e2).1
  {
    IdsAfterAsWrittenWraps(MODULUS - 2);
  }

  /** A run of sends, one per envelope, in order. */
  function SendAll(h: Handler, envelopes: seq<Ref>): Handler
    decreases |envelopes|
  {
    if envelopes == [] then h else SendAll(SendTransaction(h, envelopes[0]).0, envelopes[1..])
  }

  /** With the sentinel skipped, no run of sends stops a handler whose pill
      has not fired and whose looper runs: each envelope is queued, in order,
      behind what was queued before. */
  lemma {:induction false} SendsNeverStop(h: Handler, envelopes: seq<Ref>)
    requires !h.quit && h.lastId != STOPPED
    ensures var h' := SendAll(h, envelopes);
      && h'.lastId != STOPPED && !h'.quit
      && |h'.queue| == |h.queue| + |envelopes|
      && h'.queue[..|h.queue|] == h.queue
      && forall i :: 0 <= i < |envelopes| ==> h'.queue[|h.queue| + i].envelope == envelopes[i]
    decreases |envelopes|
  {
    if envelopes != [] {
      var (h1, posted) := SendTransaction(h, envelopes[0]);
      SendsNeverStop(h1, envelopes[1..]);
      var h' := SendAll(h1, envelopes[1..]);
      assert h'.queue[..|h1.queue|] == h1.queue;
      assert h'.queue[..|h.queue|] == h1.queue[..|h.queue|];
      forall i | 0 <= i < |envelopes|
        ensures h'.queue[|h.queue| + i].envelope == envelopes[i]
      {
        if i == 0 {
          assert h'.queue[|h.queue|] == h1.queue[|h.queue|];
        } else {
          assert envelopes[1..][i - 1] == envelopes[i];
        }
      }
    }
  }
}
