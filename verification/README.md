# Android actors library, modelled in Dafny

This project models the core of the truecaller Android actors library in
Dafny and proves properties of that model. There are three parts.

**The actor runtime.** An actor is an object whose methods run on an actor
thread; calls arrive as messages in envelopes. The runtime model covers:

- the bounded free-list of envelopes (`Transaction`, `DeliverRunnable`,
  `ActorService.Transaction`), in `EnvelopePool`;
- the handler that runs transactions and stops its worker with a delayed
  poison pill (`ActorHandlerBase`, `ActorService.ActorHandler`), in
  `ActorHandler`;
- the actor threads that deliver messages: `DefaultThread`,
  `ExecutorThread`, `LooperThread`, and `ServiceActorThread` with
  `ActorService`;
- the result-delivery protocol: `PromiseImpl`, `PromiseProxy`,
  `TestPromise`, and `ActorMessages` (`MessageBase`,
  `ResultListenerProxy`, `ActorInvokeException`);
- the `ActorCallLoader` loader.

Threads, loopers and the Android platform are reduced to explicit state
and to a log of observable effects (`Runtime.Effect`). Interleavings are
sequences of calls.

**The annotation processor.** This part covers:

- the validators of `@ActorInterface` and `@ActorsPackage` elements and
  their error codes: `ActorInterfaceDescription`,
  `ActorsPackageDescription`, `GenerationError`;
- the naming of proxies and message classes: `NamesProvider`,
  `ActorInterfaceGenerated`, `ActorsProcessor`;
- the text of the generated statements, with read-back lemmas showing that
  each statement passes exactly the method's arguments in order:
  `ActorInterfaceGenerated`, `ProxyMessageGenerator`;
- the translation of type mirrors: `TypeUtils`;
- proxy-set keys: `ProxyItem`;
- the file name handling of `ActorsCodeWriter`.

The compiler's element and type model is the `JavaModel` datatype.

**FeedParser**, from the sample application, reads an Atom feed. The XML
pull parser is a sequence of events, and the date parser and `Uri`
absoluteness test are parameters.

All files are plain Dafny modules, verified together.

## Model

| member | source | states |
|---|---|---|
| Runtime.InvokeOrReport | actors-library/src/main/java/com/truecaller/androidactors/ActorHandlerBase.java:77-86 | the message is invoked exactly once, first; a failure report is produced if and only if the invocation threw, it names the handler, the implementation, the message and its exception template, and it comes right after the throwable is attached as the template's cause; an exception escapes the step exactly when the failure handler itself threw, and then the report is the step's last effect |
| Runtime.Bind | actors-library/src/main/java/com/truecaller/androidactors/DefaultActorThread.java:69-75 | `tell()` of the reference handed back is the proxy the thread's factory builds for the requested interface around a sender bound to the given implementation and the thread's failure handler, for each of the four worker kinds |
| Runtime.BindSendsToImpl | actors-library/src/main/java/com/truecaller/androidactors/DefaultActorThread.java:69-75 | for any factory whose proxies keep the sender they were built around, the bound proxy's sender is of the thread's kind and delivers to the implementation with the thread's failure handler |
| Int32.Wrap32 | actors-library/src/main/java/com/truecaller/androidactors/ActorHandlerBase.java:56 | Java's int arithmetic: the kept value is a 32-bit int congruent to the exact result modulo 2^32, and is the exact result when that fits |
| Int32.WrapAdd | actors-library/src/main/java/com/truecaller/androidactors/ActorHandlerBase.java:56 | wrapping an intermediate sum does not change the wrapped final sum |
| ActorHandler.NewHandler | actors-library/src/main/java/com/truecaller/androidactors/ActorHandlerBase.java:42-48 | a new handler starts with id counter 0, nothing queued, no pill pending and its looper running |
| ActorHandler.NewHandlerInv | actors-library/src/main/java/com/truecaller/androidactors/ActorHandlerBase.java:42-48 | a new handler satisfies the handler invariant (increasing issued ids, pill older than every queued transaction, a stopped handler idle) |
| ActorHandler.NextIdAsWritten | actors-library/src/main/java/com/truecaller/androidactors/ActorHandlerBase.java:56 | the id increment as written: one more, except that INT_MAX wraps to INT_MIN |
| ActorHandler.NextId | actors-library/src/main/java/com/truecaller/androidactors/ActorHandlerBase.java:53-56 | the corrected increment: always a 32-bit value different from the stop sentinel -1, equal to the written increment everywhere except at -2 |
| ActorHandler.SendTransaction | actors-library/src/main/java/com/truecaller/androidactors/ActorHandlerBase.java:50-60 | a transaction is posted if and only if the handler has not stopped and its looper runs; a stopped handler is left unchanged; otherwise the counter advances and the transaction joins the back of the queue with the new id; the pill, stop delay and log are untouched |
| ActorHandler.SendTransactionAsWritten | actors-library/src/main/java/com/truecaller/androidactors/ActorHandlerBase.java:50-60 | the same acceptance rule with the counter advanced by the increment as written |
| ActorHandler.SendPreservesInv | actors-library/src/main/java/com/truecaller/androidactors/ActorHandlerBase.java:50-60 | sending keeps the handler invariant while the counter is below INT_MAX |
| ActorHandler.TransactionEffects | actors-library/src/main/java/com/truecaller/androidactors/ActorHandlerBase.java:75-92 | running one transaction invokes its message and reports exactly one failure if and only if it threw; it ends with the pill rescheduling when a stop delay is set and the failure handler did not throw, and with no pill effect when it did |
| ActorHandler.TransactionHoldsLock | actors-library/src/main/java/com/truecaller/androidactors/ActorHandlerBase.java:75-86 | with a wake lock, one transaction's effects acquire it first and release it right before the pill effects (or last, when the failure handler threw), whether or not the invocation threw, and neither acquire nor release it in between; without one no wake-lock effect occurs |
| ActorHandler.Bracket | actors-library/src/main/java/com/truecaller/androidactors/ActorHandlerBase.java:75-92 | a lock-free invocation stretch between the handler's wake-lock effects and followed by its pill effects keeps its report count, ends with the pill effects and has the lock held exactly around it |
| ActorHandler.LockBracket | actors-library/src/main/java/com/truecaller/androidactors/ActorHandlerBase.java:76-86 | an invocation stretch free of wake-lock effects, between the optional acquire and release and followed by lock-free effects, has the lock held exactly around it |
| ActorHandler.HandleNext | actors-library/src/main/java/com/truecaller/androidactors/ActorHandlerBase.java:62-92 | the oldest queued transaction runs (FIFO); its effects are appended to the log; the envelope is cleared and pushed back on the pool unless the pool is full, whatever happened; when the failure handler threw, the handler's thread ends, no pill is scheduled and none stays pending, otherwise the pill is replaced by one carrying that transaction's id exactly when the handler has a stop delay; a handler whose thread has ended dispatches nothing |
| ActorHandler.HandleNextReports | actors-library/src/main/java/com/truecaller/androidactors/ActorHandlerBase.java:75-92 | handling a transaction on a live handler keeps the earlier log as a prefix and adds one failure report if it threw and none otherwise; the effects it adds end with the pill effects (removing the old pill and scheduling one with the transaction's id and the stop delay, when the handler schedules pills and the failure handler returned) and hold the wake lock exactly around the invocation, for every outcome; the handler's thread ends exactly when the failure handler threw |
| ActorHandler.LogStep | actors-library/src/main/java/com/truecaller/androidactors/ActorHandlerBase.java:75-92 | a log extended by one transaction's effects keeps the earlier log as its prefix, and the effects added carry the transaction's report count, end with the pill effects, and hold the wake lock exactly around the invocation |
| ActorHandler.HandleNextPill | actors-library/src/main/java/com/truecaller/androidactors/ActorHandlerBase.java:88-91 | when the failure handler did not throw, a handler that schedules pills leaves the pending pill carrying the handled transaction's id, and its log ends with removing the old pill and scheduling the new one with the stop delay |
| ActorHandler.RethrowSkipsPill | actors-library/src/main/java/com/truecaller/androidactors/ActorHandlerBase.java:77-91 | when the failure handler throws, the exception leaves after the `finally`: the wake lock is still released (the last effect, with a wake lock; otherwise the failure report is last) and the envelope recycled, but no pill is removed or scheduled, and the handler's thread has ended with no pill pending |
| ActorHandler.CrashedSwallowsSends | actors-library/src/main/java/com/truecaller/androidactors/ActorHandlerBase.java:50-60 | once its thread has ended, a handler whose counter is not the sentinel still accepts and queues a transaction, which is never dispatched |
| ActorHandler.HandleNextPreservesInv | actors-library/src/main/java/com/truecaller/androidactors/ActorHandlerBase.java:62-92 | handling keeps the handler invariant |
| ActorHandler.FirePill | actors-library/src/main/java/com/truecaller/androidactors/ActorHandlerBase.java:94-106 | a pill whose id is the last issued id sets the counter to the sentinel and requests the stop (the worker thread's, or the service's stopSelf); any other pill leaves counter and log alone; the pill is consumed either way |
| ActorHandler.FirePillPreservesInv | actors-library/src/main/java/com/truecaller/androidactors/ActorHandlerBase.java:94-106 | firing the pill keeps the handler invariant |
| ActorHandler.Quit | actors-library/src/main/java/com/truecaller/androidactors/DefaultActorThread.java:98-106 | quitting the looper drops the queued messages and the pending pill and leaves the counter |
| ActorHandler.StopLosesNothing | actors-library/src/main/java/com/truecaller/androidactors/ActorHandlerBase.java:94-106 | when the pill stops the handler nothing is queued, and every later send is refused without changing the handler |
| ActorHandler.StoppedIsIdle | actors-library/src/main/java/com/truecaller/androidactors/ActorHandlerBase.java:50-60 | a stopped handler has no queued transaction |
| ActorHandler.HeadIssued | actors-library/src/main/java/com/truecaller/androidactors/ActorHandlerBase.java:50-60 | the oldest queued transaction carries a positive id already issued by the counter |
| ActorHandler.HeadAfterPill | actors-library/src/main/java/com/truecaller/androidactors/ActorHandlerBase.java:88-101 | a pending pill is older than the oldest queued transaction |
| ActorHandler.StalePillKeepsRunning | actors-library/src/main/java/com/truecaller/androidactors/ActorHandlerBase.java:88-101 | a pill scheduled after a transaction does not stop the handler once another transaction has been sent |
| ActorHandler.IdsAfterAsWrittenWraps | actors-library/src/main/java/com/truecaller/androidactors/ActorHandlerBase.java:56 | as written, the counter after n accepted sends is n wrapped to 32 bits |
| ActorHandler.SentinelReachedAsWritten | actors-library/src/main/java/com/truecaller/androidactors/ActorHandlerBase.java:53-56 | as written, the send after 2^32 - 2 accepted sends sets the counter to the sentinel -1 and every later send is refused although no pill fired |
| ActorHandler.SendsNeverStop | actors-library/src/main/java/com/truecaller/androidactors/ActorHandlerBase.java:50-60 | with the corrected increment, any run of sends to a running handler whose pill has not fired queues every envelope, in order, behind the earlier queue, and leaves the handler running |
| EnvelopePool.FreeList | actors-library/src/main/java/com/truecaller/androidactors/Transaction.java:33-39 | the pooled envelopes are those reached from the top by following next-links; their count is the pool size and never exceeds MAX_POOL_SIZE (5) |
| EnvelopePool.PoolLinks | actors-library/src/main/java/com/truecaller/androidactors/Transaction.java:33-56 | the pool is a linked stack: each pooled envelope links to the next one, the last has no link, and the top is empty exactly when the pool is |
| EnvelopePool.Obtain | actors-library/src/main/java/com/truecaller/androidactors/Transaction.java:58-88 | the top pooled envelope is popped and reused, or a fresh one is allocated when the pool is empty; it carries the message, implementation and failure handler and no link; no other envelope changes |
| EnvelopePool.Recycle | actors-library/src/main/java/com/truecaller/androidactors/Transaction.java:44-56 | the three fields are cleared; the envelope becomes the new top when the pool has room and is dropped otherwise; no other envelope changes |
| EnvelopePool.ClearPool | actors-library/src/main/java/com/truecaller/androidactors/Transaction.java:68-74 | the pool becomes empty; the envelopes themselves are untouched |
| EnvelopePool.RecycleThenObtain | actors-library/src/main/java/com/truecaller/androidactors/Transaction.java:44-88 | the envelope just recycled is the next one obtained (LIFO reuse) |
| EnvelopePool.RecycleAll | actors-library/src/main/java/com/truecaller/androidactors/Transaction.java:44-56 | recycling a batch keeps the pool well formed and allocates nothing |
| EnvelopePool.RecycleAllFreeList | actors-library/src/main/java/com/truecaller/androidactors/Transaction.java:44-56 | recycling a batch pushes its envelopes in order until the pool is full: the pool becomes the reversed prefix that fit, on top of the old pool |
| EnvelopePool.ObtainAll | actors-library/src/main/java/com/truecaller/androidactors/Transaction.java:76-88 | obtaining k envelopes yields k envelopes and allocates nothing while the pool holds k |
| EnvelopePool.ObtainAllFreeList | actors-library/src/main/java/com/truecaller/androidactors/Transaction.java:76-88 | obtaining k pooled envelopes hands out the first k of the pool, top first, and leaves the rest |
| EnvelopePool.RecycleIntoEmptyLinks | actors-library/src/main/java/com/truecaller/androidactors/Transaction.java:49-55 | envelopes recycled into an empty pool link each to the one recycled before it |
| EnvelopePool.PoolCapacity | actors-library/src/main/java/com/truecaller/androidactors/Transaction.java:44-88 | after MAX_POOL_SIZE + 1 recycles into an empty pool, only the first MAX_POOL_SIZE come back (newest first), and the next obtain allocates a fresh envelope |
| EnvelopePool.FreshWhenEmpty | actors-library/src/main/java/com/truecaller/androidactors/Transaction.java:76-88 | obtaining from an empty pool allocates an envelope that did not exist before |
| EnvelopePool.ObtainKeepsFilled | actors-library/src/main/java/com/truecaller/androidactors/Transaction.java:58-88 | obtaining never hands out an envelope still in use, and leaves every envelope in use unchanged |
| EnvelopePool.RecycleKeepsFilled | actors-library/src/main/java/com/truecaller/androidactors/Transaction.java:44-56 | recycling one envelope leaves every other envelope in use unchanged |
| DefaultThread.Init | actors-library/src/main/java/com/truecaller/androidactors/DefaultActorThread.java:50-57 | a new actor thread has no handler and no worker |
| DefaultThread.TrySend | actors-library/src/main/java/com/truecaller/androidactors/DefaultActorThread.java:79-82 | offering a transaction to the current handler queues it there only if that handler accepts; a stopped handler is left unchanged; no other handler's queue changes |
| DefaultThread.SendTransaction | actors-library/src/main/java/com/truecaller/androidactors/DefaultActorThread.java:77-96 | the transaction always ends at the back of the current handler's queue: a live handler keeps it; with no handler or a stopped one a new worker is started whose handler holds only this transaction, with id 1, and the old handlers are kept as they were; the id step is the corrected one recorded under Findings |
| DefaultThread.Deliver | actors-library/src/main/java/com/truecaller/androidactors/DefaultActorThread.java:121-125 | the delivered message, implementation and failure handler are wrapped in a pooled envelope that ends at the back of the current handler's queue; the id step is the corrected one recorded under Findings |
| DefaultThread.HandleNext | actors-library/src/main/java/com/truecaller/androidactors/DefaultActorThread.java:128-138 | a worker dispatching its next transaction removes the head of its own queue, unless its thread has ended, and changes no other handler; its thread ends exactly when the failure handler throws |
| DefaultThread.FirePill | actors-library/src/main/java/com/truecaller/androidactors/DefaultActorThread.java:134-137 | a pill matching the last issued id stops that handler and marks it as stopping; any other pill stops nothing |
| DefaultThread.StopThreadAsWritten | actors-library/src/main/java/com/truecaller/androidactors/DefaultActorThread.java:98-106 | as written: the looper of the stopping handler quits and the current handler is cleared, whichever handler it is |
| DefaultThread.StopThread | actors-library/src/main/java/com/truecaller/androidactors/DefaultActorThread.java:98-106 | corrected: the looper of the stopping handler quits and the current handler is cleared only when it is the stopping one |
| DefaultThread.InitInv | actors-library/src/main/java/com/truecaller/androidactors/DefaultActorThread.java:50-57 | a new actor thread satisfies the invariant: only the current handler has queued work, every handler keeps the handler invariant, queued envelopes are distinct and in use |
| DefaultThread.SendPreservesInv | actors-library/src/main/java/com/truecaller/androidactors/DefaultActorThread.java:77-96 | sending keeps the invariant |
| DefaultThread.SendLivePreservesInv | actors-library/src/main/java/com/truecaller/androidactors/DefaultActorThread.java:79-82 | sending to a live handler keeps the invariant |
| DefaultThread.SendStartPreservesInv | actors-library/src/main/java/com/truecaller/androidactors/DefaultActorThread.java:84-95 | starting a new worker for a transaction keeps the invariant |
| DefaultThread.DeliverPreservesInv | actors-library/src/main/java/com/truecaller/androidactors/DefaultActorThread.java:121-125 | delivering keeps the invariant |
| DefaultThread.HandleNextPreservesInv | actors-library/src/main/java/com/truecaller/androidactors/DefaultActorThread.java:128-138 | dispatching keeps the invariant |
| DefaultThread.FirePillPreservesInv | actors-library/src/main/java/com/truecaller/androidactors/DefaultActorThread.java:134-137 | a firing pill keeps the invariant |
| DefaultThread.StopThreadPreservesInv | actors-library/src/main/java/com/truecaller/androidactors/DefaultActorThread.java:98-106 | the corrected stop keeps the invariant |
| DefaultThread.QueueFilledHead | actors-library/src/main/java/com/truecaller/androidactors/DefaultActorThread.java:121-125 | every queued envelope of every handler still holds its message, implementation and failure handler |
| DefaultThread.TrySendRefused | actors-library/src/main/java/com/truecaller/androidactors/DefaultActorThread.java:77-96 | a send whose current handler is missing or stopped changes nothing and is refused, so the thread goes on to start a worker |
| DefaultThread.CurrentHasWork | actors-library/src/main/java/com/truecaller/androidactors/DefaultActorThread.java:77-106 | under the invariant only the current handler can hold queued transactions |
| DefaultThread.SerialExecution | actors-library/src/main/java/com/truecaller/androidactors/DefaultActorThread.java:77-96 | under the invariant at most one handler of an actor thread has queued work, so its transactions run one at a time |
| DefaultThread.StopRaceAsWritten | actors-library/src/main/java/com/truecaller/androidactors/DefaultActorThread.java:98-106 | as written, a stop interleaved after a send that started a new worker clears that live handler, so the next send starts a third worker and two workers hold work for the same actor |
| DefaultThread.StopRaceFixed | actors-library/src/main/java/com/truecaller/androidactors/DefaultActorThread.java:98-106 | with the corrected stop the same interleaving keeps one new worker, which receives both transactions |
| ExecutorThread.Deliver | actors-library/src/main/java/com/truecaller/androidactors/ExecutorActorThread.java:68-72 | a delivered message is wrapped in a pooled runnable holding message, implementation and failure handler, appended to the pending runnables and submitted to the executor |
| ExecutorThread.Run | actors-library/src/main/java/com/truecaller/androidactors/ExecutorActorThread.java:112-124 | running a pending runnable invokes its message once, reports a failure exactly when it threw, removes it from the pending ones, clears its fields and pushes it back on the pool unless the pool is full, also when the failure handler throws |
| ExecutorThread.DeliverPreservesInv | actors-library/src/main/java/com/truecaller/androidactors/ExecutorActorThread.java:68-72 | delivering keeps every pending runnable distinct and holding its message |
| ExecutorThread.RunPreservesInv | actors-library/src/main/java/com/truecaller/androidactors/ExecutorActorThread.java:112-124 | running keeps every other pending runnable distinct and holding its message |
| ExecutorThread.RunThenDeliverReuses | actors-library/src/main/java/com/truecaller/androidactors/ExecutorActorThread.java:97-148 | the runnable that has just run is the one the next delivery reuses when the pool had room |
| LooperThread.Deliver | actors-library/src/main/java/com/truecaller/androidactors/LooperActorThread.java:64-68 | delivering only posts the message at the back of the looper's queue; nothing is invoked on the caller's thread |
| LooperThread.DeliverAll | actors-library/src/main/java/com/truecaller/androidactors/LooperActorThread.java:64-68 | delivering a batch appends it, in order, to the looper's queue and invokes nothing |
| LooperThread.HandleMessage | actors-library/src/main/java/com/truecaller/androidactors/LooperActorThread.java:70-81 | the looper dispatches the oldest posted message: it is invoked on the bound implementation and a throwable is attached to its template and reported to the failure handler; the looper's thread ends exactly when the failure handler throws, and then nothing more is dispatched |
| LooperThread.HandleMessageLogs | actors-library/src/main/java/com/truecaller/androidactors/LooperActorThread.java:70-81 | one dispatch on a live looper records exactly one invocation, of the oldest posted message, and one failure report exactly when the invocation throws |
| LooperThread.HandleAllInOrder | actors-library/src/main/java/com/truecaller/androidactors/LooperActorThread.java:64-81 | a run of dispatches consumes the oldest messages, invokes exactly them oldest first and reports one failure per throwing invocation, up to and including the first whose failure handler throws; the looper's thread has ended exactly when one did, and the rest stay queued |
| LooperThread.CrashedStays | actors-library/src/main/java/com/truecaller/androidactors/LooperActorThread.java:70-81 | a looper whose thread has ended dispatches nothing, whatever happens next |
| LooperThread.DeliveredInOrder | actors-library/src/main/java/com/truecaller/androidactors/LooperActorThread.java:64-81 | a batch delivered to an idle looper and then dispatched is invoked in delivery order, up to the dispatch whose failure handler throws |
| ActorService.NewService | actors-library/src/main/java/com/truecaller/androidactors/ActorService.java:102-107 | a constructed service has no binder, no handler and no effects yet |
| ActorService.DefaultService | actors-library/src/main/java/com/truecaller/androidactors/ActorService.java:79-81 | the one-argument constructor means stop delay 0 and no wake locks |
| ActorService.OnCreate | actors-library/src/main/java/com/truecaller/androidactors/ActorService.java:114-132 | creation builds a service handler with the configured stop delay and wake-lock choice, at id 0 with nothing queued and satisfying the handler invariant, and attaches the sender under "ServiceMessageSender" |
| ActorService.OnDestroy | actors-library/src/main/java/com/truecaller/androidactors/ActorService.java:139-148 | destruction detaches the interface from the binder (keeping the binder) and quits the looper, dropping every queued transaction |
| ActorService.Deliver | actors-library/src/main/java/com/truecaller/androidactors/ActorService.java:242-244 | the service accepts a transaction if and only if its handler has not stopped and its looper runs, and then queues it behind the others; the id step is the corrected one recorded under Findings |
| ActorService.DeliverAsWritten | actors-library/src/main/java/com/truecaller/androidactors/ActorService.java:165-175 | the same acceptance rule with the counter advanced by the written `++mLastId` |
| ActorService.SentinelReachedAsWritten | actors-library/src/main/java/com/truecaller/androidactors/ActorService.java:165-175 | as written, after 2^32 - 2 accepted deliveries the next one is accepted and sets the counter to -1, and every later delivery is refused although no pill fired |
| ActorService.DeliveriesAccepted | actors-library/src/main/java/com/truecaller/androidactors/ActorService.java:165-175 | with the corrected step, a running service whose pill has not fired accepts every delivery of any run |
| ActorService.Post | actors-library/src/main/java/com/truecaller/androidactors/ActorService.java:292-299 | a client's message is wrapped in a pooled envelope with implementation and failure handler and, when accepted, is the last queued transaction |
| ActorService.HandleNext | actors-library/src/main/java/com/truecaller/androidactors/ActorService.java:190-207 | the service looper runs the next transaction without touching the binder |
| ActorService.FirePill | actors-library/src/main/java/com/truecaller/androidactors/ActorService.java:209-216 | the service pill fires without touching the envelope pool |
| ActorService.LocalSender | actors-library/src/main/java/com/truecaller/androidactors/ActorService.java:131 | a client finds the sender behind a binder if and only if the binder carries the "ServiceMessageSender" descriptor |
| ActorService.BinderLifecycle | actors-library/src/main/java/com/truecaller/androidactors/ActorService.java:109-148 | a created service exposes its sender; after destruction the binder remains but no sender can be found behind it, the log records attach then detach, and deliveries are refused |
| ActorService.PillAfterEveryTransaction | actors-library/src/main/java/com/truecaller/androidactors/ActorService.java:205-206 | the service handler replaces the pill, whatever its stop delay, with one carrying that transaction's id after every transaction whose failure handler did not throw |
| ActorService.RethrowSkipsPill | actors-library/src/main/java/com/truecaller/androidactors/ActorService.java:188-206 | when the failure handler throws, the service handler still releases the wake lock (last) and recycles the envelope, but removes and schedules no pill, and its thread has ended |
| ActorService.WakeLockAroundInvocation | actors-library/src/main/java/com/truecaller/androidactors/ActorService.java:190-203 | in a live service handler the wake lock is held only around the invocation: acquired first, released before the pill is rescheduled, whether or not the invocation or the failure handler threw; the transaction adds one failure report exactly when it threw |
| ActorService.OneDeliveryTwoTasks | actors-library/src/main/java/com/truecaller/androidactors/ActorService.java:165-216 | one delivery to a new service is accepted with id 1 and runs once; unless the failure handler threw, it schedules pill 1 and that pill stops the service with stopSelf; if it threw, the thread has ended with no pill pending |
| ActorService.TransactionInvocations | actors-library/src/main/java/com/truecaller/androidactors/ActorService.java:190-203 | running one transaction invokes exactly its own message |
| ServiceActorThread.NewPostman | actors-library/src/main/java/com/truecaller/androidactors/ServiceActorThread.java:108-117 | a new service sender has nothing queued, no remote sender, no restart attempt and no binding |
| ServiceActorThread.StartEffects | actors-library/src/main/java/com/truecaller/androidactors/ServiceActorThread.java:170-181 | starting the service always requests the start; the bind follows if and only if the platform allows the start; on refusal a job is scheduled if and only if the platform is Android O or later |
| ServiceActorThread.StartActorService | actors-library/src/main/java/com/truecaller/androidactors/ServiceActorThread.java:170-181 | the bound flag ends true if and only if the start is allowed and the bind accepted; queue, sender and restart flag are kept |
| ServiceActorThread.StopEffects | actors-library/src/main/java/com/truecaller/androidactors/ServiceActorThread.java:183-192 | stopping always requests the stop and never a start, and unbinds if and only if bound |
| ServiceActorThread.StopActorService | actors-library/src/main/java/com/truecaller/androidactors/ServiceActorThread.java:183-192 | stopping forgets the remote sender and keeps queue, bound flag and restart flag |
| ServiceActorThread.Deliver | actors-library/src/main/java/com/truecaller/androidactors/ServiceActorThread.java:119-141 | a delivered message is wrapped in a fresh in-flight envelope with the bound implementation and failure handler, which is then dispatched |
| ServiceActorThread.Dispatch | actors-library/src/main/java/com/truecaller/androidactors/ServiceActorThread.java:122-141 | with no sender the envelope is queued and the service started; a live sender that accepts gets it directly; otherwise it is queued and the service stopped and restarted |
| ServiceActorThread.GetMessageSender | actors-library/src/main/java/com/truecaller/androidactors/ServiceActorThread.java:194-205 | a binder yields a sender if and only if it is reachable and carries the "ServiceMessageSender" descriptor |
| ServiceActorThread.DeliverEach | actors-library/src/main/java/com/truecaller/androidactors/ServiceActorThread.java:155-158 | draining delivers every queued envelope to the sender, one delivery each, in queue order |
| ServiceActorThread.Drain | actors-library/src/main/java/com/truecaller/androidactors/ServiceActorThread.java:155-158 | the polling loop records exactly the deliveries of the queue, in order |
| ServiceActorThread.OnServiceConnected | actors-library/src/main/java/com/truecaller/androidactors/ServiceActorThread.java:143-162 | an unusable binder stops the service and restarts it only if no restart was attempted yet, marking the attempt; a usable one receives the whole queue in order, becomes the sender and clears the attempt flag |
| ServiceActorThread.OnServiceDisconnected | actors-library/src/main/java/com/truecaller/androidactors/ServiceActorThread.java:164-168 | a disconnection forgets the sender and the binding and keeps the queue |
| ServiceActorThread.DeliverPreservesInv | actors-library/src/main/java/com/truecaller/androidactors/ServiceActorThread.java:119-141 | delivering keeps the queue empty while a sender is connected |
| ServiceActorThread.OnServiceConnectedPreservesInv | actors-library/src/main/java/com/truecaller/androidactors/ServiceActorThread.java:143-162 | connecting keeps the queue empty while a sender is connected |
| ServiceActorThread.OnServiceDisconnectedPreservesInv | actors-library/src/main/java/com/truecaller/androidactors/ServiceActorThread.java:164-168 | disconnecting keeps the queue empty while a sender is connected |
| ServiceActorThread.TwoInvalidConnects | actors-library/src/main/java/com/truecaller/androidactors/ServiceActorThread.java:145-152 | of two unusable connections in a row only the first restarts the service; both stop it, and the queue is kept |
| ServiceActorThread.QueuedThenConnected | actors-library/src/main/java/com/truecaller/androidactors/ServiceActorThread.java:119-162 | any run of messages delivered before the connection gets pairwise distinct envelopes, and once the service connects they reach it in delivery order, each exactly once, after what was queued before, leaving the queue empty |
| ServiceActorThread.QueuedWhileUnconnected | actors-library/src/main/java/com/truecaller/androidactors/ServiceActorThread.java:119-133 | while unconnected, each delivered message gets its own filled envelope, distinct from the others and from every envelope already in flight, queued in delivery order |
| ServiceActorThread.DrainTail | actors-library/src/main/java/com/truecaller/androidactors/ServiceActorThread.java:155-158 | the last two queued envelopes are the last two delivered, in order |
| ServiceActorThread.ObtainAvoidsInFlight | actors-library/src/main/java/com/truecaller/androidactors/ServiceActorThread.java:121 | an envelope still in flight is never handed out again |
| ServiceActorThread.DisconnectThenDeliver | actors-library/src/main/java/com/truecaller/androidactors/ServiceActorThread.java:164-168 | after a disconnection the next delivery is queued and starts the service |
| PromiseImpl.Get | actors-library/src/main/java/com/truecaller/androidactors/PromiseImpl.java:52-58 | get hands out the held result and forgets it; the cleaner stays |
| PromiseImpl.Deliver | actors-library/src/main/java/com/truecaller/androidactors/PromiseImpl.java:60-65 | delivering passes result and cleaner to the container once and leaves the promise empty |
| PromiseImpl.DeliverOn | actors-library/src/main/java/com/truecaller/androidactors/PromiseImpl.java:67-74 | delivering through a thread binds the container on that thread, posts result and cleaner to it, and leaves the promise empty |
| PromiseImpl.Forget | actors-library/src/main/java/com/truecaller/androidactors/PromiseImpl.java:76-87 | forgetting cleans the result once exactly when both a result and a cleaner are held, and leaves the promise empty |
| PromiseImpl.ThenNothing | actors-library/src/main/java/com/truecaller/androidactors/PromiseImpl.java:35-38 | a wrapped promise refuses thenNothing with an AssertionError |
| PromiseImpl.Then | actors-library/src/main/java/com/truecaller/androidactors/PromiseImpl.java:40-44 | a wrapped promise refuses then(listener) with an AssertionError |
| PromiseImpl.ThenOn | actors-library/src/main/java/com/truecaller/androidactors/PromiseImpl.java:46-50 | a wrapped promise refuses then(thread, listener) with an AssertionError |
| PromiseImpl.GetTwice | actors-library/src/main/java/com/truecaller/androidactors/PromiseImpl.java:52-58 | a second get returns null |
| PromiseImpl.ForgetTwice | actors-library/src/main/java/com/truecaller/androidactors/PromiseImpl.java:76-87 | forgetting twice cleans at most once, and the second time does nothing |
| PromiseImpl.NoCleanAfterDeliver | actors-library/src/main/java/com/truecaller/androidactors/PromiseImpl.java:60-87 | after either deliver, forget never calls the cleaner: the result belongs to the container |
| PromiseProxy.NewProxy | actors-library/src/main/java/com/truecaller/androidactors/PromiseProxy.java:35-38 | a new proxy promise has neither a thread nor a listener |
| PromiseProxy.ThenNothing | actors-library/src/main/java/com/truecaller/androidactors/PromiseProxy.java:40-43 | thenNothing sends the proxy to the actor and records nothing |
| PromiseProxy.Then | actors-library/src/main/java/com/truecaller/androidactors/PromiseProxy.java:45-51 | then(listener) records the listener, sends the proxy once, and returns the proxy as the handle |
| PromiseProxy.ThenOn | actors-library/src/main/java/com/truecaller/androidactors/PromiseProxy.java:53-60 | then(thread, listener) records both, sends the proxy once, and returns the proxy as the handle |
| PromiseProxy.Get | actors-library/src/main/java/com/truecaller/androidactors/PromiseProxy.java:62-69 | get installs a blocking listener and sends the proxy once |
| PromiseProxy.DeliverResult | actors-library/src/main/java/com/truecaller/androidactors/PromiseProxy.java:85-98 | the listener is taken and cleared; if there was one it receives the result; otherwise the result is cleaned exactly when it and a cleaner are non-null |
| PromiseProxy.Dispatch | actors-library/src/main/java/com/truecaller/androidactors/PromiseProxy.java:71-83 | the recorded thread is taken and cleared; with a thread the method's promise binds the proxy on it and posts the result; without one the result is delivered at once, on the actor's thread; the method's promise ends empty |
| PromiseProxy.Forget | actors-library/src/main/java/com/truecaller/androidactors/PromiseProxy.java:100-103 | forgetting drops the listener only |
| PromiseProxy.Exception | actors-library/src/main/java/com/truecaller/androidactors/PromiseProxy.java:110-114 | the exception template is the wrapped message's |
| PromiseProxy.ToString | actors-library/src/main/java/com/truecaller/androidactors/PromiseProxy.java:116-119 | the text is the wrapped message's |
| PromiseProxy.DeliverToContainer | actors-library/src/main/java/com/truecaller/androidactors/PromiseProxy.java:121-124 | a proxy refuses deliver(container) with an AssertionError |
| PromiseProxy.DeliverOnThread | actors-library/src/main/java/com/truecaller/androidactors/PromiseProxy.java:126-129 | a proxy refuses deliver(thread, container) with an AssertionError |
| PromiseProxy.OnResult | actors-library/src/main/java/com/truecaller/androidactors/PromiseProxy.java:138-144 | the blocking listener holds whatever result arrives, null included |
| PromiseProxy.WaitAndGet | actors-library/src/main/java/com/truecaller/androidactors/PromiseProxy.java:146-160 | waiting continues exactly while nothing has arrived; then the held value is returned and the listener keeps null |
| PromiseProxy.ListenerOrCleaner | actors-library/src/main/java/com/truecaller/androidactors/PromiseProxy.java:85-98 | each delivered result reaches exactly one party: the listener when present, else the cleaner when both result and cleaner exist |
| PromiseProxy.ForgetThenDeliver | actors-library/src/main/java/com/truecaller/androidactors/PromiseProxy.java:85-103 | after forget a delivered result never reaches a listener |
| PromiseProxy.GetReturnsResult | actors-library/src/main/java/com/truecaller/androidactors/PromiseProxy.java:62-98 | get without a thread sends once, the method's result is delivered to the blocking listener, waitAndGet returns exactly that result (null included), and nothing is left to clean |
| PromiseProxy.ThenOnThreadDelivers | actors-library/src/main/java/com/truecaller/androidactors/PromiseProxy.java:53-98 | then(thread, listener) posts the result through the thread, and the posted delivery reaches the listener |
| TestPromise.NewTestPromise | actors-library/src/main/java/com/truecaller/androidactors/TestPromise.java:41-43 | a new test promise has no action flag set |
| TestPromise.Record | actors-library/src/main/java/com/truecaller/androidactors/TestPromise.java:45-76 | recording a call sets that call's flag (0x01, 0x02, 0x04, 0x08 or 0x10) and keeps the other four |
| TestPromise.Reset | actors-library/src/main/java/com/truecaller/androidactors/TestPromise.java:103-105 | reset clears every flag and keeps the result |
| TestPromise.EachCallSetsOwnFlag | actors-library/src/main/java/com/truecaller/androidactors/TestPromise.java:45-101 | each call makes its own verify query true and leaves the others as they were; both then overloads call the listener at once with the stored result and return the promise; get returns the stored result |
| TestPromise.FreshAndResetAnswerFalse | actors-library/src/main/java/com/truecaller/androidactors/TestPromise.java:41-109 | a new or reset test promise answers false to every verify query |
| ActorCallLoader.NewLoader | actors-library/src/main/java/com/truecaller/androidactors/ActorCallLoader.java:41-56 | a new loader is in state NONE with no result, handle or listener |
| ActorCallLoader.DoLoad | actors-library/src/main/java/com/truecaller/androidactors/ActorCallLoader.java:97-101 | loading enters CALLING with a new listener and the call's handle, keeping the cached result |
| ActorCallLoader.OnStartLoading | actors-library/src/main/java/com/truecaller/androidactors/ActorCallLoader.java:58-71 | starting does nothing while CALLING, redelivers the cached result when DONE, and loads when NONE |
| ActorCallLoader.OnForceLoad | actors-library/src/main/java/com/truecaller/androidactors/ActorCallLoader.java:73-81 | a forced load does nothing while CALLING and loads otherwise |
| ActorCallLoader.OnReset | actors-library/src/main/java/com/truecaller/androidactors/ActorCallLoader.java:83-95 | reset returns to NONE without listener, handle or result, forgetting a pending call and cleaning the cached result |
| ActorCallLoader.OnResult | actors-library/src/main/java/com/truecaller/androidactors/ActorCallLoader.java:108-127 | a result for a stale listener is only cleaned up; the current listener's result replaces (and cleans) the cached one, enters DONE, drops the handle and is delivered |
| ActorCallLoader.NewLoaderInv | actors-library/src/main/java/com/truecaller/androidactors/ActorCallLoader.java:41-56 | a new loader satisfies the invariant: the listener in use was issued, and every non-null result that arrived was cleaned up exactly once or is the cached result |
| ActorCallLoader.OnStartLoadingPreservesInv | actors-library/src/main/java/com/truecaller/androidactors/ActorCallLoader.java:58-71 | starting keeps the invariant |
| ActorCallLoader.OnForceLoadPreservesInv | actors-library/src/main/java/com/truecaller/androidactors/ActorCallLoader.java:73-81 | a forced load keeps the invariant |
| ActorCallLoader.OnResetPreservesInv | actors-library/src/main/java/com/truecaller/androidactors/ActorCallLoader.java:83-95 | reset keeps the invariant, so no arrived result is left uncleaned |
| ActorCallLoader.OnResultPreservesInv | actors-library/src/main/java/com/truecaller/androidactors/ActorCallLoader.java:108-127 | a result arriving keeps the invariant |
| ActorCallLoader.StaleResultNotDelivered | actors-library/src/main/java/com/truecaller/androidactors/ActorCallLoader.java:108-127 | a result reaches the loader's clients if and only if it comes from the current listener |
| ActorCallLoader.ReloadMakesOldListenerStale | actors-library/src/main/java/com/truecaller/androidactors/ActorCallLoader.java:58-127 | after a forced reload the first call's late second result is cleaned up and neither replaces the cached result nor ends CALLING |
| ActorMessages.NewInvokeException | actors-library/src/main/java/com/truecaller/androidactors/ActorInvokeException.java:30-32 | a new invoke exception keeps its call description and has no signature text yet |
| ActorMessages.SetMethodSignature | actors-library/src/main/java/com/truecaller/androidactors/ActorInvokeException.java:34-45 | the message text becomes the call description, one space, the class's simple name and the message's text, in that order; the description is kept |
| ActorMessages.SignatureOverwrites | actors-library/src/main/java/com/truecaller/androidactors/ActorInvokeException.java:34-36 | only the last signature set determines the message text |
| ActorMessages.VerifyResult | actors-library/src/main/java/com/truecaller/androidactors/MessageBase.java:30-38 | a non-null promise passes through unchanged; null fails with the "Actor methods are not allowed to return null" assertion whose cause is the message's exception template |
| ActorMessages.ValueOf | actors-library/src/main/java/com/truecaller/androidactors/ResultListenerProxy.java:61 | string concatenation renders null as "null" and any other value as its text |
| ActorMessages.ProxyOnResult | actors-library/src/main/java/com/truecaller/androidactors/ResultListenerProxy.java:30-33 | a result handed to the listener proxy becomes exactly one message, sent to the proxy's sender, carrying the result and a fresh exception template |
| ActorMessages.Invoke | actors-library/src/main/java/com/truecaller/androidactors/ResultListenerProxy.java:45-54 | invoking the message adopts the target's template when it provides one, hands the result to the target once, unchanged, and returns null |
| ActorMessages.ToString | actors-library/src/main/java/com/truecaller/androidactors/ResultListenerProxy.java:56-62 | a result that is itself a message renders as that message's text |
| ActorMessages.ToStringReadsBack | actors-library/src/main/java/com/truecaller/androidactors/ResultListenerProxy.java:56-62 | any other result renders as ".onResult(...)" around the result's text, from which the text reads back |
| ActorMessages.ResultReachesListener | actors-library/src/main/java/com/truecaller/androidactors/ResultListenerProxy.java:30-54 | a result sent through the proxy reaches the listener once, unchanged, under the template the listener provides or else the fresh one |
| ActorMessages.NullResultSignature | actors-library/src/main/java/com/truecaller/androidactors/ActorInvokeException.java:34-36 | the failure text for a listener message with a null result is the description, a space, the simple name and ".onResult(null)" |
| GenerationError.TextsDistinct | generator/src/main/java/com/truecaller/androidactors/GenerationError.java:27-36 | every code but ER0011 has a text and no two codes share one, so a printed text names its code |
| GenerationError.TextLength | generator/src/main/java/com/truecaller/androidactors/GenerationError.java:27-36 | the length of each defined text (ten different lengths) |
| GenerationError.NewError | generator/src/main/java/com/truecaller/androidactors/GenerationError.java:53-55 | the two-argument constructor builds an error (not a warning) about the given element |
| GenerationError.NewGlobalError | generator/src/main/java/com/truecaller/androidactors/GenerationError.java:57-59 | the one-argument constructor builds an error about no element |
| GenerationError.PrintReadsBack | generator/src/main/java/com/truecaller/androidactors/GenerationError.java:61-68 | printing loses nothing: the kind is ERROR exactly for errors and WARNING otherwise, the element is attached exactly when there is one, and the error reads back from its diagnostic |
| GenerationError.ConstructedErrorsPrintAsErrors | generator/src/main/java/com/truecaller/androidactors/GenerationError.java:53-68 | whatever the two constructors build prints as an ERROR, with or without its element |
| GenerationError.Codes | generator/src/main/java/com/truecaller/androidactors/GenerationError.java:42 | the codes of a list of problems, one per problem, in order |
| NamesProvider.Decimal | generator/src/main/java/com/truecaller/androidactors/NamesProviderImpl.java:40 | appending a counter writes at least one character, all decimal digits |
| NamesProvider.DecimalReadsBack | generator/src/main/java/com/truecaller/androidactors/NamesProviderImpl.java:40 | the digits written read back as the counter |
| NamesProvider.DecimalInjective | generator/src/main/java/com/truecaller/androidactors/NamesProviderImpl.java:40 | different counters are written differently |
| NamesProvider.Capitalize | generator/src/main/java/com/truecaller/androidactors/NamesProviderImpl.java:34 | capitalizing keeps the length and every character but the first, and upper-cases a lower-case ASCII first character |
| NamesProvider.CandidateInjective | generator/src/main/java/com/truecaller/androidactors/NamesProviderImpl.java:34-41 | the names tried for one method are pairwise different: "Message" with no counter, then with 1, 2, ... |
| NamesProvider.BuildMessageName | generator/src/main/java/com/truecaller/androidactors/NamesProviderImpl.java:31-46 | the name returned is the first candidate not yet used: every earlier candidate was used, this one was not, and it is added to the used names |
| NamesProvider.NamesNeverRepeat | generator/src/main/java/com/truecaller/androidactors/NamesProviderImpl.java:31-46 | two calls, for the same method or not, never return the same name |
| NamesProvider.CompareZeroIffEqual | generator/src/main/java/com/truecaller/androidactors/NamesProviderImpl.java:48-69 | the comparator answers 0 exactly for equal names, null included |
| NamesProvider.CompareAntisymmetric | generator/src/main/java/com/truecaller/androidactors/NamesProviderImpl.java:48-69 | swapping the arguments flips the sign of the comparison |
| NamesProvider.ShorterFirst | generator/src/main/java/com/truecaller/androidactors/NamesProviderImpl.java:51-56 | null comes before every name and a shorter name before a longer one |
| NamesProvider.FirstDifferenceDecides | generator/src/main/java/com/truecaller/androidactors/NamesProviderImpl.java:58-65 | for equal lengths the first differing character decides, by the difference of the two characters |
| NamesProvider.TreeSetMembership | generator/src/main/java/com/truecaller/androidactors/NamesProviderImpl.java:29 | a lookup through the comparator finds a name exactly when the name is in the set |
| ProxyItem.StringHash | generator/src/main/java/com/truecaller/androidactors/ProxyItem.java:33-36 | the interface name's hash is a 32-bit int |
| ProxyItem.StringHashIsPolynomial | generator/src/main/java/com/truecaller/androidactors/ProxyItem.java:33-36 | the stepwise wrapping hash is the polynomial sum of c * 31^k reduced to 32 bits |
| ProxyItem.HashCode | generator/src/main/java/com/truecaller/androidactors/ProxyItem.java:33-36 | an item's hash is a 32-bit int |
| ProxyItem.EqualsIsEquivalence | generator/src/main/java/com/truecaller/androidactors/ProxyItem.java:38-42 | equals is reflexive, symmetric and transitive, and false against null or a non-item |
| ProxyItem.EqualItemsHashAlike | generator/src/main/java/com/truecaller/androidactors/ProxyItem.java:33-42 | equal items hash alike, and equality ignores the proxy class |
| ProxyItem.Add | generator/src/main/java/com/truecaller/androidactors/ActorsProcessor.java:103 | adding to the set succeeds exactly when no equal item is held, and then stores the item; otherwise the set is unchanged |
| ProxyItem.AddKeepsOnePerInterface | generator/src/main/java/com/truecaller/androidactors/ActorsProcessor.java:103 | the set keeps one item per interface, and after an add the interface is held |
| TypeUtils.ToJTypes | generator/src/main/java/com/truecaller/androidactors/TypeUtils.java:96-103 | the type arguments are translated one for one |
| TypeUtils.ToJTypesPointwise | generator/src/main/java/com/truecaller/androidactors/TypeUtils.java:96-103 | each type argument is translated on its own, in order |
| TypeUtils.ToJTypeKeepsText | generator/src/main/java/com/truecaller/androidactors/TypeUtils.java:46-109 | the generated code names every type exactly as the compiler prints it: void, primitives, arrays, parameterized classes and other types |
| TypeUtils.ToJTypesKeepText | generator/src/main/java/com/truecaller/androidactors/TypeUtils.java:96-103 | translated type arguments print as the compiler's arguments |
| TypeUtils.ToJTypeKinds | generator/src/main/java/com/truecaller/androidactors/TypeUtils.java:46-79 | void, primitive and array types translate to void, the same primitive and an array of the translated component, and nothing else does |
| TypeUtils.Erasure | generator/src/main/java/com/truecaller/androidactors/ActorsProcessor.java:165 | erasure keeps a class's name and drops its type arguments, and leaves other types alone |
| TypeUtils.ErasureOfDeclared | generator/src/main/java/com/truecaller/androidactors/ActorsProcessor.java:164-165 | the erased translation of a declared type is the class named by its qualified name |
| TypeUtils.IsNotNullIff | generator/src/main/java/com/truecaller/androidactors/TypeUtils.java:111-113 | a parameter counts as not null exactly when it carries the @NonNull annotation |
| TypeUtils.IsPublic | generator/src/main/java/com/truecaller/androidactors/TypeUtils.java:115-122 | an element is public exactly when PUBLIC is among its modifiers |
| ActorsProcessor.NameLoopJoins | generator/src/main/java/com/truecaller/androidactors/ActorsProcessor.java:210-226 | the name loop puts the enclosing types' simple names, outermost first, before the inner parts, joined by "_", after the package name and a dot |
| ActorsProcessor.BuildProxyNameJoins | generator/src/main/java/com/truecaller/androidactors/ActorsProcessor.java:210-226 | the proxy base name is the package, a dot, and the simple names from the outermost enclosing type down to the interface, joined by "_" |
| ActorsProcessor.ProxyNameReadsBack | generator/src/main/java/com/truecaller/androidactors/ActorsProcessor.java:210-226 | when no simple name contains "_", the package and every simple name, in nesting order, read back from the proxy base name |
| ActorsProcessor.ProxyNamesCanCollide | generator/src/main/java/com/truecaller/androidactors/ActorsProcessor.java:210-226 | a top-level interface p.A_B and a nested interface p.A.B get the same proxy base name "p.A_B" |
| ActorsProcessor.ErasedNameIsPromise | generator/src/main/java/com/truecaller/androidactors/ActorsProcessor.java:164-165 | the return-type check passes exactly for a class type whose erasure is named com.truecaller.androidactors.Promise |
| ActorsProcessor.MethodProblemIff | generator/src/main/java/com/truecaller/androidactors/ActorsProcessor.java:152-174 | a method passes exactly when it throws nothing and returns void or a @NonNull Promise; a failing method's diagnostic names it, and a throwing method fails on the exception rule first |
| ActorsProcessor.FirstMethodProblem | generator/src/main/java/com/truecaller/androidactors/ActorsProcessor.java:147-174 | the first method that breaks a rule, with every earlier method passing; none when all pass |
| ActorsProcessor.FirstMethodProblemAt | generator/src/main/java/com/truecaller/androidactors/ActorsProcessor.java:147-174 | a failing method with every earlier method passing is the first failing one |
| ActorsProcessor.ProxyParameters | generator/src/main/java/com/truecaller/androidactors/ActorsProcessor.java:198-204 | each proxy parameter keeps the interface parameter's name, its translated type and its @NonNull marking, one for one |
| ActorsProcessor.ProxyMethodForwards | generator/src/main/java/com/truecaller/androidactors/ActorsProcessor.java:176-204 | a proxy method keeps the interface method's name, is @NonNull and returns Promise.wrap(mMessageSender, message) exactly when it is not void (else it calls deliver), and builds its message from a new ActorMethodInvokeException followed by its parameters in order |
| ActorsProcessor.ProxyMethods | generator/src/main/java/com/truecaller/androidactors/ActorsProcessor.java:147-205 | one proxy method per interface method, in order, each sending that method's message class |
| ActorsProcessor.AppendMessage | generator/src/main/java/com/truecaller/androidactors/ActorsProcessor.java:176 | one more message class, fresh in the code model, keeps the message classes one per method, distinct and new |
| ActorsProcessor.NextMessage | generator/src/main/java/com/truecaller/androidactors/ActorsProcessor.java:176 | the message class for a method is fresh in the code model, is added to it, and is the message class the message generator defines for that method |
| ActorsProcessor.GenerateMessages | generator/src/main/java/com/truecaller/androidactors/ActorsProcessor.java:147-205 | the method loop fails exactly when some method breaks a rule, with the first such method's diagnostic; otherwise it yields one fresh, distinct message class per method |
| ActorsProcessor.GenerateProxy | generator/src/main/java/com/truecaller/androidactors/ActorsProcessor.java:126-208 | generation fails exactly at the first method breaking a rule, with its diagnostic; otherwise the proxy is named after buildProxyName plus "Proxy", implements the interface, notes whether that class already existed, and has one proxy method and one fresh, distinct message class per interface method |
| ActorsProcessor.Packages | generator/src/main/java/com/truecaller/androidactors/ActorsProcessor.java:235-238 | only package elements among those annotated @ActorsPackage are considered |
| ActorsProcessor.FindActorsPackage | generator/src/main/java/com/truecaller/androidactors/ActorsProcessor.java:228-252 | the builder package is found exactly when one package is annotated; with two or more the error "Only one package ..." names the first; with none the error "You MUST mark package ..." names no element |
| ActorsProcessor.AddAllHeld | generator/src/main/java/com/truecaller/androidactors/ActorsProcessor.java:103 | adding the proxies of a round adds exactly their interfaces' names to the set |
| ActorsProcessor.AnyAddedIff | generator/src/main/java/com/truecaller/androidactors/ActorsProcessor.java:103 | the round has a new proxy exactly when some of its interfaces was not held before |
| ActorsProcessor.AddAllStep | generator/src/main/java/com/truecaller/androidactors/ActorsProcessor.java:103 | the loop's add for one more element is a set add of that element's item, or-ed into hasNewProxy |
| ActorsProcessor.FirstProblem | generator/src/main/java/com/truecaller/androidactors/ActorsProcessor.java:84-102 | the first annotated element that is not an interface, not public, or has a failing method, for any elements whatever their enclosing elements; none when all pass |
| ActorsProcessor.FirstProblemAt | generator/src/main/java/com/truecaller/androidactors/ActorsProcessor.java:84-102 | a failing element with every earlier element passing is the first failing one |
| ActorsProcessor.MembersProblemIsFirst | generator/src/main/java/com/truecaller/androidactors/ActorsProcessor.java:147-174 | the per-member check, which passes over non-method members, reports the problem of the first failing method among the interface's methods, and none when all pass |
| ActorsProcessor.MethodsPass | generator/src/main/java/com/truecaller/androidactors/ActorsProcessor.java:84-102 | a public interface whose methods all pass has no problem |
| ActorsProcessor.MethodFailure | generator/src/main/java/com/truecaller/androidactors/ActorsProcessor.java:84-102 | a public interface with a failing method has that method's problem |
| ActorsProcessor.CheckedProxy | generator/src/main/java/com/truecaller/androidactors/ActorsProcessor.java:85-102 | one element fails exactly when it has a problem, with that problem's diagnostic (not an interface, not public, then the first failing method); otherwise its proxy is named after it, implements it, and has one proxy method and one fresh, distinct message class per interface method; only public interfaces need a package-rooted nesting, every other element is diagnosed whatever its enclosing elements |
| ActorsProcessor.GenerateAll | generator/src/main/java/com/truecaller/androidactors/ActorsProcessor.java:84-104 | the element loop stops at the first element with a problem and reports that problem; otherwise every element gets its proxy, in order; only public interfaces need a package-rooted nesting, every other element is diagnosed whatever its enclosing elements |
| ActorsProcessor.AddProxies | generator/src/main/java/com/truecaller/androidactors/ActorsProcessor.java:103 | the adds of the loop leave the set with every generated proxy added in order, and hasNewProxy tells whether some add was new |
| ActorsProcessor.Process | generator/src/main/java/com/truecaller/androidactors/ActorsProcessor.java:70-124 | an empty round succeeds and writes nothing; at the first bad element the round fails with that element's diagnostic, keeping the proxies added before it; otherwise every proxy is added, the builder is asked for the single @ActorsPackage package only when the round brought a new interface, and the round succeeds and writes the model exactly when the builder (if asked) and the writing succeed; only public interfaces need a package-rooted nesting, every other element is diagnosed whatever its enclosing elements |
| ProxyMessageGenerator.ClassNameInjective | generator/src/main/java/com/truecaller/androidactors/ProxyMessageGenerator.java:62-68 | the class names tried for one method are pairwise different: no counter first, then 1, 2, ... |
| ProxyMessageGenerator.DefineClass | generator/src/main/java/com/truecaller/androidactors/ProxyMessageGenerator.java:58-75 | the class defined is the first candidate name not yet in the code model: every earlier candidate existed, this one did not, and it is added |
| ProxyMessageGenerator.GenerateConstructors | generator/src/main/java/com/truecaller/androidactors/ProxyMessageGenerator.java:93-107 | one final field per parameter with its translated type, in order; the constructor takes the exception first, under a name no parameter has, passes it to super, then takes and assigns each parameter in order; it is the written constructor when no parameter is named `exception`, and its parameters are distinct whenever the method's are (the correction recorded under Findings) |
| ProxyMessageGenerator.ConstructorClashAsWritten | generator/src/main/java/com/truecaller/androidactors/ProxyMessageGenerator.java:93-107 | as written, for a method with distinct parameter names the constructor's parameters are distinct if and only if no parameter is named `exception` |
| ProxyMessageGenerator.ConstructorNamesDistinct | generator/src/main/java/com/truecaller/androidactors/ProxyMessageGenerator.java:93-107 | an exception parameter named apart from distinct method parameters leaves the constructor's parameters distinct |
| ProxyMessageGenerator.ExceptionName | generator/src/main/java/com/truecaller/androidactors/ProxyMessageGenerator.java:96 | the corrected exception parameter name is no parameter's name, starts with `exception`, and is `exception` itself when no parameter has that name |
| ProxyMessageGenerator.ParameterNames | generator/src/main/java/com/truecaller/androidactors/ProxyMessageGenerator.java:126-128 | the names of the parameters, one for one, in order |
| ProxyMessageGenerator.InvokeClashAsWritten | generator/src/main/java/com/truecaller/androidactors/ProxyMessageGenerator.java:121-129 | as written, an argument of the generated call is the actor passed to invoke if and only if its parameter is named `target`, and the field of that name otherwise |
| ProxyMessageGenerator.InvokeCallsMethod | generator/src/main/java/com/truecaller/androidactors/ProxyMessageGenerator.java:109-137 | invoke calls the actor method on the target with the fields in parameter order, each written `this.name` (the correction recorded under Findings); with a result type it returns verifyResult of the call, otherwise it makes the call and returns null; its return type is Promise of the result type, or of Void |
| ProxyMessageGenerator.Texts | generator/src/main/java/com/truecaller/androidactors/ProxyMessageGenerator.java:147-155 | the texts of the named fields, one for one, in order |
| ProxyMessageGenerator.GenerateToString | generator/src/main/java/com/truecaller/androidactors/ProxyMessageGenerator.java:139-159 | the toString expression reads every field once, in parameter order, and, with each field read as `this.name` (the correction recorded under Findings), evaluates for any field values to "." + method + "(" + the values joined by ", " + ")" |
| ProxyMessageGenerator.EvalAsWrittenShadows | generator/src/main/java/com/truecaller/androidactors/ProxyMessageGenerator.java:144-156 | reading fields through bare names is reading them with every local of the same name in their place |
| ProxyMessageGenerator.ToStringClashAsWritten | generator/src/main/java/com/truecaller/androidactors/ProxyMessageGenerator.java:139-159 | as written, toString prints `.method(` wherever a parameter is named `result`, and the intended text when none is |
| ProxyMessageGenerator.ResultParameterShadowed | generator/src/main/java/com/truecaller/androidactors/ProxyMessageGenerator.java:144-149 | for `m(String result)` with the value "v", the written toString prints ".m(.m()" where ".m(v)" is meant |
| ProxyMessageGenerator.CallTextReadsBack | generator/src/main/java/com/truecaller/androidactors/ProxyMessageGenerator.java:144-158 | the values can be read back from the text between the parentheses when none contains a comma |
| ProxyMessageGenerator.ToStringReadsBack | generator/src/main/java/com/truecaller/androidactors/ProxyMessageGenerator.java:139-159 | the generated toString text, with fields read as `this.name`, starts with "." + method + "(" and gives back the field values in parameter order |
| ProxyMessageGenerator.Superclass | generator/src/main/java/com/truecaller/androidactors/ProxyMessageGenerator.java:80-86 | the superclass is MessageBase narrowed to the actor and then to the result type, or to Void without a result |
| ProxyMessageGenerator.GenerateMessage | generator/src/main/java/com/truecaller/androidactors/ProxyMessageGenerator.java:55-91 | the message class takes the first free candidate name and is added to the code model; it has the constructor, fields, toString, superclass and invoke described above for that method |
| JavaModel.FindAnnotation | generator/src/main/java/com/truecaller/androidactors/ActorInterfaceDescriptionImpl.java:255-260 | getAnnotation finds nothing exactly when no annotation has the requested type; when it finds one, that annotation has the type and is on the element |
| JavaModel.MethodsOf | generator/src/main/java/com/truecaller/androidactors/ActorInterfaceDescriptionImpl.java:61-67 | no more methods than enclosed elements |
| JavaModel.MethodsOfExactly | generator/src/main/java/com/truecaller/androidactors/ActorInterfaceDescriptionImpl.java:61-67 | the methods kept from the enclosed elements are exactly the members of kind METHOD |
| JavaModel.MethodsOfAppend | generator/src/main/java/com/truecaller/androidactors/ActorInterfaceDescriptionImpl.java:61-67 | the methods keep the order of the enclosed elements: those of one stretch of members come before those of the next |
| ActorInterfaceDescription.Forwarded | generator/src/main/java/com/truecaller/androidactors/ActorInterfaceDescriptionImpl.java:262-269 | an argument forwards at most the annotations it carries |
| ActorInterfaceDescription.ForwardedExactly | generator/src/main/java/com/truecaller/androidactors/ActorInterfaceDescriptionImpl.java:262-269 | an argument forwards exactly its annotations that are not @SecureParameter |
| ActorInterfaceDescription.NewArgument | generator/src/main/java/com/truecaller/androidactors/ActorInterfaceDescriptionImpl.java:250-270 | an argument keeps the parameter's name and type; its level is the @SecureParameter value, or LEVEL_FULL_INFO without one; no forwarded annotation is @SecureParameter |
| ActorInterfaceDescription.NewArguments | generator/src/main/java/com/truecaller/androidactors/ActorInterfaceDescriptionImpl.java:125-129 | one argument per parameter, in order |
| ActorInterfaceDescription.MethodRecord | generator/src/main/java/com/truecaller/androidactors/ActorInterfaceDescriptionImpl.java:119-137 | a method record is non-null iff the method carries @NonNull, has type parameters iff the list is non-empty, has exceptions iff it throws something, and keeps the name, return type and one argument per parameter |
| ActorInterfaceDescription.MethodRecords | generator/src/main/java/com/truecaller/androidactors/ActorInterfaceDescriptionImpl.java:61-67 | one record per method, in declaration order |
| ActorInterfaceDescription.Describe | generator/src/main/java/com/truecaller/androidactors/ActorInterfaceDescriptionImpl.java:48-68 | a non-interface gets ER0001 alone and no element; an interface keeps its element, gets ER0002 exactly when private, and records its methods |
| ActorInterfaceDescription.ArgumentErrors | generator/src/main/java/com/truecaller/androidactors/ActorInterfaceDescriptionImpl.java:202-204 | at most one problem per argument |
| ActorInterfaceDescription.Validate | generator/src/main/java/com/truecaller/androidactors/ActorInterfaceDescriptionImpl.java:71-89 | without an element the answer is false and nothing changes; otherwise every method's problems are appended and the answer is true iff no recorded problem is an error |
| ActorInterfaceDescription.DescribeProblems | generator/src/main/java/com/truecaller/androidactors/ActorInterfaceDescriptionImpl.java:92-94 | the recorded problems are appended after the caller's list, which is kept |
| ActorInterfaceDescription.ReturnCodes | generator/src/main/java/com/truecaller/androidactors/ActorInterfaceDescriptionImpl.java:178-200 | ER0005 iff the return type is neither void nor a parameterised Promise; ER0006 iff a parameterised Promise lacks @NonNull; ER0007 iff a Promise is raw; no return problem iff void or a non-null parameterised Promise |
| ActorInterfaceDescription.MethodValidIff | generator/src/main/java/com/truecaller/androidactors/ActorInterfaceDescriptionImpl.java:169-205 | a method passes validation iff it throws nothing, has no type parameters, returns void or a non-null parameterised Promise, and every argument level is within the bounds |
| ActorInterfaceDescription.PromisedType | generator/src/main/java/com/truecaller/androidactors/ActorInterfaceDescriptionImpl.java:219-229 | getPromisedType gives nothing exactly for void; it throws ClassCastException exactly for a non-void type that is not a declared type and IndexOutOfBoundsException exactly for a declared type without type arguments; otherwise it gives the first type argument, whatever the type's name |
| ActorInterfaceDescription.PromisedTypeOfAccepted | generator/src/main/java/com/truecaller/androidactors/ActorInterfaceDescriptionImpl.java:219-229 | every return type the validator accepts without ER0005 can be read; for a method that passes validation it is nothing for void and the Promise's type argument otherwise |
| ActorInterfaceDescription.PromisedTypeIgnoresName | generator/src/main/java/com/truecaller/androidactors/ActorInterfaceDescriptionImpl.java:219-229 | a `List<T>` return, which validation rejects with ER0005, still reads as T |
| ActorInterfaceDescription.ArgumentsValidIff | generator/src/main/java/com/truecaller/androidactors/ActorInterfaceDescriptionImpl.java:295-299 | the arguments pass iff every level lies between LEVEL_NO_INFO and LEVEL_FULL_INFO |
| ActorInterfaceDescription.AllErrorsAreErrors | generator/src/main/java/com/truecaller/androidactors/ActorInterfaceDescriptionImpl.java:169-205 | every problem the method checks record is an error, not a warning |
| ActorInterfaceDescription.ArgumentErrorsAreErrors | generator/src/main/java/com/truecaller/androidactors/ActorInterfaceDescriptionImpl.java:295-299 | every argument problem is an error |
| ActorInterfaceDescription.AllMethodErrorsEmpty | generator/src/main/java/com/truecaller/androidactors/ActorInterfaceDescriptionImpl.java:77-79 | the methods add no problem iff no single method does |
| ActorInterfaceDescription.InterfaceValidIff | generator/src/main/java/com/truecaller/androidactors/ActorInterfaceDescriptionImpl.java:48-89 | an annotated interface validates iff it is not private and every method passes |
| ActorInterfaceDescription.NonInterfaceRejected | generator/src/main/java/com/truecaller/androidactors/ActorInterfaceDescriptionImpl.java:48-53 | a non-interface never validates and reports exactly ER0001 |
| ActorInterfaceDescription.ValidateTwice | generator/src/main/java/com/truecaller/androidactors/ActorInterfaceDescriptionImpl.java:71-89 | validating again appends the method problems a second time and gives the same answer |
| ActorsPackageDescription.Describe | generator/src/main/java/com/truecaller/androidactors/ActorsPackageDescriptionImpl.java:35-43 | a package is kept with no problems; anything else gets ER0008 and no element; the annotation is kept either way |
| ActorsPackageDescription.DescribeProblems | generator/src/main/java/com/truecaller/androidactors/ActorsPackageDescriptionImpl.java:50-53 | the problems are appended after the caller's list, which is kept |
| ActorsPackageDescription.ValidIffPackage | generator/src/main/java/com/truecaller/androidactors/ActorsPackageDescriptionImpl.java:35-48 | a description validates iff the element is a package (iff an element is kept); otherwise the only problem is the ER0008 error about that element |
| ActorsPackageDescription.PackageReadsBack | generator/src/main/java/com/truecaller/androidactors/ActorsPackageDescriptionImpl.java:55-76 | a described package gives back its qualified name and the annotation's builder name and access level |
| ActorInterfaceGenerated.NameLoopJoins | generator/src/main/java/com/truecaller/androidactors/ActorInterfaceGeneratedImpl.java:94-107 | each turn of the extractActorName loop puts the next enclosing class or interface name in front, separated by `$`, so the loop yields the names outermost first joined by `$` |
| ActorInterfaceGenerated.TypeNamesFree | generator/src/main/java/com/truecaller/androidactors/ActorInterfaceGeneratedImpl.java:94-107 | the actor name is made only of simple names from the enclosing chain |
| ActorInterfaceGenerated.ProxyNameReadsBack | generator/src/main/java/com/truecaller/androidactors/ActorInterfaceGeneratedImpl.java:82-107 | splitting the proxy name at `$` gives back the enclosing class and interface names, outermost first, followed by `Proxy` |
| ActorInterfaceGenerated.FirstPackage | generator/src/main/java/com/truecaller/androidactors/ActorInterfaceGeneratedImpl.java:109-118 | the proxy package is the qualified name of the innermost enclosing package, or the empty string when there is none |
| ActorInterfaceGenerated.NewMessage | generator/src/main/java/com/truecaller/androidactors/ActorInterfaceGeneratedImpl.java:179-188 | a message is made exactly when the method's promised type can be read, keeping the method's name, promised type and arguments; otherwise it fails with what getPromisedType throws |
| ActorInterfaceGenerated.Messages | generator/src/main/java/com/truecaller/androidactors/ActorInterfaceGeneratedImpl.java:53-58 | the constructor succeeds exactly when every method's message can be made, keeping one message per method in order; otherwise it fails with the exception of the first method whose message cannot be made |
| ActorInterfaceGenerated.ValidatedMessages | generator/src/main/java/com/truecaller/androidactors/ActorInterfaceGeneratedImpl.java:53-58 | for methods that all pass validation the constructor succeeds, and each message has the method's name and arguments and, unless void, the Promise's type argument as its result type |
| ActorInterfaceGenerated.Names | generator/src/main/java/com/truecaller/androidactors/ActorInterfaceGeneratedImpl.java:179-188 | a message keeps its arguments' names in order |
| ActorInterfaceGenerated.ArgumentsAfterAppend | generator/src/main/java/com/truecaller/androidactors/ActorInterfaceGeneratedImpl.java:158-161 | each argument adds `, name` to the call |
| ActorInterfaceGenerated.BuildProxyCall | generator/src/main/java/com/truecaller/androidactors/ActorInterfaceGeneratedImpl.java:140-167 | the StringBuilder loop of generateMethod produces the proxy call text: deliver for void, Promise.wrap otherwise, then the new message with its arguments |
| ActorInterfaceGenerated.ProxyCallReadsBack | generator/src/main/java/com/truecaller/androidactors/ActorInterfaceGeneratedImpl.java:146-164 | the proxy call starts with its head, ends with `))`, and the text between reads back as exactly the method's argument names in order |
| ActorInterfaceGenerated.PrefixedAppend | generator/src/main/java/com/truecaller/androidactors/ActorInterfaceGeneratedImpl.java:233-239 | each further field adds `, this.name` to the invoke call |
| ActorInterfaceGenerated.BuildInvoke | generator/src/main/java/com/truecaller/androidactors/ActorInterfaceGeneratedImpl.java:219-249 | the iterator loop of createInvoke produces the target call (wrapped in verifyResult for a Promise method) and `return null` after it for a void method |
| ActorInterfaceGenerated.InvokeReadsBack | generator/src/main/java/com/truecaller/androidactors/ActorInterfaceGeneratedImpl.java:227-243 | the invoke call passes exactly the message's fields, in order, between its head and its closing parentheses |
| ActorInterfaceGenerated.LogParams | generator/src/main/java/com/truecaller/androidactors/ActorInterfaceGeneratedImpl.java:277-280 | one logParam(name,level) per argument, in order |
| ActorInterfaceGenerated.ToStringStep | generator/src/main/java/com/truecaller/androidactors/ActorInterfaceGeneratedImpl.java:265-268 | each further argument adds the `","` join and its logParam |
| ActorInterfaceGenerated.BuildToString | generator/src/main/java/com/truecaller/androidactors/ActorInterfaceGeneratedImpl.java:252-275 | the iterator loop of createToString produces the toString statement over all arguments |
| ActorInterfaceGenerated.ProxyParameters | generator/src/main/java/com/truecaller/androidactors/ActorInterfaceGeneratedImpl.java:158-159 | a proxy method parameter per argument with its name, type and forwarded annotations |
| ActorInterfaceGenerated.ProxyMethodForwardsParameters | generator/src/main/java/com/truecaller/androidactors/ActorInterfaceGeneratedImpl.java:140-167 | a proxy method has the interface method's name, is @NonNull exactly when it returns a Promise, declares the arguments with their types and annotations, and passes exactly those parameters to the message |
| ActorInterfaceGenerated.SetOfAppend | generator/src/main/java/com/truecaller/androidactors/ActorInterfaceGeneratedImpl.java:72-77 | the names used grow by each chosen name |
| ActorInterfaceGenerated.ChooseNames | generator/src/main/java/com/truecaller/androidactors/ActorInterfaceGeneratedImpl.java:72-74 | one name per message, each one of the names buildMessageName tries for that message's method, none already used and no two alike; afterwards the provider has used exactly the old names plus these |
| ActorInterfaceGenerated.Generate | generator/src/main/java/com/truecaller/androidactors/ActorInterfaceGeneratedImpl.java:60-80 | the generated file is the proxy class in the proxy package, with one message class and one proxy method per message; each message class is named with one of the names buildMessageName tries for its method, and the names are pairwise different and not used before |
| ActorsCodeWriter.DropTrailingEmpty | generator/src/main/java/com/truecaller/androidactors/ActorsCodeWriter.java:52-58 | String.split drops only the empty pieces at the end |
| ActorsCodeWriter.ExtractClassName | generator/src/main/java/com/truecaller/androidactors/ActorsCodeWriter.java:52-58 | an invalid name is rejected with the message naming it; an accepted class name has no dot |
| ActorsCodeWriter.ExtractClassNameOfFileName | generator/src/main/java/com/truecaller/androidactors/ActorsCodeWriter.java:52-58 | a file name `Name.ext` without further dots gives `Name` |
| ActorsCodeWriter.ExtractClassNameAccepts | generator/src/main/java/com/truecaller/androidactors/ActorsCodeWriter.java:52-58 | every accepted file name is the class name, a dot, a non-empty extension, and possibly trailing dots |
| ActorsCodeWriter.TrailingEmptyJoin | generator/src/main/java/com/truecaller/androidactors/ActorsCodeWriter.java:53 | two pieces followed by empty ones join to the two pieces and dots |
| ActorsCodeWriter.JoinFirstTwo | generator/src/main/java/com/truecaller/androidactors/ActorsCodeWriter.java:53 | joining at least two pieces is the first, a dot, and the rest |
| ActorsCodeWriter.Dots | generator/src/main/java/com/truecaller/androidactors/ActorsCodeWriter.java:53 | n dots |
| ActorsCodeWriter.EmptyPiecesJoin | generator/src/main/java/com/truecaller/androidactors/ActorsCodeWriter.java:53 | empty pieces join to dots only |
| ActorsCodeWriter.OpenBinary | generator/src/main/java/com/truecaller/androidactors/ActorsCodeWriter.java:37-45 | an invalid file name fails with its message; otherwise the Filer is asked for the source file named by package plus class name, and a stream is returned exactly when it creates a file object whose stream opens; a null file object fails with the "is null" message, and an IOException from creating the file or opening its stream is passed on unchanged |
| ActorsCodeWriter.OpenBinaryOfFileName | generator/src/main/java/com/truecaller/androidactors/ActorsCodeWriter.java:37-45 | a file `Name.ext` of a package opens the source file `package.Name`: its stream when the Filer creates and opens it, and otherwise the IOException of the step that failed |
| ActorsCodeWriter.OpenBinaryOfClass | generator/src/main/java/com/truecaller/androidactors/ActorsCodeWriter.java:37-45 | once the file name yields a class name, the outcome is decided by the Filer alone: the stream of the created file, the IOException of creating or opening it, or the "is null" failure |
| Text.Split | generator/src/main/java/com/truecaller/androidactors/ActorsCodeWriter.java:53 | splitting gives at least one piece and no piece holds the separator |
| Text.SplitJoins | generator/src/main/java/com/truecaller/androidactors/ActorInterfaceGeneratedImpl.java:94-107 | the pieces of a split join back to the string |
| Text.SplitFree | generator/src/main/java/com/truecaller/androidactors/ActorInterfaceGeneratedImpl.java:94-107 | a string without the separator is a single piece |
| Text.SplitPrefix | generator/src/main/java/com/truecaller/androidactors/ActorInterfaceGeneratedImpl.java:94-107 | a separator-free prefix before the separator is the first piece |
| Text.JoinSplits | generator/src/main/java/com/truecaller/androidactors/ActorInterfaceGeneratedImpl.java:94-107 | splitting undoes joining when no piece holds the separator |
| Text.Prefixed | generator/src/main/java/com/truecaller/androidactors/ActorInterfaceGeneratedImpl.java:233-239 | each piece gets the prefix in front |
| Text.JoinLongSeparator | generator/src/main/java/com/truecaller/androidactors/ActorInterfaceGeneratedImpl.java:233-239 | joining with a longer separator is joining with its first character after prefixing the rest |
| Text.JoinPrefixedHead | generator/src/main/java/com/truecaller/androidactors/ActorInterfaceGeneratedImpl.java:233-239 | a prefix on the first piece comes out in front of the join |
| Text.JoinAppend | generator/src/main/java/com/truecaller/androidactors/ActorInterfaceGeneratedImpl.java:158-161 | joining one more piece appends the separator and the piece |
| Text.Unprefixed | generator/src/main/java/com/truecaller/androidactors/ActorInterfaceGeneratedImpl.java:233-239 | one result per piece |
| Text.UnprefixedPrefixed | generator/src/main/java/com/truecaller/androidactors/ActorInterfaceGeneratedImpl.java:233-239 | removing the prefix again gives back the pieces |
| Text.ReadList | generator/src/main/java/com/truecaller/androidactors/ActorInterfaceGeneratedImpl.java:158-161 | reading a comma list gives at least one piece |
| Text.ReadListJoin | generator/src/main/java/com/truecaller/androidactors/ActorInterfaceGeneratedImpl.java:158-161 | pieces without commas are read back from their comma-space list |
| Text.CommaSpaceJoin | generator/src/main/java/com/truecaller/androidactors/ActorInterfaceGeneratedImpl.java:158-161 | a comma-space list is a comma list of space-prefixed pieces |
| Text.SpacedFree | generator/src/main/java/com/truecaller/androidactors/ActorInterfaceGeneratedImpl.java:158-161 | space-prefixed comma-free pieces stay comma-free |
| FeedParser.AttributeValue | sample-application/src/main/java/com/truecaller/actorssampleapplication/FeedParser.java:116-118 | getAttributeValue finds nothing exactly when no attribute has the name; a value it finds belongs to an attribute of that name |
| FeedParser.Next | sample-application/src/main/java/com/truecaller/actorssampleapplication/FeedParser.java:106 | next() returns the event at the position when there is one and it is well-formed, and throws the parser exception otherwise |
| FeedParser.SkipFrom | sample-application/src/main/java/com/truecaller/actorssampleapplication/FeedParser.java:176-186 | the skip loop ends strictly after where it started, within the document, or fails with the parser exception |
| FeedParser.Skip | sample-application/src/main/java/com/truecaller/actorssampleapplication/FeedParser.java:172-187 | skip throws IllegalStateException unless the current event is a start tag, and otherwise runs its loop from depth 1 |
| FeedParser.NestingCons | sample-application/src/main/java/com/truecaller/actorssampleapplication/FeedParser.java:177-185 | the depth change over a stretch is the first event's change plus the rest's |
| FeedParser.SkipFromCloses | sample-application/src/main/java/com/truecaller/actorssampleapplication/FeedParser.java:176-186 | when skip ends, it ends right after the end tag that first brings the open depth back to zero |
| FeedParser.ClosesSkipFrom | sample-application/src/main/java/com/truecaller/actorssampleapplication/FeedParser.java:176-186 | conversely, skip ends at every point where the depth first returns to zero with no broken event before it |
| FeedParser.ClosesStep | sample-application/src/main/java/com/truecaller/actorssampleapplication/FeedParser.java:176-186 | an event inside an element that does not close it leaves the rest of the element closing at the same point, with at least one element still open |
| FeedParser.EntryLoop | sample-application/src/main/java/com/truecaller/actorssampleapplication/FeedParser.java:105-163 | the readEntry loop, when it ends, ends strictly after where it started |
| FeedParser.ReadEntry | sample-application/src/main/java/com/truecaller/actorssampleapplication/FeedParser.java:93-170 | readEntry, when it returns, has consumed at least one event and stays within the document |
| FeedParser.ScanAppend | sample-application/src/main/java/com/truecaller/actorssampleapplication/FeedParser.java:105-163 | running the loop body over two stretches in turn is running it over both |
| FeedParser.EntryStepEnds | sample-application/src/main/java/com/truecaller/actorssampleapplication/FeedParser.java:132-135 | only the `entry` end tag ends the loop |
| FeedParser.EntryLoopScans | sample-application/src/main/java/com/truecaller/actorssampleapplication/FeedParser.java:105-163 | the loop stops right after the first `entry` end tag, with no broken event before it, and its locals are the fold of the loop body over the events read |
| FeedParser.EntryLoopReaches | sample-application/src/main/java/com/truecaller/actorssampleapplication/FeedParser.java:105-163 | conversely, the loop reaches the first `entry` end tag whenever no broken event precedes it |
| FeedParser.ScanKeepsLink | sample-application/src/main/java/com/truecaller/actorssampleapplication/FeedParser.java:115-124 | a kept link is always non-empty and absolute, whatever events follow |
| FeedParser.LinkProvenance | sample-application/src/main/java/com/truecaller/actorssampleapplication/FeedParser.java:115-124 | a link the locals hold after a stretch of events was held before it or is the href of a `link` tag with `rel="alternate"` in that stretch |
| FeedParser.NoneIgnoresTexts | sample-application/src/main/java/com/truecaller/actorssampleapplication/FeedParser.java:156-158 | text read after an id, title or published element has closed, and before the next opens, changes nothing |
| FeedParser.ReadEntryValid | sample-application/src/main/java/com/truecaller/actorssampleapplication/FeedParser.java:165-167 | an entry is made exactly when the id and title are non-empty and a link was kept; it is valid, carries the last parsed date, and its link is the href of an alternate link inside the entry |
| FeedParser.ScanTexts | sample-application/src/main/java/com/truecaller/actorssampleapplication/FeedParser.java:156-160 | text events in a collecting state append their text and change nothing else |
| FeedParser.OpenThenTexts | sample-application/src/main/java/com/truecaller/actorssampleapplication/FeedParser.java:109-129 | after an id, title or published start tag the buffer holds exactly the text that follows |
| FeedParser.IdIsItsText | sample-application/src/main/java/com/truecaller/actorssampleapplication/FeedParser.java:136-138 | `<id>` text `</id>` sets the id to that text, whatever came before |
| FeedParser.TitleIsItsText | sample-application/src/main/java/com/truecaller/actorssampleapplication/FeedParser.java:139-141 | `<title>` text `</title>` sets the title to that text, whatever came before |
| FeedParser.PublishedIsItsText | sample-application/src/main/java/com/truecaller/actorssampleapplication/FeedParser.java:142-152 | `<published>` text `</published>` sets the date to the parsed text when it is non-empty and parses, and keeps the old date otherwise |
| FeedParser.PublishedUntouched | sample-application/src/main/java/com/truecaller/actorssampleapplication/FeedParser.java:103 | without a published end tag the date keeps its value, so an entry without one has -1 |
| FeedParser.UnparseableUntouched | sample-application/src/main/java/com/truecaller/actorssampleapplication/FeedParser.java:145-150 | a date that never parses never changes the value |
| FeedParser.FeedLoopAppends | sample-application/src/main/java/com/truecaller/actorssampleapplication/FeedParser.java:76-91 | readFeed only appends to the result list: the entries before are kept and the new ones, and the failure, do not depend on them |
| FeedParser.SkipsOtherChild | sample-application/src/main/java/com/truecaller/actorssampleapplication/FeedParser.java:87-89 | a child other than `entry` is skipped whole and the loop goes on right after it |
| FeedParser.ReadsEntryChild | sample-application/src/main/java/com/truecaller/actorssampleapplication/FeedParser.java:82-86 | an `entry` child adds its entry, when it makes one, and the loop goes on right after its end tag |
| FeedParser.FailureKeepsEntry | sample-application/src/main/java/com/truecaller/actorssampleapplication/FeedParser.java:59-91 | a parser failure right after an `entry` element ends readFeed but keeps the entry it made, so parse returns the entries collected before the error |
| FeedParser.FeedLoopValid | sample-application/src/main/java/com/truecaller/actorssampleapplication/FeedParser.java:76-91 | every entry readFeed adds is valid, with its link taken from an alternate link of the document |
| FeedParser.NextTag | sample-application/src/main/java/com/truecaller/actorssampleapplication/FeedParser.java:65 | nextTag lands on the first start or end tag after whitespace text, or fails with the parser exception |
| FeedParser.RootNotFeed | sample-application/src/main/java/com/truecaller/actorssampleapplication/FeedParser.java:65-77 | a document whose root is not `feed` gives no entries |
| FeedParser.NextTagFinds | sample-application/src/main/java/com/truecaller/actorssampleapplication/FeedParser.java:65 | nextTag finds the first tag after whitespace text |
| FeedParser.ParseValid | sample-application/src/main/java/com/truecaller/actorssampleapplication/FeedParser.java:58-74 | every entry parse returns has a non-empty id and title and a non-empty absolute link that is the href of a `link rel="alternate"` tag of the document, whatever the input and wherever it fails |

## Left out

- Threads, locks, `volatile`, `synchronized`, `wait`/`notify` and the executor's scheduling are not modelled. Every interleaving is an explicit sequence of calls, and `PromiseProxy`'s blocking `get` returns once the result has arrived.
- Android platform calls are not modelled beyond their effects. This covers `Handler`/`Looper`/`HandlerThread`, `startService`/`bindService`/`stopService`, the job scheduler fallback, wake locks and logging. Each call is an entry in the effect log, or a flag.
- A failure handler that throws (the default `CrashEarlyFailureHandler` does) ends the handler or looper thread in the model: it is marked crashed and dispatches nothing more. The uncaught-exception machinery of the JVM and Android that then kills the process is not modelled. In `ExecutorThread.Run` the exception goes to the executor, which is not part of this model; only the recycle that precedes it is recorded.
- The unsynchronised queue access in `ServiceActorThread.deliver` is a data race. It is left out because only sequential interleavings are modelled.
- Object identities (implementations, messages, listeners, throwables) are opaque numbers. The proxy factory that `bind` consults is a parameter of `Runtime.Bind`; the generated `newProxy` is not part of this model.
- Code emission through JavaPoet and JCodeModel is represented by the names and statement texts it is given, not by the emitted Java. This covers the constructor and `equals` of the generated proxy, `ActorsPackageGenerated`, `ActorBuilderGenerator` and `ModelFactoryImpl`.
- `ActorsCodeWriter.OpenBinary`: the Filer is the parameter `createSourceFile`, a function from the requested name to a file object (with the outcome of opening its stream), null, or an IOException.
- `ActorsProcessor.Process`: the Filer and Messager are outside the model. The builder generator is the parameter `generateBuilder`, and an `IOException` from writing the code model is the parameter `writeError`.
- `ActorsProcessor.Process`: the proxies found in a round are added to the remembered set after generation rather than one by one. No step of the round reads the set in between, so the result is the same.
- `ActorsProcessor.GenerateProxy`: `JClassAlreadyExistsException` is modelled only as the `reused` flag of the proxy class. On that path Java then calls `field(..., "mMessageSender")` on the existing class, and JCodeModel throws `IllegalArgumentException` for a field name already defined; nothing catches it, so the processor fails. The model continues where Java throws and returns the proxy flagged `reused`. JCodeModel is not part of this model, and the path needs two interfaces with the same proxy name (see `ActorsProcessor.ProxyNamesCanCollide`).
- `ActorsProcessor.GenerateProxy`: ActorsProcessor.java:176 passes a boolean where `generateMessage` takes the result class (ProxyMessageGenerator.java:55-57). That call does not compile as written. The model passes the Promise's type argument, or `Object` for a raw Promise.
- `ActorsProcessor.BuildProxyName`: Java's `ClassCastException` or `NullPointerException` on an enclosing chain that does not end in a package is excluded by the `Nested` precondition. `Process`, `GenerateAll` and `CheckedProxy` ask for it only of public interfaces (`Checkable`), which the compiler nests in types and a package; any other element gets its diagnostic before `buildProxyName` is reached.
- `ActorsProcessor.ProxyNamesCanCollide`: `buildProxyName` joins enclosing names with `_`, so distinct nestings can share a proxy name. The model records this and does not correct it.
- `GenerationError.Text`: ER0011 is used for out-of-range `@SecureParameter` levels but has no message in GenerationError.java. The model gives it no text.
- `ActorInterfaceDescription.NewArgument`: SecureParameter.java is not part of this model. Its `LEVEL_NO_INFO` and `LEVEL_FULL_INFO` bounds are the parameter `levels`.
- `ActorInterfaceDescription.IsPromise`: the check compares only the simple name `Promise`, as the source does. Any type of that simple name passes.
- `ProxyItem.StringHash`: the hash runs over the Dafny string's characters, which are Unicode scalar values. Java's `String.hashCode` runs over UTF-16 code units, so a name holding a character outside the Basic Multilingual Plane hashes differently. The model does not encode strings as UTF-16.
- `ProxyMessageGenerator.GenerateConstructors`, `ProxyMessageGenerator.InvokeCallsMethod`, `ProxyMessageGenerator.GenerateToString` and `ProxyMessageGenerator.ToStringReadsBack` state the corrected generator recorded under Findings, with the exception parameter named apart and every field written `this.name`. The code as written differs only for parameters named `exception`, `target` or `result`; `ConstructorClashAsWritten`, `InvokeClashAsWritten` and `ToStringClashAsWritten` state what it does then.
- `NamesProvider.Capitalize`: only the ASCII letters `a`-`z` are upper-cased. Other characters are kept as they are.
- `NamesProvider.ShorterFirst`: lengths are counted in Dafny characters (Unicode scalar values), while NamesProviderImpl.java:51-56 compares `length()`, which counts UTF-16 code units. For "a𝒜" and "abc" Java sees two names of length 3, where the model orders "a𝒜" first because it is shorter. Strings are not encoded as UTF-16 in this model.
- `NamesProvider.FirstDifferenceDecides`: the first differing Dafny character decides, while NamesProviderImpl.java:58-65 compares UTF-16 code units with `charAt`. For "a𝒜" and "abc" Java compares the high surrogate 0xD835 with 'b' and orders "abc" first. Only the order of names with characters outside the Basic Multilingual Plane differs; `NamesProvider.TreeSetMembership` needs only that the comparison is zero exactly for equal names, which holds either way.
- `ActorInterfaceGenerated.ProxyNameReadsBack`: it assumes the enclosing types have non-empty simple names without `$`. Java allows `$` in identifiers but reserves it, by convention, for generated code; a name that contains it does not read back.
- `ActorsCodeWriter`: `close` does nothing in the source and is not modelled.
- `PromiseProxy`: `narrow()` and Java's boxing of results are not modelled. Results are opaque references.
- `FeedParser.Parse`: `XmlPullParser`, `SimpleDateFormat.parse` and `Uri.parse(..).isAbsolute()` are parameters. The document is the sequence of parser events, namespaces are off, and running out of events is the parser's exception.
- `FeedParser.ReadEntry`: the `parser.require(START_TAG, null, "entry")` check is not modelled. `readFeed` only calls it at an `entry` start tag.
- `FeedParser.PublishedStep`: `published` is an unbounded integer rather than a Java `long`, since the parsed time is a parameter.
- `FeedParser.Skip`: its `IllegalStateException` cannot be reached from `readFeed`, which calls it only at a start tag. It is modelled, but `parse` catches only the parser's exceptions.
- Not part of this model: `ActorsThreadsBase`, `ProxyFactoryBase`, `TestActorThread`, `JobSchedulerHelper`, `ResultListenerContainerMessage`, the interface declarations (`Promise`, `ActorThread`, `ActionHandle`, `Message`, `ResourceCleaner`, `ActorInterfaceDescription`) and the rest of the sample application. These are wiring, factories and UI code, and the doc comments of the interfaces are used only as contracts.

## Findings

| source | as written | input that shows it | evidently intended | confidence | as-written member | corrected member |
|---|---|---|---|---|---|---|
| actors-library/src/main/java/com/truecaller/androidactors/ActorHandlerBase.java:56 | `++mLastId` wraps in 32 bits, and the 2^32 - 1st accepted transaction sets the counter to -1, the "stopped" sentinel | a handler that has accepted 2^32 - 2 transactions accepts the next one and then refuses every later one, although no poison pill fired | the counter skips -1 (and wraps past it), so only the pill stops the handler | not executed | ActorHandler.SentinelReachedAsWritten | ActorHandler.SendsNeverStop |
| actors-library/src/main/java/com/truecaller/androidactors/ActorService.java:171 | the service handler's own `++mLastId` wraps the same way, and the 2^32 - 1st accepted delivery sets the counter to -1 | a service that has accepted 2^32 - 2 deliveries accepts the next one and then refuses every later one, although `stopSelf` was never called | the counter skips -1, so only the pill stops the service | not executed | ActorService.SentinelReachedAsWritten | ActorService.DeliveriesAccepted |
| actors-library/src/main/java/com/truecaller/androidactors/DefaultActorThread.java:98-106 | `stopThread` compares `mHandler` with the value it read from `mHandler` just before, not with the handler that is stopping, so it clears whatever handler is current | pill fires on handler H; a send starts a new handler H2; H's `stopThread` then runs and clears H2; the next send starts H3 while H2 still holds work | only the stopping handler is cleared, so one worker serves the actor | not executed | DefaultThread.StopRaceAsWritten | DefaultThread.StopRaceFixed |
| generator/src/main/java/com/truecaller/androidactors/ProxyMessageGenerator.java:96 | the constructor's exception parameter is always named `exception`, and each method parameter is added as a constructor parameter of its own name | an actor method `void m(int exception)`: the generated constructor declares two parameters named `exception` and the message class does not compile | the exception parameter takes a name no method parameter has | not executed | ProxyMessageGenerator.ConstructorClashAsWritten | ProxyMessageGenerator.GenerateConstructors |
| generator/src/main/java/com/truecaller/androidactors/ProxyMessageGenerator.java:127 | the call's arguments are the field variables, which JCodeModel prints as bare names, inside `invoke(target)` | an actor method `void m(String target)`: the generated call passes the `target` parameter of `invoke` (the actor) instead of the field | each argument is written `this.name` and denotes the field | not executed | ProxyMessageGenerator.InvokeClashAsWritten | ProxyMessageGenerator.InvokeCallsMethod |
| generator/src/main/java/com/truecaller/androidactors/ProxyMessageGenerator.java:149 | the fields added to the `String result` local are printed as bare names | an actor method `void m(String result)` called with "v": the generated toString returns ".m(.m()" instead of ".m(v)" | each field is written `this.name` and its value is printed | not executed | ProxyMessageGenerator.ResultParameterShadowed | ProxyMessageGenerator.GenerateToString |
