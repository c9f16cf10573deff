/** ExecutorActorThread: every message becomes a pooled DeliverRunnable handed
    to a shared executor. The executor may run the pending runnables in any
    order, so `Run` picks one by position. */
module ExecutorThread {
  import opened Wrappers
  import opened Runtime
  import opened EnvelopePool

  /** The DeliverRunnable pool, the runnables submitted and not yet run (in
      submission order) and the effect log. */
  datatype Executor = Executor(pool: Pool, pending: seq<Ref>, log: seq<Effect>)

  /** Every pending runnable is distinct and still holds its message. */
  predicate Inv(e: Executor)
  {
    && Valid(e.pool)
    && (forall k :: 0 <= k < |e.pending| ==> Filled(e.pool, e.pending[k]))
    && (forall k, l :: 0 <= k < l < |e.pending| ==> e.pending[k] != e.pending[l])
  }

  /** `MessageSenderProxy.deliver(message)`: obtain a runnable holding the
      bound implementation, the message and the failure handler, and submit
      it to the executor. */
  function Deliver(e: Executor, impl: Ref, message: Message, failureHandler: Ref): (e': Executor)
    requires Valid(e.pool)
    ensures Valid(e'.pool)
    ensures |e'.pending| == |e.pending| + 1 && e'.pending[..|e.pending|] == e.pending
    ensures var r := e'.pending[|e.pending|];
      && InFlight(e'.pool, r)
      && e'.pool.heap[r] == Envelope(Some(message), Some(impl), Some(failureHandler), None)
      && e'.log == e.log + [Submitted(r)]
  {
    var o := Obtain(e.pool, impl, message, failureHandler);
    Executor(o.pool, e.pending + [o.envelope], e.log + [Submitted(o.envelope)])
  }

  /** `DeliverRunnable.run()` for the `k`-th pending runnable: invoke the
      message on the implementation, report a throwable to the failure
      handler, and recycle the runnable in every case, also when the failure
      handler throws and its exception leaves `run()` for the executor. */
  function Run(e: Executor, k: nat, outcome: Outcome): (e': Executor)
    requires Inv(e) && k < |e.pending|
    ensures Valid(e'.pool)
    ensures e'.pending == e.pending[..k] + e.pending[k + 1..]
    ensures var env := e.pool.heap[e.pending[k]];
      && e'.log == e.log + InvokeOrReport(env.handler.value, env.impl.value, env.message.value, outcome).log
      && Invocations(e'.log) == Invocations(e.log) + [env.message.value.id]
      && Reports(e'.log) == Reports(e.log) + (if outcome.Threw? then 1 else 0)
    ensures var r := e.pending[k];
      && r in e'.pool.heap
      && e'.pool.heap[r].message.None? && e'.pool.heap[r].impl.None? && e'.pool.heap[r].handler.None?
      && (|FreeList(e.pool)| < MAX_POOL_SIZE ==> FreeList(e'.pool) == [r] + FreeList(e.pool))
  {
    var r := e.pending[k];
    var env := e.pool.heap[r];
    var run := InvokeOrReport(env.handler.value, env.impl.value, env.message.value, outcome).log;
    InvocationsAppend(e.log, run);
    ReportsAppend(e.log, run);
    Executor(Recycle(e.pool, r), e.pending[..k] + e.pending[k + 1..], e.log + run)
  }

  lemma DeliverPreservesInv(e: Executor, impl: Ref, message: Message, failureHandler: Ref)
    requires Inv(e)
    ensures Inv(Deliver(e, impl, message, failureHandler))
  {
    var o := Obtain(e.pool, impl, message, failureHandler);
    forall k | 0 <= k < |e.pending|
      ensures Filled(o.pool, e.pending[k]) && e.pending[k] != o.envelope
    {
      ObtainKeepsFilled(e.pool, impl, message, failureHandler, e.pending[k]);
    }
  }

  lemma RunPreservesInv(e: Executor, k: nat, outcome: Outcome)
    requires Inv(e) && k < |e.pending|
    ensures Inv(Run(e, k, outcome))
  {
    var e' := Run(e, k, outcome);
    var r := e.pending[k];
    forall j | 0 <= j < |e'.pending| ensures Filled(e'.pool, e'.pending[j]) {
      var src := if j < k then j else j + 1;
      assert e'.pending[j] == e.pending[src];
      RecycleKeepsFilled(e.pool, r, e.pending[src]);
    }
    forall a, b | 0 <= a < b < |e'.pending| ensures e'.pending[a] != e'.pending[b] {
      var sa := if a < k then a else a + 1;
      var sb := if b < k then b else b + 1;
      assert e'.pending[a] == e.pending[sa] && e'.pending[b] == e.pending[sb];
    }
  }

  /** A runnable that has run is the one the next `deliver` reuses, provided
      the pool had room for it. */
  lemma RunThenDeliverReuses(e: Executor, k: nat, outcome: Outcome, impl: Ref, message: Message, failureHandler: Ref)
    requires Inv(e) && k < |e.pending| && |FreeList(e.pool)| < MAX_POOL_SIZE
    ensures var e' := Deliver(Run(e, k, outcome), impl, message, failureHandler);
      e'.pending[|e'.pending| - 1] == e.pending[k]
  {
  }
}
