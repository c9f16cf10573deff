/** Vocabulary shared by the actor runtime: object identities, messages,
    invocation outcomes and the log of observable side effects. */
module Runtime {

  /** Identity of a Java object the runtime only passes around
      (an actor implementation, a failure handler, a throwable, ...). */
  type Ref = nat

  /** A message to an actor: its own identity and the identity of the
      exception template returned by `exception()`. */
  datatype Message = Message(id: Ref, template: Ref)

  /** What `message.invoke(impl)` did: returned normally or threw a
      throwable. When it threw, `rethrown` says whether the failure handler's
      `onUncaughtException` threw in turn, as the default
      CrashEarlyFailureHandler does; that exception then escapes the step. */
  datatype Outcome = Returned | Threw(throwable: Ref, rethrown: bool)

  /** Whether an exception leaves the invoke-or-report step. */
  predicate Escapes(outcome: Outcome)
  {
    outcome.Threw? && outcome.rethrown
  }

  /** The effects of one invoke-or-report step and whether an exception
      escaped it. */
  datatype Run = Run(log: seq<Effect>, escaped: bool)

  /** Observable side effects of the runtime, recorded in order. */
  datatype Effect =
    | Invoked(impl: Ref, message: Ref)
    | CauseAttached(template: Ref, cause: Ref)
    | FailureReported(handler: Ref, impl: Ref, message: Ref, failure: Ref)
    | WakeLockAcquired
    | WakeLockReleased
    | PillRemoved
    | PillScheduled(id: int, delay: int)
    | ThreadStopRequested
    | ServiceStopSelf
    | LooperQuit(worker: nat)
    | ThreadStarted(worker: nat)
    | Submitted(runnable: Ref)
    | Posted(message: Ref)
    | BinderAttached(descriptor: string)
    | BinderDetached
    | StartService
    | BindService
    | JobScheduled
    | UnbindService
    | StopService
    | JobCancelled
    | RemoteDeliver(sender: Ref, envelope: Ref)

  /** Number of failure reports in a log. */
  function Reports(log: seq<Effect>): nat
  {
    if log == [] then 0
    else (if log[0].FailureReported? then 1 else 0) + Reports(log[1..])
  }

  lemma {:induction false} ReportsAppend(a: seq<Effect>, b: seq<Effect>)
    ensures Reports(a + b) == Reports(a) + Reports(b)
  {
    if a == [] {
      assert a + b == b;
    } else {
      assert (a + b)[1..] == a[1..] + b;
      ReportsAppend(a[1..], b);
    }
  }

  /** The messages invoked, in the order the log records their invocations. */
  function Invocations(log: seq<Effect>): seq<Ref>
  {
    if log == [] then []
    else (if log[0].Invoked? then [log[0].message] else []) + Invocations(log[1..])
  }

  lemma {:induction false} InvocationsAppend(a: seq<Effect>, b: seq<Effect>)
    ensures Invocations(a + b) == Invocations(a) + Invocations(b)
  {
    if a == [] {
      assert a + b == b;
    } else {
      assert (a + b)[1..] == a[1..] + b;
      InvocationsAppend(a[1..], b);
      var head := if a[0].Invoked? then [a[0].message] else [];
      assert Invocations(a + b) == head + Invocations(a[1..] + b);
      assert Invocations(a) == head + Invocations(a[1..]);
    }
  }

  /** A log without failure reports counts zero reports. */
  lemma {:induction false} NoReports(log: seq<Effect>)
    requires forall i :: 0 <= i < |log| ==> !log[i].FailureReported?
    ensures Reports(log) == 0
  {
    if log != [] {
      NoReports(log[1..]);
    }
  }

  /** The invoke-or-report step shared by every worker kind: the message is
      invoked on the implementation; if it throws, the throwable becomes the
      cause of the message's exception template and the failure handler
      receives (impl, message, template). The step completes normally unless
      the failure handler itself throws, in which case that exception
      escapes it after the report. */
  function InvokeOrReport(handler: Ref, impl: Ref, message: Message, outcome: Outcome): (r: Run)
    ensures |r.log| >= 1 && r.log[0] == Invoked(impl, message.id)
    ensures Reports(r.log) == (if outcome.Threw? then 1 else 0)
    ensures Invocations(r.log) == [message.id]
    ensures forall i :: 0 <= i < |r.log| && r.log[i].FailureReported? ==>
              r.log[i] == FailureReported(handler, impl, message.id, message.template)
              && outcome.Threw? && i > 0 && r.log[i - 1] == CauseAttached(message.template, outcome.throwable)
    ensures r.escaped <==> outcome.Threw? && outcome.rethrown
    ensures r.escaped ==> r.log[|r.log| - 1] == FailureReported(handler, impl, message.id, message.template)
  {
    match outcome
    case Returned => Run([Invoked(impl, message.id)], false)
    case Threw(t, rethrown) =>
      var log := [Invoked(impl, message.id), CauseAttached(message.template, t),
                  FailureReported(handler, impl, message.id, message.template)];
      assert Reports(log[2..]) == 1 by {
        assert log[2..][1..] == [];
      }
      assert Reports(log[1..]) == 1 by {
        assert log[1..][1..] == log[2..];
      }
      assert Invocations(log[1..]) == [] by {
        assert log[2..][1..] == [];
        assert Invocations(log[2..]) == [];
        assert log[1..][1..] == log[2..];
      }
      Run(log, rethrown)
  }

  /** The four binding strategies differ only in the message sender they
      build: each binds the implementation and the thread's failure handler
      into a sender, hands the sender with the interface to the thread's
      proxy factory, and `ActorRef.tell()` yields the proxy the factory
      returned. The factory is a parameter: it is the generated code's
      `newProxy`, which is not part of this model. */
  datatype SenderKind = DedicatedWorker | SharedExecutor | ForeignLooper | RemoteService
  datatype Sender = Sender(kind: SenderKind, failureHandler: Ref, impl: Ref)
  datatype ActorRef = ActorRef(tell: Ref)

  /** `bind(cls, impl)` on a thread of the given kind. */
  function Bind(newProxy: (Ref, Sender) -> Ref, kind: SenderKind, failureHandler: Ref,
                actorInterface: Ref, impl: Ref): (r: ActorRef)
    ensures exists s: Sender {:trigger newProxy(actorInterface, s)} ::
      && s.kind == kind && s.impl == impl && s.failureHandler == failureHandler
      && r.tell == newProxy(actorInterface, s)
  {
    var postman := Sender(kind, failureHandler, impl);
    ActorRef(newProxy(actorInterface, postman))
  }

  /** Whatever the factory, a proxy that keeps the sender it was built
      around delivers to the bound implementation and reports to the
      thread's failure handler. */
  lemma BindSendsToImpl(newProxy: (Ref, Sender) -> Ref, senderOf: Ref -> Sender,
                        kind: SenderKind, failureHandler: Ref, actorInterface: Ref, impl: Ref)
    requires forall a: Ref, s: Sender {:trigger newProxy(a, s)} :: senderOf(newProxy(a, s)) == s
    ensures var r := Bind(newProxy, kind, failureHandler, actorInterface, impl);
      senderOf(r.tell) == Sender(kind, failureHandler, impl)
  {
  }
}
