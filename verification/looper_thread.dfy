/** LooperActorThread: every message is posted to a caller-supplied looper,
    which later hands it back to `handleMessage` on its own thread, in FIFO
    order. */
module LooperThread {
  import opened Runtime

  /** A LooperMessageSender bound to one implementation, with the messages it
      has posted and the looper has not yet dispatched, and whether an
      exception escaped `handleMessage` and ended the looper's thread. */
  datatype LooperSender = LooperSender(impl: Ref, failureHandler: Ref, queue: seq<Message>, crashed: bool, log: seq<Effect>)

  /** `deliver(message)`: post it; nothing runs on the caller's thread. */
  function Deliver(l: LooperSender, message: Message): (l': LooperSender)
    ensures l'.queue == l.queue + [message]
    ensures l'.log == l.log && l'.crashed == l.crashed
    ensures l'.impl == l.impl && l'.failureHandler == l.failureHandler
  {
    l.(queue := l.queue + [message])
  }

  function DeliverAll(l: LooperSender, messages: seq<Message>): (l': LooperSender)
    ensures l'.queue == l.queue + messages && l'.log == l.log && l'.crashed == l.crashed
    ensures l'.impl == l.impl && l'.failureHandler == l.failureHandler
    decreases |messages|
  {
    if messages == [] then l
    else
      var l1 := DeliverAll(Deliver(l, messages[0]), messages[1..]);
      assert l.queue + [messages[0]] + messages[1..] == l.queue + messages;
      l1
  }

  /** `handleMessage`: the looper dispatches the oldest posted message, which
      is invoked on the bound implementation; a throwable is attached to the
      message's template and reported to the failure handler. If the failure
      handler throws, its exception leaves `handleMessage` and ends the
      looper's thread; a thread that has ended dispatches nothing more. */
  function HandleMessage(l: LooperSender, outcome: Outcome): (l': LooperSender)
    ensures l.queue == [] || l.crashed ==> l' == l
    ensures l.queue != [] && !l.crashed ==>
      && l'.queue == l.queue[1..]
      && l'.log == l.log + InvokeOrReport(l.failureHandler, l.impl, l.queue[0], outcome).log
      && (l'.crashed <==> outcome.Threw? && outcome.rethrown)
    ensures l'.impl == l.impl && l'.failureHandler == l.failureHandler
  {
    if l.queue == [] || l.crashed then l
    else
      var run := InvokeOrReport(l.failureHandler, l.impl, l.queue[0], outcome);
      l.(queue := l.queue[1..], crashed := run.escaped, log := l.log + run.log)
  }

  function HandleAll(l: LooperSender, outcomes: seq<Outcome>): (l': LooperSender)
    ensures l'.impl == l.impl && l'.failureHandler == l.failureHandler
    decreases |outcomes|
  {
    if outcomes == [] then l else HandleAll(HandleMessage(l, outcomes[0]), outcomes[1..])
  }

  function Ids(messages: seq<Message>): (ids: seq<Ref>)
    ensures |ids| == |messages|
  {
    if messages == [] then [] else [messages[0].id] + Ids(messages[1..])
  }

  /** How many of a run of dispatches happen: all of them, or those up to
      and including the first whose failure handler throws. */
  function Dispatched(outcomes: seq<Outcome>): (n: nat)
    ensures n <= |outcomes|
  {
    if outcomes == [] then 0
    else if Escapes(outcomes[0]) then 1
    else 1 + Dispatched(outcomes[1..])
  }

  /** The failures reported by the dispatches that happen. */
  function Failures(outcomes: seq<Outcome>): nat
  {
    if outcomes == [] then 0
    else (if outcomes[0].Threw? then 1 else 0) + (if Escapes(outcomes[0]) then 0 else Failures(outcomes[1..]))
  }

  /** One dispatch records one invocation, of the oldest posted message,
      and one report exactly when it throws. */
  lemma HandleMessageLogs(l: LooperSender, outcome: Outcome)
    requires l.queue != [] && !l.crashed
    ensures var l' := HandleMessage(l, outcome);
      && Invocations(l'.log) == Invocations(l.log) + [l.queue[0].id]
      && Reports(l'.log) == Reports(l.log) + (if outcome.Threw? then 1 else 0)
  {
    var run := InvokeOrReport(l.failureHandler, l.impl, l.queue[0], outcome).log;
    InvocationsAppend(l.log, run);
    ReportsAppend(l.log, run);
  }

  /** A looper whose thread has ended stays as it is. */
  lemma {:induction false} CrashedStays(l: LooperSender, outcomes: seq<Outcome>)
    requires l.crashed
    ensures HandleAll(l, outcomes) == l
    decreases |outcomes|
  {
    if outcomes != [] {
      CrashedStays(HandleMessage(l, outcomes[0]), outcomes[1..]);
    }
  }

  /** Whether some dispatch of a run has a failure handler that throws. */
  predicate AnyEscapes(outcomes: seq<Outcome>)
  {
    exists i :: 0 <= i < |outcomes| && Escapes(outcomes[i])
  }

  /** Posted messages are invoked one per dispatch, oldest first, and each
      throwing invocation is reported exactly once, until a failure handler
      throws: that dispatch is the last, the looper's thread ends, and the
      remaining messages stay queued. */
  lemma {:induction false} HandleAllInOrder(l: LooperSender, outcomes: seq<Outcome>)
    requires |outcomes| <= |l.queue| && !l.crashed
    ensures var l' := HandleAll(l, outcomes);
      var n := Dispatched(outcomes);
      && l'.queue == l.queue[n..]
      && Invocations(l'.log) == Invocations(l.log) + Ids(l.queue[..n])
      && Reports(l'.log) == Reports(l.log) + Failures(outcomes)
      && (l'.crashed <==> AnyEscapes(outcomes))
    decreases |outcomes|
  {
    if outcomes != [] {
      var l1 := HandleMessage(l, outcomes[0]);
      HandleMessageLogs(l, outcomes[0]);
      assert HandleAll(l, outcomes) == HandleAll(l1, outcomes[1..]);
      if Escapes(outcomes[0]) {
        CrashedStays(l1, outcomes[1..]);
        IdsFront(l.queue, 1);
      } else {
        var k := Dispatched(outcomes);
        HandleAllInOrder(l1, outcomes[1..]);
        EscapesInTail(outcomes);
        assert l1.queue[k - 1..] == l.queue[k..];
        IdsFront(l.queue, k);
        Regrouped(Invocations(l.log), l.queue[0].id, Ids(l1.queue[..k - 1]));
      }
    }
  }

  /** The ids of the oldest `k` messages are the oldest one's id followed
      by the ids of the `k - 1` after it. */
  lemma IdsFront(queue: seq<Message>, k: nat)
    requires 1 <= k <= |queue|
    ensures Ids(queue[..k]) == [queue[0].id] + Ids(queue[1..][..k - 1])
  {
    assert queue[..k][1..] == queue[1..][..k - 1];
  }

  /** Appending one id and then a run is appending the id followed by the
      run. */
  lemma Regrouped(before: seq<Ref>, id: Ref, rest: seq<Ref>)
    ensures (before + [id]) + rest == before + ([id] + rest)
  {
  }

  /** A run whose first dispatch returns has an escaping dispatch exactly
      when the rest of the run has one. */
  lemma EscapesInTail(outcomes: seq<Outcome>)
    requires outcomes != [] && !Escapes(outcomes[0])
    ensures AnyEscapes(outcomes) <==> AnyEscapes(outcomes[1..])
  {
    if AnyEscapes(outcomes) {
      var i :| 0 <= i < |outcomes| && Escapes(outcomes[i]);
      assert outcomes[1..][i - 1] == outcomes[i];
    }
    if AnyEscapes(outcomes[1..]) {
      var i :| 0 <= i < |outcomes| - 1 && Escapes(outcomes[1..][i]);
      assert outcomes[i + 1] == outcomes[1..][i];
    }
  }

  /** A looper sender that delivers a batch and then dispatches it invokes the
      batch in delivery order, up to the dispatch whose failure handler
      throws. */
  lemma DeliveredInOrder(l: LooperSender, messages: seq<Message>, outcomes: seq<Outcome>)
    requires l.queue == [] && !l.crashed && |outcomes| == |messages|
    ensures Invocations(HandleAll(DeliverAll(l, messages), outcomes).log)
      == Invocations(l.log) + Ids(messages[..Dispatched(outcomes)])
  {
    var d := DeliverAll(l, messages);
    HandleAllInOrder(d, outcomes);
    assert d.queue == messages;
  }
}
