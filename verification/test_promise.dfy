/** TestPromise: a promise for unit tests that answers on the calling thread
    and records which of its methods were called as bits of an int. */
module TestPromise {
  import opened Wrappers
  import opened Runtime
  import PI = PromiseImpl

  const ACTION_THEN_NOTHING: bv32 := 0x01
  const ACTION_THEN: bv32 := 0x02
  const ACTION_THEN_WITH_THREAD: bv32 := 0x04
  const ACTION_GET: bv32 := 0x08
  const ACTION_FORGET: bv32 := 0x10

  /** The five recorded methods and their flags. */
  datatype Action = ThenNothingCalled | ThenCalled | ThenWithThreadCalled | GetCalled | ForgetCalled

  function Flag(a: Action): (f: bv32)
  {
    match a
    case ThenNothingCalled => ACTION_THEN_NOTHING
    case ThenCalled => ACTION_THEN
    case ThenWithThreadCalled => ACTION_THEN_WITH_THREAD
    case GetCalled => ACTION_GET
    case ForgetCalled => ACTION_FORGET
  }

  datatype Test = Test(self: Ref, action: bv32, result: Option<Ref>)

  function NewTestPromise(self: Ref, result: Option<Ref>): (t: Test)
    ensures forall a :: !HasAction(t, Flag(a))
  {
    Test(self, 0, result)
  }

  /** `hasAction(action)`: every bit of `action` is set. */
  predicate HasAction(t: Test, action: bv32)
  {
    action & t.action == action
  }

  /** `mAction |= flag`: the call's own flag becomes set and every other
      flag keeps its value. */
  function Record(t: Test, a: Action): (t': Test)
    ensures t'.self == t.self && t'.result == t.result
    ensures HasAction(t', ACTION_THEN_NOTHING) <==> a == ThenNothingCalled || HasAction(t, ACTION_THEN_NOTHING)
    ensures HasAction(t', ACTION_THEN) <==> a == ThenCalled || HasAction(t, ACTION_THEN)
    ensures HasAction(t', ACTION_THEN_WITH_THREAD) <==> a == ThenWithThreadCalled || HasAction(t, ACTION_THEN_WITH_THREAD)
    ensures HasAction(t', ACTION_GET) <==> a == GetCalled || HasAction(t, ACTION_GET)
    ensures HasAction(t', ACTION_FORGET) <==> a == ForgetCalled || HasAction(t, ACTION_FORGET)
  {
    FlagOf(a);
    SetFlag(t, Flag(a));
    t.(action := t.action | Flag(a))
  }

  /** Each action has its own single-bit flag. */
  predicate IsFlag(f: bv32)
  {
    f == ACTION_THEN_NOTHING || f == ACTION_THEN || f == ACTION_THEN_WITH_THREAD || f == ACTION_GET || f == ACTION_FORGET
  }

  lemma FlagOf(a: Action)
    ensures IsFlag(Flag(a))
    ensures Flag(a) == ACTION_THEN_NOTHING <==> a == ThenNothingCalled
    ensures Flag(a) == ACTION_THEN <==> a == ThenCalled
    ensures Flag(a) == ACTION_THEN_WITH_THREAD <==> a == ThenWithThreadCalled
    ensures Flag(a) == ACTION_GET <==> a == GetCalled
    ensures Flag(a) == ACTION_FORGET <==> a == ForgetCalled
  {
  }

  /** Or-ing in one flag sets that flag and keeps each of the others. */
  lemma SetFlag(t: Test, f: bv32)
    requires IsFlag(f)
    ensures var t' := t.(action := t.action | f);
      && (HasAction(t', ACTION_THEN_NOTHING) <==> f == ACTION_THEN_NOTHING || HasAction(t, ACTION_THEN_NOTHING))
      && (HasAction(t', ACTION_THEN) <==> f == ACTION_THEN || HasAction(t, ACTION_THEN))
      && (HasAction(t', ACTION_THEN_WITH_THREAD) <==> f == ACTION_THEN_WITH_THREAD || HasAction(t, ACTION_THEN_WITH_THREAD))
      && (HasAction(t', ACTION_GET) <==> f == ACTION_GET || HasAction(t, ACTION_GET))
      && (HasAction(t', ACTION_FORGET) <==> f == ACTION_FORGET || HasAction(t, ACTION_FORGET))
  {
  }

  function ThenNothing(t: Test): (t': Test)
  {
    Record(t, ThenNothingCalled)
  }

  /** `then(listener)`: record, call the listener at once with the stored
      result, return the promise as its own handle. */
  function Then(t: Test, listener: Ref): (res: (Test, seq<PI.Event>, Ref))
  {
    (Record(t, ThenCalled), [PI.ListenerCalled(listener, t.result)], t.self)
  }

  /** `then(thread, listener)`: the same, ignoring the thread. */
  function ThenOn(t: Test, thread: Ref, listener: Ref): (res: (Test, seq<PI.Event>, Ref))
  {
    (Record(t, ThenWithThreadCalled), [PI.ListenerCalled(listener, t.result)], t.self)
  }

  function Get(t: Test): (res: (Test, Option<Ref>))
  {
    (Record(t, GetCalled), t.result)
  }

  function Forget(t: Test): (t': Test)
  {
    Record(t, ForgetCalled)
  }

  /** `testHandle()`: the promise itself. */
  function TestHandle(t: Test): Ref
  {
    t.self
  }

  function Reset(t: Test): (t': Test)
    ensures forall a :: !HasAction(t', Flag(a))
    ensures t'.result == t.result
  {
    t.(action := 0)
  }

  /** The `verify*` queries. */
  predicate VerifyThenNothing(t: Test) { HasAction(t, ACTION_THEN_NOTHING) }
  predicate VerifyThen(t: Test) { HasAction(t, ACTION_THEN) }
  predicate VerifyThenWithThread(t: Test) { HasAction(t, ACTION_THEN_WITH_THREAD) }
  predicate VerifyGet(t: Test) { HasAction(t, ACTION_GET) }
  predicate VerifyForget(t: Test) { HasAction(t, ACTION_FORGET) }

  /** Each call sets its own flag and leaves the other four as they were,
      so flags accumulate across calls; the listener is called once with
      the stored result and `get` returns it. */
  lemma EachCallSetsOwnFlag(t: Test, listener: Ref, thread: Ref)
    ensures VerifyThenNothing(ThenNothing(t))
      && (VerifyThen(ThenNothing(t)) <==> VerifyThen(t))
      && (VerifyGet(ThenNothing(t)) <==> VerifyGet(t))
    ensures var (t', events, handle) := Then(t, listener);
      && VerifyThen(t') && (VerifyThenNothing(t') <==> VerifyThenNothing(t))
      && (VerifyThenWithThread(t') <==> VerifyThenWithThread(t))
      && events == [PI.ListenerCalled(listener, t.result)] && handle == TestHandle(t)
    ensures var (t', events, handle) := ThenOn(t, thread, listener);
      && VerifyThenWithThread(t') && (VerifyThen(t') <==> VerifyThen(t))
      && events == [PI.ListenerCalled(listener, t.result)] && handle == TestHandle(t)
    ensures var (t', r) := Get(t);
      && VerifyGet(t') && (VerifyForget(t') <==> VerifyForget(t)) && r == t.result
    ensures VerifyForget(Forget(t)) && (VerifyGet(Forget(t)) <==> VerifyGet(t))
  {
  }

  /** A fresh promise answers false to every query, and so does a reset one. */
  lemma FreshAndResetAnswerFalse(self: Ref, result: Option<Ref>, t: Test)
    ensures var n := NewTestPromise(self, result);
      !VerifyThenNothing(n) && !VerifyThen(n) && !VerifyThenWithThread(n) && !VerifyGet(n) && !VerifyForget(n)
    ensures var r := Reset(t);
      !VerifyThenNothing(r) && !VerifyThen(r) && !VerifyThenWithThread(r) && !VerifyGet(r) && !VerifyForget(r)
  {
  }
}
