/**
 * The state every event shares, and the semantics of the delegates events
 * carry. `UltEventBase` itself is not part of this model; the class below
 * holds only what the modelled files read or write: the serialized list of
 * persistent calls, the parameter types, the requests made to register or
 * unregister persistent calls, and how often the dynamic calls changed.
 */
module EventBase {
  import opened Wrappers
  import opened Reflection
  import opened Strings
  import opened PersistentCalls

  /** A request to `AddPersistentCall` or `RemovePersistentCall`. */
  datatype PersistentEdit = AddPersistent(action: Action) | RemovePersistent(action: Action)

  /** One step of an invocation, in order. */
  datatype Step =
    | CacheParameter(value: Value)
    | InvokePersistentCalls
    | CallDynamic(action: Action, arguments: seq<Value>)
    | LogException(exception: Exception)

  /**
   * How the foreign code an invocation runs behaves: whether the persistent
   * calls complete, and how each dynamic delegate ends for given arguments.
   */
  datatype Runner = Runner(persistent: Status, dynamic: (Action, seq<Value>) -> Status)

  class UltEventBase {
    const parameterTypes: seq<TypeInfo>
    /** `_PersistentCalls`, None while the list has not been created. */
    var persistentCalls: Option<seq<PersistentCall?>>
    var persistentEdits: seq<PersistentEdit>
    /** How many times `OnDynamicCallsChanged` ran. */
    var dynamicChangeCount: nat

    constructor (parameterTypes: seq<TypeInfo>)
      ensures this.parameterTypes == parameterTypes
      ensures persistentCalls == None && persistentEdits == [] && dynamicChangeCount == 0
    {
      this.parameterTypes := parameterTypes;
      persistentCalls := None;
      persistentEdits := [];
      dynamicChangeCount := 0;
    }

    method AddPersistentCall(action: Action)
      modifies this
      ensures persistentEdits == old(persistentEdits) + [AddPersistent(action)]
      ensures persistentCalls == old(persistentCalls) && dynamicChangeCount == old(dynamicChangeCount)
    {
      persistentEdits := persistentEdits + [AddPersistent(action)];
    }

    method RemovePersistentCall(action: Action)
      modifies this
      ensures persistentEdits == old(persistentEdits) + [RemovePersistent(action)]
      ensures persistentCalls == old(persistentCalls) && dynamicChangeCount == old(dynamicChangeCount)
    {
      persistentEdits := persistentEdits + [RemovePersistent(action)];
    }

    method OnDynamicCallsChanged()
      modifies this
      ensures dynamicChangeCount == old(dynamicChangeCount) + 1
      ensures persistentCalls == old(persistentCalls) && persistentEdits == old(persistentEdits)
    {
      dynamicChangeCount := dynamicChangeCount + 1;
    }
  }

  /* ---------------------------------------------------- delegate lists */

  /**
   * In Edit Mode (in the editor, not playing) a delegate whose target is an
   * engine object is registered as a persistent call; any other delegate, and
   * every delegate outside Edit Mode, becomes a dynamic call.
   */
  predicate RoutesToPersistentCalls(action: Action, editMode: bool)
  {
    editMode && action.target.EngineTarget?
  }

  /**
   * The operators read the target of the delegate only in Edit Mode, so a
   * null delegate raises `NullReferenceException` there and nowhere else.
   */
  predicate ReadsNullTarget(action: Option<Action>, editMode: bool)
  {
    editMode && action.None?
  }

  /** A delegate, possibly null, that the operators register as a persistent call. */
  predicate GoesToPersistentCalls(action: Option<Action>, editMode: bool)
  {
    action.Some? && RoutesToPersistentCalls(action.value, editMode)
  }

  /** `Delegate.Combine` with a single delegate or null: null leaves the invocation list as it is. */
  function Combine(s: seq<Action>, x: Option<Action>): (r: seq<Action>)
    ensures x.None? ==> r == s
    ensures x.Some? ==> |r| == |s| + 1 && r[..|s|] == s && r[|s|] == x.value
  {
    if x.None? then s else s + [x.value]
  }

  /** `Delegate.Remove` with a single delegate or null: null leaves the invocation list as it is. */
  function Remove(s: seq<Action>, x: Option<Action>): (r: seq<Action>)
    ensures x.None? ==> r == s
    ensures x.Some? ==> r == RemoveLast(s, x.value)
  {
    if x.None? then s else RemoveLast(s, x.value)
  }

  /**
   * `Delegate.Remove` for a single delegate: the invocation list without its
   * last occurrence of `x`, or unchanged when `x` is absent.
   */
  function RemoveLast(s: seq<Action>, x: Action): (r: seq<Action>)
    ensures x !in s ==> r == s
    ensures x in s ==> |r| == |s| - 1 && multiset(r) == multiset(s) - multiset{x}
    ensures x in s ==> exists i :: 0 <= i < |s| && s[i] == x && (forall k :: i < k < |s| ==> s[k] != x)
                                   && r == s[..i] + s[i + 1..]
  {
    var i := LastIndexOf(s, x);
    if i < 0 then s
    else
      assert s == s[..i] + [s[i]] + s[i + 1..];
      s[..i] + s[i + 1..]
  }

  /** Removing a delegate just added restores the invocation list. */
  lemma {:induction false} RemoveLastUndoesAppend(s: seq<Action>, x: Action)
    ensures RemoveLast(s + [x], x) == s
  {
    assert (s + [x])[..|s|] == s;
  }

  /** Removing what was just combined, a delegate or null, restores the invocation list. */
  lemma {:induction false} RemoveUndoesCombine(s: seq<Action>, x: Option<Action>)
    ensures Remove(Combine(s, x), x) == s
  {
    if x.Some? {
      RemoveLastUndoesAppend(s, x.value);
    }
  }

  /**
   * Invoking a multicast delegate: each delegate in order with the same
   * arguments, stopping at the first that throws.
   */
  function DynamicTrace(calls: seq<Action>, args: seq<Value>, run: (Action, seq<Value>) -> Status): (r: (seq<Step>, Status))
    ensures |r.0| <= |calls|
  {
    if |calls| == 0 then ([], Completed)
    else
      match run(calls[0], args)
      case Failed(e) => ([CallDynamic(calls[0], args)], Failed(e))
      case Completed =>
        var rest := DynamicTrace(calls[1..], args, run);
        ([CallDynamic(calls[0], args)] + rest.0, rest.1)
  }

  /** The `k`th step of the invocation calls the `k`th delegate with the arguments. */
  lemma {:induction false} DynamicTraceCalls(calls: seq<Action>, args: seq<Value>, run: (Action, seq<Value>) -> Status)
    ensures var r := DynamicTrace(calls, args, run);
      forall k :: 0 <= k < |r.0| ==> r.0[k] == CallDynamic(calls[k], args)
    decreases |calls|
  {
    if |calls| > 0 && run(calls[0], args) == Completed {
      DynamicTraceCalls(calls[1..], args, run);
      assert forall k :: 1 <= k < |calls| ==> calls[k] == calls[1..][k - 1];
    }
  }

  /**
   * The invocation completes exactly when every delegate completes; when it
   * fails, the last delegate called threw that exception and every one
   * before it completed.
   */
  lemma {:induction false} DynamicTraceStatus(calls: seq<Action>, args: seq<Value>, run: (Action, seq<Value>) -> Status)
    ensures var r := DynamicTrace(calls, args, run);
      r.1 == Completed <==> |r.0| == |calls| && forall k :: 0 <= k < |calls| ==> run(calls[k], args) == Completed
    ensures var r := DynamicTrace(calls, args, run);
      r.1.Failed? ==>
        0 < |r.0| && run(calls[|r.0| - 1], args) == r.1
        && forall k :: 0 <= k < |r.0| - 1 ==> run(calls[k], args) == Completed
    decreases |calls|
  {
    if |calls| > 0 && run(calls[0], args) == Completed {
      DynamicTraceStatus(calls[1..], args, run);
      assert forall k :: 1 <= k < |calls| ==> calls[k] == calls[1..][k - 1];
    }
  }

  /** The whole invocation: persistent calls first, then the dynamic ones unless the persistent ones threw. */
  function InvocationTrace(prefix: seq<Step>, runner: Runner, calls: seq<Action>, args: seq<Value>): (r: (seq<Step>, Status))
    ensures |r.0| > |prefix| && r.0[..|prefix|] == prefix && r.0[|prefix|] == InvokePersistentCalls
    ensures forall k :: |prefix| < k < |r.0| ==> r.0[k].CallDynamic? && r.0[k].arguments == args
    ensures runner.persistent.Failed? ==> r == (prefix + [InvokePersistentCalls], runner.persistent)
    ensures runner.persistent.Completed? ==>
      r == (prefix + [InvokePersistentCalls] + DynamicTrace(calls, args, runner.dynamic).0, DynamicTrace(calls, args, runner.dynamic).1)
  {
    if runner.persistent.Failed? then (prefix + [InvokePersistentCalls], runner.persistent)
    else
      var d := DynamicTrace(calls, args, runner.dynamic);
      DynamicTraceCalls(calls, args, runner.dynamic);
      (prefix + [InvokePersistentCalls] + d.0, d.1)
  }

  /** `InvokeSafe`: the same steps, with a thrown exception logged instead of propagated. */
  function SafeTrace(t: (seq<Step>, Status)): (r: seq<Step>)
    ensures |r| >= |t.0| && r[..|t.0|] == t.0
    ensures |r| == |t.0| <==> t.1 == Completed
    ensures t.1.Failed? ==> r[|t.0|] == LogException(t.1.exception)
  {
    match t.1
    case Completed => t.0
    case Failed(e) => t.0 + [LogException(e)]
  }

  /** The trace from delegate `i` on: its call, then either its exception or the trace from `i + 1` on. */
  lemma {:induction false} DynamicTraceFrom(calls: seq<Action>, args: seq<Value>, run: (Action, seq<Value>) -> Status, i: nat)
    requires i < |calls|
    ensures run(calls[i], args).Failed? ==>
      DynamicTrace(calls[i..], args, run) == ([CallDynamic(calls[i], args)], run(calls[i], args))
    ensures run(calls[i], args) == Completed ==>
      DynamicTrace(calls[i..], args, run)
      == ([CallDynamic(calls[i], args)] + DynamicTrace(calls[i + 1..], args, run).0, DynamicTrace(calls[i + 1..], args, run).1)
  {
    assert calls[i..][0] == calls[i] && calls[i..][1..] == calls[i + 1..];
  }

  /** The multicast invocation as the runtime performs it. */
  method RunDynamicCalls(calls: seq<Action>, args: seq<Value>, run: (Action, seq<Value>) -> Status)
    returns (steps: seq<Step>, status: Status)
    ensures (steps, status) == DynamicTrace(calls, args, run)
  {
    ghost var whole := DynamicTrace(calls, args, run);
    steps := [];
    var i := 0;
    assert calls[0..] == calls;
    assert [] + whole.0 == whole.0;
    while i < |calls|
      invariant 0 <= i <= |calls|
      invariant whole == (steps + DynamicTrace(calls[i..], args, run).0, DynamicTrace(calls[i..], args, run).1)
    {
      DynamicTraceFrom(calls, args, run, i);
      var step := CallDynamic(calls[i], args);
      var s := run(calls[i], args);
      if s.Failed? {
        return steps + [step], s;
      }
      assert steps + ([step] + DynamicTrace(calls[i + 1..], args, run).0) == (steps + [step]) + DynamicTrace(calls[i + 1..], args, run).0;
      steps := steps + [step];
      i := i + 1;
    }
    assert calls[i..] == [];
    assert steps + [] == steps;
    status := Completed;
  }
}
