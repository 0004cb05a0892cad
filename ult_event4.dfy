/**
 * An event with four parameters. Invoking it first caches the four arguments
 * for the persistent calls to read, then runs the persistent calls, then the
 * dynamic delegates with the same four arguments.
 */
module UltEvent4 {
  import opened Wrappers
  import opened Reflection
  import opened EventBase

  /** The generic type arguments `T0`..`T3` of the event's class. */
  datatype Signature = Signature(t0: TypeInfo, t1: TypeInfo, t2: TypeInfo, t3: TypeInfo)

  class UltEvent4 {
    const signature: Signature
    /** The `UltEventBase` part of this event. */
    const core: UltEventBase
    /** `_DynamicCalls`: the invocation list, empty for a null delegate. */
    var dynamicCalls: seq<Action>

    constructor (signature: Signature)
      ensures this.signature == signature
      ensures fresh(core) && core.parameterTypes == [signature.t0, signature.t1, signature.t2, signature.t3]
      ensures core.persistentCalls == None && core.persistentEdits == [] && core.dynamicChangeCount == 0
      ensures dynamicCalls == []
    {
      this.signature := signature;
      core := new UltEventBase([signature.t0, signature.t1, signature.t2, signature.t3]);
      dynamicCalls := [];
    }

    /** The parameter types, in parameter order. */
    function ParameterTypes(): (r: seq<TypeInfo>)
      ensures |r| == 4 && r[0] == signature.t0 && r[1] == signature.t1 && r[2] == signature.t2 && r[3] == signature.t3
    {
      [signature.t0, signature.t1, signature.t2, signature.t3]
    }

    function ParameterCount(): (n: nat)
      ensures n == |ParameterTypes()|
    {
      4
    }

    /** Everything an operation on a possibly-null event may change. */
    static function Footprint(e: UltEvent4?): set<object>
    {
      if e == null then {} else {e, e.core}
    }

    /** `PersistentCalls += value`. */
    method AddToPersistentCalls(value: Action)
      modifies core
      ensures core.persistentEdits == old(core.persistentEdits) + [AddPersistent(value)]
      ensures core.persistentCalls == old(core.persistentCalls) && core.dynamicChangeCount == old(core.dynamicChangeCount)
    {
      core.AddPersistentCall(value);
    }

    /** `PersistentCalls -= value`. */
    method RemoveFromPersistentCalls(value: Action)
      modifies core
      ensures core.persistentEdits == old(core.persistentEdits) + [RemovePersistent(value)]
      ensures core.persistentCalls == old(core.persistentCalls) && core.dynamicChangeCount == old(core.dynamicChangeCount)
    {
      core.RemovePersistentCall(value);
    }

    /** `DynamicCalls += value`: combined into the invocation list, then the base is told, even for a null value. */
    method AddToDynamicCalls(value: Option<Action>)
      modifies this, core
      ensures dynamicCalls == Combine(old(dynamicCalls), value)
      ensures core.dynamicChangeCount == old(core.dynamicChangeCount) + 1
      ensures core.persistentCalls == old(core.persistentCalls) && core.persistentEdits == old(core.persistentEdits)
    {
      dynamicCalls := Combine(dynamicCalls, value);
      core.OnDynamicCallsChanged();
    }

    /** `DynamicCalls -= value`: removed from the invocation list, then the base is told, even for a null value. */
    method RemoveFromDynamicCalls(value: Option<Action>)
      modifies this, core
      ensures dynamicCalls == Remove(old(dynamicCalls), value)
      ensures core.dynamicChangeCount == old(core.dynamicChangeCount) + 1
      ensures core.persistentCalls == old(core.persistentCalls) && core.persistentEdits == old(core.persistentEdits)
    {
      dynamicCalls := Remove(dynamicCalls, value);
      core.OnDynamicCallsChanged();
    }

    /**
     * `operator +`: creates the event when null, then registers `action` where
     * the mode says. In Edit Mode a null delegate throws when its target is
     * read, and nothing changes.
     */
    static method Plus(signature: Signature, e: UltEvent4?, action: Option<Action>, editMode: bool) returns (r: Checked<UltEvent4>)
      requires e != null ==> e.signature == signature
      modifies Footprint(e)
      ensures r.NullReferenceThrown? <==> ReadsNullTarget(action, editMode)
      ensures r.NullReferenceThrown? ==> unchanged(Footprint(e))
      ensures r.Done? && e != null ==> r.value == e && r.value.core.persistentCalls == old(e.core.persistentCalls)
      ensures r.Done? && e == null ==>
        fresh(r.value) && fresh(r.value.core) && r.value.core.persistentCalls == None && r.value.signature == signature
      ensures r.Done? && GoesToPersistentCalls(action, editMode) ==>
        r.value.core.persistentEdits == old(if e == null then [] else e.core.persistentEdits) + [AddPersistent(action.value)]
        && r.value.dynamicCalls == old(if e == null then [] else e.dynamicCalls)
        && r.value.core.dynamicChangeCount == old(if e == null then 0 else e.core.dynamicChangeCount)
      ensures r.Done? && !GoesToPersistentCalls(action, editMode) ==>
        r.value.dynamicCalls == Combine(old(if e == null then [] else e.dynamicCalls), action)
        && r.value.core.persistentEdits == old(if e == null then [] else e.core.persistentEdits)
        && r.value.core.dynamicChangeCount == old(if e == null then 0 else e.core.dynamicChangeCount) + 1
    {
      var created: UltEvent4? := e;
      if created == null {
        created := new UltEvent4(signature);
      }
      if ReadsNullTarget(action, editMode) {
        return NullReferenceThrown;
      }
      if GoesToPersistentCalls(action, editMode) {
        created.AddToPersistentCalls(action.value);
      } else {
        created.AddToDynamicCalls(action);
      }
      r := Done(created);
    }

    /**
     * `operator -`: null stays null; otherwise `action` leaves the calls the
     * mode says. In Edit Mode a null delegate throws when its target is read,
     * and nothing changes.
     */
    static method Minus(signature: Signature, e: UltEvent4?, action: Option<Action>, editMode: bool) returns (r: Checked<UltEvent4?>)
      requires e != null ==> e.signature == signature
      modifies Footprint(e)
      ensures r.NullReferenceThrown? <==> e != null && ReadsNullTarget(action, editMode)
      ensures r.NullReferenceThrown? ==> unchanged(Footprint(e))
      ensures r.Done? ==> r.value == e
      ensures e != null && GoesToPersistentCalls(action, editMode) ==>
        e.core.persistentEdits == old(e.core.persistentEdits) + [RemovePersistent(action.value)]
        && e.dynamicCalls == old(e.dynamicCalls)
        && e.core.dynamicChangeCount == old(e.core.dynamicChangeCount)
      ensures r.Done? && e != null && !GoesToPersistentCalls(action, editMode) ==>
        e.dynamicCalls == Remove(old(e.dynamicCalls), action)
        && e.core.persistentEdits == old(e.core.persistentEdits)
        && e.core.dynamicChangeCount == old(e.core.dynamicChangeCount) + 1
      ensures e != null ==> e.core.persistentCalls == old(e.core.persistentCalls)
    {
      if e == null {
        return Done(null);
      }
      if ReadsNullTarget(action, editMode) {
        return NullReferenceThrown;
      }
      if GoesToPersistentCalls(action, editMode) {
        e.RemoveFromPersistentCalls(action.value);
      } else {
        e.RemoveFromDynamicCalls(action);
      }
      r := Done(e);
    }

    /** The implicit conversion from a delegate: null for null, else a new event holding it. */
    static method FromAction(signature: Signature, action: Option<Action>, editMode: bool) returns (r: UltEvent4?)
      ensures action.None? <==> r == null
      ensures r != null ==> fresh(r) && fresh(r.core) && r.core.persistentCalls == None && r.signature == signature
      ensures r != null && RoutesToPersistentCalls(action.value, editMode) ==>
        r.core.persistentEdits == [AddPersistent(action.value)] && r.dynamicCalls == [] && r.core.dynamicChangeCount == 0
      ensures r != null && !RoutesToPersistentCalls(action.value, editMode) ==>
        r.core.persistentEdits == [] && r.dynamicCalls == [action.value] && r.core.dynamicChangeCount == 1
    {
      if action.None? {
        return null;
      }
      var created := new UltEvent4(signature);
      var added := Plus(signature, created, action, editMode);
      r := added.value;
    }

    /**
     * `AddDynamicCall(ref e, action)`: creates the event when null, then adds
     * `action` to the dynamic calls whatever the mode; a null delegate leaves
     * the list as it is, and the change is still notified.
     */
    static method AddDynamicCall(signature: Signature, e: UltEvent4?, action: Option<Action>) returns (r: UltEvent4)
      requires e != null ==> e.signature == signature
      modifies Footprint(e)
      ensures e != null ==> r == e && r.core.persistentCalls == old(e.core.persistentCalls)
      ensures e == null ==> fresh(r) && fresh(r.core) && r.core.persistentCalls == None && r.signature == signature
      ensures r.dynamicCalls == Combine(old(if e == null then [] else e.dynamicCalls), action)
      ensures r.core.persistentEdits == old(if e == null then [] else e.core.persistentEdits)
      ensures r.core.dynamicChangeCount == old(if e == null then 0 else e.core.dynamicChangeCount) + 1
    {
      var created: UltEvent4? := e;
      if created == null {
        created := new UltEvent4(signature);
      }
      r := created;
      r.AddToDynamicCalls(action);
    }

    /** `RemoveDynamicCall(ref e, action)`: nothing for a null event; a null delegate is still notified. */
    static method RemoveDynamicCall(signature: Signature, e: UltEvent4?, action: Option<Action>)
      requires e != null ==> e.signature == signature
      modifies Footprint(e)
      ensures e != null ==>
        e.dynamicCalls == Remove(old(e.dynamicCalls), action)
        && e.core.persistentEdits == old(e.core.persistentEdits)
        && e.core.persistentCalls == old(e.core.persistentCalls)
        && e.core.dynamicChangeCount == old(e.core.dynamicChangeCount) + 1
    {
      if e != null {
        e.RemoveFromDynamicCalls(action);
      }
    }

    /** The steps that cache the four arguments before the persistent calls run. */
    static function CachedParameters(p0: Value, p1: Value, p2: Value, p3: Value): seq<Step>
    {
      [CacheParameter(p0), CacheParameter(p1), CacheParameter(p2), CacheParameter(p3)]
    }

    /**
     * `Invoke(p0, p1, p2, p3)`: the arguments are cached, the persistent calls
     * run, then each dynamic call with the same arguments, as far as the first
     * exception.
     */
    method Invoke(p0: Value, p1: Value, p2: Value, p3: Value, runner: Runner) returns (steps: seq<Step>, status: Status)
      ensures (steps, status) == InvocationTrace(CachedParameters(p0, p1, p2, p3), runner, dynamicCalls, [p0, p1, p2, p3])
    {
      steps := CachedParameters(p0, p1, p2, p3) + [InvokePersistentCalls];
      status := runner.persistent;
      if status.Failed? {
        return;
      }
      var dynamicSteps;
      dynamicSteps, status := RunDynamicCalls(dynamicCalls, [p0, p1, p2, p3], runner.dynamic);
      steps := steps + dynamicSteps;
    }

    /** `InvokeSafe(p0, p1, p2, p3)`: `Invoke`, with an exception logged instead of escaping. */
    method InvokeSafe(p0: Value, p1: Value, p2: Value, p3: Value, runner: Runner) returns (steps: seq<Step>)
      ensures steps == SafeTrace(InvocationTrace(CachedParameters(p0, p1, p2, p3), runner, dynamicCalls, [p0, p1, p2, p3]))
    {
      var status;
      steps, status := Invoke(p0, p1, p2, p3, runner);
      if status.Failed? {
        steps := steps + [LogException(status.exception)];
      }
    }
  }

  /**
   * Registering a delegate with `+` and taking it away with `-` in the same
   * mode leaves the dynamic calls as they were. A null delegate in Edit Mode
   * throws at the `+`, and then nothing changes.
   */
  method PlusThenMinus(e: UltEvent4, action: Option<Action>, editMode: bool) returns (r: Checked<UltEvent4?>)
    modifies e, e.core
    ensures r.NullReferenceThrown? <==> ReadsNullTarget(action, editMode)
    ensures r.NullReferenceThrown? ==> unchanged(e, e.core)
    ensures r.Done? ==> r.value == e
    ensures e.dynamicCalls == old(e.dynamicCalls)
    ensures r.Done? && !GoesToPersistentCalls(action, editMode) ==>
      e.core.dynamicChangeCount == old(e.core.dynamicChangeCount) + 2
    ensures GoesToPersistentCalls(action, editMode) ==>
      e.core.persistentEdits == old(e.core.persistentEdits) + [AddPersistent(action.value), RemovePersistent(action.value)]
  {
    var added := UltEvent4.Plus(e.signature, e, action, editMode);
    if added.NullReferenceThrown? {
      return NullReferenceThrown;
    }
    RemoveUndoesCombine(old(e.dynamicCalls), action);
    r := UltEvent4.Minus(e.signature, added.value, action, editMode);
  }
}
