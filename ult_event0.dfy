/**
 * An event without parameters: the persistent calls its base holds, then the
 * dynamic delegates registered at run time, invoked in that order.
 */
module UltEvent0 {
  import opened Wrappers
  import opened Reflection
  import opened EventBase

  class UltEvent {
    /** The `UltEventBase` part of this event. */
    const core: UltEventBase
    /** `_DynamicCalls`: the invocation list, empty for a null delegate. */
    var dynamicCalls: seq<Action>

    constructor ()
      ensures fresh(core) && core.parameterTypes == ParameterTypes()
      ensures core.persistentCalls == None && core.persistentEdits == [] && core.dynamicChangeCount == 0
      ensures dynamicCalls == []
    {
      core := new UltEventBase(ParameterTypes());
      dynamicCalls := [];
    }

    static function ParameterTypes(): seq<TypeInfo>
    {
      []
    }

    function ParameterCount(): (n: nat)
      ensures n == |ParameterTypes()|
    {
      0
    }

    /** Everything an operation on a possibly-null event may change. */
    static function Footprint(e: UltEvent?): set<object>
    {
      if e == null then {} else {e, e.core}
    }

    /** `PersistentCalls += value`. */
    method AddToPersistentCalls(value: Action)
      modifies core
      ensures core.persistentEdits == old(core.persistentEdits) + [AddPersistent(value)]
      ensures core.persistentCalls == old(core.persistentCalls) && core.dynamicChangeCount == old(core.dynamicChangeCount)
    {
      core.AddPersistentCall(value);
    }

    /** `PersistentCalls -= value`. */
    method RemoveFromPersistentCalls(value: Action)
      modifies core
      ensures core.persistentEdits == old(core.persistentEdits) + [RemovePersistent(value)]
      ensures core.persistentCalls == old(core.persistentCalls) && core.dynamicChangeCount == old(core.dynamicChangeCount)
    {
      core.RemovePersistentCall(value);
    }

    /** `DynamicCalls += value`: combined into the invocation list, then the base is told, even for a null value. */
    method AddToDynamicCalls(value: Option<Action>)
      modifies this, core
      ensures dynamicCalls == Combine(old(dynamicCalls), value)
      ensures core.dynamicChangeCount == old(core.dynamicChangeCount) + 1
      ensures core.persistentCalls == old(core.persistentCalls) && core.persistentEdits == old(core.persistentEdits)
    {
      dynamicCalls := Combine(dynamicCalls, value);
      core.OnDynamicCallsChanged();
    }

    /** `DynamicCalls -= value`: removed from the invocation list, then the base is told, even for a null value. */
    method RemoveFromDynamicCalls(value: Option<Action>)
      modifies this, core
      ensures dynamicCalls == Remove(old(dynamicCalls), value)
      ensures core.dynamicChangeCount == old(core.dynamicChangeCount) + 1
      ensures core.persistentCalls == old(core.persistentCalls) && core.persistentEdits == old(core.persistentEdits)
    {
      dynamicCalls := Remove(dynamicCalls, value);
      core.OnDynamicCallsChanged();
    }

    /**
     * `operator +`: creates the event when null, then registers `action` where
     * the mode says. In Edit Mode a null delegate throws when its target is
     * read, and nothing changes.
     */
    static method Plus(e: UltEvent?, action: Option<Action>, editMode: bool) returns (r: Checked<UltEvent>)
      modifies Footprint(e)
      ensures r.NullReferenceThrown? <==> ReadsNullTarget(action, editMode)
      ensures r.NullReferenceThrown? ==> unchanged(Footprint(e))
      ensures r.Done? && e != null ==> r.value == e && r.value.core.persistentCalls == old(e.core.persistentCalls)
      ensures r.Done? && e == null ==>
        fresh(r.value) && fresh(r.value.core) && r.value.core.persistentCalls == None && r.value.core.parameterTypes == []
      ensures r.Done? && GoesToPersistentCalls(action, editMode) ==>
        r.value.core.persistentEdits == old(if e == null then [] else e.core.persistentEdits) + [AddPersistent(action.value)]
        && r.value.dynamicCalls == old(if e == null then [] else e.dynamicCalls)
        && r.value.core.dynamicChangeCount == old(if e == null then 0 else e.core.dynamicChangeCount)
      ensures r.Done? && !GoesToPersistentCalls(action, editMode) ==>
        r.value.dynamicCalls == Combine(old(if e == null then [] else e.dynamicCalls), action)
        && r.value.core.persistentEdits == old(if e == null then [] else e.core.persistentEdits)
        && r.value.core.dynamicChangeCount == old(if e == null then 0 else e.core.dynamicChangeCount) + 1
    {
      var created: UltEvent? := e;
      if created == null {
        created := new UltEvent();
      }
      if ReadsNullTarget(action, editMode) {
        return NullReferenceThrown;
      }
      if GoesToPersistentCalls(action, editMode) {
        created.AddToPersistentCalls(action.value);
      } else {
        created.AddToDynamicCalls(action);
      }
      r := Done(created);
    }

    /**
     * `operator -`: null stays null; otherwise `action` leaves the calls the
     * mode says. In Edit Mode a null delegate throws when its target is read,
     * and nothing changes.
     */
    static method Minus(e: UltEvent?, action: Option<Action>, editMode: bool) returns (r: Checked<UltEvent?>)
      modifies Footprint(e)
      ensures r.NullReferenceThrown? <==> e != null && ReadsNullTarget(action, editMode)
      ensures r.NullReferenceThrown? ==> unchanged(Footprint(e))
      ensures r.Done? ==> r.value == e
      ensures e != null && GoesToPersistentCalls(action, editMode) ==>
        e.core.persistentEdits == old(e.core.persistentEdits) + [RemovePersistent(action.value)]
        && e.dynamicCalls == old(e.dynamicCalls)
        && e.core.dynamicChangeCount == old(e.core.dynamicChangeCount)
      ensures r.Done? && e != null && !GoesToPersistentCalls(action, editMode) ==>
        e.dynamicCalls == Remove(old(e.dynamicCalls), action)
        && e.core.persistentEdits == old(e.core.persistentEdits)
        && e.core.dynamicChangeCount == old(e.core.dynamicChangeCount) + 1
      ensures e != null ==> e.core.persistentCalls == old(e.core.persistentCalls)
    {
      if e == null {
        return Done(null);
      }
      if ReadsNullTarget(action, editMode) {
        return NullReferenceThrown;
      }
      if GoesToPersistentCalls(action, editMode) {
        e.RemoveFromPersistentCalls(action.value);
      } else {
        e.RemoveFromDynamicCalls(action);
      }
      r := Done(e);
    }

    /** The implicit conversion from a delegate: null for null, else a new event holding it. */
    static method FromAction(action: Option<Action>, editMode: bool) returns (r: UltEvent?)
      ensures action.None? <==> r == null
      ensures r != null ==> fresh(r) && fresh(r.core) && r.core.persistentCalls == None
      ensures r != null && RoutesToPersistentCalls(action.value, editMode) ==>
        r.core.persistentEdits == [AddPersistent(action.value)] && r.dynamicCalls == [] && r.core.dynamicChangeCount == 0
      ensures r != null && !RoutesToPersistentCalls(action.value, editMode) ==>
        r.core.persistentEdits == [] && r.dynamicCalls == [action.value] && r.core.dynamicChangeCount == 1
    {
      if action.None? {
        return null;
      }
      var created := new UltEvent();
      var added := Plus(created, action, editMode);
      r := added.value;
    }

    /**
     * `AddDynamicCall(ref e, action)`: creates the event when null, then adds
     * `action` to the dynamic calls whatever the mode; a null delegate leaves
     * the list as it is, and the change is still notified.
     */
    static method AddDynamicCall(e: UltEvent?, action: Option<Action>) returns (r: UltEvent)
      modifies Footprint(e)
      ensures e != null ==> r == e && r.core.persistentCalls == old(e.core.persistentCalls)
      ensures e == null ==> fresh(r) && fresh(r.core) && r.core.persistentCalls == None
      ensures r.dynamicCalls == Combine(old(if e == null then [] else e.dynamicCalls), action)
      ensures r.core.persistentEdits == old(if e == null then [] else e.core.persistentEdits)
      ensures r.core.dynamicChangeCount == old(if e == null then 0 else e.core.dynamicChangeCount) + 1
    {
      var created: UltEvent? := e;
      if created == null {
        created := new UltEvent();
      }
      r := created;
      r.AddToDynamicCalls(action);
    }

    /** `RemoveDynamicCall(ref e, action)`: nothing for a null event; a null delegate is still notified. */
    static method RemoveDynamicCall(e: UltEvent?, action: Option<Action>)
      modifies Footprint(e)
      ensures e != null ==>
        e.dynamicCalls == Remove(old(e.dynamicCalls), action)
        && e.core.persistentEdits == old(e.core.persistentEdits)
        && e.core.persistentCalls == old(e.core.persistentCalls)
        && e.core.dynamicChangeCount == old(e.core.dynamicChangeCount) + 1
    {
      if e != null {
        e.RemoveFromDynamicCalls(action);
      }
    }

    /** `Invoke()`: the persistent calls, then each dynamic call, as far as the first exception. */
    method Invoke(runner: Runner) returns (steps: seq<Step>, status: Status)
      ensures (steps, status) == InvocationTrace([], runner, dynamicCalls, [])
    {
      steps := [InvokePersistentCalls];
      assert [] + steps == steps;
      status := runner.persistent;
      if status.Failed? {
        return;
      }
      var dynamicSteps;
      dynamicSteps, status := RunDynamicCalls(dynamicCalls, [], runner.dynamic);
      steps := steps + dynamicSteps;
    }

    /** `InvokeSafe()`: `Invoke`, with an exception logged instead of escaping. */
    method InvokeSafe(runner: Runner) returns (steps: seq<Step>)
      ensures steps == SafeTrace(InvocationTrace([], runner, dynamicCalls, []))
    {
      var status;
      steps, status := Invoke(runner);
      if status.Failed? {
        steps := steps + [LogException(status.exception)];
      }
    }
  }

  /**
   * Registering a delegate with `+` and taking it away with `-` in the same
   * mode leaves the dynamic calls as they were. A null delegate in Edit Mode
   * throws at the `+`, and then nothing changes.
   */
  method PlusThenMinus(e: UltEvent, action: Option<Action>, editMode: bool) returns (r: Checked<UltEvent?>)
    modifies e, e.core
    ensures r.NullReferenceThrown? <==> ReadsNullTarget(action, editMode)
    ensures r.NullReferenceThrown? ==> unchanged(e, e.core)
    ensures r.Done? ==> r.value == e
    ensures e.dynamicCalls == old(e.dynamicCalls)
    ensures r.Done? && !GoesToPersistentCalls(action, editMode) ==>
      e.core.dynamicChangeCount == old(e.core.dynamicChangeCount) + 2
    ensures GoesToPersistentCalls(action, editMode) ==>
      e.core.persistentEdits == old(e.core.persistentEdits) + [AddPersistent(action.value), RemovePersistent(action.value)]
  {
    var added := UltEvent.Plus(e, action, editMode);
    if added.NullReferenceThrown? {
      return NullReferenceThrown;
    }
    RemoveUndoesCombine(old(e.dynamicCalls), action);
    r := UltEvent.Minus(added.value, action, editMode);
  }
}
