/**
 * The editor of an event's persistent-call list: adding a call after the
 * selected one, removing a call and keeping the selection in range, keeping
 * return-value links pointing at the same calls after a removal or a
 * reorder, checking that every call resolves, and the keyboard commands.
 */
module UltEventDrawers {
  import opened Wrappers
  import opened Reflection
  import opened PersistentCalls
  import opened EventBase
  import opened DrawerStates
  import CallDrawers

  /** The serialized call list of an event; a list not created yet is empty. */
  function Calls(e: UltEventBase): seq<PersistentCall?>
    reads e
  {
    if e.persistentCalls.None? then [] else e.persistentCalls.value
  }

  /** The list with the element at `index` deleted. */
  function RemovedAt<T>(s: seq<T>, index: nat): (r: seq<T>)
    requires index < |s|
    ensures |r| == |s| - 1
    ensures forall k :: 0 <= k < index ==> r[k] == s[k]
    ensures forall k :: index <= k < |r| ==> r[k] == s[k + 1]
  {
    s[..index] + s[index + 1..]
  }

  /** The list with `x` inserted so that it ends up at `index`. */
  function InsertedAt<T>(s: seq<T>, index: nat, x: T): (r: seq<T>)
    requires index <= |s|
    ensures |r| == |s| + 1 && r[index] == x
    ensures forall k :: 0 <= k < index ==> r[k] == s[k]
    ensures forall k :: index < k < |r| ==> r[k] == s[k - 1]
  {
    s[..index] + [x] + s[index..]
  }

  /** Deleting what was just inserted gives back the list. */
  lemma {:induction false} RemoveUndoesInsert<T>(s: seq<T>, index: nat, x: T)
    requires index <= |s|
    ensures RemovedAt(InsertedAt(s, index, x), index) == s
  {
    var t := InsertedAt(s, index, x);
    assert t[..index] == s[..index];
    assert t[index + 1..] == s[index..];
    assert s[..index] + s[index..] == s;
  }

  /** The reorderable list drawing one event's persistent calls. */
  class ReorderableList {
    const event: UltEventBase
    /** The object whose serialized data holds the event. */
    const owner: Option<ObjectRef>
    /** The selected element, -1 for none. */
    var index: int

    constructor (event: UltEventBase, owner: Option<ObjectRef>)
      ensures this.event == event && this.owner == owner && index == -1
    {
      this.event := event;
      this.owner := owner;
      index := -1;
    }
  }

  /** Where `AddNewCall` inserts: after the selection when it is in range, else at the end. */
  function NewCallIndex(selected: int, count: nat): (r: nat)
    ensures r <= count
    ensures 0 <= selected < count ==> r == selected + 1
    ensures !(0 <= selected < count) ==> r == count
  {
    if 0 <= selected < count then selected + 1 else count
  }

  /** `InsertArrayElementAtIndex` for the call list: a blank call at `index`. */
  method InsertCall(e: UltEventBase, index: nat) returns (c: PersistentCall)
    requires index <= |Calls(e)|
    modifies e`persistentCalls
    ensures fresh(c) && c.target == None && c.memberName == None && c.arguments == []
    ensures c.cachedMethod == None && c.cachedField == None
    ensures Calls(e) == InsertedAt(old(Calls(e)), index, c) && e.persistentCalls.Some?
  {
    c := new PersistentCall();
    e.persistentCalls := Some(InsertedAt(Calls(e), index, c));
  }

  /**
   * `AddNewCall(list, target)`: inserts a blank call after the selected one
   * (selecting it), or at the end, then draws it as the current call and
   * sets its target, which leaves it without a method.
   */
  method AddNewCall(list: ReorderableList, target: Option<ObjectRef>, state: DrawerState,
                    element: SerializedProperty, env: Env) returns (index: nat, c: PersistentCall)
    modifies list`index, list.event`persistentCalls
    modifies state`callProperty, state`targetProperty, state`memberNameProperty, state`persistentArgumentsProperty
    modifies state`call, state`previousCalls
    ensures index == NewCallIndex(old(list.index), |old(Calls(list.event))|)
    ensures list.index == if 0 <= old(list.index) < |old(Calls(list.event))| then index else old(list.index)
    ensures fresh(c) && Calls(list.event) == InsertedAt(old(Calls(list.event)), index, c)
    ensures c.target == target && c.memberName == None && c.arguments == []
    ensures state.call == null && state.callProperty == Some(element)
    ensures state.previousCalls == old(state.previousCalls) + if state.cachePreviousCalls then [c] else []
  {
    var count := |Calls(list.event)|;
    var selected := list.index;
    if 0 <= selected < count {
      index := selected + 1;
      list.index := index;
    } else {
      index := count;
    }
    c := InsertCall(list.event, index);
    state.BeginCall(element, c);
    CallDrawers.SetTarget(state, target, env);
    state.EndCall();
  }

  /** The selection `RemoveCall` leaves: at most the last index of the shortened list. */
  function ClampedSelection(selected: int, newSize: nat): (r: int)
    ensures r <= newSize - 1
    ensures r == selected || r == newSize - 1
    ensures selected < newSize - 1 ==> r == selected
  {
    if selected >= newSize - 1 then newSize - 1 else selected
  }

  /** `RemoveCall`: deletes the call at `index`, then keeps the selection within the list. */
  method RemoveCall(list: ReorderableList, index: nat)
    requires index < |Calls(list.event)|
    modifies list`index, list.event`persistentCalls
    ensures Calls(list.event) == RemovedAt(old(Calls(list.event)), index) && list.event.persistentCalls.Some?
    ensures list.index == ClampedSelection(old(list.index), |old(Calls(list.event))| - 1)
  {
    var calls := Calls(list.event);
    list.event.persistentCalls := Some(RemovedAt(calls, index));
    var arraySize := |calls| - 1;
    if list.index >= arraySize - 1 {
      list.index := arraySize - 1;
    }
  }

  /** Adding a call and removing it again gives back the list. */
  method AddThenRemove(list: ReorderableList, target: Option<ObjectRef>, state: DrawerState,
                       element: SerializedProperty, env: Env)
    modifies list`index, list.event`persistentCalls
    modifies state`callProperty, state`targetProperty, state`memberNameProperty, state`persistentArgumentsProperty
    modifies state`call, state`previousCalls
    ensures Calls(list.event) == old(Calls(list.event))
  {
    var index, c := AddNewCall(list, target, state, element, env);
    RemoveCall(list, index);
    RemoveUndoesInsert(old(Calls(list.event)), index, c);
  }

  /**
   * `DelayedRemoveCall`, the deferred part: takes the saved drawer state,
   * removes the call, moves the links that pointed behind it, and clears the
   * state.
   */
  method DelayedRemoveCall(list: ReorderableList, index: nat, state: DrawerState, saved: DrawerState, env: Env)
    requires index < |Calls(list.event)| && saved.event == list.event
    requires |state.persistentMemberCache| > 0 ==>
      AllLinksInRange(Calls(list.event), |state.persistentMemberCache|) && DistinctCalls(Calls(list.event))
    modifies list`index, list.event`persistentCalls, state, CallsOf(list.event)`arguments
    ensures Calls(list.event) == RemovedAt(old(Calls(list.event)), index)
    ensures list.index == ClampedSelection(old(list.index), |old(Calls(list.event))| - 1)
    ensures |old(state.persistentMemberCache)| == 0 ==>
      forall c :: c in old(CallSet(Calls(list.event))) ==> c.arguments == old(c.arguments)
    ensures |old(state.persistentMemberCache)| > 0 ==>
      forall c :: c in CallSet(Calls(list.event)) ==>
        c.arguments
        == RelinkAll(old(c.arguments), old(state.persistentMemberCache), old(Members(RemovedAt(Calls(list.event), index), env)))
    ensures state.event == null && state.call == null && state.previousCalls == []
  {
    ghost var before := Calls(list.event);
    ghost var cache := state.persistentMemberCache;
    ghost var members := Members(RemovedAt(before, index), env);
    state.CopyFrom(saved);
    RemoveCall(list, index);
    ghost var after := Calls(list.event);
    assert after == RemovedAt(before, index);
    assert Members(after, env) == members;
    assert CallSet(after) <= CallSet(before);
    assert DistinctCalls(before) ==> DistinctCalls(after);
    assert AllLinksInRange(before, |cache|) ==> AllLinksInRange(after, |cache|);
    assert list.event.persistentCalls.Some?;
    label relink:
    state.UpdateLinkedArguments(env);
    if |cache| > 0 {
      forall c | c in CallSet(after)
        ensures c.arguments == RelinkAll(old(c.arguments), cache, members)
      {
        var i :| 0 <= i < |after| && after[i] == c;
        assert old@relink(c.arguments) == old(c.arguments);
      }
    }
    state.Clear();
  }

  /** `OnReorder`: after the list was reordered, moves every link to where its call went. */
  method OnReorder(list: ReorderableList, state: DrawerState, env: Env)
    requires state.event == list.event
    requires |state.persistentMemberCache| > 0 ==>
      list.event.persistentCalls.Some?
      && AllLinksInRange(Calls(list.event), |state.persistentMemberCache|) && DistinctCalls(Calls(list.event))
    modifies state`persistentMemberCache, CallsOf(list.event)`arguments
    ensures |old(state.persistentMemberCache)| > 0 ==>
      forall c :: c in CallSet(Calls(list.event)) ==>
        c.arguments == RelinkAll(old(c.arguments), old(state.persistentMemberCache), old(Members(Calls(list.event), env)))
  {
    state.UpdateLinkedArguments(env);
  }

  /**
   * After a reorder the calls' members are the snapshot's in another order;
   * when the snapshot's members are distinct every link then names the call
   * that has the member it named before.
   */
  lemma {:induction false} RelinkFollowsReorder(a: PersistentArgument, cache: seq<Option<Member>>, members: seq<Option<Member>>)
    requires multiset(members) == multiset(cache)
    requires a.argumentType == ReturnValue ==> 0 <= a.linkIndex < |cache|
    ensures a.argumentType == ReturnValue ==>
      0 <= Relinked(a, cache, members).linkIndex < |members|
      && members[Relinked(a, cache, members).linkIndex] == cache[a.linkIndex]
  {
    if a.argumentType == ReturnValue {
      assert cache[a.linkIndex] in multiset(cache);
      assert |members| == |multiset(members)| == |multiset(cache)| == |cache|;
      var r := Relinked(a, cache, members);
      if 0 <= a.linkIndex < |members| && members[a.linkIndex] == cache[a.linkIndex] {
      } else {
        assert cache[a.linkIndex] in members;
      }
    }
  }

  /** Every call is there and resolves to a member. */
  predicate AllResolve(calls: seq<PersistentCall?>, env: Env)
    reads calls
  {
    forall i :: 0 <= i < |calls| ==> calls[i] != null && calls[i].ResolvedMember(env).Some?
  }

  /**
   * `IsEventValid`: true without an event or a list; otherwise, checking from
   * the last call back, false at the first call that is missing or does not
   * resolve. Resolving may fill the calls' caches, never change their answers.
   */
  method IsEventValid(state: DrawerState, env: Env) returns (valid: bool)
    modifies CallsOf(state.event)`cachedMethod, CallsOf(state.event)`cachedField
    ensures valid <==> (state.event == null || state.event.persistentCalls.None?
                        || old(AllResolve(state.event.persistentCalls.value, env)))
    ensures forall c :: c in CallsOf(state.event) ==> c.ResolvedMember(env) == old(c.ResolvedMember(env))
  {
    var e := state.event;
    if e == null || e.persistentCalls.None? {
      return true;
    }
    var calls := e.persistentCalls.value;
    assert forall k :: 0 <= k < |calls| && calls[k] != null ==> calls[k] in CallsOf(e);
    var i := |calls| - 1;
    while i >= 0
      invariant -1 <= i < |calls|
      invariant forall c :: c in CallsOf(e) ==> c.ResolvedMember(env) == old(c.ResolvedMember(env))
      invariant forall k :: i < k < |calls| ==> calls[k] != null && calls[k].ResolvedMember(env).Some?
    {
      var call := calls[i];
      if call == null {
        return false;
      }
      var member := call.GetMemberSafe(env);
      if member.None? {
        return false;
      }
      i := i - 1;
    }
    valid := true;
  }

  /* ----------------------------------------------------------- keyboard */

  datatype Key = Backspace | Delete | Plus | KeypadPlus | Equals | KeyC | KeyV | OtherKey

  /** What a released key does to the call at `index`. */
  datatype Command =
    | RemoveCommand(index: nat)
    | AddCommand
    | CopyCommand(index: nat)
    | PasteCommand(index: nat, insertFirst: bool)
    | NoCommand

  /**
   * `CheckInput`'s dispatch: Backspace and Delete remove, the plus keys and
   * '=' add, Ctrl+C copies, Ctrl+V pastes over the call and Ctrl+Shift+V
   * pastes into a new call after it.
   */
  function InputCommand(keyUp: bool, key: Key, control: bool, shift: bool, index: nat): (r: Command)
    ensures !keyUp ==> r == NoCommand
    ensures keyUp && (key == Backspace || key == Delete) ==> r == RemoveCommand(index)
    ensures keyUp && (key == Plus || key == KeypadPlus || key == Equals) ==> r == AddCommand
    ensures r.CopyCommand? <==> keyUp && key == KeyC && control
    ensures r.PasteCommand? <==> keyUp && key == KeyV && control
    ensures r.PasteCommand? ==> r == PasteCommand(index + (if shift then 1 else 0), shift)
  {
    if !keyUp then NoCommand
    else
      match key
      case Backspace => RemoveCommand(index)
      case Delete => RemoveCommand(index)
      case Plus => AddCommand
      case KeypadPlus => AddCommand
      case Equals => AddCommand
      case KeyC => if control then CopyCommand(index) else NoCommand
      case KeyV => if control then (if shift then PasteCommand(index + 1, true) else PasteCommand(index, false)) else NoCommand
      case OtherKey => NoCommand
  }

  /**
   * `CheckInput`: carries out the command for the call at `index`. Copying
   * and pasting go through the clipboard, which is not modelled; the call a
   * paste would overwrite is returned, after inserting a blank one for
   * Ctrl+Shift+V.
   */
  method CheckInput(list: ReorderableList, index: nat, keyUp: bool, key: Key, control: bool, shift: bool,
                    state: DrawerState, element: SerializedProperty, env: Env) returns (pasteInto: Option<nat>)
    requires index < |Calls(list.event)|
    modifies list`index, list.event`persistentCalls
    modifies state`callProperty, state`targetProperty, state`memberNameProperty, state`persistentArgumentsProperty
    modifies state`call, state`previousCalls
    ensures pasteInto.Some? <==> InputCommand(keyUp, key, control, shift, index).PasteCommand?
    ensures pasteInto.Some? ==> (pasteInto.value == InputCommand(keyUp, key, control, shift, index).index
                                 && pasteInto.value < |Calls(list.event)|)
    ensures InputCommand(keyUp, key, control, shift, index).RemoveCommand? ==>
      Calls(list.event) == RemovedAt(old(Calls(list.event)), index)
    ensures InputCommand(keyUp, key, control, shift, index).AddCommand? ==>
      |Calls(list.event)| == |old(Calls(list.event))| + 1
      && Calls(list.event)[NewCallIndex(old(list.index), |old(Calls(list.event))|)] != null
      && Calls(list.event)[NewCallIndex(old(list.index), |old(Calls(list.event))|)].target == list.owner
    ensures InputCommand(keyUp, key, control, shift, index) == PasteCommand(index + 1, true) ==>
      |Calls(list.event)| == |old(Calls(list.event))| + 1 && Calls(list.event)[..index + 1] == old(Calls(list.event))[..index + 1]
      && Calls(list.event)[index + 2..] == old(Calls(list.event))[index + 1..]
    ensures (InputCommand(keyUp, key, control, shift, index).CopyCommand? || InputCommand(keyUp, key, control, shift, index).NoCommand?
             || InputCommand(keyUp, key, control, shift, index) == PasteCommand(index, false)) ==>
      Calls(list.event) == old(Calls(list.event))
  {
    var command := InputCommand(keyUp, key, control, shift, index);
    pasteInto := None;
    match command {
      case RemoveCommand(at) =>
        RemoveCall(list, at);
      case AddCommand =>
        var _, _ := AddNewCall(list, list.owner, state, element, env);
      case CopyCommand(_) =>
      case PasteCommand(at, insertFirst) =>
        if insertFirst {
          var c := InsertCall(list.event, at);
          ghost var now := Calls(list.event);
          assert now[..index + 1] == old(Calls(list.event))[..index + 1];
          assert now[index + 2..] == old(Calls(list.event))[index + 1..];
        }
        pasteInto := Some(at);
      case NoCommand =>
    }
  }
}
