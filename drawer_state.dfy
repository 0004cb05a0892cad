/**
 * The inspector's drawing state: the event and call being drawn, the calls
 * drawn so far (whose return values later arguments may link to), and the
 * snapshot of every call's member taken before the call list is edited, which
 * `UpdateLinkedArguments` uses to keep return-value links pointing at the
 * same producing members afterwards.
 *
 * A call's member is read through `ResolvedMember`, the value
 * `GetMemberSafe` is proved to return without changing it.
 */
module DrawerStates {
  import opened Wrappers
  import opened Strings
  import opened Reflection
  import opened PersistentCalls
  import opened EventBase

  /** A serialized-property handle, identified by its property path. */
  datatype SerializedProperty = SerializedProperty(path: string)

  /** `FindPropertyRelative`. */
  function FindPropertyRelative(p: SerializedProperty, name: string): SerializedProperty
  {
    SerializedProperty(p.path + "." + name)
  }

  /** The serialized field names of a persistent call. */
  const TargetFieldName: string := "_Target"
  const MemberNameFieldName: string := "_MemberName"
  const PersistentArgumentsFieldName: string := "_PersistentArguments"

  /* ------------------------------------------------------------- members */

  /** `call?.GetMemberSafe()`. */
  function MemberOf(call: PersistentCall?, env: Env): Option<Member>
    reads call
  {
    if call == null then None else call.ResolvedMember(env)
  }

  /** The member of every call, in list order. */
  function Members(calls: seq<PersistentCall?>, env: Env): (r: seq<Option<Member>>)
    reads calls
    ensures |r| == |calls| && forall i :: 0 <= i < |calls| ==> r[i] == MemberOf(calls[i], env)
  {
    seq(|calls|, i requires 0 <= i < |calls| reads calls => MemberOf(calls[i], env))
  }

  /** `call.GetReturnType()`, which dereferences null when there is no call. */
  function ReturnTypeOfCall(call: PersistentCall?, env: Env): Checked<Option<TypeInfo>>
    reads call
  {
    if call == null then NullReferenceThrown else call.ReturnType(env)
  }

  function ReturnTypes(calls: seq<PersistentCall?>, env: Env): (r: seq<Checked<Option<TypeInfo>>>)
    reads calls
    ensures |r| == |calls| && forall i :: 0 <= i < |calls| ==> r[i] == ReturnTypeOfCall(calls[i], env)
  {
    seq(|calls|, i requires 0 <= i < |calls| reads calls => ReturnTypeOfCall(calls[i], env))
  }

  /** No call object appears twice in the list. */
  predicate DistinctCalls(calls: seq<PersistentCall?>)
  {
    forall i, j :: 0 <= i < j < |calls| && calls[i] != null ==> calls[i] != calls[j]
  }

  function CallSet(calls: seq<PersistentCall?>): set<PersistentCall>
  {
    set i | 0 <= i < |calls| && calls[i] != null :: calls[i]
  }

  /** The persistent calls of an event, when it has a list. */
  function CallsOf(e: UltEventBase?): set<PersistentCall>
    reads e
  {
    if e == null || e.persistentCalls.None? then {} else CallSet(e.persistentCalls.value)
  }

  /** Every return-value link of the arguments indexes into a snapshot of `n` members. */
  predicate LinksInRange(args: seq<PersistentArgument>, n: nat)
  {
    forall j :: 0 <= j < |args| && args[j].argumentType == ReturnValue ==> 0 <= args[j].linkIndex < n
  }

  predicate AllLinksInRange(calls: seq<PersistentCall?>, n: nat)
    reads calls
  {
    forall i :: 0 <= i < |calls| && calls[i] != null ==> LinksInRange(calls[i].arguments, n)
  }

  /* ------------------------------------------------------------ relinking */

  /**
   * What `UpdateLinkedArguments` does to one argument, given the member
   * snapshot `cache` and the calls' members now. Anything but a return-value
   * link is kept; a link whose index still holds the member it was taken
   * from is kept; otherwise it moves to the first call with that member, and
   * stays where it is when there is none.
   */
  function Relinked(a: PersistentArgument, cache: seq<Option<Member>>, members: seq<Option<Member>>): (r: PersistentArgument)
    requires a.argumentType == ReturnValue ==> 0 <= a.linkIndex < |cache|
    ensures r == a.(linkIndex := r.linkIndex)
    ensures a.argumentType != ReturnValue ==> r == a
    ensures a.argumentType == ReturnValue && a.linkIndex < |members| && members[a.linkIndex] == cache[a.linkIndex] ==> r == a
    ensures a.argumentType == ReturnValue && cache[a.linkIndex] !in members ==> r == a
    ensures a.argumentType == ReturnValue && cache[a.linkIndex] in members ==>
      0 <= r.linkIndex < |members| && members[r.linkIndex] == cache[a.linkIndex]
    ensures r.linkIndex != a.linkIndex ==>
      0 <= r.linkIndex < |members| && members[r.linkIndex] == cache[a.linkIndex]
      && forall k :: 0 <= k < r.linkIndex ==> members[k] != cache[a.linkIndex]
  {
    if a.argumentType != ReturnValue then a
    else
      var linked := cache[a.linkIndex];
      if a.linkIndex < |members| && linked == members[a.linkIndex] then a
      else
        var index := IndexOfFrom(members, linked, 0);
        if index >= 0 then a.(linkIndex := index) else a
  }

  function RelinkAll(args: seq<PersistentArgument>, cache: seq<Option<Member>>, members: seq<Option<Member>>): (r: seq<PersistentArgument>)
    requires LinksInRange(args, |cache|)
    ensures |r| == |args| && forall j :: 0 <= j < |args| ==> r[j] == Relinked(args[j], cache, members)
  {
    seq(|args|, j requires 0 <= j < |args| => Relinked(args[j], cache, members))
  }

  /** Relinking touches only link indices, so every call still resolves to the member it did. */
  lemma {:induction false} RelinkKeepsSystemTypes(args: seq<PersistentArgument>, cache: seq<Option<Member>>, members: seq<Option<Member>>)
    requires LinksInRange(args, |cache|)
    ensures SystemTypes(RelinkAll(args, cache, members)) == SystemTypes(args)
  {
    var r := RelinkAll(args, cache, members);
    assert forall j :: 0 <= j < |args| ==> r[j].systemType == args[j].systemType;
    if SystemTypes(args).Some? {
      assert SystemTypes(r).value == SystemTypes(args).value;
    }
  }

  /** With no edit, the members are the snapshot and relinking changes nothing. */
  lemma {:induction false} RelinkWithoutEdit(args: seq<PersistentArgument>, cache: seq<Option<Member>>)
    requires LinksInRange(args, |cache|)
    ensures RelinkAll(args, cache, cache) == args
  {
    var r := RelinkAll(args, cache, cache);
    forall j | 0 <= j < |args|
      ensures r[j] == args[j]
    {
      if args[j].argumentType == ReturnValue {
        assert args[j].linkIndex < |cache|;
      }
    }
  }

  /**
   * After the call at `removed` is deleted from a list whose members were all
   * different, a link to an earlier call keeps its index and a link to a later
   * call moves down by one.
   */
  lemma {:induction false} RelinkAfterRemoval(a: PersistentArgument, cache: seq<Option<Member>>, removed: nat)
    requires forall i, j :: 0 <= i < j < |cache| ==> cache[i] != cache[j]
    requires removed < |cache|
    requires a.argumentType == ReturnValue && 0 <= a.linkIndex < |cache| && a.linkIndex != removed
    ensures Relinked(a, cache, cache[..removed] + cache[removed + 1..]).linkIndex
      == if a.linkIndex < removed then a.linkIndex else a.linkIndex - 1
  {
    var members := cache[..removed] + cache[removed + 1..];
    var y := a.linkIndex;
    assert forall k :: 0 <= k < |members| ==> members[k] == if k < removed then cache[k] else cache[k + 1];
    if y < removed {
      assert members[y] == cache[y];
    } else {
      assert members[y - 1] == cache[y];
      assert cache[y] in members;
      if y < |members| {
        assert members[y] == cache[y + 1];
      }
      var r := Relinked(a, cache, members);
      assert r.linkIndex != y;
      assert forall k :: 0 <= k < y - 1 ==> members[k] != cache[y];
    }
  }

  /* ---------------------------------------------------------------- links */

  /** The outcome of `TryGetLinkable`: whether a source was found, its index and its kind. */
  datatype LinkChoice = LinkChoice(found: bool, linkIndex: int, linkType: ArgumentType)

  predicate AssignableTo(target: TypeInfo, source: Option<TypeInfo>)
  {
    source.Some? && IsAssignableFrom(target, source.value)
  }

  /** The first position at or after `start` whose type can be assigned to `target`, or -1. */
  function FirstAssignable(target: TypeInfo, types: seq<Option<TypeInfo>>, start: nat): (r: int)
    requires start <= |types|
    ensures r == -1 || start <= r < |types|
    ensures r >= 0 ==> AssignableTo(target, types[r])
    ensures forall k :: start <= k < |types| && (r == -1 || k < r) ==> !AssignableTo(target, types[k])
    decreases |types| - start
  {
    if start == |types| then -1
    else if AssignableTo(target, types[start]) then start
    else FirstAssignable(target, types, start + 1)
  }

  function Present(types: seq<TypeInfo>): (r: seq<Option<TypeInfo>>)
    ensures |r| == |types| && forall i :: 0 <= i < |types| ==> r[i] == Some(types[i])
  {
    seq(|types|, i requires 0 <= i < |types| => Some(types[i]))
  }

  /** Whether a previous call's return type was read without an exception and can be assigned to `target`. */
  predicate ReturnFits(target: TypeInfo, returnType: Checked<Option<TypeInfo>>)
  {
    returnType.Done? && AssignableTo(target, returnType.value)
  }

  /** Read without an exception and not assignable to `target`. */
  predicate ReturnMisses(target: TypeInfo, returnType: Checked<Option<TypeInfo>>)
  {
    returnType.Done? && !AssignableTo(target, returnType.value)
  }

  const NoLink := LinkChoice(false, -1, Unset)

  /**
   * The scan over the previous calls from `start`: the first whose return
   * type fits, unless reading some return type before it throws.
   */
  function FirstLinkableReturn(target: TypeInfo, returnTypes: seq<Checked<Option<TypeInfo>>>, start: nat): (r: Checked<LinkChoice>)
    requires start <= |returnTypes|
    ensures r.Done? ==> (!r.value.found <==> r.value == NoLink)
    ensures r.Done? && r.value.found ==>
      r.value.linkType == ReturnValue && start <= r.value.linkIndex < |returnTypes|
      && ReturnFits(target, returnTypes[r.value.linkIndex])
      && forall k :: start <= k < r.value.linkIndex ==> ReturnMisses(target, returnTypes[k])
    ensures r.Done? && !r.value.found ==> forall k :: start <= k < |returnTypes| ==> ReturnMisses(target, returnTypes[k])
    ensures r.NullReferenceThrown? ==>
      exists k :: start <= k < |returnTypes| && returnTypes[k].NullReferenceThrown?
        && forall j :: start <= j < k ==> ReturnMisses(target, returnTypes[j])
    decreases |returnTypes| - start
  {
    if start == |returnTypes| then Done(NoLink)
    else if returnTypes[start].NullReferenceThrown? then NullReferenceThrown
    else if AssignableTo(target, returnTypes[start].value) then Done(LinkChoice(true, start, ReturnValue))
    else FirstLinkableReturn(target, returnTypes, start + 1)
  }

  /**
   * Where a value of `type` can come from: the first event parameter it can
   * be assigned from, else the first earlier call whose return type it can be
   * assigned from, else nowhere; reading the return type of a missing call or
   * of a getter whose field does not resolve throws before the scan goes on.
   */
  function Linkable(wanted: Option<TypeInfo>, hasEvent: bool, parameterTypes: seq<TypeInfo>,
                    returnTypes: seq<Checked<Option<TypeInfo>>>): (r: Checked<LinkChoice>)
    ensures r.Done? ==> (!r.value.found <==> r.value == NoLink)
    ensures (r.Done? && r.value.found) || r.NullReferenceThrown? ==> wanted.Some? && hasEvent
    ensures r.Done? && r.value.found ==> r.value.linkType == Parameter || r.value.linkType == ReturnValue
    ensures r.Done? && r.value.linkType == Parameter ==>
      0 <= r.value.linkIndex < |parameterTypes| && IsAssignableFrom(wanted.value, parameterTypes[r.value.linkIndex])
      && forall k :: 0 <= k < r.value.linkIndex ==> !IsAssignableFrom(wanted.value, parameterTypes[k])
    ensures (r.Done? && r.value.linkType == ReturnValue) || r.NullReferenceThrown? ==>
      forall k :: 0 <= k < |parameterTypes| ==> !IsAssignableFrom(wanted.value, parameterTypes[k])
    ensures r.Done? && r.value.linkType == ReturnValue ==>
      0 <= r.value.linkIndex < |returnTypes| && ReturnFits(wanted.value, returnTypes[r.value.linkIndex])
      && forall k :: 0 <= k < r.value.linkIndex ==> ReturnMisses(wanted.value, returnTypes[k])
    ensures r.NullReferenceThrown? ==>
      exists k :: 0 <= k < |returnTypes| && returnTypes[k].NullReferenceThrown?
        && forall j :: 0 <= j < k ==> ReturnMisses(wanted.value, returnTypes[j])
    ensures wanted.Some? && hasEvent && r.Done? && !r.value.found ==>
      (forall k :: 0 <= k < |parameterTypes| ==> !IsAssignableFrom(wanted.value, parameterTypes[k]))
      && forall k :: 0 <= k < |returnTypes| ==> ReturnMisses(wanted.value, returnTypes[k])
  {
    if wanted.None? || !hasEvent then Done(NoLink)
    else
      var p := FirstAssignable(wanted.value, Present(parameterTypes), 0);
      if p >= 0 then Done(LinkChoice(true, p, Parameter))
      else FirstLinkableReturn(wanted.value, returnTypes, 0)
  }

  /* ---------------------------------------------------------------- state */

  class DrawerState {
    var eventProperty: Option<SerializedProperty>
    var event: UltEventBase?
    var callProperty: Option<SerializedProperty>
    var targetProperty: Option<SerializedProperty>
    var memberNameProperty: Option<SerializedProperty>
    var persistentArgumentsProperty: Option<SerializedProperty>
    var callIndex: int
    var call: PersistentCall?
    var callParameters: Option<seq<ParameterInfo>>
    var currentField: Option<Member>
    var parameterIndex: int
    /** Whether each call drawn is remembered for later links. */
    var cachePreviousCalls: bool
    /** The calls of the current event drawn before the current one. */
    var previousCalls: seq<PersistentCall?>
    /** The member of each persistent call, taken before an edit of the list. */
    var persistentMemberCache: seq<Option<Member>>

    constructor ()
      ensures eventProperty == None && event == null && callProperty == None
      ensures targetProperty == None && memberNameProperty == None && persistentArgumentsProperty == None
      ensures callIndex == -1 && call == null && callParameters == None && currentField == None && parameterIndex == 0
      ensures !cachePreviousCalls && previousCalls == [] && persistentMemberCache == []
    {
      eventProperty := None;
      event := null;
      callProperty := None;
      targetProperty := None;
      memberNameProperty := None;
      persistentArgumentsProperty := None;
      callIndex := -1;
      call := null;
      callParameters := None;
      currentField := None;
      parameterIndex := 0;
      cachePreviousCalls := false;
      previousCalls := [];
      persistentMemberCache := [];
    }

    /** `CurrentParameterType`: the current parameter's type, else the current field's type. */
    function CurrentParameterType(): Option<TypeInfo>
      requires callParameters.Some? ==> 0 <= parameterIndex < |callParameters.value|
      reads this
    {
      if callParameters.Some? then Some(callParameters.value[parameterIndex].parameterType)
      else if currentField.Some? then Some(currentField.value.valueType)
      else None
    }

    /** `TryBeginEvent`: takes the event the property holds; succeeds when there is one. */
    method TryBeginEvent(property: SerializedProperty, value: UltEventBase?) returns (ok: bool)
      modifies this`event, this`eventProperty
      ensures event == value && (ok <==> value != null)
      ensures eventProperty == if ok then Some(property) else old(eventProperty)
    {
      event := value;
      if event == null {
        return false;
      }
      eventProperty := Some(property);
      ok := true;
    }

    method EndEvent()
      modifies this`event, this`eventProperty
      ensures event == null && eventProperty == None
    {
      eventProperty := None;
      event := null;
    }

    /** `CacheLinkedArguments`: the member of every persistent call, in order, or nothing without a list. */
    method CacheLinkedArguments(env: Env)
      modifies this`persistentMemberCache
      ensures event == null || event.persistentCalls.None? ==> persistentMemberCache == []
      ensures event != null && event.persistentCalls.Some? ==>
        persistentMemberCache == Members(event.persistentCalls.value, env)
    {
      persistentMemberCache := [];
      if event == null || event.persistentCalls.None? {
        return;
      }
      var calls := event.persistentCalls.value;
      var i := 0;
      while i < |calls|
        invariant 0 <= i <= |calls| && |persistentMemberCache| == i
        invariant forall k :: 0 <= k < i ==> persistentMemberCache[k] == MemberOf(calls[k], env)
      {
        persistentMemberCache := persistentMemberCache + [MemberOf(calls[i], env)];
        i := i + 1;
      }
    }

    /** `BeginCache`: takes the member snapshot and starts remembering drawn calls. */
    method BeginCache(env: Env)
      modifies this`persistentMemberCache, this`cachePreviousCalls
      ensures cachePreviousCalls
      ensures persistentMemberCache ==
        if event == null || event.persistentCalls.None? then [] else Members(event.persistentCalls.value, env)
    {
      cachePreviousCalls := true;
      CacheLinkedArguments(env);
    }

    /** `EndCache`: stops remembering and forgets the calls drawn. */
    method EndCache()
      modifies this`cachePreviousCalls, this`previousCalls
      ensures !cachePreviousCalls && previousCalls == []
    {
      cachePreviousCalls := false;
      previousCalls := [];
    }

    /** `BeginCall`: the call's property, its three child properties and the call it holds. */
    method BeginCall(property: SerializedProperty, value: PersistentCall?)
      modifies this`callProperty, this`targetProperty, this`memberNameProperty, this`persistentArgumentsProperty, this`call
      ensures callProperty == Some(property) && call == value
      ensures targetProperty == Some(FindPropertyRelative(property, TargetFieldName))
      ensures memberNameProperty == Some(FindPropertyRelative(property, MemberNameFieldName))
      ensures persistentArgumentsProperty == Some(FindPropertyRelative(property, PersistentArgumentsFieldName))
    {
      callProperty := Some(property);
      targetProperty := Some(FindPropertyRelative(property, TargetFieldName));
      memberNameProperty := Some(FindPropertyRelative(property, MemberNameFieldName));
      persistentArgumentsProperty := Some(FindPropertyRelative(property, PersistentArgumentsFieldName));
      call := value;
    }

    /** `EndCall`: remembers the current call while caching, then lets it go. */
    method EndCall()
      modifies this`previousCalls, this`call
      ensures previousCalls == old(previousCalls) + if cachePreviousCalls then [old(call)] else []
      ensures call == null
    {
      if cachePreviousCalls {
        previousCalls := previousCalls + [call];
      }
      call := null;
    }

    /** `IndexOfMember`: the first persistent call resolving to `member`, or -1. */
    method IndexOfMember(member: Option<Member>, env: Env) returns (r: int)
      requires event != null && event.persistentCalls.Some?
      ensures r == IndexOfFrom(Members(event.persistentCalls.value, env), member, 0)
    {
      var calls := event.persistentCalls.value;
      var i := 0;
      while i < |calls|
        invariant 0 <= i <= |calls|
        invariant forall k :: 0 <= k < i ==> MemberOf(calls[k], env) != member
      {
        if MemberOf(calls[i], env) == member {
          return i;
        }
        i := i + 1;
      }
      return -1;
    }

    /** One argument's share of `UpdateLinkedArguments` (the inner loop's body). */
    method RelinkArgument(a: PersistentArgument, cache: seq<Option<Member>>, ghost members: seq<Option<Member>>, env: Env)
      returns (r: PersistentArgument)
      requires event != null && event.persistentCalls.Some?
      requires Members(event.persistentCalls.value, env) == members
      requires a.argumentType == ReturnValue ==> 0 <= a.linkIndex < |cache|
      ensures r == Relinked(a, cache, members)
    {
      r := a;
      if a.argumentType != ReturnValue {
        return;
      }
      var calls := event.persistentCalls.value;
      var linked := cache[a.linkIndex];
      if a.linkIndex < |calls| && linked == MemberOf(calls[a.linkIndex], env) {
        return;
      }
      var index := IndexOfMember(linked, env);
      if index >= 0 {
        r := a.(linkIndex := index);
      }
    }

    /** One call's share of `UpdateLinkedArguments`: relinks each of its arguments in place. */
    method RelinkCall(c: PersistentCall, cache: seq<Option<Member>>, ghost members: seq<Option<Member>>, env: Env)
      requires event != null && event.persistentCalls.Some?
      requires Members(event.persistentCalls.value, env) == members
      requires LinksInRange(c.arguments, |cache|)
      modifies c`arguments
      ensures c.arguments == RelinkAll(old(c.arguments), cache, members)
      ensures MemberOf(c, env) == old(MemberOf(c, env))
    {
      var args := c.arguments;
      var relinked: seq<PersistentArgument> := [];
      var j := 0;
      while j < |args|
        invariant 0 <= j <= |args| && |relinked| == j && c.arguments == args
        invariant forall k :: 0 <= k < j ==> relinked[k] == Relinked(args[k], cache, members)
      {
        var a := RelinkArgument(args[j], cache, members, env);
        relinked := relinked + [a];
        j := j + 1;
      }
      RelinkKeepsSystemTypes(args, cache, members);
      c.arguments := relinked;
    }

    /**
     * `UpdateLinkedArguments`: after the call list was edited, moves every
     * return-value link to the call that now has the member the snapshot
     * recorded for it (see `Relinked`), then drops the snapshot. Does nothing
     * without an event or a snapshot.
     */
    method UpdateLinkedArguments(env: Env)
      requires event != null && |persistentMemberCache| > 0 ==>
        event.persistentCalls.Some?
        && AllLinksInRange(event.persistentCalls.value, |persistentMemberCache|)
        && DistinctCalls(event.persistentCalls.value)
      modifies this`persistentMemberCache, CallsOf(event)`arguments
      ensures event == null || |old(persistentMemberCache)| == 0 ==>
        persistentMemberCache == old(persistentMemberCache)
        && forall c :: c in CallsOf(event) ==> c.arguments == old(c.arguments)
      ensures event != null && |old(persistentMemberCache)| > 0 ==>
        persistentMemberCache == []
        && forall i :: 0 <= i < |event.persistentCalls.value| && event.persistentCalls.value[i] != null ==>
          event.persistentCalls.value[i].arguments
          == RelinkAll(old(event.persistentCalls.value[i].arguments), old(persistentMemberCache), old(Members(event.persistentCalls.value, env)))
    {
      if event == null || |persistentMemberCache| == 0 {
        return;
      }
      var calls := event.persistentCalls.value;
      var cache := persistentMemberCache;
      ghost var members := Members(calls, env);
      var i := 0;
      while i < |calls|
        invariant 0 <= i <= |calls|
        invariant persistentMemberCache == cache
        invariant Members(calls, env) == members
        invariant forall k :: 0 <= k < i && calls[k] != null ==>
          calls[k].arguments == RelinkAll(old(calls[k].arguments), cache, members)
        invariant forall k :: i <= k < |calls| && calls[k] != null ==> calls[k].arguments == old(calls[k].arguments)
      {
        var c := calls[i];
        if c != null {
          RelinkCall(c, cache, members, env);
          assert forall k :: 0 <= k < |calls| && k != i ==> calls[k] != c;
          assert forall k :: 0 <= k < |calls| ==> MemberOf(calls[k], env) == members[k];
        }
        i := i + 1;
      }
      persistentMemberCache := [];
    }

    /** `GetLinkedMember`: the snapshot entry at `index`, or nothing when out of range. */
    function GetLinkedMember(index: int): (m: Option<Member>)
      reads this
      ensures !(0 <= index < |persistentMemberCache|) ==> m == None
      ensures 0 <= index < |persistentMemberCache| ==> m == persistentMemberCache[index]
    {
      if 0 <= index < |persistentMemberCache| then persistentMemberCache[index] else None
    }

    /**
     * `TryGetLinkable(type, ...)`: the first parameter, else the first earlier
     * call's return value, that fits `type`, or the exception reading a
     * return type raised.
     */
    method TryGetLinkable(wanted: Option<TypeInfo>, env: Env) returns (r: Checked<LinkChoice>)
      ensures r == Linkable(wanted, event != null, if event == null then [] else event.parameterTypes, ReturnTypes(previousCalls, env))
    {
      ghost var returnTypes := ReturnTypes(previousCalls, env);
      if wanted.Some? && event != null {
        var parameterTypes := event.parameterTypes;
        var i := 0;
        while i < |parameterTypes|
          invariant 0 <= i <= |parameterTypes|
          invariant forall k :: 0 <= k < i ==> !AssignableTo(wanted.value, Present(parameterTypes)[k])
        {
          if IsAssignableFrom(wanted.value, parameterTypes[i]) {
            assert FirstAssignable(wanted.value, Present(parameterTypes), 0) == i;
            return Done(LinkChoice(true, i, Parameter));
          }
          i := i + 1;
        }
        assert FirstAssignable(wanted.value, Present(parameterTypes), 0) == -1;
        i := 0;
        while i < |previousCalls|
          invariant 0 <= i <= |previousCalls|
          invariant FirstLinkableReturn(wanted.value, returnTypes, i) == FirstLinkableReturn(wanted.value, returnTypes, 0)
        {
          var call := previousCalls[i];
          if call == null {
            return NullReferenceThrown;
          }
          var returnType := call.ReturnType(env);
          if returnType.NullReferenceThrown? {
            return NullReferenceThrown;
          }
          if returnType.value.Some? && IsAssignableFrom(wanted.value, returnType.value.value) {
            return Done(LinkChoice(true, i, ReturnValue));
          }
          i := i + 1;
        }
        return Done(NoLink);
      }
      return Done(NoLink);
    }

    /** `TryGetLinkable(...)` for the parameter or field being drawn. */
    method TryGetLinkableForCurrent(env: Env) returns (r: Checked<LinkChoice>)
      requires callParameters.Some? ==> 0 <= parameterIndex < |callParameters.value|
      ensures r == Linkable(CurrentParameterType(), event != null, if event == null then [] else event.parameterTypes, ReturnTypes(previousCalls, env))
    {
      r := TryGetLinkable(CurrentParameterType(), env);
    }

    function PreviousCallCount(): nat
      reads this
    {
      |previousCalls|
    }

    /** `GetPreviousCall`: the earlier call at `index`, or null when out of range. */
    function GetPreviousCall(index: int): (c: PersistentCall?)
      reads this
      ensures !(0 <= index < PreviousCallCount()) ==> c == null
      ensures 0 <= index < PreviousCallCount() ==> c == previousCalls[index]
    {
      if 0 <= index < |previousCalls| then previousCalls[index] else null
    }

    /**
     * `CopyFrom`: takes the other state's event, properties, call and
     * parameter position, and its previous calls. The current field, the
     * caching flag and the member snapshot stay. Copying from itself clears
     * the previous calls, since the list is emptied before being refilled.
     */
    method CopyFrom(other: DrawerState)
      modifies this`eventProperty, this`event, this`callProperty, this`targetProperty, this`memberNameProperty
      modifies this`persistentArgumentsProperty, this`callIndex, this`call, this`callParameters, this`parameterIndex
      modifies this`previousCalls
      ensures eventProperty == old(other.eventProperty) && event == old(other.event)
      ensures callProperty == old(other.callProperty) && targetProperty == old(other.targetProperty)
      ensures memberNameProperty == old(other.memberNameProperty)
      ensures persistentArgumentsProperty == old(other.persistentArgumentsProperty)
      ensures callIndex == old(other.callIndex) && call == old(other.call)
      ensures callParameters == old(other.callParameters) && parameterIndex == old(other.parameterIndex)
      ensures previousCalls == if other == this then [] else old(other.previousCalls)
    {
      eventProperty := other.eventProperty;
      event := other.event;
      callProperty := other.callProperty;
      targetProperty := other.targetProperty;
      memberNameProperty := other.memberNameProperty;
      persistentArgumentsProperty := other.persistentArgumentsProperty;
      callIndex := other.callIndex;
      call := other.call;
      callParameters := other.callParameters;
      parameterIndex := other.parameterIndex;
      previousCalls := [];
      previousCalls := previousCalls + other.previousCalls;
    }

    /** `Clear`: forgets the event, the properties, the call and the previous calls. */
    method Clear()
      modifies this`eventProperty, this`event, this`callProperty, this`targetProperty, this`memberNameProperty
      modifies this`persistentArgumentsProperty, this`callIndex, this`call, this`callParameters, this`parameterIndex
      modifies this`previousCalls
      ensures eventProperty == None && event == null
      ensures callProperty == None && targetProperty == None && memberNameProperty == None && persistentArgumentsProperty == None
      ensures callIndex == -1 && call == null && callParameters == None && parameterIndex == 0
      ensures previousCalls == []
    {
      eventProperty := None;
      event := null;
      callProperty := None;
      targetProperty := None;
      memberNameProperty := None;
      persistentArgumentsProperty := None;
      callIndex := -1;
      call := null;
      callParameters := None;
      parameterIndex := 0;
      previousCalls := [];
    }
  }

  /**
   * Drawing an event's calls between `EndCache`/`BeginCache` and the next
   * `EndCache` leaves exactly those calls, in order, as the previous calls.
   */
  method DrawCallsCached(state: DrawerState, property: SerializedProperty, calls: seq<PersistentCall?>, env: Env)
    modifies state
    ensures state.previousCalls == calls && state.cachePreviousCalls
  {
    state.EndCache();
    state.BeginCache(env);
    var i := 0;
    while i < |calls|
      invariant 0 <= i <= |calls|
      invariant state.cachePreviousCalls && state.previousCalls == calls[..i]
    {
      state.BeginCall(property, calls[i]);
      state.EndCall();
      assert calls[..i + 1] == calls[..i] + [calls[i]];
      i := i + 1;
    }
  }
}
