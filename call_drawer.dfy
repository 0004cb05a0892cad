/**
 * The algorithms inside the drawer of a single persistent call: filtering
 * the assemblies the type picker offers, splitting the serialized member
 * name for the type field, the get/set toggle between a property's
 * accessors or a field's read and write, the nearest-name suggestion for a
 * member that no longer resolves, setting the target, and the argument
 * count check before the arguments are drawn.
 */
module CallDrawers {
  import opened Wrappers
  import opened Strings
  import opened Reflection
  import opened PersistentCalls
  import opened DrawerStates
  import opened MemberSelection

  /* ----------------------------------------------------------- assemblies */

  datatype Assembly = Assembly(name: string, isDynamic: bool)

  /** The assemblies that are not dynamic, in order. */
  function NonDynamic(s: seq<Assembly>): (r: seq<Assembly>)
    ensures |r| <= |s|
  {
    if |s| == 0 then []
    else (if s[0].isDynamic then [] else [s[0]]) + NonDynamic(s[1..])
  }

  /** Exactly the assemblies of `s` that are not dynamic survive the filter. */
  lemma {:induction false} NonDynamicMembers(s: seq<Assembly>)
    ensures forall x :: x in NonDynamic(s) <==> x in s && !x.isDynamic
    decreases |s|
  {
    if |s| > 0 {
      NonDynamicMembers(s[1..]);
      assert s == [s[0]] + s[1..];
    }
  }

  lemma {:induction false} NonDynamicConcat(s: seq<Assembly>, t: seq<Assembly>)
    ensures NonDynamic(s + t) == NonDynamic(s) + NonDynamic(t)
    decreases |s|
  {
    if |s| > 0 {
      assert (s + t)[1..] == s[1..] + t;
      NonDynamicConcat(s[1..], t);
    } else {
      assert s + t == t;
    }
  }

  /** A non-dynamic assembly occurs in the filter as often as in the input, a dynamic one never. */
  lemma {:induction false} NonDynamicCounts(s: seq<Assembly>)
    ensures forall x :: multiset(NonDynamic(s))[x] == if x.isDynamic then 0 else multiset(s)[x]
    decreases |s|
  {
    if |s| > 0 {
      NonDynamicCounts(s[1..]);
      assert s == [s[0]] + s[1..];
    }
  }

  /**
   * Progress of the filter: the assemblies before `i` are kept and not
   * dynamic, and every non-dynamic assembly occurs before `count` as often
   * as in `original`.
   */
  ghost predicate Accounted(s: seq<Assembly>, i: nat, count: nat, original: seq<Assembly>)
  {
    i <= count <= |s|
    && (forall k :: 0 <= k < i ==> !s[k].isDynamic)
    && forall x: Assembly :: !x.isDynamic ==> multiset(s[..count])[x] == multiset(original)[x]
  }

  /** Overwriting slot `i` with the last unchecked assembly and dropping the last loses just the one at `i`. */
  lemma {:induction false} SwapRemoveCounts(s: seq<Assembly>, i: nat, last: nat, t: seq<Assembly>)
    requires i <= last < |s| && t == s[i := s[last]]
    ensures multiset(s[..last + 1]) == multiset(t[..last]) + multiset{s[i]}
  {
    if i < last {
      var middle := s[i + 1..last];
      assert s[..last + 1] == s[..i] + [s[i]] + middle + [s[last]];
      assert t[..last] == s[..i] + [s[last]] + middle;
    } else {
      assert s[..last + 1] == s[..i] + [s[i]];
      assert t[..last] == s[..i];
    }
  }

  /** Keeping a non-dynamic assembly at `i` extends the checked prefix. */
  lemma {:induction false} KeepStep(s: seq<Assembly>, i: nat, count: nat, original: seq<Assembly>)
    requires Accounted(s, i, count, original) && i < count && !s[i].isDynamic
    ensures Accounted(s, i + 1, count, original)
  {
  }

  /** Overwriting a dynamic assembly with the last unchecked one and dropping the last keeps the account. */
  lemma {:induction false} SwapRemoveStep(s: seq<Assembly>, i: nat, count: nat, original: seq<Assembly>)
    requires Accounted(s, i, count, original) && i < count && s[i].isDynamic
    ensures Accounted(s[i := s[count - 1]], i, count - 1, original)
  {
    var t := s[i := s[count - 1]];
    SwapRemoveCounts(s, i, count - 1, t);
    assert forall k :: 0 <= k < i ==> t[k] == s[k];
    forall x: Assembly | !x.isDynamic
      ensures multiset(t[..count - 1])[x] == multiset(original)[x]
    {
      assert x != s[i];
    }
  }

  /** Once nothing is left to check, the kept prefix holds the non-dynamic assemblies, each once. */
  lemma {:induction false} FilterDone(s: seq<Assembly>, count: nat, original: seq<Assembly>)
    requires Accounted(s, count, count, original)
    ensures forall k :: 0 <= k < count ==> !s[k].isDynamic
    ensures multiset(s[..count]) == multiset(NonDynamic(original))
    ensures count == |NonDynamic(original)|
  {
    NonDynamicCounts(original);
    forall x
      ensures multiset(s[..count])[x] == multiset(NonDynamic(original))[x]
    {
      if x.isDynamic {
        assert forall k :: 0 <= k < count ==> s[..count][k] != x;
        assert x !in s[..count];
      }
    }
    assert multiset(s[..count]) == multiset(NonDynamic(original));
    assert |multiset(s[..count])| == count;
  }

  /**
   * `FilterSupportedAssemblies`: removes the dynamic assemblies by moving the
   * last counted one into each removed slot and checking that slot again.
   * The assemblies before `count` are then a reordering of the non-dynamic
   * ones.
   */
  method FilterSupportedAssemblies(assemblies: array<Assembly>) returns (count: nat)
    modifies assemblies
    ensures count <= assemblies.Length
    ensures forall k :: 0 <= k < count ==> !assemblies[k].isDynamic
    ensures multiset(assemblies[..count]) == multiset(NonDynamic(old(assemblies[..])))
    ensures count == |NonDynamic(old(assemblies[..]))|
  {
    ghost var original := assemblies[..];
    count := assemblies.Length;
    var i := 0;
    assert assemblies[..][..count] == original;
    while i < count
      invariant i <= count <= assemblies.Length
      invariant Accounted(assemblies[..], i, count, original)
      decreases count - i
    {
      var assembly := assemblies[i];
      if !assembly.isDynamic {
        KeepStep(assemblies[..], i, count, original);
        i := i + 1;
        continue;
      }
      ghost var before := assemblies[..];
      SwapRemoveStep(before, i, count, original);
      count := count - 1;
      assemblies[i] := assemblies[count];
      assert assemblies[..] == before[i := before[count]];
    }
    ghost var final := assemblies[..];
    FilterDone(final, count, original);
    assert final[..count] == assemblies[..count];
    assert forall k :: 0 <= k < count ==> final[k] == assemblies[k];
  }

  /* ----------------------------------------------------------- type field */

  /**
   * The type field's split of the serialized member name at its last '.':
   * the declaring type's name and the member's name, or no type name and the
   * whole string when there is no '.'.
   */
  function SplitMemberName(name: string): (r: (string, string))
    ensures '.' !in name ==> r == ("", name)
    ensures '.' in name ==> name == r.0 + "." + r.1 && '.' !in r.1
  {
    var lastDot := LastIndexOf(name, '.');
    if lastDot >= 0 then
      assert name == name[..lastDot] + "." + name[lastDot + 1..];
      (name[..lastDot], name[lastDot + 1..])
    else ("", name)
  }

  /** Splitting a type name joined to a member name by '.' gives both back. */
  lemma {:induction false} SplitJoinedName(q: string, m: string)
    requires '.' !in m
    ensures SplitMemberName(q + "." + m) == (q, m)
  {
    var n := q + "." + m;
    LastDotOfJoined(q, m);
    assert n[..|q|] == q && n[|q| + 1..] == m;
  }

  /** What the type picker writes back: nothing for no type, else the type's name, '.', and the member name. */
  function TypeFieldValue(chosen: Option<TypeInfo>, methodName: string): (r: string)
    ensures chosen.None? <==> r == ""
    ensures chosen.Some? ==> |r| == |chosen.value.assemblyQualifiedName| + 1 + |methodName|
  {
    if chosen.None? then ""
    else chosen.value.assemblyQualifiedName + "." + methodName
  }

  /** The type field reads back the type and member name the picker wrote. */
  lemma {:induction false} TypeFieldRoundTrip(t: TypeInfo, methodName: string)
    requires '.' !in methodName
    ensures SplitMemberName(TypeFieldValue(Some(t), methodName)) == (t.assemblyQualifiedName, methodName)
  {
    SplitJoinedName(t.assemblyQualifiedName, methodName);
  }

  /** Picking again the type the field shows writes back exactly the name it was split from. */
  lemma {:induction false} TypeFieldRewritesSameName(name: string, t: TypeInfo)
    requires '.' in name && t.assemblyQualifiedName == SplitMemberName(name).0
    ensures TypeFieldValue(Some(t), SplitMemberName(name).1) == name
  {
  }

  /**
   * The type picker's setter: writes the new member name, and for no type
   * points the call back at the object that owns the event. Writing the
   * properties back deserializes the call, which clears its cache.
   */
  method SetTypeField(call: PersistentCall, chosen: Option<TypeInfo>, methodName: string, owner: Option<ObjectRef>)
    modifies call
    ensures call.memberName == Some(TypeFieldValue(chosen, methodName))
    ensures call.target == if chosen.None? then owner else old(call.target)
    ensures call.arguments == old(call.arguments)
    ensures call.cachedMethod == None && call.cachedField == None
  {
    call.memberName := Some(TypeFieldValue(chosen, methodName));
    if chosen.None? {
      call.target := owner;
    }
    call.ClearCache();
  }

  /* ------------------------------------------------------ get/set toggle */

  predicate IsGetterName(name: string)
  {
    |name| > 4 && name[..4] == "get_"
  }

  predicate IsSetterName(name: string)
  {
    |name| > 4 && name[..4] == "set_"
  }

  /** The other accessor's name: "get_" and "set_" swapped, the rest kept; nothing for any other name. */
  function OppositeAccessorName(name: string): (r: Option<string>)
    ensures r.Some? <==> IsGetterName(name) || IsSetterName(name)
    ensures r.Some? ==> |r.value| == |name| && r.value[4..] == name[4..]
    ensures IsGetterName(name) ==> r.value[..4] == "set_"
    ensures IsSetterName(name) ==> r.value[..4] == "get_"
  {
    if |name| <= 4 || name[3] != '_' || name[2] != 't' || name[1] != 'e' then None
    else
      var isGet := name[0] == 'g';
      var isSet := name[0] == 's';
      if !isGet && !isSet then None
      else
        var r := (if isGet then "set_" else "get_") + name[4..];
        assert r[..4] == (if isGet then "set_" else "get_");
        assert r[4..] == name[4..];
        Some(r)
  }

  /** Toggling twice gives back the accessor one started from. */
  lemma {:induction false} OppositeAccessorInvolution(name: string)
    requires IsGetterName(name) || IsSetterName(name)
    ensures OppositeAccessorName(OppositeAccessorName(name).value) == Some(name)
  {
    var o := OppositeAccessorName(name).value;
    assert IsGetterName(o) || IsSetterName(o);
    var back := OppositeAccessorName(o).value;
    assert back[..4] == name[..4];
    assert back == back[..4] + back[4..] && name == name[..4] + name[4..];
  }

  /**
   * The accessor the toggle switches a method to: the other accessor of the
   * same property, when the declaring type has it and, when leaving a
   * getter, the getter's type can be supplied to the setter; that support
   * check may throw.
   */
  method AccessorToggle(m: Member, findMethod: (TypeInfo, string) -> Option<Member>, state: DrawerState, env: Env)
    returns (r: Checked<Option<Member>>)
    ensures r.NullReferenceThrown? <==> (OppositeAccessorName(m.name).Some?
                                         && findMethod(m.declaringType, OppositeAccessorName(m.name).value).Some?
                                         && IsGetterName(m.name)
                                         && TypeSupport(ReturnTypeOf(m), state, env).NullReferenceThrown?)
    ensures r.Done? ==> (r.value.Some? <==> (OppositeAccessorName(m.name).Some?
                                             && findMethod(m.declaringType, OppositeAccessorName(m.name).value).Some?
                                             && (IsGetterName(m.name) ==> SupportedType(ReturnTypeOf(m), state, env))))
    ensures r.Done? && r.value.Some? ==> r.value == findMethod(m.declaringType, OppositeAccessorName(m.name).value)
  {
    var opposite := OppositeAccessorName(m.name);
    if opposite.None? {
      return Done(None);
    }
    var isGet := m.name[0] == 'g';
    var oppositeMethod := findMethod(m.declaringType, opposite.value);
    if oppositeMethod.None? {
      return Done(None);
    }
    if isGet {
      var supported := IsSupported(ReturnTypeOf(m), state, env);
      if supported.NullReferenceThrown? {
        return NullReferenceThrown;
      }
      if !supported.value {
        return Done(None);
      }
    }
    r := Done(oppositeMethod);
  }

  /**
   * The field toggle: a getter can become a setter only when the field's
   * type can be supplied; the answer is whether the call becomes a getter,
   * or the exception the support check raised.
   */
  method FieldToggle(call: PersistentCall, field: Member, state: DrawerState, env: Env) returns (becomesGetter: Checked<Option<bool>>)
    ensures becomesGetter.NullReferenceThrown? <==> call.IsGetter() && TypeSupport(field.valueType, state, env).NullReferenceThrown?
    ensures becomesGetter.Done? ==> (becomesGetter.value.None? <==> call.IsGetter() && !SupportedType(field.valueType, state, env))
    ensures becomesGetter.Done? && becomesGetter.value.Some? ==> becomesGetter.value.value == !call.IsGetter()
  {
    var isGet := call.IsGetter();
    if isGet {
      var supported := IsSupported(field.valueType, state, env);
      if supported.NullReferenceThrown? {
        return NullReferenceThrown;
      }
      if !supported.value {
        return Done(None);
      }
    }
    becomesGetter := Done(Some(!isGet));
  }

  /** Clicking the field toggle stores the same field with the other access. */
  method ApplyFieldToggle(call: PersistentCall, field: Member)
    requires field.kind == FieldMember
    modifies call
    ensures call.memberName == Some(FieldMemberName(field)) && call.IsField()
    ensures call.IsGetter() <==> !old(call.IsGetter())
  {
    var _ := call.SetField(Some(field), call.target, !call.IsGetter());
  }

  /* ---------------------------------------------------------- suggestion */

  /** The name the suggestion compares against: the text after the last '.', or nothing when that is empty. */
  function SuggestionName(methodName: string): (r: Option<string>)
    ensures r.None? <==> methodName == "" || methodName[|methodName| - 1] == '.'
    ensures r.Some? ==> r.value == SplitMemberName(methodName).1 && r.value != ""
    ensures '.' !in methodName && methodName != "" ==> r == Some(methodName)
  {
    if methodName == "" then None
    else
      var split := SplitMemberName(methodName);
      var suffix := split.1;
      assert '.' in methodName && suffix == "" ==> methodName == split.0 + ".";
      assert '.' in methodName && suffix != "" ==> methodName[|methodName| - 1] == suffix[|suffix| - 1];
      if suffix == "" then None else Some(suffix)
  }

  /** A qualified name suggests against its member part alone. */
  lemma {:induction false} SuggestionOfQualified(q: string, m: string)
    requires '.' !in m && m != ""
    ensures SuggestionName(q + "." + m) == Some(m)
  {
    SplitJoinedName(q, m);
  }

  /**
   * The suggestion loop: the member of least distance, the earliest one
   * among equals since only a strictly smaller distance replaces it.
   */
  method PickClosest(name: string, methods: seq<Member>, distance: (string, string) -> int)
    returns (bestIndex: nat, best: Member)
    requires |methods| > 0
    ensures bestIndex < |methods| && best == methods[bestIndex]
    ensures forall k :: 0 <= k < |methods| ==> distance(name, methods[k].name) >= distance(name, best.name)
    ensures forall k :: 0 <= k < bestIndex ==> distance(name, methods[k].name) > distance(name, best.name)
  {
    bestIndex := 0;
    best := methods[0];
    var bestDistance := distance(name, best.name);
    var i := 1;
    while i < |methods|
      invariant 1 <= i <= |methods|
      invariant bestIndex < i && best == methods[bestIndex] && bestDistance == distance(name, best.name)
      invariant forall k :: 0 <= k < i ==> distance(name, methods[k].name) >= bestDistance
      invariant forall k :: 0 <= k < bestIndex ==> distance(name, methods[k].name) > bestDistance
    {
      var method_ := methods[i];
      var d := distance(name, method_.name);
      if bestDistance > d {
        bestDistance := d;
        best := method_;
        bestIndex := i;
      }
      i := i + 1;
    }
  }

  /**
   * `DoMethodNameSuggestionGUI`: no suggestion without a declaring type, a
   * name to compare or any method; otherwise the closest method.
   */
  method SuggestMethod(declaringType: Option<TypeInfo>, methodName: string, methods: seq<Member>,
                       distance: (string, string) -> int) returns (r: Option<Member>)
    ensures r.None? <==> declaringType.None? || SuggestionName(methodName).None? || |methods| == 0
    ensures r.Some? ==> r.value in methods && forall k :: 0 <= k < |methods| ==>
      distance(SuggestionName(methodName).value, methods[k].name) >= distance(SuggestionName(methodName).value, r.value.name)
  {
    if declaringType.None? {
      return None;
    }
    var name := SuggestionName(methodName);
    if name.None? || |methods| == 0 {
      return None;
    }
    var _, best := PickClosest(name.value, methods, distance);
    r := Some(best);
  }

  /* ------------------------------------------------------ target, method */

  /** What a call with these serialized fields resolves to when nothing is cached. */
  function FreshMember(memberName: Option<string>, target: Option<ObjectRef>, arguments: seq<PersistentArgument>, env: Env): Option<Member>
  {
    if IsFieldName(memberName) then LookupField(memberName, target, env)
    else LookupMethod(memberName, target, SystemTypes(arguments), env)
  }

  /**
   * `SetTarget`: stores the target, then clears the method when there is no
   * target or the stored member no longer resolves on it.
   */
  method SetTarget(state: DrawerState, target: Option<ObjectRef>, env: Env)
    requires state.call != null
    modifies state.call
    ensures state.call.target == target
    ensures target.None? || FreshMember(old(state.call.memberName), target, old(state.call.arguments), env).None? ==>
      state.call.memberName == None && state.call.arguments == []
      && state.call.cachedMethod == None && state.call.cachedField == None
    ensures target.Some? && FreshMember(old(state.call.memberName), target, old(state.call.arguments), env).Some? ==>
      state.call.memberName == old(state.call.memberName) && state.call.arguments == old(state.call.arguments)
      && state.call.ResolvedMember(env) == FreshMember(old(state.call.memberName), target, old(state.call.arguments), env)
  {
    var call := state.call;
    call.target := target;
    call.ClearCache();
    if target.None? {
      SetMethod(call, None);
      return;
    }
    var member := call.GetMemberSafe(env);
    if member.None? {
      SetMethod(call, None);
    }
  }

  /** `SetMethod(MethodInfo)`: stores the method on the call with the call's current target, if there is a call. */
  method SetMethod(call: PersistentCall?, handle: Option<Member>)
    modifies call
    ensures call != null ==> call.cachedMethod == handle && call.cachedField == None
    ensures call != null && handle.None? ==>
      call.target == old(call.target) && call.memberName == None && call.arguments == []
    ensures call != null && handle.Some? ==>
      call.memberName == Some(MethodMemberName(handle.value)) && call.target == StoredTarget(handle.value, old(call.target))
      && SystemTypes(call.arguments) == Some(ParameterTypes(handle.value.parameters))
  {
    if call != null {
      call.SetMethod(handle, call.target);
    }
  }

  /* ------------------------------------------------------------ arguments */

  /**
   * `DrawMethodArguments`: when the parameter count equals the serialized
   * argument count, draws the arguments in order until one reports that
   * drawing must stop; otherwise logs the mismatch and draws nothing. The
   * indices drawn are returned.
   */
  method DrawMethodArguments(state: DrawerState, parameters: seq<ParameterInfo>, argumentCount: nat, drawArgument: nat -> bool)
    returns (drawn: seq<nat>, loggedMismatch: bool)
    modifies state`callParameters
    ensures state.callParameters == None
    ensures loggedMismatch <==> |parameters| != argumentCount
    ensures loggedMismatch ==> drawn == []
    ensures |drawn| <= |parameters| && forall k :: 0 <= k < |drawn| ==> drawn[k] == k
    ensures forall k :: 0 <= k < |drawn| - 1 ==> drawArgument(k)
    ensures !loggedMismatch ==>
      (|drawn| == |parameters| && forall k :: 0 <= k < |drawn| ==> drawArgument(k))
      || (|drawn| > 0 && !drawArgument(|drawn| - 1))
  {
    state.callParameters := Some(parameters);
    drawn := [];
    loggedMismatch := false;
    if |parameters| == argumentCount {
      var i := 0;
      while i < |parameters|
        invariant 0 <= i <= |parameters| && |drawn| == i
        invariant forall k :: 0 <= k < i ==> drawn[k] == k && drawArgument(k)
      {
        drawn := drawn + [i];
        if !drawArgument(i) {
          break;
        }
        i := i + 1;
      }
    } else {
      loggedMismatch := true;
    }
    state.callParameters := None;
  }
}
