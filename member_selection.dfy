/**
 * The helpers behind the member picker: which binding flags it searches,
 * how it orders members, how it tells same-typed components apart, which
 * members it offers, how it writes their signatures, and what its "Null"
 * item does to a call.
 */
module MemberSelection {
  import opened Wrappers
  import opened Strings
  import opened Reflection
  import opened PersistentCalls
  import opened DrawerStates

  /* ------------------------------------------------------ binding flags */

  const InstanceFlag: bv32 := 4
  const StaticFlag: bv32 := 8
  const PublicFlag: bv32 := 16
  const NonPublicFlag: bv32 := 32

  /** `GetBindingFlags`: public instance members, plus non-public and static ones as the preferences say. */
  function GetBindingFlags(showNonPublic: bool, showStatic: bool): (r: bv32)
    ensures r & PublicFlag == PublicFlag && r & InstanceFlag == InstanceFlag
    ensures r & NonPublicFlag == NonPublicFlag <==> showNonPublic
    ensures r & StaticFlag == StaticFlag <==> showStatic
    ensures r & !(PublicFlag | InstanceFlag | NonPublicFlag | StaticFlag) == 0
  {
    var bindings := PublicFlag | InstanceFlag;
    var withNonPublic := if showNonPublic then bindings | NonPublicFlag else bindings;
    if showStatic then withNonPublic | StaticFlag else withNonPublic
  }

  /* ------------------------------------------------------------ null item */

  /**
   * The name the "Null" item leaves on a static call: the declaring type and
   * its '.', without the member; nothing when there is no '.'.
   */
  function NullItemMemberName(name: string): (r: Option<string>)
    ensures '.' !in name <==> r == None
    ensures r.Some? ==>
      0 < |r.value| <= |name| && r.value == name[..|r.value|] && r.value[|r.value| - 1] == '.'
      && '.' !in name[|r.value|..]
  {
    var lastDot := LastIndexOf(name, '.');
    if lastDot < 0 then None
    else
      Some(name[..lastDot + 1])
  }

  /** The "Null" item on a static call keeps the declaring type: the trimmed name still decodes to it, with an empty member. */
  lemma {:induction false} NullItemKeepsDeclaringType(q: string, m: string, getType: string -> Option<TypeInfo>)
    requires '.' !in m
    ensures NullItemMemberName(q + "." + m) == Some(q + ".")
    ensures GetMemberDetails(NullItemMemberName(q + "." + m), None, getType) == MemberDetails(getType(q), Some(""))
  {
    var n := q + "." + m;
    LastDotOfJoined(q, m);
    assert n[..|q| + 1] == q + ".";
    var t := q + ".";
    LastDotOfJoined(q, "");
    assert q + "." + "" == t;
    assert t[..|q|] == q && t[|q| + 1..] == "";
  }

  /**
   * The "Null" item: with targets it clears the method; without (a static
   * call) it trims the name to its declaring type and drops the arguments.
   * Writing the properties back deserializes the call, which clears its cache.
   */
  method ApplyNullItem(call: PersistentCall, hasTargets: bool)
    modifies call
    ensures hasTargets ==> call.memberName == None && call.arguments == [] && call.target == old(call.target)
    ensures !hasTargets ==>
      call.memberName == NullItemMemberName(if old(call.memberName).Some? then old(call.memberName).value else "")
      && call.arguments == [] && call.target == old(call.target)
    ensures call.cachedMethod == None && call.cachedField == None
  {
    if hasTargets {
      call.SetMethod(None, call.target);
    } else {
      var name := if call.memberName.Some? then call.memberName.value else "";
      call.memberName := NullItemMemberName(name);
      call.arguments := [];
      call.ClearCache();
    }
  }

  /* ------------------------------------------------------------- ordering */

  /** Where a type's members go relative to `b`'s: 0 for the same type, -1 when `b` is one of its bases, else 1. */
  function ChildBeforeBase(a: TypeInfo, b: TypeInfo): (r: int)
    ensures r == 0 <==> a == b
    ensures r == -1 <==> IsSubclassOf(a, b)
    ensures r == 1 <==> a != b && !IsSubclassOf(a, b)
  {
    if a == b then NotOwnSubclass(a); 0
    else if IsSubclassOf(a, b) then -1
    else
      1
  }

  /** `CompareChildBeforeBase`: walks `a`'s base chain looking for `b`. */
  method CompareChildBeforeBase(a: TypeInfo, b: TypeInfo) returns (r: int)
    ensures r == ChildBeforeBase(a, b)
  {
    if a == b {
      return 0;
    }
    var current := a;
    while true
      invariant IsSubclassOf(a, b) <==> IsSubclassOf(current, b)
      decreases current
    {
      if current.baseType.None? {
        return 1;
      }
      current := current.baseType.value;
      if current == b {
        return -1;
      }
    }
  }

  lemma {:induction false} ChildBeforeBaseAntisymmetric(a: TypeInfo, b: TypeInfo)
    requires a == b || IsSubclassOf(a, b) || IsSubclassOf(b, a)
    ensures ChildBeforeBase(a, b) == -ChildBeforeBase(b, a)
  {
    if IsSubclassOf(a, b) {
      NotMutualSubclasses(a, b);
    } else if IsSubclassOf(b, a) {
      NotMutualSubclasses(b, a);
    }
  }

  /** Two unrelated types each sort after the other, so the order is only meaningful along one base chain. */
  lemma UnrelatedTypesBothSortAfter()
    ensures ChildBeforeBase(ComponentType, ScriptableObjectType) == 1
    ensures ChildBeforeBase(ScriptableObjectType, ComponentType) == 1
  {
    assert Ancestors(ComponentType) == [EngineObjectType];
    assert Ancestors(ScriptableObjectType) == [EngineObjectType];
  }

  /** Fields first, then properties, then methods and constructors. */
  function KindRank(m: Member): nat
  {
    match m.kind
    case FieldMember => 0
    case PropertyMember => 1
    case _ => 2
  }

  function Sign(x: int): int
  {
    if x < 0 then -1 else if x > 0 then 1 else 0
  }

  /**
   * `CompareMembers`: declaring type first (when each base type has its own
   * sub-menu), then fields before properties before the rest, then public
   * before non-public (when those are grouped), then by name.
   */
  function CompareMembers(a: Member, b: Member, subMenuForEachBaseType: bool, groupNonPublic: bool,
                          compareNames: (string, string) -> int): (r: int)
    ensures subMenuForEachBaseType && a.declaringType != b.declaringType ==>
      r == ChildBeforeBase(a.declaringType, b.declaringType)
    ensures (!subMenuForEachBaseType || a.declaringType == b.declaringType) && KindRank(a) != KindRank(b) ==>
      r == if KindRank(a) < KindRank(b) then -1 else 1
    ensures ((!subMenuForEachBaseType || a.declaringType == b.declaringType) && KindRank(a) == KindRank(b)
             && groupNonPublic && a.isPublic != b.isPublic) ==>
      r == if a.isPublic then -1 else 1
    ensures ((!subMenuForEachBaseType || a.declaringType == b.declaringType) && KindRank(a) == KindRank(b)
             && (!groupNonPublic || a.isPublic == b.isPublic)) ==>
      r == compareNames(a.name, b.name)
  {
    var byType := if subMenuForEachBaseType then ChildBeforeBase(a.declaringType, b.declaringType) else 0;
    if byType != 0 then byType
    else if KindRank(a) != KindRank(b) then (if KindRank(a) < KindRank(b) then -1 else 1)
    else if groupNonPublic && a.isPublic != b.isPublic then (if a.isPublic then -1 else 1)
    else compareNames(a.name, b.name)
  }

  /** Over members declared along one base chain, swapping the operands flips the sign of the comparison. */
  lemma {:induction false} CompareMembersAntisymmetric(a: Member, b: Member, subMenuForEachBaseType: bool, groupNonPublic: bool,
                                                       compareNames: (string, string) -> int)
    requires a.declaringType == b.declaringType || IsSubclassOf(a.declaringType, b.declaringType)
      || IsSubclassOf(b.declaringType, a.declaringType)
    requires Sign(compareNames(a.name, b.name)) == -Sign(compareNames(b.name, a.name))
    ensures Sign(CompareMembers(a, b, subMenuForEachBaseType, groupNonPublic, compareNames))
      == -Sign(CompareMembers(b, a, subMenuForEachBaseType, groupNonPublic, compareNames))
  {
    ChildBeforeBaseAntisymmetric(a.declaringType, b.declaringType);
  }

  /* ----------------------------------------------------------- components */

  /** How many objects of `s` have exactly type `t`. */
  function CountOfType(s: seq<ObjectRef>, t: TypeInfo): nat
  {
    if |s| == 0 then 0
    else CountOfType(s[..|s| - 1], t) + (if s[|s| - 1].objectType == t then 1 else 0)
  }

  /** The object of exactly type `t` that has `n` such objects before it, if any. */
  function NthOfType(s: seq<ObjectRef>, t: TypeInfo, n: int): (r: Option<ObjectRef>)
    ensures r.Some? ==> 0 <= n < CountOfType(s, t) && r.value in s && r.value.objectType == t
  {
    if |s| == 0 then None
    else if CountOfType(s[..|s| - 1], t) > n then NthOfType(s[..|s| - 1], t, n)
    else if s[|s| - 1].objectType == t && CountOfType(s[..|s| - 1], t) == n then Some(s[|s| - 1])
    else None
  }

  lemma {:induction false} CountOfTypePrefix(s: seq<ObjectRef>, t: TypeInfo, j: nat, k: nat)
    requires j <= k <= |s|
    ensures CountOfType(s[..j], t) <= CountOfType(s[..k], t)
    decreases k - j
  {
    if j < k {
      CountOfTypePrefix(s, t, j, k - 1);
      assert s[..k][..k - 1] == s[..k - 1];
    }
  }

  /** Counting the same-typed objects before one and then asking for that many finds it again. */
  lemma {:induction false} NthOfTypeFindsIndexed(s: seq<ObjectRef>, t: TypeInfo, p: nat)
    requires p < |s| && s[p].objectType == t
    ensures NthOfType(s, t, CountOfType(s[..p], t)) == Some(s[p])
    decreases |s|
  {
    var prefix := s[..|s| - 1];
    var n := CountOfType(s[..p], t);
    if p == |s| - 1 {
      assert prefix == s[..p];
    } else {
      assert prefix[..p] == s[..p];
      assert prefix[..p + 1] == s[..p + 1];
      assert s[..p + 1][..p] == s[..p];
      assert CountOfType(s[..p + 1], t) == n + 1;
      CountOfTypePrefix(prefix, t, p + 1, |prefix|);
      assert prefix[..|prefix|] == prefix;
      NthOfTypeFindsIndexed(prefix, t, p);
    }
  }

  /**
   * `GetComponentTypeIndex`: how many components of exactly the same type
   * come before `component` (all of them when it is not in the list).
   */
  method GetComponentTypeIndex(component: ObjectRef, components: seq<ObjectRef>) returns (count: nat, t: TypeInfo)
    ensures t == component.objectType
    ensures var stop := IndexOfFrom(components, component, 0);
      count == CountOfType(components[..if stop < 0 then |components| else stop], t)
  {
    t := component.objectType;
    count := 0;
    var i := 0;
    while i < |components|
      invariant 0 <= i <= |components|
      invariant forall k :: 0 <= k < i ==> components[k] != component
      invariant count == CountOfType(components[..i], t)
    {
      var c := components[i];
      if c == component {
        break;
      }
      assert components[..i + 1][..i] == components[..i];
      if c.objectType == t {
        count := count + 1;
      }
      i := i + 1;
    }
  }

  /**
   * `GetComponent`: counts the components of exactly type `t` and picks the
   * one with `targetIndex` such components before it, if there is one.
   */
  method GetComponent(components: seq<ObjectRef>, t: TypeInfo, targetIndex: int)
    returns (numberOfComponentsOfType: nat, targetComponent: Option<ObjectRef>)
    ensures numberOfComponentsOfType == CountOfType(components, t)
    ensures targetComponent == NthOfType(components, t, targetIndex)
    ensures targetComponent.Some? <==> 0 <= targetIndex < numberOfComponentsOfType
  {
    numberOfComponentsOfType := 0;
    targetComponent := None;
    var i := 0;
    while i < |components|
      invariant 0 <= i <= |components|
      invariant numberOfComponentsOfType == CountOfType(components[..i], t)
      invariant targetComponent == NthOfType(components[..i], t, targetIndex)
      invariant targetComponent.Some? <==> 0 <= targetIndex < numberOfComponentsOfType
    {
      var component := components[i];
      assert components[..i + 1][..i] == components[..i];
      if component.objectType == t {
        if numberOfComponentsOfType == targetIndex {
          targetComponent := Some(component);
        }
        numberOfComponentsOfType := numberOfComponentsOfType + 1;
      }
      i := i + 1;
    }
    assert components[..|components|] == components;
  }

  /**
   * Selecting a component on one object and then on another with the same
   * components: the index counted on the first picks the same component.
   */
  method ComponentRoundTrip(component: ObjectRef, components: seq<ObjectRef>) returns (found: Option<ObjectRef>)
    requires component in components
    ensures found == Some(component)
  {
    var index, t := GetComponentTypeIndex(component, components);
    var p := IndexOfFrom(components, component, 0);
    NthOfTypeFindsIndexed(components, t, p);
    var _, chosen := GetComponent(components, t, index);
    found := chosen;
  }

  /** `ValidateTargetsAndGetFirst`: the first target when every target is there and has exactly its type. */
  method ValidateTargetsAndGetFirst(targets: seq<Option<ObjectRef>>) returns (r: Option<ObjectRef>)
    requires |targets| > 0
    ensures r.Some? <==> (targets[0].Some? &&
                          forall i :: 0 <= i < |targets| ==> targets[i].Some? && targets[i].value.objectType == targets[0].value.objectType)
    ensures r.Some? ==> r == targets[0]
  {
    var first := targets[0];
    if first.None? {
      return None;
    }
    var targetType := first.value.objectType;
    var i := 1;
    while i < |targets|
      invariant 1 <= i <= |targets|
      invariant forall k :: 0 <= k < i ==> targets[k].Some? && targets[k].value.objectType == targetType
    {
      var obj := targets[i];
      if obj.None? || obj.value.objectType != targetType {
        return None;
      }
      i := i + 1;
    }
    return first;
  }

  /* ------------------------------------------------------------ supported */

  /**
   * `IsSupported(Type)`: a constant argument can hold it, or some parameter or
   * earlier return value can be linked; the link search may throw.
   */
  function TypeSupport(t: TypeInfo, state: DrawerState, env: Env): (r: Checked<bool>)
    reads state, state.previousCalls
    ensures IsSupportedNative(t) ==> r == Done(true)
    ensures !IsSupportedNative(t) ==> r.NullReferenceThrown? == LinkSearch(t, state, env).NullReferenceThrown?
    ensures !IsSupportedNative(t) && r.Done? ==> r.value == LinkSearch(t, state, env).value.found
  {
    if IsSupportedNative(t) then Done(true)
    else match LinkSearch(t, state, env)
      case NullReferenceThrown => NullReferenceThrown
      case Done(choice) => Done(choice.found)
  }

  /** What `DrawerState.Current.TryGetLinkable(t, ...)` answers. */
  function LinkSearch(t: TypeInfo, state: DrawerState, env: Env): Checked<LinkChoice>
    reads state, state.previousCalls
  {
    Linkable(Some(t), state.event != null, if state.event == null then [] else state.event.parameterTypes,
             ReturnTypes(state.previousCalls, env))
  }

  predicate SupportedType(t: TypeInfo, state: DrawerState, env: Env)
    reads state, state.previousCalls
  {
    TypeSupport(t, state, env) == Done(true)
  }

  method IsSupported(t: TypeInfo, state: DrawerState, env: Env) returns (r: Checked<bool>)
    ensures r == TypeSupport(t, state, env)
  {
    if IsSupportedNative(t) {
      return Done(true);
    }
    var link := state.TryGetLinkable(Some(t), env);
    if link.NullReferenceThrown? {
      return NullReferenceThrown;
    }
    r := Done(link.value.found);
  }

  /**
   * `IsSupported(ParameterInfo[])` from `start`: the answer for the first
   * parameter that is not supported (false, or the exception its check
   * raised), or true when every one is.
   */
  function ParametersSupport(parameters: seq<ParameterInfo>, start: nat, state: DrawerState, env: Env): Checked<bool>
    requires start <= |parameters|
    reads state, state.previousCalls
    decreases |parameters| - start
  {
    if start == |parameters| then Done(true)
    else
      var first := TypeSupport(parameters[start].parameterType, state, env);
      if first != Done(true) then first
      else ParametersSupport(parameters, start + 1, state, env)
  }

  /** The parameters are supported exactly when each one is. */
  lemma {:induction false} ParametersSupportMeaning(parameters: seq<ParameterInfo>, start: nat, state: DrawerState, env: Env)
    requires start <= |parameters|
    ensures ParametersSupport(parameters, start, state, env) == Done(true)
      <==> forall k :: start <= k < |parameters| ==> SupportedType(parameters[k].parameterType, state, env)
    decreases |parameters| - start
  {
    if start < |parameters| {
      if SupportedType(parameters[start].parameterType, state, env) {
        ParametersSupportMeaning(parameters, start + 1, state, env);
      }
    }
  }

  /**
   * When they are not, the answer is that of the first parameter that is
   * not supported, every one before it being supported.
   */
  lemma {:induction false} ParametersSupportFirstFailure(parameters: seq<ParameterInfo>, start: nat, state: DrawerState, env: Env)
    requires start <= |parameters|
    requires ParametersSupport(parameters, start, state, env) != Done(true)
    ensures exists k ::
              start <= k < |parameters|
              && TypeSupport(parameters[k].parameterType, state, env) == ParametersSupport(parameters, start, state, env)
              && (forall j :: start <= j < k ==> SupportedType(parameters[j].parameterType, state, env))
    decreases |parameters| - start
  {
    var answer := ParametersSupport(parameters, start, state, env);
    if SupportedType(parameters[start].parameterType, state, env) {
      assert ParametersSupport(parameters, start + 1, state, env) == answer;
      ParametersSupportFirstFailure(parameters, start + 1, state, env);
      var k :| start + 1 <= k < |parameters|
        && TypeSupport(parameters[k].parameterType, state, env) == answer
        && (forall j :: start + 1 <= j < k ==> SupportedType(parameters[j].parameterType, state, env));
      assert start <= k < |parameters| && TypeSupport(parameters[k].parameterType, state, env) == answer;
    } else {
      assert TypeSupport(parameters[start].parameterType, state, env) == answer;
    }
  }

  /** `IsSupported(ParameterInfo[])`: checks the parameters in order and stops at the first unsupported one. */
  method IsSupportedParameters(parameters: seq<ParameterInfo>, state: DrawerState, env: Env) returns (r: Checked<bool>)
    ensures r == ParametersSupport(parameters, 0, state, env)
    ensures r == Done(true) <==> forall k :: 0 <= k < |parameters| ==> SupportedType(parameters[k].parameterType, state, env)
  {
    var i := 0;
    while i < |parameters|
      invariant 0 <= i <= |parameters|
      invariant ParametersSupport(parameters, i, state, env) == ParametersSupport(parameters, 0, state, env)
    {
      var ok := IsSupported(parameters[i].parameterType, state, env);
      if ok != Done(true) {
        ParametersSupportMeaning(parameters, 0, state, env);
        return ok;
      }
      i := i + 1;
    }
    ParametersSupportMeaning(parameters, 0, state, env);
    return Done(true);
  }

  /** `IsSupported(FieldInfo)`. */
  function FieldSupport(f: Member, state: DrawerState, env: Env): Checked<bool>
    reads state, state.previousCalls
  {
    if f.isSpecialName || f.isObsolete then Done(false) else TypeSupport(f.valueType, state, env)
  }

  /** `IsSupported(PropertyInfo, out getter)`: a property with a getter, or whose type is supported. */
  function PropertySupport(p: Member, state: DrawerState, env: Env): Checked<bool>
    reads state, state.previousCalls
  {
    if p.isSpecialName || p.isObsolete then Done(false)
    else if p.hasGetter then Done(true)
    else TypeSupport(p.valueType, state, env)
  }

  /**
   * `IsSupported(MethodBase, out parameters)`: not generic, not a special
   * method other than an instance constructor, no '<' in the name, not
   * obsolete, not a component or scriptable-object constructor, and every
   * parameter supported.
   */
  function MethodSupport(m: Member, state: DrawerState, env: Env): Checked<bool>
    reads state, state.previousCalls
  {
    var isConstructor := m.kind == ConstructorMember;
    if m.isGeneric || (m.isSpecialName && (!isConstructor || m.isStatic)) || '<' in m.name || m.isObsolete then Done(false)
    else if isConstructor && (IsAssignableFrom(ComponentType, m.declaringType) || IsAssignableFrom(ScriptableObjectType, m.declaringType))
    then Done(false)
    else ParametersSupport(m.parameters, 0, state, env)
  }

  function MemberSupport(m: Member, state: DrawerState, env: Env): Checked<bool>
    reads state, state.previousCalls
  {
    match m.kind
    case FieldMember => FieldSupport(m, state, env)
    case PropertyMember => PropertySupport(m, state, env)
    case _ => MethodSupport(m, state, env)
  }

  /** What `GetNextSupportedMember` hands back with a member. */
  datatype NextMember = NextMember(member: Option<Member>, index: nat, parameters: Option<seq<ParameterInfo>>, hasGetter: bool)

  /**
   * `GetNextSupportedMember`: advances `startIndex` to the first supported
   * member at or after it and returns that member (with a method's
   * parameters, or whether a property has a getter), or nothing; a support
   * check that throws ends the scan with its exception.
   */
  method GetNextSupportedMember(members: seq<Member>, startIndex: nat, state: DrawerState, env: Env) returns (r: Checked<NextMember>)
    ensures r.Done? ==> r.value.index >= startIndex
    ensures r.Done? ==> forall k :: startIndex <= k < r.value.index && k < |members| ==> MemberSupport(members[k], state, env) == Done(false)
    ensures r.Done? ==> (r.value.member.Some? <==> r.value.index < |members|)
    ensures r.Done? && r.value.member.Some? ==>
      r.value.member.value == members[r.value.index] && MemberSupport(members[r.value.index], state, env) == Done(true)
    ensures r.Done? && r.value.member.None? ==> r.value.index == if startIndex < |members| then |members| else startIndex
    ensures r.Done? ==> (r.value.parameters.Some? <==> r.value.member.Some? && KindRank(r.value.member.value) == 2)
    ensures r.Done? && r.value.parameters.Some? ==> r.value.parameters.value == r.value.member.value.parameters
    ensures r.Done? ==>
      (r.value.hasGetter <==> r.value.member.Some? && r.value.member.value.kind == PropertyMember && r.value.member.value.hasGetter)
    ensures r.NullReferenceThrown? ==>
      exists i :: startIndex <= i < |members| && MemberSupport(members[i], state, env).NullReferenceThrown?
        && forall k :: startIndex <= k < i ==> MemberSupport(members[k], state, env) == Done(false)
  {
    var i := startIndex;
    while i < |members|
      invariant startIndex <= i
      invariant i > |members| ==> i == startIndex
      invariant forall k :: startIndex <= k < i && k < |members| ==> MemberSupport(members[k], state, env) == Done(false)
    {
      var member := members[i];
      var support := MemberSupport(member, state, env);
      if support.NullReferenceThrown? {
        return NullReferenceThrown;
      }
      if support.value {
        match member.kind {
          case FieldMember =>
            return Done(NextMember(Some(member), i, None, false));
          case PropertyMember =>
            return Done(NextMember(Some(member), i, None, member.hasGetter));
          case _ =>
            return Done(NextMember(Some(member), i, Some(member.parameters), false));
        }
      }
      i := i + 1;
    }
    return Done(NextMember(None, i, None, false));
  }

  /* ----------------------------------------------------------- signatures */

  /** One parameter in a signature: its type, a space when both are shown, and its name. */
  function ParameterEntry(p: ParameterInfo, includeTypes: bool, includeNames: bool): string
  {
    (if includeTypes then p.parameterType.csName + (if includeNames then " " else "") else "")
    + (if includeNames then p.name else "")
  }

  function ParameterEntries(parameters: seq<ParameterInfo>, includeTypes: bool, includeNames: bool): (r: seq<string>)
    ensures |r| == |parameters| && forall i :: 0 <= i < |parameters| ==> r[i] == ParameterEntry(parameters[i], includeTypes, includeNames)
  {
    seq(|parameters|, i requires 0 <= i < |parameters| => ParameterEntry(parameters[i], includeTypes, includeNames))
  }

  /** `AppendParameters`: appends '(', the entries separated by ", ", and ')'. */
  method AppendParameters(text: string, parameters: seq<ParameterInfo>, includeTypes: bool, includeNames: bool) returns (r: string)
    ensures r == text + "(" + Join(ParameterEntries(parameters, includeTypes, includeNames), ", ") + ")"
  {
    ghost var entries := ParameterEntries(parameters, includeTypes, includeNames);
    r := text + "(";
    var i := 0;
    while i < |parameters|
      invariant 0 <= i <= |parameters|
      invariant r == text + "(" + Join(entries[..i], ", ")
    {
      JoinAppend(text + "(", entries, i, ", ");
      if i > 0 {
        r := r + ", ";
      }
      r := r + ParameterEntry(parameters[i], includeTypes, includeNames);
      i := i + 1;
    }
    assert entries[..|parameters|] == entries;
    r := r + ")";
  }

  /** `BuildSignature(MethodBase, ...)`: the result type, the name and the parameter list, separated by spaces. */
  method BuildMethodSignature(m: Member, parameters: seq<ParameterInfo>, includeParameterNames: bool) returns (r: string)
    ensures r == ReturnTypeOf(m).csName + " " + m.name + " (" + Join(ParameterEntries(parameters, true, includeParameterNames), ", ") + ")"
  {
    var text := ReturnTypeOf(m).csName + " " + m.name + " ";
    r := AppendParameters(text, parameters, true, includeParameterNames);
  }

  /** `BuildSignature(FieldInfo)`: the field type and the name. */
  method BuildFieldSignature(f: Member) returns (r: string)
    ensures r == f.valueType.csName + " " + f.name
  {
    r := f.valueType.csName;
    r := r + " ";
    r := r + f.name;
  }
}
