/**
 * A persistent call: a serialized reference to a field, method or constructor
 * (target object, member name, argument list) together with the reflection
 * handles it caches once the serialized name has been resolved.
 *
 * Member names are encoded as follows. An instance member is stored by its
 * bare name. A static member or a constructor is stored as the declaring
 * type's assembly-qualified name, a '.', and the bare name ("ctor" for a
 * constructor). A field name additionally ends with '='.
 */
module PersistentCalls {
  import opened Wrappers
  import opened Strings
  import opened Reflection

  /** Marks a serialized member name as naming a field. */
  const FieldNameSuffix: char := '='
  /** What indexing past the end of an array raises. */
  const IndexOutOfRange := Exception("Index was outside the bounds of the array.")
  const NullReference := Exception("Object reference not set to an instance of an object.")
  /** The bare name under which a constructor is serialized. */
  const ConstructorName: string := "ctor"

  /** The kind of a persistent argument; every literal kind is folded into `Constant`. */
  datatype ArgumentType = Unset | Constant | Parameter | ReturnValue

  /**
   * One argument of a call: its kind, the parameter type it feeds, its
   * literal value, and for a `Parameter` or `ReturnValue` link the index of
   * the event parameter or of the earlier call whose result it forwards.
   */
  datatype PersistentArgument = PersistentArgument(
    argumentType: ArgumentType,
    systemType: Option<TypeInfo>,
    value: Value,
    linkIndex: int)

  /** A freshly constructed argument. */
  const DefaultArgument: PersistentArgument := PersistentArgument(Unset, None, NullValue, 0)

  predicate IsLink(a: PersistentArgument)
  {
    a.argumentType == Parameter || a.argumentType == ReturnValue
  }

  /* ---------------------------------------------------------------- names */

  /** The name a member is looked up by: "ctor" for a constructor. */
  function BareName(m: Member): string
  {
    if m.kind == ConstructorMember then ConstructorName else m.name
  }

  /** The declaring type's assembly-qualified name, '.', and the bare name. */
  function FullyQualifiedName(m: Member): string
  {
    m.declaringType.assemblyQualifiedName + "." + BareName(m)
  }

  /** Statics and constructors carry their declaring type in the name and have no target. */
  predicate NeedsQualifiedName(m: Member)
  {
    m.isStatic || m.kind == ConstructorMember
  }

  /** The member name `SetMethod` stores for `m`. */
  function MethodMemberName(m: Member): string
  {
    if NeedsQualifiedName(m) then FullyQualifiedName(m) else m.name
  }

  /** The member name `SetField` stores for `f`. */
  function FieldMemberName(f: Member): string
  {
    (if f.isStatic then FullyQualifiedName(f) else f.name) + [FieldNameSuffix]
  }

  /** The target `SetMethod` and `SetField` store for `m` when given `target`. */
  function StoredTarget(m: Member, target: Option<ObjectRef>): Option<ObjectRef>
  {
    if NeedsQualifiedName(m) then None else target
  }

  /** A serialized name refers to a field when it is non-empty and ends with the suffix. */
  function IsFieldName(name: Option<string>): (r: bool)
    ensures name.None? || name == Some("") ==> !r
    ensures name.Some? && name != Some("") ==> (r <==> name.value[|name.value| - 1] == FieldNameSuffix)
  {
    name.Some? && |name.value| > 0 && name.value[|name.value| - 1] == FieldNameSuffix
  }

  /** A stored name never ends with the suffix unless it was stored for a field. */
  lemma FieldSuffixMarksFields(m: Member)
    requires |m.name| > 0 && m.name[|m.name| - 1] != FieldNameSuffix
    ensures IsFieldName(Some(FieldMemberName(m)))
    ensures !IsFieldName(Some(MethodMemberName(m)))
  {
  }

  datatype MemberDetails = MemberDetails(declaringType: Option<TypeInfo>, memberName: Option<string>)

  /**
   * Splits a serialized member name into the type to search and the name to
   * search for. With a target the type is the target's runtime type and the
   * name is kept whole; without one the text before the last '.' is resolved
   * as a type name and the text after it is the member name.
   */
  function GetMemberDetails(serializedMemberName: Option<string>, target: Option<ObjectRef>,
                            getType: string -> Option<TypeInfo>): (d: MemberDetails)
    ensures serializedMemberName.None? || serializedMemberName == Some("") ==> d == MemberDetails(None, None)
    ensures serializedMemberName.Some? && serializedMemberName != Some("") && target.Some? ==>
      d == MemberDetails(Some(target.value.objectType), serializedMemberName)
    ensures serializedMemberName.Some? && serializedMemberName != Some("") && target.None? ==>
      var n := serializedMemberName.value;
      d.memberName.Some? && '.' !in d.memberName.value &&
      var m := d.memberName.value;
      if '.' in n then
        |m| < |n| && n == n[..|n| - |m| - 1] + "." + m && d.declaringType == getType(n[..|n| - |m| - 1])
      else
        m == n && d.declaringType.None?
  {
    if serializedMemberName.None? || serializedMemberName.value == "" then MemberDetails(None, None)
    else
      var n := serializedMemberName.value;
      if target.None? then
        var lastDot := LastIndexOf(n, '.');
        if lastDot < 0 then MemberDetails(None, Some(n))
        else
          assert n == n[..lastDot] + "." + n[lastDot + 1..];
          MemberDetails(getType(n[..lastDot]), Some(n[lastDot + 1..]))
      else MemberDetails(Some(target.value.objectType), Some(n))
  }

  /** Without a target, `q + "." + m` decodes to the type named `q` and the name `m`. */
  lemma {:induction false} QualifiedNameDetails(q: string, m: string, getType: string -> Option<TypeInfo>)
    requires '.' !in m
    ensures GetMemberDetails(Some(q + "." + m), None, getType) == MemberDetails(getType(q), Some(m))
  {
    var n := q + "." + m;
    LastDotOfJoined(q, m);
    assert n[..|q|] == q && n[|q| + 1..] == m;
  }

  /**
   * Decoding the name `SetMethod` stores gives back the type to search and
   * the bare name: the declaring type (resolved by name) for a static member
   * or constructor, the target's type otherwise.
   */
  lemma {:induction false} MethodNameRoundTrip(m: Member, target: Option<ObjectRef>, getType: string -> Option<TypeInfo>)
    requires '.' !in BareName(m) && |BareName(m)| > 0
    requires !NeedsQualifiedName(m) ==> target.Some?
    ensures GetMemberDetails(Some(MethodMemberName(m)), StoredTarget(m, target), getType) ==
      if NeedsQualifiedName(m) then MemberDetails(getType(m.declaringType.assemblyQualifiedName), Some(BareName(m)))
      else MemberDetails(Some(target.value.objectType), Some(m.name))
  {
    if NeedsQualifiedName(m) {
      QualifiedNameDetails(m.declaringType.assemblyQualifiedName, BareName(m), getType);
    }
  }

  /** The same for the name `SetField` stores; the decoded name still carries the suffix. */
  lemma {:induction false} FieldNameRoundTrip(f: Member, target: Option<ObjectRef>, getType: string -> Option<TypeInfo>)
    requires f.kind == FieldMember && '.' !in f.name
    requires !f.isStatic ==> target.Some?
    ensures GetMemberDetails(Some(FieldMemberName(f)), StoredTarget(f, target), getType) ==
      if f.isStatic then MemberDetails(getType(f.declaringType.assemblyQualifiedName), Some(f.name + [FieldNameSuffix]))
      else MemberDetails(Some(target.value.objectType), Some(f.name + [FieldNameSuffix]))
  {
    if f.isStatic {
      var q := f.declaringType.assemblyQualifiedName;
      var m := f.name + [FieldNameSuffix];
      assert '.' !in m;
      assert FieldMemberName(f) == q + "." + m;
      QualifiedNameDetails(q, m, getType);
    }
  }

  /* ------------------------------------------------------------- lookups */

  /** The parameter types the arguments name, or None when one of them is unresolved. */
  function SystemTypes(args: seq<PersistentArgument>): (r: Option<seq<TypeInfo>>)
    ensures r.Some? <==> forall i :: 0 <= i < |args| ==> args[i].systemType.Some?
    ensures r.Some? ==> |r.value| == |args| && forall i :: 0 <= i < |args| ==> r.value[i] == args[i].systemType.value
  {
    if forall i :: 0 <= i < |args| ==> args[i].systemType.Some? then
      Some(seq(|args|, i requires 0 <= i < |args| => args[i].systemType.value))
    else None
  }

  /**
   * What the `Method` getter finds when nothing is cached: nothing unless the
   * name decodes to a type and a non-empty member name and every argument
   * type is known; then the constructor for "ctor", else the method of that
   * name, with those parameter types.
   */
  function LookupMethod(memberName: Option<string>, target: Option<ObjectRef>,
                        types: Option<seq<TypeInfo>>, env: Env): (r: Option<Member>)
    ensures var d := GetMemberDetails(memberName, target, env.getType);
      if d.declaringType.None? || d.memberName.None? || d.memberName == Some("") || types.None? then r.None?
      else if d.memberName == Some(ConstructorName) then r == env.getConstructor(d.declaringType.value, types.value)
      else r == env.getMethod(d.declaringType.value, d.memberName.value, types.value)
  {
    var d := GetMemberDetails(memberName, target, env.getType);
    if d.declaringType.None? || d.memberName.None? || d.memberName.value == "" || types.None? then None
    else if d.memberName.value == ConstructorName then env.getConstructor(d.declaringType.value, types.value)
    else env.getMethod(d.declaringType.value, d.memberName.value, types.value)
  }

  /**
   * What the `Field` getter finds when nothing is cached: nothing unless the
   * name decodes to a type and a non-empty member name; then the field named
   * by the member name without its last character, the suffix.
   */
  function LookupField(memberName: Option<string>, target: Option<ObjectRef>, env: Env): (r: Option<Member>)
    ensures var d := GetMemberDetails(memberName, target, env.getType);
      if d.declaringType.None? || d.memberName.None? || d.memberName == Some("") then r.None?
      else exists stem :: d.memberName.value == stem + [d.memberName.value[|d.memberName.value| - 1]]
                          && r == env.getField(d.declaringType.value, stem)
  {
    var d := GetMemberDetails(memberName, target, env.getType);
    if d.declaringType.None? || d.memberName.None? || d.memberName.value == "" then None
    else env.getField(d.declaringType.value, d.memberName.value[..|d.memberName.value| - 1])
  }

  /** `env` answers the lookups for `m` that a call stored with `target` will make. */
  predicate FindsMethod(env: Env, m: Member, target: Option<ObjectRef>)
  {
    var pts := ParameterTypes(m.parameters);
    if m.kind == ConstructorMember then
      env.getType(m.declaringType.assemblyQualifiedName) == Some(m.declaringType)
      && env.getConstructor(m.declaringType, pts) == Some(m)
    else if m.isStatic then
      env.getType(m.declaringType.assemblyQualifiedName) == Some(m.declaringType)
      && env.getMethod(m.declaringType, m.name, pts) == Some(m)
    else
      target.Some? && env.getMethod(target.value.objectType, m.name, pts) == Some(m)
  }

  /** Re-resolving the name, target and argument types `SetMethod` stores finds the same method again. */
  lemma {:induction false} MethodLookupRoundTrip(m: Member, target: Option<ObjectRef>, env: Env)
    requires m.kind == MethodMember || m.kind == ConstructorMember
    requires '.' !in BareName(m) && |BareName(m)| > 0
    requires m.kind != ConstructorMember ==> m.name != ConstructorName
    requires FindsMethod(env, m, target)
    ensures LookupMethod(Some(MethodMemberName(m)), StoredTarget(m, target), Some(ParameterTypes(m.parameters)), env) == Some(m)
  {
    MethodNameRoundTrip(m, target, env.getType);
  }

  /** `env` answers the field lookup for `f` that a call stored with `target` will make. */
  predicate FindsField(env: Env, f: Member, target: Option<ObjectRef>)
  {
    if f.isStatic then
      env.getType(f.declaringType.assemblyQualifiedName) == Some(f.declaringType)
      && env.getField(f.declaringType, f.name) == Some(f)
    else
      target.Some? && env.getField(target.value.objectType, f.name) == Some(f)
  }

  /** Re-resolving the name and target `SetField` stores finds the same field again. */
  lemma {:induction false} FieldLookupRoundTrip(f: Member, target: Option<ObjectRef>, env: Env)
    requires f.kind == FieldMember && '.' !in f.name
    requires FindsField(env, f, target)
    ensures LookupField(Some(FieldMemberName(f)), StoredTarget(f, target), env) == Some(f)
  {
    FieldNameRoundTrip(f, target, env.getType);
    var s := f.name + [FieldNameSuffix];
    assert s[..|s| - 1] == f.name;
  }

  /* ----------------------------------------------------------- arguments */

  /** The argument `SetMethod` starts from at position `i`: the old one when the count is right, else a fresh one. */
  function ReusedArgument(old_: seq<PersistentArgument>, count: nat, i: nat): PersistentArgument
    requires i < count
  {
    if |old_| == count then old_[i] else DefaultArgument
  }

  /**
   * An argument adapted to a parameter: it takes the parameter's type and,
   * unless it is a link, the parameter's default value when there is one.
   */
  function Seeded(a: PersistentArgument, p: ParameterInfo): (r: PersistentArgument)
    ensures r.systemType == Some(p.parameterType)
    ensures r.argumentType == a.argumentType && r.linkIndex == a.linkIndex
    ensures IsLink(a) || p.defaultValue.None? ==> r.value == a.value
    ensures !IsLink(a) && p.defaultValue.Some? ==> r.value == p.defaultValue.value
  {
    a.(systemType := Some(p.parameterType),
       value := if IsLink(a) || p.defaultValue.None? then a.value else p.defaultValue.value)
  }

  /** The types a literal argument can hold, besides int-backed enums and engine objects. */
  const NativeTypes: set<TypeInfo> := {BoolType, StringType, IntType, FloatType, Vector2Type, Vector3Type,
                                       Vector4Type, QuaternionType, ColorType, Color32Type, RectType}

  /** `IsSupportedNative(Type)`: a type a non-linked argument can hold. */
  function IsSupportedNative(t: TypeInfo): (r: bool)
    ensures t in NativeTypes || t.enumUnderlying == Some(IntType) || IsAssignableFrom(EngineObjectType, t) ==> r
    ensures r ==> t in NativeTypes || t.enumUnderlying == Some(IntType) || IsAssignableFrom(EngineObjectType, t)
  {
    t == BoolType || t == StringType || t == IntType
    || t.enumUnderlying == Some(IntType)
    || t == FloatType
    || t == Vector2Type || t == Vector3Type || t == Vector4Type || t == QuaternionType
    || t == ColorType || t == Color32Type || t == RectType
    || t == EngineObjectType || IsSubclassOf(t, EngineObjectType)
  }

  /** `NewArgumentArray`: `length` fresh arguments. */
  method NewArgumentArray(length: nat) returns (r: seq<PersistentArgument>)
    ensures |r| == length
    ensures forall i :: 0 <= i < length ==> r[i] == DefaultArgument
  {
    r := [];
    var i := 0;
    while i < length
      invariant 0 <= i <= length && |r| == i
      invariant forall k :: 0 <= k < i ==> r[k] == DefaultArgument
    {
      r := r + [DefaultArgument];
      i := i + 1;
    }
  }

  /** `IsSupportedNative(ParameterInfo[])`: every parameter type is supported. */
  method IsSupportedNativeParameters(parameters: seq<ParameterInfo>) returns (r: bool)
    ensures r <==> forall i :: 0 <= i < |parameters| ==> IsSupportedNative(parameters[i].parameterType)
  {
    var i := 0;
    while i < |parameters|
      invariant 0 <= i <= |parameters|
      invariant forall k :: 0 <= k < i ==> IsSupportedNative(parameters[k].parameterType)
    {
      if !IsSupportedNative(parameters[i].parameterType) {
        return false;
      }
      i := i + 1;
    }
    return true;
  }

  /* ---------------------------------------------------------- invocation */

  /** Something an invocation does, in order. */
  datatype Effect =
    | LogWarning(memberType: string, targetType: Option<TypeInfo>, memberName: Option<string>)
    | ReadField(field: Member, target: Option<ObjectRef>)
    | WriteField(field: Member, target: Option<ObjectRef>, value: Value)
    | UpdateLinkedValueOffsets
    | CallMethod(callee: Member, target: Option<ObjectRef>, arguments: Option<seq<Value>>)
    | CallConstructor(callee: Member, arguments: Option<seq<Value>>)

  datatype Invocation = Invocation(outcome: Outcome, effects: seq<Effect>)

  /** The value each argument supplies, in order. */
  function ArgumentValues(args: seq<PersistentArgument>, argValue: PersistentArgument -> Value): (vs: seq<Value>)
    ensures |vs| == |args| && forall i :: 0 <= i < |args| ==> vs[i] == argValue(args[i])
  {
    seq(|args|, i requires 0 <= i < |args| => argValue(args[i]))
  }

  function TargetType(target: Option<ObjectRef>): Option<TypeInfo>
  {
    if target.Some? then Some(target.value.objectType) else None
  }

  /** The values a method receives: one per argument, or none at all when there are no arguments. */
  function MethodArguments(values: seq<Value>): Option<seq<Value>>
  {
    if |values| > 0 then Some(values) else None
  }

  /**
   * What `Invoke` does once the member has been resolved. `values[i]` is the
   * value argument `i` supplies (`PersistentArgument.Value`).
   */
  function InvokeResolved(isField: bool, member: Option<Member>, target: Option<ObjectRef>,
                          memberName: Option<string>, values: seq<Value>, host: Host): (r: Invocation)
    // An unresolved member is reported and yields null; nothing is thrown.
    ensures member.None? ==>
      r.outcome == Returned(NullValue)
      && r.effects == [LogWarning(if isField then "Field" else "Method", TargetType(target), memberName)]
    // A getter reads the field once and writes nothing.
    ensures isField && member.Some? && |values| == 0 ==>
      r.effects == [ReadField(member.value, target)] && r.outcome == host.getValue(member.value, target)
    // A setter writes the first argument's value exactly once and yields null.
    ensures isField && member.Some? && |values| > 0 ==>
      |r.effects| > 0 && r.effects[0] == WriteField(member.value, target, values[0])
      && (forall k :: 0 < k < |r.effects| ==> !r.effects[k].WriteField? && !r.effects[k].ReadField?)
      && (r.outcome.Returned? ==> r.outcome.value == NullValue)
    // A write that completes is followed by the link-offset refresh; one that throws ends the call with its exception.
    ensures isField && member.Some? && |values| > 0 ==>
      var written := host.setValue(member.value, target, values[0]);
      (written.Completed? <==>
         r.effects == [WriteField(member.value, target, values[0]), UpdateLinkedValueOffsets] && r.outcome == Returned(NullValue))
      && (written.Failed? ==> r.effects == [WriteField(member.value, target, values[0])] && r.outcome == Threw(written.exception))
    // A method refreshes link offsets before it is called; a constructor is called without a target.
    ensures !isField && member.Some? ==>
      |r.effects| == 2 && r.effects[0] == UpdateLinkedValueOffsets
      && r.effects[1] == (if member.value.kind == ConstructorMember
                          then CallConstructor(member.value, MethodArguments(values))
                          else CallMethod(member.value, target, MethodArguments(values)))
    // ... and what it answers is what the host's call answers: the new object, or the method's result or exception.
    ensures !isField && member.Some? ==>
      r.outcome == if member.value.kind == ConstructorMember
                   then host.construct(member.value, MethodArguments(values))
                   else host.invoke(member.value, target, MethodArguments(values))
  {
    if member.None? then
      Invocation(Returned(NullValue), [LogWarning(if isField then "Field" else "Method", TargetType(target), memberName)])
    else
      var m := member.value;
      if isField then
        if |values| == 0 then Invocation(host.getValue(m, target), [ReadField(m, target)])
        else
          match host.setValue(m, target, values[0])
          case Completed => Invocation(Returned(NullValue), [WriteField(m, target, values[0]), UpdateLinkedValueOffsets])
          case Failed(e) => Invocation(Threw(e), [WriteField(m, target, values[0])])
      else
        var args := MethodArguments(values);
        if m.kind == ConstructorMember then
          Invocation(host.construct(m, args), [UpdateLinkedValueOffsets, CallConstructor(m, args)])
        else
          Invocation(host.invoke(m, target, args), [UpdateLinkedValueOffsets, CallMethod(m, target, args)])
  }

  /* ---------------------------------------------------------------- call */

  class PersistentCall {
    var target: Option<ObjectRef>
    var memberName: Option<string>
    var arguments: seq<PersistentArgument>
    /** `_Method`, the resolved method or constructor, if cached. */
    var cachedMethod: Option<Member>
    /** `_Field`, the resolved field, if cached. */
    var cachedField: Option<Member>

    constructor ()
      ensures target == None && memberName == None && arguments == []
      ensures cachedMethod == None && cachedField == None
    {
      target := None;
      memberName := None;
      arguments := [];
      cachedMethod := None;
      cachedField := None;
    }

    /** `IsField`: the stored name carries the field suffix. */
    function IsField(): (r: bool)
      reads this
      ensures r ==> memberName.Some? && |memberName.value| > 0 && memberName.value == memberName.value[..|memberName.value| - 1] + [FieldNameSuffix]
      ensures !r ==> memberName.None? || memberName == Some("") || memberName.value[|memberName.value| - 1] != FieldNameSuffix
    {
      IsFieldName(memberName)
    }

    /** `IsGetter`: a call without arguments gets (a field); with any, it sets. */
    function IsGetter(): (r: bool)
      reads this
      ensures r <==> arguments == []
    {
      |arguments| == 0
    }

    /** What the `Method` getter returns: the cached method, else a fresh lookup. */
    function ResolvedMethod(env: Env): Option<Member>
      reads this
    {
      if cachedMethod.Some? then cachedMethod else LookupMethod(memberName, target, SystemTypes(arguments), env)
    }

    /** What the `Field` getter returns: the cached field, else a fresh lookup. */
    function ResolvedField(env: Env): Option<Member>
      reads this
    {
      if cachedField.Some? then cachedField else LookupField(memberName, target, env)
    }

    /** What `GetMemberSafe` returns: the field for a field name, else the method. */
    function ResolvedMember(env: Env): (r: Option<Member>)
      reads this
      ensures IsField() ==> r == ResolvedField(env)
      ensures !IsField() ==> r == ResolvedMethod(env)
    {
      if IsField() then ResolvedField(env) else ResolvedMethod(env)
    }

    /**
     * `GetReturnType`: the gotten field's type, null for a setter, or the
     * method's result type; reading the type of a gotten field that does not
     * resolve dereferences null.
     */
    function ReturnType(env: Env): (r: Checked<Option<TypeInfo>>)
      reads this
      ensures r.NullReferenceThrown? <==> IsField() && IsGetter() && ResolvedField(env).None?
      ensures r == Done(None) <==> (IsField() && !IsGetter()) || (!IsField() && ResolvedMethod(env).None?)
      ensures r.Done? && r.value.Some? ==>
        if IsField() then IsGetter() && ResolvedField(env).Some? && r.value.value == ResolvedField(env).value.valueType
        else ResolvedMethod(env).Some? && r.value.value == ReturnTypeOf(ResolvedMethod(env).value)
    {
      if IsField() then
        if !IsGetter() then Done(None)
        else if ResolvedField(env).Some? then Done(Some(ResolvedField(env).value.valueType))
        else NullReferenceThrown
      else if ResolvedMethod(env).Some? then Done(Some(ReturnTypeOf(ResolvedMethod(env).value)))
      else Done(None)
    }

    /** The `Method` getter: answers from the cache, else looks the method up and caches the answer. */
    method Method(env: Env) returns (m: Option<Member>)
      modifies this`cachedMethod
      ensures m == old(ResolvedMethod(env))
      ensures old(cachedMethod).Some? ==> cachedMethod == old(cachedMethod)
      ensures old(cachedMethod).None? ==> cachedMethod == m
      ensures ResolvedMethod(env) == m
    {
      if cachedMethod.Some? {
        return cachedMethod;
      }
      var d := GetMemberDetails(memberName, target, env.getType);
      if d.declaringType.None? || d.memberName.None? || d.memberName.value == "" {
        return None;
      }
      var types: seq<TypeInfo> := [];
      var resolved := true;
      var i := 0;
      while i < |arguments|
        invariant 0 <= i <= |arguments|
        invariant resolved <==> forall k :: 0 <= k < i ==> arguments[k].systemType.Some?
        invariant resolved ==> |types| == i && forall k :: 0 <= k < i ==> types[k] == arguments[k].systemType.value
      {
        if arguments[i].systemType.Some? && resolved {
          types := types + [arguments[i].systemType.value];
        } else {
          resolved := false;
        }
        i := i + 1;
      }
      assert resolved ==> types == SystemTypes(arguments).value;
      if !resolved {
        m := None;
      } else if d.memberName.value == ConstructorName {
        m := env.getConstructor(d.declaringType.value, types);
      } else {
        m := env.getMethod(d.declaringType.value, d.memberName.value, types);
      }
      cachedMethod := m;
    }

    /** The `Field` getter: answers from the cache, else looks the field up and caches the answer. */
    method Field(env: Env) returns (f: Option<Member>)
      modifies this`cachedField
      ensures f == old(ResolvedField(env))
      ensures old(cachedField).Some? ==> cachedField == old(cachedField)
      ensures old(cachedField).None? ==> cachedField == f
      ensures ResolvedField(env) == f
    {
      if cachedField.Some? {
        return cachedField;
      }
      var d := GetMemberDetails(memberName, target, env.getType);
      if d.declaringType.None? || d.memberName.None? || d.memberName.value == "" {
        return None;
      }
      var fieldName := d.memberName.value[..|d.memberName.value| - 1];
      f := env.getField(d.declaringType.value, fieldName);
      cachedField := f;
    }

    /** `GetMemberSafe`: the field or the method, as `IsField` says; caching never changes the answer. */
    method GetMemberSafe(env: Env) returns (m: Option<Member>)
      modifies this`cachedMethod, this`cachedField
      ensures m == old(ResolvedMember(env))
      ensures ResolvedMember(env) == m
    {
      if IsField() {
        m := Field(env);
      } else {
        m := Method(env);
      }
    }

    /** `ClearCache`: forgets the resolved members (editor serialization callbacks). */
    method ClearCache()
      modifies this`cachedMethod, this`cachedField
      ensures cachedMethod == None && cachedField == None
    {
      cachedMethod := None;
      cachedField := None;
    }

    /**
     * `SetMethod(MethodBase, Object)`: stores `handle` and `newTarget`, the
     * encoded name, and one argument per parameter. When the argument count
     * already matches the existing arguments are kept; each argument takes
     * its parameter's type and, unless it is a link, the parameter's default.
     */
    method SetMethod(handle: Option<Member>, newTarget: Option<ObjectRef>)
      modifies this
      ensures cachedField == None && cachedMethod == handle
      ensures handle.None? ==> target == newTarget && memberName == None && arguments == []
      ensures handle.Some? ==>
        var m := handle.value;
        memberName == Some(MethodMemberName(m))
        && target == StoredTarget(m, newTarget)
        && |arguments| == |m.parameters|
        && (forall i :: 0 <= i < |arguments| ==>
              arguments[i] == Seeded(ReusedArgument(old(arguments), |m.parameters|, i), m.parameters[i]))
      ensures handle.Some? ==> SystemTypes(arguments) == Some(ParameterTypes(handle.value.parameters))
      ensures handle.Some? && |old(arguments)| == |handle.value.parameters| ==>
        forall i :: 0 <= i < |arguments| && IsLink(old(arguments)[i]) ==>
          arguments[i] == old(arguments)[i].(systemType := Some(handle.value.parameters[i].parameterType))
    {
      cachedField := None;
      cachedMethod := handle;
      target := newTarget;
      if handle.None? {
        memberName := None;
        arguments := [];
        return;
      }
      var m := handle.value;
      if NeedsQualifiedName(m) {
        memberName := Some(FullyQualifiedName(m));
        target := None;
      } else {
        memberName := Some(m.name);
      }
      var parameters := m.parameters;
      var args := arguments;
      if |args| != |parameters| {
        args := NewArgumentArray(|parameters|);
      }
      ghost var start := args;
      assert forall i :: 0 <= i < |parameters| ==> start[i] == ReusedArgument(old(arguments), |parameters|, i);
      var i := 0;
      while i < |args|
        invariant 0 <= i <= |args| == |parameters|
        invariant forall k :: 0 <= k < i ==> args[k] == Seeded(start[k], parameters[k])
        invariant forall k :: i <= k < |args| ==> args[k] == start[k]
      {
        args := args[i := Seeded(args[i], parameters[i])];
        i := i + 1;
      }
      arguments := args;
      assert SystemTypes(arguments).value == ParameterTypes(parameters);
    }

    /**
     * `SetMethod(Delegate)`: a delegate without a target stores no target, one
     * aimed at an engine object stores that object, and any other target is
     * refused with an exception before anything changes.
     */
    method SetMethodFromDelegate(action: Action, handle: Member) returns (status: Status)
      modifies this
      ensures action.target.PlainTarget? ==>
        status.Failed? && unchanged(this)
      ensures !action.target.PlainTarget? ==>
        status == Completed && cachedMethod == Some(handle) && cachedField == None
        && memberName == Some(MethodMemberName(handle))
        && target == StoredTarget(handle, if action.target.EngineTarget? then Some(action.target.obj) else None)
        && SystemTypes(arguments) == Some(ParameterTypes(handle.parameters))
    {
      var newTarget: Option<ObjectRef>;
      match action.target {
        case NoTarget =>
          newTarget := None;
        case EngineTarget(obj) =>
          newTarget := Some(obj);
        case PlainTarget(_) =>
          return Failed(Exception("SetMethod failed because action.Target is not a UnityEngine.Object."));
      }
      SetMethod(Some(handle), newTarget);
      status := Completed;
    }

    /**
     * `SetField`: stores `field` and `newTarget`, the encoded name with the
     * '=' suffix, and no argument for a getter or one for a setter, whose
     * type becomes the field type and which is returned.
     */
    method SetField(field: Option<Member>, newTarget: Option<ObjectRef>, isGetter: bool)
      returns (argument: Option<PersistentArgument>)
      requires field.Some? ==> field.value.kind == FieldMember
      modifies this
      ensures cachedMethod == None && cachedField == field
      ensures field.None? ==> target == newTarget && memberName == None && arguments == [] && argument.None?
      ensures field.Some? ==>
        var f := field.value;
        memberName == Some(FieldMemberName(f))
        && target == StoredTarget(f, newTarget)
        && IsField() && (IsGetter() <==> isGetter)
        && (isGetter ==> argument.None?)
        && (!isGetter ==>
              arguments == [ReusedArgument(old(arguments), 1, 0).(systemType := Some(f.valueType))]
              && argument == Some(arguments[0]))
    {
      cachedMethod := None;
      cachedField := field;
      target := newTarget;
      if field.None? {
        memberName := None;
        arguments := [];
        return None;
      }
      var f := field.value;
      var name: string;
      if f.isStatic {
        name := FullyQualifiedName(f);
        target := None;
      } else {
        name := f.name;
      }
      memberName := Some(name + [FieldNameSuffix]);
      var argumentCount := if isGetter then 0 else 1;
      if |arguments| != argumentCount {
        arguments := NewArgumentArray(argumentCount);
      }
      if isGetter {
        return None;
      }
      arguments := [arguments[0].(systemType := Some(f.valueType))];
      argument := Some(arguments[0]);
    }

    /**
     * `SetArguments`: assigns the values of the first one to four arguments in
     * order; a value with no argument to receive it raises
     * `IndexOutOfRangeException` after the earlier ones are assigned.
     */
    method SetArguments(values: seq<Value>) returns (status: Status)
      requires 1 <= |values| <= 4
      modifies this`arguments
      ensures status == if |values| <= |old(arguments)| then Completed else Failed(IndexOutOfRange)
      ensures |arguments| == |old(arguments)|
      ensures forall i :: 0 <= i < |values| && i < |arguments| ==> arguments[i] == old(arguments)[i].(value := values[i])
      ensures forall i :: |values| <= i < |arguments| ==> arguments[i] == old(arguments)[i]
    {
      var i := 0;
      while i < |values|
        invariant 0 <= i <= |values| && i <= |arguments| && |arguments| == |old(arguments)|
        invariant forall k :: 0 <= k < i ==> arguments[k] == old(arguments)[k].(value := values[k])
        invariant forall k :: i <= k < |arguments| ==> arguments[k] == old(arguments)[k]
      {
        if i == |arguments| {
          return Failed(IndexOutOfRange);
        }
        arguments := arguments[i := arguments[i].(value := values[i])];
        i := i + 1;
      }
      return Completed;
    }

    /**
     * `Invoke`: resolves the member, collects the argument values (`argValue`
     * stands for `PersistentArgument.Value`) and gets, sets or calls it.
     */
    method Invoke(env: Env, argValue: PersistentArgument -> Value, host: Host) returns (r: Invocation)
      modifies this`cachedMethod, this`cachedField
      ensures r == InvokeResolved(old(IsField()), old(ResolvedMember(env)), target, memberName,
                                  ArgumentValues(arguments, argValue), host)
      ensures ResolvedMember(env) == old(ResolvedMember(env))
    {
      ghost var values := ArgumentValues(arguments, argValue);
      if IsField() {
        var field := Field(env);
        if field.None? {
          return Invocation(Returned(NullValue), [LogWarning("Field", TargetType(target), memberName)]);
        }
        if IsGetter() {
          return Invocation(host.getValue(field.value, target), [ReadField(field.value, target)]);
        }
        var value := argValue(arguments[0]);
        var status := host.setValue(field.value, target, value);
        if status.Failed? {
          return Invocation(Threw(status.exception), [WriteField(field.value, target, value)]);
        }
        return Invocation(Returned(NullValue), [WriteField(field.value, target, value), UpdateLinkedValueOffsets]);
      }
      var handle := Method(env);
      if handle.None? {
        return Invocation(Returned(NullValue), [LogWarning("Method", TargetType(target), memberName)]);
      }
      var parameters: Option<seq<Value>>;
      if |arguments| > 0 {
        var collected: seq<Value> := [];
        var i := 0;
        while i < |arguments|
          invariant 0 <= i <= |arguments| && |collected| == i
          invariant forall k :: 0 <= k < i ==> collected[k] == argValue(arguments[k])
        {
          collected := collected + [argValue(arguments[i])];
          i := i + 1;
        }
        assert collected == values;
        parameters := Some(collected);
      } else {
        parameters := None;
      }
      var m := handle.value;
      if m.kind == ConstructorMember {
        return Invocation(host.construct(m, parameters), [UpdateLinkedValueOffsets, CallConstructor(m, parameters)]);
      }
      return Invocation(host.invoke(m, target, parameters), [UpdateLinkedValueOffsets, CallMethod(m, target, parameters)]);
    }

    /**
     * `CopyFrom`: takes the other call's target, name, cached members and a
     * copy of each of its arguments. The new argument array is stored before
     * the copies are read from the other call, so a call copying itself reads
     * a slot of its own new, still empty array and throws as soon as it has an
     * argument; the model's fresh array stands for those empty slots.
     */
    method CopyFrom(other: PersistentCall) returns (status: Status)
      modifies this
      ensures status == if other == this && |old(arguments)| > 0 then Failed(NullReference) else Completed
      ensures target == old(other.target) && memberName == old(other.memberName)
      ensures cachedMethod == old(other.cachedMethod) && cachedField == old(other.cachedField)
      ensures status.Completed? ==> arguments == old(other.arguments)
      ensures status.Failed? ==>
        |arguments| == |old(arguments)| && forall i :: 0 <= i < |arguments| ==> arguments[i] == DefaultArgument
    {
      var length := |other.arguments|;
      target := other.target;
      memberName := other.memberName;
      cachedMethod := other.cachedMethod;
      cachedField := other.cachedField;
      arguments := NewArgumentArray(length);
      var i := 0;
      while i < length
        invariant 0 <= i <= length == |arguments|
        invariant target == old(other.target) && memberName == old(other.memberName)
        invariant cachedMethod == old(other.cachedMethod) && cachedField == old(other.cachedField)
        invariant other == this ==> i == 0 && forall k :: 0 <= k < length ==> arguments[k] == DefaultArgument
        invariant other != this ==> other.arguments == old(other.arguments)
        invariant other != this ==> forall k :: 0 <= k < i ==> arguments[k] == other.arguments[k]
      {
        if other == this {
          return Failed(NullReference);
        }
        arguments := arguments[i := other.arguments[i]];
        i := i + 1;
      }
      status := Completed;
    }
  }

  /**
   * Storing a method and then forgetting the cache (as the editor does after
   * serialization) resolves back to the same method.
   */
  method StoreAndReload(call: PersistentCall, m: Member, target: Option<ObjectRef>, env: Env)
    requires m.kind == MethodMember || m.kind == ConstructorMember
    requires '.' !in BareName(m) && |BareName(m)| > 0 && |m.name| > 0
    requires m.kind != ConstructorMember ==> m.name != ConstructorName
    requires m.name[|m.name| - 1] != FieldNameSuffix
    requires FindsMethod(env, m, target)
    modifies call
    ensures !call.IsField() && call.ResolvedMember(env) == Some(m)
  {
    call.SetMethod(Some(m), target);
    call.ClearCache();
    MethodLookupRoundTrip(m, target, env);
    FieldSuffixMarksFields(m);
  }

  /** The same for a field. */
  method StoreAndReloadField(call: PersistentCall, f: Member, target: Option<ObjectRef>, isGetter: bool, env: Env)
    requires f.kind == FieldMember && '.' !in f.name
    requires FindsField(env, f, target)
    modifies call
    ensures call.IsField() && call.ResolvedMember(env) == Some(f)
  {
    var _ := call.SetField(Some(f), target, isGetter);
    call.ClearCache();
    FieldLookupRoundTrip(f, target, env);
  }
}
