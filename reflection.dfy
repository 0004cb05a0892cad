/**
 * The part of .NET reflection and of the Unity engine the core talks to,
 * reduced to values: types, members, parameters, engine objects, argument
 * values, delegates, and the outcomes of running foreign code.
 */
module Reflection {
  import opened Wrappers

  /**
   * A runtime type: its assembly-qualified name, its C# display name
   * (`GetNameCS(false)`), its underlying type when it is an enum, and its
   * base type. Because the base chain is part of the value it cannot loop.
   */
  datatype TypeInfo = TypeInfo(
    assemblyQualifiedName: string,
    csName: string,
    enumUnderlying: Option<TypeInfo>,
    baseType: Option<TypeInfo>)

  const BoolType: TypeInfo := TypeInfo("System.Boolean, mscorlib", "bool", None, None)
  const StringType: TypeInfo := TypeInfo("System.String, mscorlib", "string", None, None)
  const IntType: TypeInfo := TypeInfo("System.Int32, mscorlib", "int", None, None)
  const FloatType: TypeInfo := TypeInfo("System.Single, mscorlib", "float", None, None)
  const VoidType: TypeInfo := TypeInfo("System.Void, mscorlib", "void", None, None)
  const Vector2Type: TypeInfo := TypeInfo("UnityEngine.Vector2, UnityEngine.CoreModule", "Vector2", None, None)
  const Vector3Type: TypeInfo := TypeInfo("UnityEngine.Vector3, UnityEngine.CoreModule", "Vector3", None, None)
  const Vector4Type: TypeInfo := TypeInfo("UnityEngine.Vector4, UnityEngine.CoreModule", "Vector4", None, None)
  const QuaternionType: TypeInfo := TypeInfo("UnityEngine.Quaternion, UnityEngine.CoreModule", "Quaternion", None, None)
  const ColorType: TypeInfo := TypeInfo("UnityEngine.Color, UnityEngine.CoreModule", "Color", None, None)
  const Color32Type: TypeInfo := TypeInfo("UnityEngine.Color32, UnityEngine.CoreModule", "Color32", None, None)
  const RectType: TypeInfo := TypeInfo("UnityEngine.Rect, UnityEngine.CoreModule", "Rect", None, None)
  /** `UnityEngine.Object`, the root of every engine object. */
  const EngineObjectType: TypeInfo := TypeInfo("UnityEngine.Object, UnityEngine.CoreModule", "Object", None, None)
  const ComponentType: TypeInfo := TypeInfo("UnityEngine.Component, UnityEngine.CoreModule", "Component", None, Some(EngineObjectType))
  const ScriptableObjectType: TypeInfo := TypeInfo("UnityEngine.ScriptableObject, UnityEngine.CoreModule", "ScriptableObject", None, Some(EngineObjectType))

  /** The strict base types of `t`, nearest first. */
  function Ancestors(t: TypeInfo): seq<TypeInfo>
  {
    match t.baseType
    case None => []
    case Some(b) => [b] + Ancestors(b)
  }

  /** `Type.IsSubclassOf`. */
  predicate IsSubclassOf(t: TypeInfo, b: TypeInfo)
  {
    b in Ancestors(t)
  }

  /**
   * `Type.IsAssignableFrom` restricted to class inheritance: `target` accepts
   * `source` when they are equal or `target` is a base type of `source`.
   */
  predicate IsAssignableFrom(target: TypeInfo, source: TypeInfo)
  {
    source == target || IsSubclassOf(source, target)
  }

  /** Every strict base type is smaller than the type itself, so no type is its own base. */
  lemma {:induction false} AncestorIsSmaller(t: TypeInfo, b: TypeInfo)
    requires b in Ancestors(t)
    ensures b < t
  {
    match t.baseType {
      case None =>
      case Some(p) =>
        if b != p {
          AncestorIsSmaller(p, b);
        }
    }
  }

  /** The base relation is antisymmetric. */
  lemma NotMutualSubclasses(a: TypeInfo, b: TypeInfo)
    requires IsSubclassOf(a, b)
    ensures !IsSubclassOf(b, a)
    ensures a != b
  {
    AncestorIsSmaller(a, b);
    if IsSubclassOf(b, a) {
      AncestorIsSmaller(b, a);
    }
  }

  /** No type is a subclass of itself. */
  lemma {:induction false} NotOwnSubclass(t: TypeInfo)
    ensures !IsSubclassOf(t, t)
  {
    if IsSubclassOf(t, t) {
      AncestorIsSmaller(t, t);
    }
  }

  datatype MemberKind = FieldMember | PropertyMember | MethodMember | ConstructorMember

  /** An engine object (`UnityEngine.Object`) reference: its instance id and its runtime type. */
  datatype ObjectRef = ObjectRef(instanceId: int, objectType: TypeInfo)

  /** An argument or result value as seen from C#. */
  datatype Value =
    | NullValue
    | BoolValue(b: bool)
    | IntValue(i: int)
    | StringValue(s: string)
    | ObjectValue(obj: ObjectRef)
    | OtherValue(id: nat)

  /** `ParameterInfo`: name, type and compile-time default (when it has one). */
  datatype ParameterInfo = ParameterInfo(name: string, parameterType: TypeInfo, defaultValue: Option<Value>)

  /**
   * A field, property, method or constructor. `valueType` is the field or
   * property type or the method's return type. For a property `isPublic`
   * says whether its get or set accessor is public and `hasGetter` whether
   * it has a get accessor of any visibility.
   */
  datatype Member = Member(
    kind: MemberKind,
    declaringType: TypeInfo,
    name: string,
    isStatic: bool,
    isPublic: bool,
    isSpecialName: bool,
    isObsolete: bool,
    isGeneric: bool,
    hasGetter: bool,
    parameters: seq<ParameterInfo>,
    valueType: TypeInfo)

  /** The parameter types of a parameter list, in order. */
  function ParameterTypes(ps: seq<ParameterInfo>): (ts: seq<TypeInfo>)
    ensures |ts| == |ps|
    ensures forall i :: 0 <= i < |ps| ==> ts[i] == ps[i].parameterType
  {
    seq(|ps|, i requires 0 <= i < |ps| => ps[i].parameterType)
  }

  /**
   * The type a call to a method produces: a constructor produces its
   * declaring type, anything else its return type.
   */
  function ReturnTypeOf(m: Member): TypeInfo
  {
    if m.kind == ConstructorMember then m.declaringType else m.valueType
  }

  /** The reflection queries the core makes, each answering null as None. */
  datatype Env = Env(
    getType: string -> Option<TypeInfo>,
    getField: (TypeInfo, string) -> Option<Member>,
    getMethod: (TypeInfo, string, seq<TypeInfo>) -> Option<Member>,
    getConstructor: (TypeInfo, seq<TypeInfo>) -> Option<Member>)

  datatype Exception = Exception(message: string)

  /** How a call into foreign code ended: returned a value or threw. */
  datatype Outcome = Returned(value: Value) | Threw(exception: Exception)

  /** How a call into foreign code that returns nothing ended. */
  datatype Status = Completed | Failed(exception: Exception)

  /** What the target of a delegate is. */
  datatype DelegateTarget = NoTarget | EngineTarget(obj: ObjectRef) | PlainTarget(id: nat)

  /** A single-method delegate. */
  datatype Action = Action(id: nat, target: DelegateTarget)

  /** What reading, writing and calling reflected members does at run time. */
  datatype Host = Host(
    getValue: (Member, Option<ObjectRef>) -> Outcome,
    setValue: (Member, Option<ObjectRef>, Value) -> Status,
    invoke: (Member, Option<ObjectRef>, Option<seq<Value>>) -> Outcome,
    construct: (Member, Option<seq<Value>>) -> Outcome)
}
