# UltEvents persistent-call engine, modelled in Dafny

UltEvents is a Unity package of serializable events. An event holds a list of
**persistent calls**, which a designer configures in the Inspector, and a
multicast delegate of **dynamic calls**, which are added from code.

A persistent call is a serializable triple:

- a target object;
- a member-name string;
- an argument array.

The member name uses a small text encoding:

- An instance member is stored by its bare name.
- A static member or a constructor is stored as the declaring type's assembly-qualified name, a `.`, and the bare name (`ctor` for a constructor).
- A field name also ends with the sentinel `=`.

An argument is either a literal or a link. A link forwards one of the event's parameters, or the return value of an earlier call in the same list.

This project models the following parts of the package:

- **`PersistentCalls`.** The call itself:
  - decoding the member name (`GetMemberDetails`);
  - binding a method or a field (`SetMethod`, `SetField`), which encodes the name and sizes and seeds the argument list;
  - the caching `Method`/`Field` getters;
  - `Invoke`, which is a dispatch over field getter, field setter, method and constructor;
  - `CopyFrom`, `NewArgumentArray` and `IsSupportedNative`.

  Reflection is abstract. Types are a `TypeInfo` datatype whose base-type chain is structural. Members are a `Member` datatype. Type, method, constructor and field lookups are functions in an `Env`, and running a member is a `Host` of functions returning an outcome.
- **`DrawerStates`.** The editor's drawing state:
  - the previous-calls list, a small state machine of `BeginCache`/`EndCache`/`BeginCall`/`EndCall`;
  - the choice of a link source (`TryGetLinkable`);
  - the link maintenance that re-points every return-value link after the list is edited (`CacheLinkedArguments`, `UpdateLinkedArguments`);
  - `CopyFrom` and `Clear`.

  The rewrite of a single argument is the function `Relinked`. The method `UpdateLinkedArguments` rewrites the arguments of every call in place and is proved against it.
- **`UltEvent0` and `UltEvent4`.** The zero- and four-parameter events:
  - the `+` and `-` operators, which route a delegate to persistent storage in Edit Mode with an engine-object target and to dynamic storage otherwise;
  - the implicit conversion;
  - `AddDynamicCall`/`RemoveDynamicCall`;
  - `Invoke`, which caches the parameters, then runs the persistent calls, then the dynamic ones;
  - `InvokeSafe`, which logs any exception instead of letting it escape.

  `EventBase` holds the shared pieces: a stand-in for the base class, `Delegate.Combine`/`Delegate.Remove` on an operand that may be null (`Combine`, `Remove`, `RemoveLast`) and the invocation traces. A delegate operand is an `Option<Action>`, so a null operand is modelled: in Edit Mode the operators read its `Target` and throw.
- **`UltEventDrawers`.** The call-list edits of the event drawer:
  - insert after the selection;
  - remove with selection clamping;
  - deferred removal and reorder, both followed by link maintenance;
  - the validity check;
  - the keyboard commands, including the paste-insert index.
- **`PickerMenus`.** The menu tree. A path is split on `/` and walked, getting or creating one child per segment. Any item that still has a function when a child is fetched or created under it (a leaf, or an inner item that was given a function later) is reparented into a copy of itself, and the copy takes the function. The tree is an arena: a sequence of items whose children are indices.
- **`MemberSelection`.** The member-menu helpers:
  - the binding flags;
  - the null item;
  - the base-type and member comparators;
  - the component index counting;
  - the same-type validation;
  - the support checks and the supported-member scan;
  - the signature strings.
- **`CallDrawers`.** The small algorithms of the call drawer:
  - the in-place swap-remove filter of assemblies;
  - the type-field split and setter;
  - the `get_`/`set_` toggle;
  - the field get/set toggle;
  - the closest-name suggestion;
  - `SetTarget`, `SetMethod`;
  - the argument-count check.
- **`TypeCache`.** The memoising name-to-type map.
- **`Operators`.** The `bool`, `int` and `long` primitive operations. They use explicit 32- and 64-bit two's-complement wrap-around and C#'s truncating division, and the division exceptions are outcomes.

Some behaviour of the code is captured as written:

- `DrawerState.CopyFrom(this)` empties the previous calls. The list is cleared before it is copied from itself.
- `UpdateLinkedArguments` indexes the member snapshot without a bounds check. The model therefore requires every return-value link to be within the snapshot. It also reads the event's call list without a null check once there is a snapshot, which throws `NullReferenceException` for an event without a list. The model therefore requires the list to exist whenever the snapshot is non-empty; `DelayedRemoveCall` and `OnReorder`, its callers, only run on an existing list.
- `TryGetLinkable` reads the return type of every previous call without a null check. A null previous call, or a previous getter whose field does not resolve, raises `NullReferenceException`. The model returns that exception as an outcome, and so do the support checks and the toggles that depend on it.

## Model

Paths are relative to the repository root. `PC` rows cite `Packages/com.kybernetik.ultevents/Runtime/Events/PersistentCall.cs`, and so on, in full.

| member | source | states |
|---|---|---|
| PersistentCalls.FieldSuffixMarksFields | Packages/com.kybernetik.ultevents/Runtime/Events/PersistentCall.cs:127-129 | a field's stored name ends in `=` and is recognised as a field; a method's stored name is not |
| PersistentCalls.GetMemberDetails | Packages/com.kybernetik.ultevents/Runtime/Events/PersistentCall.cs:464-497 | empty or null name gives no type and no name; with a target, the target's type and the whole name; without a target and without a dot, no type and the whole name; otherwise the name is split at its last dot, the prefix is looked up and the dot-free suffix is the name |
| PersistentCalls.QualifiedNameDetails | Packages/com.kybernetik.ultevents/Runtime/Events/PersistentCall.cs:477-491 | decoding `Q.m` for a dot-free `m` without a target gives lookup(`Q`) and `m` |
| PersistentCalls.MethodNameRoundTrip | Packages/com.kybernetik.ultevents/Runtime/Events/PersistentCall.cs:203-217 | decoding the name and target `SetMethod` stores gives back the declaring type and bare name of a static method or constructor, or the target's type and the name of an instance method |
| PersistentCalls.FieldNameRoundTrip | Packages/com.kybernetik.ultevents/Runtime/Events/PersistentCall.cs:296-305 | decoding the name and target `SetField` stores gives back the field's declaring type (static) or the target's type (instance) and the field name with its suffix |
| PersistentCalls.SystemTypes | Packages/com.kybernetik.ultevents/Runtime/Events/PersistentCall.cs:73-78 | the argument types used for method lookup exist exactly when every argument has a system type, and are those types in argument order |
| PersistentCalls.MethodLookupRoundTrip | Packages/com.kybernetik.ultevents/Runtime/Events/PersistentCall.cs:62-85 | looking up the stored name, target and parameter types finds the same method or constructor again (constructor lookup for `ctor`) |
| PersistentCalls.FieldLookupRoundTrip | Packages/com.kybernetik.ultevents/Runtime/Events/PersistentCall.cs:106-121 | looking up the stored field name, with exactly its one trailing character stripped, finds the same field again |
| PersistentCalls.Seeded | Packages/com.kybernetik.ultevents/Runtime/Events/PersistentCall.cs:226-245 | a seeded argument takes the parameter's type, keeps its kind and link, and takes the parameter's default value unless it is a link or there is no default |
| PersistentCalls.NewArgumentArray | Packages/com.kybernetik.ultevents/Runtime/Events/PersistentCall.cs:324-338 | returns `length` arguments, each a freshly constructed one |
| PersistentCalls.IsSupportedNativeParameters | Packages/com.kybernetik.ultevents/Runtime/Events/PersistentCall.cs:525-534 | true exactly when every parameter type is in the closed set of natively supported types |
| PersistentCalls.ArgumentValues | Packages/com.kybernetik.ultevents/Runtime/Events/PersistentCall.cs:374-383 | one value per argument, in argument order |
| PersistentCalls.InvokeResolved | Packages/com.kybernetik.ultevents/Runtime/Events/PersistentCall.cs:345-391 | an unresolved member logs one warning and yields null without throwing; a getter reads the field once and writes nothing; a setter writes the first argument once; when the write completes it then refreshes link offsets and yields null, and when the write throws the call ends with that exception; a method refreshes link offsets and is then called with its arguments (none when empty), a constructor without a target, and the call answers the new object or the method's result or exception |
| PersistentCalls.IsFieldName | Packages/com.kybernetik.ultevents/Runtime/Events/PersistentCall.cs:127-129 | a null or empty name is never a field name; any other name is one exactly when its last character is `=` |
| PersistentCalls.LookupMethod | Packages/com.kybernetik.ultevents/Runtime/Events/PersistentCall.cs:68-83 | nothing unless the name decodes to a declaring type and a non-empty member name and every argument type is known; then the constructor lookup for `ctor`, else the method lookup by name, with the argument types |
| PersistentCalls.LookupField | Packages/com.kybernetik.ultevents/Runtime/Events/PersistentCall.cs:111-118 | nothing unless the name decodes to a declaring type and a non-empty member name; then the field lookup by the name without its last character |
| PersistentCalls.IsSupportedNative | Packages/com.kybernetik.ultevents/Runtime/Events/PersistentCall.cs:504-520 | true exactly for `bool`, `string`, `int`, an `int`-backed enum, `float`, the vector, quaternion, colour and rect types, and the engine object type with its subclasses |
| PersistentCalls.PersistentCall.IsField | Packages/com.kybernetik.ultevents/Runtime/Events/PersistentCall.cs:127-129 | a field call's stored name is its stem followed by `=`; any other call's name is null, empty or ends in another character |
| PersistentCalls.PersistentCall.IsGetter | Packages/com.kybernetik.ultevents/Runtime/Events/PersistentCall.cs:136-138 | a call is a getter exactly when it has no arguments |
| PersistentCalls.PersistentCall.ResolvedMember | Packages/com.kybernetik.ultevents/Runtime/Events/PersistentCall.cs:141-149 | the field the `Field` getter resolves when the name marks a field, else the method the `Method` getter resolves |
| PersistentCalls.PersistentCall.ReturnType | Packages/com.kybernetik.ultevents/Runtime/Events/PersistentCall.cs:152-157 | a field getter yields the field's type and throws the null-reference exception when the field does not resolve; a field setter yields null; a method or constructor yields its return type, or null when it does not resolve |
| PersistentCalls.PersistentCall.constructor | Packages/com.kybernetik.ultevents/Runtime/Events/PersistentCall.cs:186 | a new call has no target, no name, no arguments and nothing cached |
| PersistentCalls.PersistentCall.Method | Packages/com.kybernetik.ultevents/Runtime/Events/PersistentCall.cs:62-95 | answers from the cache when set, otherwise looks the method up and caches the answer; the answer is the same either way |
| PersistentCalls.PersistentCall.Field | Packages/com.kybernetik.ultevents/Runtime/Events/PersistentCall.cs:106-121 | answers from the cache when set, otherwise looks the field up and caches the answer; the answer is the same either way |
| PersistentCalls.PersistentCall.GetMemberSafe | Packages/com.kybernetik.ultevents/Runtime/Events/PersistentCall.cs:141-149 | the field when the name marks a field, else the method; resolving again gives the same member |
| PersistentCalls.PersistentCall.ClearCache | Packages/com.kybernetik.ultevents/Runtime/Events/PersistentCall.cs:168-177 | both cached members are forgotten |
| PersistentCalls.PersistentCall.SetMethod | Packages/com.kybernetik.ultevents/Runtime/Events/PersistentCall.cs:203-252 | a null method clears the name and arguments; otherwise the name is encoded, a static method or constructor drops the target, there is one argument per parameter whose type is the parameter's type, values are seeded from defaults, and links keep their link when the old list had the right length |
| PersistentCalls.PersistentCall.SetMethodFromDelegate | Packages/com.kybernetik.ultevents/Runtime/Events/PersistentCall.cs:255-269 | a delegate whose target is not an engine object fails and changes nothing; otherwise the call is bound to the delegate's method with its engine target or none |
| PersistentCalls.PersistentCall.SetField | Packages/com.kybernetik.ultevents/Runtime/Events/PersistentCall.cs:282-320 | a null field clears the name and arguments and returns null; otherwise the name ends with `=`, a static field drops the target, the call is a field, it is a getter exactly when asked for one, and a setter's single argument carries the field type and is returned |
| PersistentCalls.PersistentCall.SetArguments | Packages/com.kybernetik.ultevents/Runtime/Events/PersistentCall.cs:416-443 | the first values overwrite the values of the first arguments; every other argument and the length are unchanged; with more values than arguments, every argument is still overwritten and the status is the index-out-of-range exception, otherwise it completes |
| PersistentCalls.PersistentCall.Invoke | Packages/com.kybernetik.ultevents/Runtime/Events/PersistentCall.cs:345-391 | the invocation is `InvokeResolved` of the member the call resolves to and its argument values; resolving does not change the member |
| PersistentCalls.PersistentCall.CopyFrom | Packages/com.kybernetik.ultevents/Runtime/Events/PersistentCall.cs:539-551 | target, name and cached members equal the other call's; the argument list equals the other call's (arguments are values, so equal means cloned), except that a call with arguments copying itself throws `NullReferenceException`, leaving as many empty arguments as it had |
| PersistentCalls.StoreAndReload | Packages/com.kybernetik.ultevents/Runtime/Events/PersistentCall.cs:62-85 | after `SetMethod` with a method the lookups can find, the call is not a field and resolves to that method even with its cache cleared |
| PersistentCalls.StoreAndReloadField | Packages/com.kybernetik.ultevents/Runtime/Events/PersistentCall.cs:282-320 | after `SetField` with a field the lookups can find, the call is a field and resolves to that field even with its cache cleared |
| DrawerStates.Members | Packages/com.kybernetik.ultevents/Editor/DrawerState.cs:171-172 | one entry per call, in list order, each the member that call resolves to (none for a null call) |
| DrawerStates.ReturnTypes | Packages/com.kybernetik.ultevents/Editor/DrawerState.cs:266-268 | one return type per previous call, in order; a null call gives the null-reference exception |
| DrawerStates.Relinked | Packages/com.kybernetik.ultevents/Editor/DrawerState.cs:191-209 | only the link index can change; a non-return-value argument is untouched; a link that still points at a call with the snapshot's member is untouched; a link whose member is gone is untouched; otherwise it points at the first call with that member |
| DrawerStates.RelinkAll | Packages/com.kybernetik.ultevents/Editor/DrawerState.cs:191-209 | each argument of a call is rewritten by `Relinked`, and the list length is kept |
| DrawerStates.RelinkKeepsSystemTypes | Packages/com.kybernetik.ultevents/Editor/DrawerState.cs:191-209 | link maintenance never changes any argument's system type, so a call's method lookup is unchanged |
| DrawerStates.RelinkWithoutEdit | Packages/com.kybernetik.ultevents/Editor/DrawerState.cs:199-203 | when the call list is unchanged since the snapshot, every argument is left as it was |
| DrawerStates.RelinkAfterRemoval | Packages/com.kybernetik.ultevents/Editor/DrawerState.cs:199-208 | after call `removed` is deleted from a list of distinct members, a link to an earlier call keeps its index and a link to a later one moves down by one |
| DrawerStates.FirstAssignable | Packages/com.kybernetik.ultevents/Editor/DrawerState.cs:266-278 | the least index from `start` whose non-null type is assignable to the target, or -1 when none is |
| DrawerStates.Present | Packages/com.kybernetik.ultevents/Editor/DrawerState.cs:254-263 | the parameter types seen as present types, in order |
| DrawerStates.FirstLinkableReturn | Packages/com.kybernetik.ultevents/Editor/DrawerState.cs:266-278 | from a start index: the first previous call whose return type is assignable, with every one before it read and not assignable; if none is, every one was read and none is assignable; an exception means some call's return type threw and every one before it was read and not assignable |
| DrawerStates.Linkable | Packages/com.kybernetik.ultevents/Editor/DrawerState.cs:249-284 | a link is found only with a wanted type and an event; the first assignable event parameter wins; otherwise the first previous call with an assignable non-null return type; reading a return type that throws before such a call is found gives the exception, and then no parameter was assignable; failure gives -1 and no link kind, and then nothing was assignable |
| DrawerStates.DrawerState.constructor | Packages/com.kybernetik.ultevents/Editor/DrawerState.cs:23-66 | a new state has no event or call, call index -1, parameter index 0, not caching, and no previous calls or snapshot |
| DrawerStates.DrawerState.TryBeginEvent | Packages/com.kybernetik.ultevents/Editor/DrawerState.cs:85-93 | the event is taken from the property; the result is true exactly when it is not null, and only then is the property stored |
| DrawerStates.DrawerState.EndEvent | Packages/com.kybernetik.ultevents/Editor/DrawerState.cs:96-100 | the event and its property are cleared |
| DrawerStates.DrawerState.CacheLinkedArguments | Packages/com.kybernetik.ultevents/Editor/DrawerState.cs:164-173 | the snapshot holds exactly one member per persistent call in list order, and is empty without an event or a call list |
| DrawerStates.DrawerState.BeginCache | Packages/com.kybernetik.ultevents/Editor/DrawerState.cs:105-109 | takes the member snapshot and starts caching previous calls |
| DrawerStates.DrawerState.EndCache | Packages/com.kybernetik.ultevents/Editor/DrawerState.cs:112-116 | stops caching and empties the previous calls |
| DrawerStates.DrawerState.BeginCall | Packages/com.kybernetik.ultevents/Editor/DrawerState.cs:121-130 | the call property, its three sub-properties and the call are stored |
| DrawerStates.DrawerState.EndCall | Packages/com.kybernetik.ultevents/Editor/DrawerState.cs:133-139 | appends the current call to the previous calls only while caching, then clears the current call |
| DrawerStates.DrawerState.IndexOfMember | Packages/com.kybernetik.ultevents/Editor/DrawerState.cs:218-225 | the least index whose call resolves to the given member, or -1 |
| DrawerStates.DrawerState.RelinkArgument | Packages/com.kybernetik.ultevents/Editor/DrawerState.cs:193-208 | the inner loop body rewrites one argument exactly as `Relinked` says |
| DrawerStates.DrawerState.RelinkCall | Packages/com.kybernetik.ultevents/Editor/DrawerState.cs:191-209 | a call's arguments become `RelinkAll` of the old ones, and the member the call resolves to is unchanged |
| DrawerStates.DrawerState.UpdateLinkedArguments | Packages/com.kybernetik.ultevents/Editor/DrawerState.cs:179-213 | without an event or with an empty snapshot nothing changes; otherwise every call's arguments are relinked against the snapshot and the current members, and the snapshot is emptied |
| DrawerStates.DrawerState.GetLinkedMember | Packages/com.kybernetik.ultevents/Editor/DrawerState.cs:230-233 | the snapshot entry at an in-range index, null for any other index |
| DrawerStates.DrawerState.TryGetLinkable | Packages/com.kybernetik.ultevents/Editor/DrawerState.cs:249-284 | the answer, or the exception, is `Linkable` of the event's parameter types and the previous calls' return types, which are read in list order |
| DrawerStates.DrawerState.TryGetLinkableForCurrent | Packages/com.kybernetik.ultevents/Editor/DrawerState.cs:289-290 | the same, for the type of the parameter currently being drawn |
| DrawerStates.DrawerState.GetPreviousCall | Packages/com.kybernetik.ultevents/Editor/DrawerState.cs:301-304 | the previous call at an in-range index, null for any other index |
| DrawerStates.DrawerState.CopyFrom | Packages/com.kybernetik.ultevents/Editor/DrawerState.cs:311-328 | every copied field equals the other state's; the previous calls equal the other state's, or become empty when copying from itself |
| DrawerStates.DrawerState.Clear | Packages/com.kybernetik.ultevents/Editor/DrawerState.cs:333-349 | all properties, the event and the call are cleared, call index -1, parameter index 0, no previous calls |
| DrawerStates.DrawCallsCached | Packages/com.kybernetik.ultevents/Editor/DrawerState.cs:105-139 | after `EndCache`, `BeginCache` and a `BeginCall`/`EndCall` pair per call, the previous calls are exactly those calls in order |
| EventBase.RemoveLast | Packages/com.kybernetik.ultevents/Runtime/Events/UltEvent0.cs:72 | removing an absent delegate changes nothing; otherwise exactly its last occurrence is removed |
| EventBase.RemoveLastUndoesAppend | Packages/com.kybernetik.ultevents/Runtime/Events/UltEvent0.cs:67-72 | removing the delegate just added restores the invocation list |
| EventBase.Combine | Packages/com.kybernetik.ultevents/Runtime/Events/UltEvent0.cs:67 | adding a null delegate leaves the invocation list as it was; adding a delegate puts it after every existing entry |
| EventBase.Remove | Packages/com.kybernetik.ultevents/Runtime/Events/UltEvent0.cs:72 | removing a null delegate leaves the list as it was; removing a delegate removes its last occurrence |
| EventBase.RemoveUndoesCombine | Packages/com.kybernetik.ultevents/Runtime/Events/UltEvent0.cs:65-74 | removing what was just added, null or not, restores the invocation list |
| EventBase.DynamicTrace | Packages/com.kybernetik.ultevents/Runtime/Events/UltEvent0.cs:186 | the multicast invocation makes at most one step per delegate |
| EventBase.DynamicTraceCalls | Packages/com.kybernetik.ultevents/Runtime/Events/UltEvent0.cs:186 | the k-th step calls the k-th delegate with the event's arguments |
| EventBase.DynamicTraceStatus | Packages/com.kybernetik.ultevents/Runtime/Events/UltEvent0.cs:186 | the invocation completes exactly when every delegate completes; when it fails, the last delegate called threw and all before it completed |
| EventBase.DynamicTraceFrom | Packages/com.kybernetik.ultevents/Runtime/Events/UltEvent0.cs:186 | from delegate `i` on, the trace is that delegate's call followed by its exception or by the trace from `i + 1` |
| EventBase.InvocationTrace | Packages/com.kybernetik.ultevents/Runtime/Events/UltEvent0.cs:183-187 | after the given prefix the persistent calls run first; the dynamic calls run after them, with the same arguments, only if they did not throw |
| EventBase.SafeTrace | Packages/com.kybernetik.ultevents/Runtime/Events/UltEvent0.cs:195-205 | the same steps, plus one logged exception exactly when the invocation threw |
| EventBase.RunDynamicCalls | Packages/com.kybernetik.ultevents/Runtime/Events/UltEvent0.cs:186 | running the delegates in a loop gives `DynamicTrace` |
| UltEvent0.UltEvent.constructor | Packages/com.kybernetik.ultevents/Runtime/Events/UltEvent0.cs:35-58 | a new event has no parameter types, no persistent list and no dynamic calls |
| UltEvent0.UltEvent.ParameterCount | Packages/com.kybernetik.ultevents/Runtime/Events/UltEvent0.cs:42 | the count agrees with the empty parameter-type list |
| UltEvent0.UltEvent.AddToPersistentCalls | Packages/com.kybernetik.ultevents/Runtime/Events/UltEvent0.cs:50-54 | the delegate is registered as a persistent call; dynamic calls are untouched |
| UltEvent0.UltEvent.RemoveFromPersistentCalls | Packages/com.kybernetik.ultevents/Runtime/Events/UltEvent0.cs:50-54 | the delegate is unregistered from the persistent calls; dynamic calls are untouched |
| UltEvent0.UltEvent.AddToDynamicCalls | Packages/com.kybernetik.ultevents/Runtime/Events/UltEvent0.cs:65-69 | the delegate is appended and the change is notified once; a null delegate leaves the list as it was but is still notified |
| UltEvent0.UltEvent.RemoveFromDynamicCalls | Packages/com.kybernetik.ultevents/Runtime/Events/UltEvent0.cs:70-74 | the last occurrence is removed and the change is notified once; a null delegate leaves the list as it was but is still notified |
| UltEvent0.UltEvent.Plus | Packages/com.kybernetik.ultevents/Runtime/Events/UltEvent0.cs:97-111 | a null event is replaced by a new one; in Edit Mode a null delegate throws `NullReferenceException` and the existing event is unchanged; otherwise, in Edit Mode with an engine-object target, the delegate goes to the persistent calls, else it is appended to the dynamic calls (a null one outside Edit Mode leaves them as they were) |
| UltEvent0.UltEvent.Minus | Packages/com.kybernetik.ultevents/Runtime/Events/UltEvent0.cs:119-134 | a null event stays null; a null delegate in Edit Mode on an existing event throws `NullReferenceException` and changes nothing; otherwise the delegate is removed from the list the same rule chooses |
| UltEvent0.UltEvent.FromAction | Packages/com.kybernetik.ultevents/Runtime/Events/UltEvent0.cs:142-151 | null gives null; otherwise a new event holding just that delegate, in the list the rule chooses |
| UltEvent0.UltEvent.AddDynamicCall | Packages/com.kybernetik.ultevents/Runtime/Events/UltEvent0.cs:156-161 | a missing event is created; the delegate is appended to the dynamic calls, a null one leaving them as they were; the change is notified |
| UltEvent0.UltEvent.RemoveDynamicCall | Packages/com.kybernetik.ultevents/Runtime/Events/UltEvent0.cs:164-168 | a null event is left alone; otherwise the delegate's last occurrence is removed, a null one leaving the list as it was; the change is notified |
| UltEvent0.UltEvent.Invoke | Packages/com.kybernetik.ultevents/Runtime/Events/UltEvent0.cs:183-187 | all persistent calls run before any dynamic call |
| UltEvent0.UltEvent.InvokeSafe | Packages/com.kybernetik.ultevents/Runtime/Events/UltEvent0.cs:195-205 | the steps of `Invoke`, with any exception logged and none escaping |
| UltEvent0.PlusThenMinus | Packages/com.kybernetik.ultevents/Runtime/Events/UltEvent0.cs:97-134 | `e + d - d` leaves the dynamic calls as they were; it throws exactly when `d` is null in Edit Mode, and then changes nothing |
| UltEvent4.UltEvent4.constructor | Packages/com.kybernetik.ultevents/Runtime/Events/UltEvent4.cs:35-58 | a new event has parameter types `[T0, T1, T2, T3]` and no calls |
| UltEvent4.UltEvent4.ParameterTypes | Packages/com.kybernetik.ultevents/Runtime/Events/UltEvent4.cs:175-176 | four types, `T0` to `T3`, in order |
| UltEvent4.UltEvent4.ParameterCount | Packages/com.kybernetik.ultevents/Runtime/Events/UltEvent4.cs:42 | the count agrees with the four parameter types |
| UltEvent4.UltEvent4.AddToPersistentCalls | Packages/com.kybernetik.ultevents/Runtime/Events/UltEvent4.cs:50-54 | the delegate is registered as a persistent call; dynamic calls are untouched |
| UltEvent4.UltEvent4.RemoveFromPersistentCalls | Packages/com.kybernetik.ultevents/Runtime/Events/UltEvent4.cs:50-54 | the delegate is unregistered from the persistent calls; dynamic calls are untouched |
| UltEvent4.UltEvent4.AddToDynamicCalls | Packages/com.kybernetik.ultevents/Runtime/Events/UltEvent4.cs:65-69 | the delegate is appended and the change is notified once; a null delegate leaves the list as it was but is still notified |
| UltEvent4.UltEvent4.RemoveFromDynamicCalls | Packages/com.kybernetik.ultevents/Runtime/Events/UltEvent4.cs:70-74 | the last occurrence is removed and the change is notified once; a null delegate leaves the list as it was but is still notified |
| UltEvent4.UltEvent4.Plus | Packages/com.kybernetik.ultevents/Runtime/Events/UltEvent4.cs:97-111 | a null event is replaced by a new one; in Edit Mode a null delegate throws `NullReferenceException` and the existing event is unchanged; otherwise, in Edit Mode with an engine-object target, the delegate goes to the persistent calls, else it is appended to the dynamic calls (a null one outside Edit Mode leaves them as they were) |
| UltEvent4.UltEvent4.Minus | Packages/com.kybernetik.ultevents/Runtime/Events/UltEvent4.cs:119-134 | a null event stays null; a null delegate in Edit Mode on an existing event throws `NullReferenceException` and changes nothing; otherwise the delegate is removed from the list the same rule chooses |
| UltEvent4.UltEvent4.FromAction | Packages/com.kybernetik.ultevents/Runtime/Events/UltEvent4.cs:142-150 | null gives null; otherwise a new event holding the delegate |
| UltEvent4.UltEvent4.AddDynamicCall | Packages/com.kybernetik.ultevents/Runtime/Events/UltEvent4.cs:155-160 | a missing event is created; the delegate is appended to the dynamic calls, a null one leaving them as they were; the change is notified |
| UltEvent4.UltEvent4.RemoveDynamicCall | Packages/com.kybernetik.ultevents/Runtime/Events/UltEvent4.cs:163-167 | a null event is left alone; otherwise the delegate's last occurrence is removed, a null one leaving the list as it was; the change is notified |
| UltEvent4.UltEvent4.Invoke | Packages/com.kybernetik.ultevents/Runtime/Events/UltEvent4.cs:182-190 | parameters 0, 1, 2 and 3 are cached in that order, then the persistent calls run, then the dynamic calls with the same four values |
| UltEvent4.UltEvent4.InvokeSafe | Packages/com.kybernetik.ultevents/Runtime/Events/UltEvent4.cs:198-208 | the steps of `Invoke`, with any exception logged and swallowed |
| UltEvent4.PlusThenMinus | Packages/com.kybernetik.ultevents/Runtime/Events/UltEvent4.cs:97-134 | `e + d - d` leaves the dynamic calls as they were; it throws exactly when `d` is null in Edit Mode, and then changes nothing |
| UltEventDrawers.RemovedAt | Packages/com.kybernetik.ultevents/Editor/UltEventDrawer.cs:524 | deleting an element shifts the later ones down by one and keeps the earlier ones |
| UltEventDrawers.InsertedAt | Packages/com.kybernetik.ultevents/Editor/UltEventDrawer.cs:509 | inserting puts the element at the index and shifts the later ones up by one |
| UltEventDrawers.RemoveUndoesInsert | Packages/com.kybernetik.ultevents/Editor/UltEventDrawer.cs:509-524 | deleting at the index just inserted at restores the list |
| UltEventDrawers.ReorderableList.constructor | Packages/com.kybernetik.ultevents/Editor/UltEventDrawer.cs:130-141 | a new list view shows the event with no selection |
| UltEventDrawers.NewCallIndex | Packages/com.kybernetik.ultevents/Editor/UltEventDrawer.cs:497-507 | the slot after the selection when it is in range, otherwise the end |
| UltEventDrawers.InsertCall | Packages/com.kybernetik.ultevents/Editor/UltEventDrawer.cs:509 | the list gains a new, blank call at the index and is otherwise unchanged |
| UltEventDrawers.AddNewCall | Packages/com.kybernetik.ultevents/Editor/UltEventDrawer.cs:495-517 | a new call is inserted after an in-range selection, which moves to it, or at the end; the list grows by one; the new call is blank (as `UltEventDrawers.InsertCall` under Left out explains) apart from targeting the supplied object; its `BeginCall`/`EndCall` pair leaves no current call. The list's size stands for the count cached when the list was last drawn |
| UltEventDrawers.ClampedSelection | Packages/com.kybernetik.ultevents/Editor/UltEventDrawer.cs:526-527 | the selection is at most the new size minus one and changes only when it was beyond that |
| UltEventDrawers.RemoveCall | Packages/com.kybernetik.ultevents/Editor/UltEventDrawer.cs:521-530 | exactly the element at the index is deleted and the selection is clamped |
| UltEventDrawers.AddThenRemove | Packages/com.kybernetik.ultevents/Editor/UltEventDrawer.cs:495-530 | adding a call and removing it at the index it was added at restores the call list |
| UltEventDrawers.DelayedRemoveCall | Packages/com.kybernetik.ultevents/Editor/UltEventDrawer.cs:532-549 | the element is deleted and the selection clamped; the remaining calls' links are relinked against the saved snapshot and the new list (unchanged without a snapshot); the state is cleared |
| UltEventDrawers.OnReorder | Packages/com.kybernetik.ultevents/Editor/UltEventDrawer.cs:553-557 | after a reorder every call's links are relinked against the snapshot and the reordered list |
| UltEventDrawers.RelinkFollowsReorder | Packages/com.kybernetik.ultevents/Editor/UltEventDrawer.cs:553-557 | when the list is a permutation of the snapshot, every return-value link ends up pointing at a call with the member it pointed at before |
| UltEventDrawers.IsEventValid | Packages/com.kybernetik.ultevents/Editor/UltEventDrawer.cs:234-248 | true without an event or a call list; otherwise true exactly when every call is non-null and resolves to a member; resolving changes no member |
| UltEventDrawers.InputCommand | Packages/com.kybernetik.ultevents/Editor/UltEventDrawer.cs:561-612 | only key-up acts; Backspace and Delete remove, Plus, KeypadPlus and Equals add, Ctrl+C copies, Ctrl+V pastes in place and Ctrl+Shift+V pastes one below |
| UltEventDrawers.CheckInput | Packages/com.kybernetik.ultevents/Editor/UltEventDrawer.cs:561-612 | a remove deletes at the index; an add grows the list with a call targeting the owner; Ctrl+Shift+V inserts a new element at index + 1 and pastes there; copy, plain paste and other keys leave the list unchanged |
| PickerMenus.FirstNamed | Packages/com.kybernetik.ultevents/Editor/PickerMenu.cs:216-218 | the position of the first child with the name, or -1 when no child has it |
| PickerMenus.FirstNamedSameNames | Packages/com.kybernetik.ultevents/Editor/PickerMenu.cs:216-218 | the child search depends only on the children's names |
| PickerMenus.AddChild | Packages/com.kybernetik.ultevents/Editor/PickerMenu.cs:212-224 | the new item is appended as the parent's last child and no other item changes |
| PickerMenus.ReparentCopy | Packages/com.kybernetik.ultevents/Editor/PickerMenu.cs:201-211 | the copy has the parent's name, enabled flag, icon and function, and the id of the path up to the new segment followed by the parent's name |
| PickerMenus.Reparented | Packages/com.kybernetik.ultevents/Editor/PickerMenu.cs:199-214 | reparenting keeps the tree well formed and only adds items |
| PickerMenus.ReparentedShape | Packages/com.kybernetik.ultevents/Editor/PickerMenu.cs:199-214 | a parent without a function is unchanged; a parent with one gains the copy as a child and is left enabled with no icon and no function; other items are unchanged |
| PickerMenus.ChildStep | Packages/com.kybernetik.ultevents/Editor/PickerMenu.cs:197-230 | getting or creating a child keeps the tree well formed and returns a later item |
| PickerMenus.ChildStepFrame | Packages/com.kybernetik.ultevents/Editor/PickerMenu.cs:197-230 | only the parent changes among existing items, and it keeps its name |
| PickerMenus.ChildStepFinds | Packages/com.kybernetik.ultevents/Editor/PickerMenu.cs:216-224 | the result is the parent's first child with the name; if none existed, a new item with that name and the id `hash(path)` was added |
| PickerMenus.ChildStepExisting | Packages/com.kybernetik.ultevents/Editor/PickerMenu.cs:216-218 | an existing child with the name is returned without adding any item |
| PickerMenus.ChildStepFindsExisting | Packages/com.kybernetik.ultevents/Editor/PickerMenu.cs:216-218 | that child is the first one with the name |
| PickerMenus.SegmentEnd | Packages/com.kybernetik.ultevents/Editor/PickerMenu.cs:173-175 | the end of the segment starting at `start` is within the path |
| PickerMenus.SegmentIsName | Packages/com.kybernetik.ultevents/Editor/PickerMenu.cs:173-181 | a non-empty segment contains no `/` |
| PickerMenus.SegmentsAreNames | Packages/com.kybernetik.ultevents/Editor/PickerMenu.cs:171-188 | every segment walked is non-empty and has no `/` |
| PickerMenus.SegmentsStep | Packages/com.kybernetik.ultevents/Editor/PickerMenu.cs:171-188 | a non-empty segment is walked with its path prefix, then walking continues after its `/` |
| PickerMenus.SegmentsStop | Packages/com.kybernetik.ultevents/Editor/PickerMenu.cs:177-178 | walking stops at an empty segment |
| PickerMenus.SegmentsStopAtEmptySegment | Packages/com.kybernetik.ultevents/Editor/PickerMenu.cs:177-178 | walking stops at a `/` or at the end of the path |
| PickerMenus.DoubleSlashStops | Packages/com.kybernetik.ultevents/Editor/PickerMenu.cs:177-178 | `a//b` walks only `a` |
| PickerMenus.WalkSegments | Packages/com.kybernetik.ultevents/Editor/PickerMenu.cs:171-188 | walking keeps the tree well formed and returns an item no earlier than the start |
| PickerMenus.Trace | Packages/com.kybernetik.ultevents/Editor/PickerMenu.cs:171-188 | one state per walked segment plus the start |
| PickerMenus.TraceCons | Packages/com.kybernetik.ultevents/Editor/PickerMenu.cs:171-188 | the walk is the first child step followed by the walk of the rest |
| PickerMenus.TraceSteps | Packages/com.kybernetik.ultevents/Editor/PickerMenu.cs:171-188 | consecutive states of the trace are related by the child step of a segment |
| PickerMenus.TraceLast | Packages/com.kybernetik.ultevents/Editor/PickerMenu.cs:171-188 | the trace ends in the walk's result |
| PickerMenus.ItemAt | Packages/com.kybernetik.ultevents/Editor/PickerMenu.cs:165-189 | the empty path gives the root and no change |
| PickerMenus.WalkTrace | Packages/com.kybernetik.ultevents/Editor/PickerMenu.cs:165-189 | the item for a path is reached from the root by one child step per segment |
| PickerMenus.WalkFrame | Packages/com.kybernetik.ultevents/Editor/PickerMenu.cs:171-188 | walking renames no item and leaves items before the start unchanged |
| PickerMenus.ChildStepAgain | Packages/com.kybernetik.ultevents/Editor/PickerMenu.cs:197-230 | repeating a child step on a tree that already contains its result adds nothing and returns the same child |
| PickerMenus.SameChildrenSameSearch | Packages/com.kybernetik.ultevents/Editor/PickerMenu.cs:216-218 | the child search is unchanged when the parent and all names are |
| PickerMenus.WalkTwice | Packages/com.kybernetik.ultevents/Editor/PickerMenu.cs:171-188 | walking the same segments again adds no nodes and returns the same item |
| PickerMenus.ItemAtTwice | Packages/com.kybernetik.ultevents/Editor/PickerMenu.cs:165-189 | getting or creating the same path twice adds no nodes the second time |
| PickerMenus.SingleSegment | Packages/com.kybernetik.ultevents/Editor/PickerMenu.cs:165-189 | a path without `/` is one child step from the root |
| PickerMenus.PickerMenu.constructor | Packages/com.kybernetik.ultevents/Editor/PickerMenu.cs:56-65 | exactly one of the forwarding menu and a lone root item named after the title is set up, chosen by the context-menu-style preference |
| PickerMenus.PickerMenu.GetOrCreateChild | Packages/com.kybernetik.ultevents/Editor/PickerMenu.cs:197-230 | the tree and the child become `ChildStep` of the old tree |
| PickerMenus.PickerMenu.DescendSegment | Packages/com.kybernetik.ultevents/Editor/PickerMenu.cs:173-185 | one loop iteration advances the walk by exactly one traced step |
| PickerMenus.PickerMenu.GetOrCreateItem | Packages/com.kybernetik.ultevents/Editor/PickerMenu.cs:165-189 | the tree and the item become `ItemAt` of the old tree and the path |
| PickerMenus.PickerMenu.AddItem | Packages/com.kybernetik.ultevents/Editor/PickerMenu.cs:81-91 | in forwarding mode the item is forwarded and the tree unchanged; otherwise the item at the path is enabled, gets the function, and shows the selected icon exactly when `on` |
| PickerMenus.PickerMenu.AddDisabledItem | Packages/com.kybernetik.ultevents/Editor/PickerMenu.cs:122-133 | in forwarding mode the item is forwarded; otherwise the item at the path is disabled |
| MemberSelection.GetBindingFlags | Packages/com.kybernetik.ultevents/Editor/MemberSelectionMenu.cs:117-128 | public and instance are always set, non-public exactly when shown, static exactly when shown, nothing else |
| MemberSelection.NullItemMemberName | Packages/com.kybernetik.ultevents/Editor/MemberSelectionMenu.cs:156-161 | no dot gives null; otherwise the prefix up to and including the last dot |
| MemberSelection.NullItemKeepsDeclaringType | Packages/com.kybernetik.ultevents/Editor/MemberSelectionMenu.cs:155-162 | the trimmed name of `Q.m` still decodes to the declaring type `Q`, with an empty member name |
| MemberSelection.ApplyNullItem | Packages/com.kybernetik.ultevents/Editor/MemberSelectionMenu.cs:142-162 | with targets the method is cleared; without, the name is trimmed to its declaring-type prefix; either way there are no arguments and the target is kept |
| MemberSelection.ChildBeforeBase | Packages/com.kybernetik.ultevents/Editor/MemberSelectionMenu.cs:850-865 | 0 exactly for the same type, -1 exactly when `b` is a strict ancestor of `a`, 1 exactly otherwise |
| MemberSelection.CompareChildBeforeBase | Packages/com.kybernetik.ultevents/Editor/MemberSelectionMenu.cs:850-865 | the loop up the base chain computes `ChildBeforeBase` |
| MemberSelection.ChildBeforeBaseAntisymmetric | Packages/com.kybernetik.ultevents/Editor/MemberSelectionMenu.cs:850-865 | on related types, swapping the arguments negates the result |
| MemberSelection.UnrelatedTypesBothSortAfter | Packages/com.kybernetik.ultevents/Editor/MemberSelectionMenu.cs:859-860 | for unrelated types both orders give 1 |
| Reflection.NotOwnSubclass | Packages/com.kybernetik.ultevents/Editor/MemberSelectionMenu.cs:855-864 | no type is its own strict ancestor, so the walk from `a` never meets `a` |
| Reflection.NotMutualSubclasses | Packages/com.kybernetik.ultevents/Editor/MemberSelectionMenu.cs:855-864 | two types are never strict ancestors of each other |
| MemberSelection.CompareMembers | Packages/com.kybernetik.ultevents/Editor/MemberSelectionMenu.cs:794-846 | with per-base-type sub-menus the declaring-type order comes first; then fields before properties before other members; then, when grouped, public before non-public for members of every kind; then the name order |
| MemberSelection.CompareMembersAntisymmetric | Packages/com.kybernetik.ultevents/Editor/MemberSelectionMenu.cs:794-846 | on related declaring types and an antisymmetric name order, swapping the members negates the sign, with the public grouping applied to fields, properties and methods alike |
| MemberSelection.NthOfType | Packages/com.kybernetik.ultevents/Editor/MemberSelectionMenu.cs:375-392 | a found component is in the list, has exactly the type, and its index is below the count of that type |
| MemberSelection.CountOfTypePrefix | Packages/com.kybernetik.ultevents/Editor/MemberSelectionMenu.cs:357-373 | the count of a type can only grow with a longer prefix |
| MemberSelection.NthOfTypeFindsIndexed | Packages/com.kybernetik.ultevents/Editor/MemberSelectionMenu.cs:357-392 | the component at `p` is the n-th of its type, where n counts its type before `p` |
| MemberSelection.GetComponentTypeIndex | Packages/com.kybernetik.ultevents/Editor/MemberSelectionMenu.cs:357-373 | the count of components of exactly the same type strictly before the given one (the whole list when it is absent) |
| MemberSelection.GetComponent | Packages/com.kybernetik.ultevents/Editor/MemberSelectionMenu.cs:375-392 | the count of exact-type matches, and the `targetIndex`-th match, or null exactly when the count is at most `targetIndex` |
| MemberSelection.ComponentRoundTrip | Packages/com.kybernetik.ultevents/Editor/MemberSelectionMenu.cs:357-392 | looking up a component by its type and type index finds it again |
| MemberSelection.ValidateTargetsAndGetFirst | Packages/com.kybernetik.ultevents/Editor/MemberSelectionMenu.cs:223-245 | the first target exactly when every target is non-null with exactly its type, null otherwise |
| MemberSelection.TypeSupport | Packages/com.kybernetik.ultevents/Editor/MemberSelectionMenu.cs:964-966 | a natively supported type is supported; any other type is supported exactly when the link search finds a source, and the check throws exactly when the link search throws |
| MemberSelection.IsSupported | Packages/com.kybernetik.ultevents/Editor/MemberSelectionMenu.cs:964-966 | the answer, or the exception, of `TypeSupport` |
| MemberSelection.IsSupportedParameters | Packages/com.kybernetik.ultevents/Editor/MemberSelectionMenu.cs:971-978 | true exactly when every parameter type is supported; otherwise the answer of the first parameter that is not, checked in order |
| MemberSelection.ParametersSupportMeaning | Packages/com.kybernetik.ultevents/Editor/MemberSelectionMenu.cs:971-978 | the parameters from a start index are supported exactly when each of them is |
| MemberSelection.ParametersSupportFirstFailure | Packages/com.kybernetik.ultevents/Editor/MemberSelectionMenu.cs:971-978 | when they are not, the answer (false or the exception) is that of some parameter, and every parameter before it is supported |
| MemberSelection.GetNextSupportedMember | Packages/com.kybernetik.ultevents/Editor/MemberSelectionMenu.cs:982-1026 | the first supported member at or after the start index, with the index left on it and every member skipped unsupported; none found leaves the index at the count; parameters for methods and the getter for properties; an exception means some member's check threw and every one before it was unsupported |
| MemberSelection.ParameterEntries | Packages/com.kybernetik.ultevents/Editor/MemberSelectionMenu.cs:1141-1154 | one entry per parameter, in order |
| MemberSelection.AppendParameters | Packages/com.kybernetik.ultevents/Editor/MemberSelectionMenu.cs:1129-1157 | appends `(`, the entries joined by `, `, then `)` |
| MemberSelection.BuildMethodSignature | Packages/com.kybernetik.ultevents/Editor/MemberSelectionMenu.cs:1091-1110 | `return-type name (parameters)` with parameter types always included |
| MemberSelection.BuildFieldSignature | Packages/com.kybernetik.ultevents/Editor/MemberSelectionMenu.cs:1112-1125 | `type name` |
| CallDrawers.NonDynamic | Packages/com.kybernetik.ultevents/Editor/PersistentCallDrawer.cs:392-411 | the reference filter keeps at most every assembly |
| CallDrawers.NonDynamicMembers | Packages/com.kybernetik.ultevents/Editor/PersistentCallDrawer.cs:392-411 | it keeps exactly the non-dynamic assemblies |
| CallDrawers.NonDynamicConcat | Packages/com.kybernetik.ultevents/Editor/PersistentCallDrawer.cs:392-411 | filtering distributes over concatenation |
| CallDrawers.NonDynamicCounts | Packages/com.kybernetik.ultevents/Editor/PersistentCallDrawer.cs:392-411 | it keeps every non-dynamic assembly as often as it occurs and no dynamic one |
| CallDrawers.SwapRemoveCounts | Packages/com.kybernetik.ultevents/Editor/PersistentCallDrawer.cs:404-405 | overwriting slot `i` with the last live slot drops exactly the old `i` from the live multiset |
| CallDrawers.KeepStep | Packages/com.kybernetik.ultevents/Editor/PersistentCallDrawer.cs:399-400 | keeping a non-dynamic assembly preserves the loop invariant |
| CallDrawers.SwapRemoveStep | Packages/com.kybernetik.ultevents/Editor/PersistentCallDrawer.cs:404-409 | swap-removing a dynamic assembly and re-checking the index preserves the loop invariant |
| CallDrawers.FilterDone | Packages/com.kybernetik.ultevents/Editor/PersistentCallDrawer.cs:392-411 | at loop exit the live prefix holds no dynamic assembly and is a permutation of the non-dynamic ones |
| CallDrawers.FilterSupportedAssemblies | Packages/com.kybernetik.ultevents/Editor/PersistentCallDrawer.cs:392-411 | the count equals the number of non-dynamic assemblies, and the first `count` slots are a permutation of them |
| CallDrawers.SplitMemberName | Packages/com.kybernetik.ultevents/Editor/PersistentCallDrawer.cs:280-290 | without a dot the type name is empty and the method name is the whole string; otherwise the name is type, the last dot, and a dot-free method name |
| CallDrawers.SplitJoinedName | Packages/com.kybernetik.ultevents/Editor/PersistentCallDrawer.cs:280-290 | splitting `Q.m` for a dot-free `m` gives back `Q` and `m` |
| CallDrawers.TypeFieldValue | Packages/com.kybernetik.ultevents/Editor/PersistentCallDrawer.cs:304-318 | empty exactly for no type; otherwise the qualified name, a dot and the method name |
| CallDrawers.TypeFieldRoundTrip | Packages/com.kybernetik.ultevents/Editor/PersistentCallDrawer.cs:280-318 | splitting what the setter writes gives back the chosen type's name and the method name |
| CallDrawers.TypeFieldRewritesSameName | Packages/com.kybernetik.ultevents/Editor/PersistentCallDrawer.cs:280-318 | choosing the type already named rewrites the same member name |
| CallDrawers.SetTypeField | Packages/com.kybernetik.ultevents/Editor/PersistentCallDrawer.cs:304-318 | the name is the setter's value; no type resets the target to the owning object; otherwise the target and arguments are kept |
| CallDrawers.OppositeAccessorName | Packages/com.kybernetik.ultevents/Editor/PersistentCallDrawer.cs:631-641 | defined exactly for names longer than 4 starting `get_` or `set_`; the prefix is swapped and the rest kept |
| CallDrawers.OppositeAccessorInvolution | Packages/com.kybernetik.ultevents/Editor/PersistentCallDrawer.cs:631-641 | swapping twice gives the original name |
| CallDrawers.AccessorToggle | Packages/com.kybernetik.ultevents/Editor/PersistentCallDrawer.cs:626-647 | the toggle is offered exactly when the opposite accessor exists and, for a getter, its return type is supported; it selects that accessor; the support check's exception escapes exactly when it is reached and throws |
| CallDrawers.FieldToggle | Packages/com.kybernetik.ultevents/Editor/PersistentCallDrawer.cs:675-684 | the toggle is hidden exactly for a getter of an unsupported field type; otherwise it flips getter and setter; the support check's exception escapes exactly for a getter whose check throws |
| CallDrawers.ApplyFieldToggle | Packages/com.kybernetik.ultevents/Editor/PersistentCallDrawer.cs:700-703 | the call stays the field and flips between getter and setter |
| CallDrawers.SuggestionName | Packages/com.kybernetik.ultevents/Editor/PersistentCallDrawer.cs:717-729 | none for an empty name or one ending in a dot; otherwise the non-empty part after the last dot |
| CallDrawers.SuggestionOfQualified | Packages/com.kybernetik.ultevents/Editor/PersistentCallDrawer.cs:721-729 | the suggestion for `Q.m` is for `m` |
| CallDrawers.PickClosest | Packages/com.kybernetik.ultevents/Editor/PersistentCallDrawer.cs:752-766 | a method of minimum distance, the earliest among equals |
| CallDrawers.SuggestMethod | Packages/com.kybernetik.ultevents/Editor/PersistentCallDrawer.cs:715-770 | nothing exactly without a type, a usable name or any method; otherwise a method of minimum distance to the name |
| CallDrawers.SetTarget | Packages/com.kybernetik.ultevents/Editor/PersistentCallDrawer.cs:779-789 | the target is stored; the method is cleared when the target is null or the member no longer resolves, and kept otherwise |
| CallDrawers.SetMethod | Packages/com.kybernetik.ultevents/Editor/PersistentCallDrawer.cs:793-799 | a null call is left alone; otherwise it is bound to the method with the stored target |
| CallDrawers.DrawMethodArguments | Packages/com.kybernetik.ultevents/Editor/PersistentCallDrawer.cs:169-190 | an error is logged exactly when the counts differ, and then nothing is drawn; otherwise arguments are drawn in order until one asks to stop; the parameters are cleared afterwards |
| TypeCache.ReflectionCache.constructor | Packages/com.kybernetik.ultevents/Runtime/Misc/ReflectionCache.cs:14-15 | the cache starts empty |
| TypeCache.ReflectionCache.GetType | Packages/com.kybernetik.ultevents/Runtime/Misc/ReflectionCache.cs:26-32 | a stored name answers from the cache and changes nothing; otherwise the name is resolved and the answer stored, even when null; only that entry changes |
| TypeCache.ReflectionCache.SetType | Packages/com.kybernetik.ultevents/Runtime/Misc/ReflectionCache.cs:37-38 | only the entry for the name changes, to the given type |
| TypeCache.ReflectionCache.SetTypeByName | Packages/com.kybernetik.ultevents/Runtime/Misc/ReflectionCache.cs:41-42 | the type is stored under its own assembly-qualified name |
| TypeCache.LookupTwice | Packages/com.kybernetik.ultevents/Runtime/Misc/ReflectionCache.cs:26-32 | a second lookup returns what the first returned |
| TypeCache.SetThenGet | Packages/com.kybernetik.ultevents/Runtime/Misc/ReflectionCache.cs:37-38 | after setting a name, looking it up returns the set type |
| Operators.InvertBool | Packages/com.kybernetik.ultevents/Runtime/Misc/Operators.cs:18-19 | the negation |
| Operators.EqualsBool | Packages/com.kybernetik.ultevents/Runtime/Misc/Operators.cs:20-21 | true exactly when equal |
| Operators.Wrap32 | Packages/com.kybernetik.ultevents/Runtime/Misc/Operators.cs:45-50 | the 32-bit value congruent to the exact result, equal to it when it fits |
| Operators.Wrap64 | Packages/com.kybernetik.ultevents/Runtime/Misc/Operators.cs:56-61 | the 64-bit value congruent to the exact result, equal to it when it fits |
| Operators.AddInt | Packages/com.kybernetik.ultevents/Runtime/Misc/Operators.cs:45-46 | congruent to the exact sum modulo 2^32 |
| Operators.SubtractInt | Packages/com.kybernetik.ultevents/Runtime/Misc/Operators.cs:47-48 | congruent to the exact difference modulo 2^32 |
| Operators.MultiplyInt | Packages/com.kybernetik.ultevents/Runtime/Misc/Operators.cs:49-50 | congruent to the exact product modulo 2^32 |
| Operators.TruncDiv | Packages/com.kybernetik.ultevents/Runtime/Misc/Operators.cs:51-52 | the magnitude is the quotient of the magnitudes and the sign is negative exactly when the operands' signs differ (rounding toward zero) |
| Operators.TruncDivRemainder | Packages/com.kybernetik.ultevents/Runtime/Misc/Operators.cs:51-52 | the remainder is smaller than the divisor in magnitude and has the dividend's sign |
| Operators.TruncDivInRange32 | Packages/com.kybernetik.ultevents/Runtime/Misc/Operators.cs:51-52 | away from `int.MinValue / -1` the quotient fits in 32 bits |
| Operators.DivideInt | Packages/com.kybernetik.ultevents/Runtime/Misc/Operators.cs:51-52 | divide-by-zero exactly for a zero divisor, overflow exactly for `int.MinValue / -1`, otherwise the truncated quotient |
| Operators.EqualsInt | Packages/com.kybernetik.ultevents/Runtime/Misc/Operators.cs:53-54 | exact equality |
| Operators.AddThenSubtractInt | Packages/com.kybernetik.ultevents/Runtime/Misc/Operators.cs:45-48 | subtracting what was added gives back the operand, even across wrap-around |
| Operators.AddIntExactInRange | Packages/com.kybernetik.ultevents/Runtime/Misc/Operators.cs:45-46 | the sum is exact exactly when it fits in 32 bits |
| Operators.AddIntWrapsAtMax | Packages/com.kybernetik.ultevents/Runtime/Misc/Operators.cs:45-46 | `int.MaxValue + 1` wraps to `int.MinValue` |
| Operators.AddLong | Packages/com.kybernetik.ultevents/Runtime/Misc/Operators.cs:56-57 | congruent to the exact sum modulo 2^64 |
| Operators.SubtractLong | Packages/com.kybernetik.ultevents/Runtime/Misc/Operators.cs:58-59 | congruent to the exact difference modulo 2^64 |
| Operators.MultiplyLong | Packages/com.kybernetik.ultevents/Runtime/Misc/Operators.cs:60-61 | congruent to the exact product modulo 2^64 |
| Operators.TruncDivInRange64 | Packages/com.kybernetik.ultevents/Runtime/Misc/Operators.cs:62-63 | away from `long.MinValue / -1` the quotient fits in 64 bits |
| Operators.DivideLong | Packages/com.kybernetik.ultevents/Runtime/Misc/Operators.cs:62-63 | divide-by-zero exactly for a zero divisor, overflow exactly for `long.MinValue / -1`, otherwise the truncated quotient |
| Operators.EqualsLong | Packages/com.kybernetik.ultevents/Runtime/Misc/Operators.cs:64-65 | exact equality |
| Operators.AddThenSubtractLong | Packages/com.kybernetik.ultevents/Runtime/Misc/Operators.cs:56-59 | subtracting what was added gives back the operand, even across wrap-around |

## Left out

- .NET reflection is abstract. Types, members, lookups and member execution are inputs (`Env`, `Host`), and `IsAssignableFrom` is the structural base-type chain; interfaces and generics are not modelled. `UltEventUtils.GetFullyQualifiedName` is the declaring type's name, a dot and the bare name.
- `UltEventBase.cs` is not part of this model. `EventBase.UltEventBase` stands in for it with only the fields the core touches. `AddPersistentCall`/`RemovePersistentCall` are recorded as log entries, persistent invocation is one step with an outcome, and `CacheParameter` is one recorded step per parameter.
- `PersistentArgument.cs` is not part of this model. An argument is a value with a kind, a system type, a value and a link index. Its own value caching, `Clone` and `ClearCache` are not modelled. As a result `CopyFrom` copies argument values, and `ClearCache` clears only the call's two cached members.
- Array and object identity of arguments is not modelled. This covers the shared `NoArguments` array, `SetMethod` reusing the existing array when the lengths match, and `SetField` returning the argument object itself. The model keeps the argument values of a reused array instead.
- PersistentCalls.PersistentCall.Method: when an argument has no system type the source's lookup throws. The model returns no method, which is what `GetMemberSafe` returns.
- PersistentCalls.LookupMethod: an argument without a system type makes the source's lookup throw; the model answers no method, as for `Method`.
- PersistentCalls.PersistentCall.SetMethodFromDelegate: the thrown `InvalidOperationException` is a `Failed` status.
- The `PersistentCall(MethodInfo, Object)`, `PersistentCall(Delegate)` and `PersistentCall(Action)` constructors and `ToString` are not modelled. The first three only forward to `SetMethod`; `ToString` is formatting.
- The `SystemException` raised by the persistent calls and the dynamic delegates is not modelled. Both are `Step`/`Status` outcomes chosen by a `Runner` input.
- The `float`/`double` overloads of `Operators` are floating point and are not modelled.
- IMGUI drawing is not modelled: rectangles, heights and widths, styles, colours, the drag-and-drop handlers and the buttons. The toggles and the suggestion are modelled as the decision they make and the edit they apply.
- `EditorApplication.delayCall` deferral is not modelled. `DelayedRemoveCall` runs its deferred body immediately, on the saved state.
- The clipboard is not modelled. `CheckInput` returns the index it would paste into.
- `PersistentCallDrawer.GetSuportedTypes` is not modelled, because it scans assemblies with parallel tasks.
- `GC.Collect` and the `InstanceIDToObject` workaround are not modelled, because engine-object liveness is external.
- `BoolPref` values are plain boolean parameters.
- `name.CompareTo` is a parameter of `CompareMembers`, assumed antisymmetric where that is used. `CalculateLevenshteinDistance` is a parameter of the suggestion, and `string.GetHashCode` is a parameter of the picker menu.
- `GetSortedMembers`, `StableInsertionSort` and the member caches are not part of this model.
- MemberSelection.IsSupported: the field, property and method support checks take the obsolete, special-name, generic and `<` name conditions as member flags.
- The `PickerMenu.AddItem(SerializedProperty, …)` overload and `AddSeparator` are not modelled: the first wraps the function for each serialized target, the second adds a separator.
- In `GenericMenu` mode the picker menu records the items it forwards, because the external menu is not modelled.
- The reparented copy's selected icon is a flag, because the icon object is not modelled.
- The menu tree is an arena of items with child indices rather than an object graph. The root is item 0, with the id of the title's hash.
- UltEventDrawers.CheckInput: the add command's target is the object that owns the list, which is modelled as the `owner` of the list view.
- CallDrawers.NonDynamic: its own contract states only a length bound. That it keeps exactly the non-dynamic assemblies is stated by `NonDynamicMembers` and `NonDynamicCounts`.
- EventBase.RemoveLast: an operand is one delegate, so a multicast operand is not modelled. For such an operand `Delegate.Remove` removes the last contiguous copy of its whole invocation list, and `Delegate.Combine` appends the whole list. This also applies to `Plus`, `Minus`, `AddDynamicCall` and `RemoveDynamicCall` in `UltEvent0` and `UltEvent4`.
- DrawerStates.DrawerState.UpdateLinkedArguments: it requires that no call object appears twice in the list, and so do `UltEventDrawers.DelayedRemoveCall` and `UltEventDrawers.OnReorder`. A list holding the same call twice would have that call's links rewritten twice; the model does not cover aliased calls.
- PersistentCalls.PersistentCall.CopyFrom: when a call with arguments copies itself, the source is left with an array of null slots. The model cannot hold a null argument, so it fills those slots with default arguments, keeping the length.
- UltEventDrawers.InsertCall: the new slot is modelled as a blank call. Unity's `InsertArrayElementAtIndex` fills the new slot with a copy of the neighbouring element. `SetTarget` in `AddNewCall` then replaces the target. It keeps the copied method and arguments when that method still resolves on the new target, and clears them otherwise. The model's new call always ends without a method.
- UltEventDrawers.AddNewCall: the source compares the selection with `_CurrentCallCount`, the size cached the last time the list header was drawn (UltEventDrawer.cs:146). The model uses the list's present size, which is the same unless the list changed between that draw and the add command.
- EventBase.DynamicTrace: its own contract states only a length bound. The order of calls and the stop-at-first-exception rule are stated by `DynamicTraceCalls` and `DynamicTraceStatus`.
