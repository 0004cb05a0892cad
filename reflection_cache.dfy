/**
 * The process-wide cache from assembly-qualified names to types. A lookup of
 * a name that is not cached yet asks the runtime (`Type.GetType`, given here
 * as `resolve`) and remembers the answer, null included; entries can also be
 * set directly.
 */
module TypeCache {
  import opened Wrappers
  import opened Reflection

  class ReflectionCache {
    /** `Type.GetType`: the runtime's own name resolution. */
    const resolve: string -> Option<TypeInfo>
    /** `AssemblyQualifiedNameToType`. */
    var entries: map<string, Option<TypeInfo>>

    constructor (resolve: string -> Option<TypeInfo>)
      ensures this.resolve == resolve && entries == map[]
    {
      this.resolve := resolve;
      entries := map[];
    }

    /** Every cached answer is the runtime's own answer for that name. */
    predicate AgreesWithRuntime()
      reads this
    {
      forall name :: name in entries ==> entries[name] == resolve(name)
    }

    /**
     * `GetType`: the cached answer if there is one, else the runtime's answer,
     * which is then cached. No other entry changes.
     */
    method GetType(name: string) returns (t: Option<TypeInfo>)
      modifies this
      ensures name in old(entries) ==> t == old(entries)[name] && entries == old(entries)
      ensures name !in old(entries) ==> t == resolve(name) && entries == old(entries)[name := t]
      ensures name in entries && entries[name] == t
      ensures old(AgreesWithRuntime()) ==> AgreesWithRuntime() && t == resolve(name)
    {
      if name in entries {
        t := entries[name];
      } else {
        t := resolve(name);
        entries := entries[name := t];
      }
    }

    /** `SetType(string, Type)`: later lookups of `name` answer `t`. */
    method SetType(name: string, t: Option<TypeInfo>)
      modifies this
      ensures entries == old(entries)[name := t]
      ensures old(AgreesWithRuntime()) && t == resolve(name) ==> AgreesWithRuntime()
    {
      entries := entries[name := t];
    }

    /** `SetType(Type)`: caches `t` under its own assembly-qualified name. */
    method SetTypeByName(t: TypeInfo)
      modifies this
      ensures entries == old(entries)[t.assemblyQualifiedName := Some(t)]
    {
      entries := entries[t.assemblyQualifiedName := Some(t)];
    }
  }

  /** A second lookup of a name answers what the first did and caches nothing new. */
  method LookupTwice(cache: ReflectionCache, name: string) returns (first: Option<TypeInfo>, second: Option<TypeInfo>)
    modifies cache
    ensures first == second
    ensures cache.entries == old(cache.entries)[name := first]
  {
    first := cache.GetType(name);
    ghost var afterFirst := cache.entries;
    second := cache.GetType(name);
    assert cache.entries == afterFirst;
  }

  /** A type set for a name is what the next lookup of that name answers, whatever the runtime says. */
  method SetThenGet(cache: ReflectionCache, name: string, t: Option<TypeInfo>) returns (found: Option<TypeInfo>)
    modifies cache
    ensures found == t
  {
    cache.SetType(name, t);
    found := cache.GetType(name);
  }
}
