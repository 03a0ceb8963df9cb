/**
 * The class-map registry of a serialization domain: a dictionary from a type to the
 * class map that describes how that type is serialized. Entries are added, never
 * replaced; a lookup auto-maps and registers a missing type and always hands out a
 * frozen class map.
 *
 * Types are the abstract type parameter `T`. A class map is a value carrying its
 * class type, its frozen flag and an identity `id` that stands for the object
 * reference; freezing a registered class map changes the registered entry itself.
 */
module Serialization {
  import opened Wrappers
  import opened Errors

  datatype ClassMap<T> = ClassMap(classType: T, frozen: bool, id: nat)

  /** The registry's state: each registered type with its class map. */
  type ClassMaps<T> = map<T, ClassMap<T>>

  /** `Freeze` marks a class map frozen; it keeps its type and its identity. */
  function Freeze<T>(cm: ClassMap<T>): (r: ClassMap<T>)
    ensures r.frozen && r.classType == cm.classType && r.id == cm.id
  {
    cm.(frozen := true)
  }

  /** Every entry is registered under its own class type (`Add(classMap.ClassType, classMap)`). */
  ghost predicate KeyedByType<T>(m: ClassMaps<T>)
  {
    forall t :: t in m ==> m[t].classType == t
  }

  /** `Dictionary.Add`: a new entry for `cm.ClassType`, or an error if that type already has one. */
  function Added<T>(m: ClassMaps<T>, cm: ClassMap<T>): (r: Result<ClassMaps<T>, Error>)
    ensures r.Failure? <==> cm.classType in m
    ensures r.Failure? ==> r.error == DuplicateKey
    ensures r.Success? ==> r.value.Keys == m.Keys + {cm.classType} && r.value[cm.classType] == cm
    ensures r.Success? ==> forall t :: t in m ==> r.value[t] == m[t]
  {
    if cm.classType in m then Failure(DuplicateKey) else Success(m[cm.classType := cm])
  }

  /** What a lookup returns and the registry it leaves behind. */
  datatype Looked<T> = Looked(classMap: ClassMap<T>, classMaps: ClassMaps<T>)

  /**
   * A lookup of `t`: a frozen registered class map is returned as it is; otherwise the
   * registered one, or else the freshly auto-mapped `autoMapped`, is frozen in place.
   */
  function LookedUp<T>(m: ClassMaps<T>, t: T, autoMapped: ClassMap<T>): (r: Looked<T>)
    requires KeyedByType(m) && autoMapped.classType == t
    ensures r.classMap.frozen && r.classMap.classType == t
    ensures r.classMaps.Keys == m.Keys + {t} && r.classMaps[t] == r.classMap
    ensures forall u :: u in m && u != t ==> r.classMaps[u] == m[u]
    ensures t in m ==> r.classMap.id == m[t].id
    ensures t !in m ==> r.classMap.id == autoMapped.id
    ensures KeyedByType(r.classMaps)
  {
    if t in m && m[t].frozen then Looked(m[t], m)
    else
      var cm := Freeze(if t in m then m[t] else autoMapped);
      Looked(cm, m[t := cm])
  }

  /** A class map of type `t`, or a null one. */
  predicate OfTypeOrNull<T(==)>(cm: Option<ClassMap<T>>, t: T)
  {
    cm.Some? ==> cm.value.classType == t
  }

  /**
   * Insert-if-absent: reports whether it inserted, and the registry it leaves behind.
   * The factory is called only when `t` is not registered; the null class map it may
   * return is rejected by `RegisterClassMap` with `ArgumentNull("classMap")`.
   */
  function TryAdded<T>(m: ClassMaps<T>, t: T, factory: () --> Option<ClassMap<T>>)
    : (r: Result<(bool, ClassMaps<T>), Error>)
    requires t !in m ==> factory.requires() && OfTypeOrNull(factory(), t)
    ensures r.Failure? <==> t !in m && factory().None?
    ensures r.Failure? ==> r.error == ArgumentNull("classMap")
    ensures r.Success? ==> (r.value.0 <==> t !in m)
    ensures r.Success? && !r.value.0 ==> r.value.1 == m
    ensures r.Success? && r.value.0 ==> Added(m, factory().value) == Success(r.value.1)
  {
    if t in m then Success((false, m))
    else
      match factory()
      case None => Failure(ArgumentNull("classMap"))
      case Some(cm) => Success((true, m[t := cm]))
  }

  /** A factory that never returns null, as the ones the overloads build. */
  function NonNull<T>(factory: () --> ClassMap<T>): (r: () --> Option<ClassMap<T>>)
    ensures factory.requires() ==> r.requires() && r() == Some(factory())
  {
    () requires factory.requires() => Some(factory())
  }

  class BsonClassMapDomain<T(==)> {
    /** The registered class maps. */
    var classMaps: ClassMaps<T>

    ghost predicate Valid()
      reads this
    {
      KeyedByType(classMaps)
    }

    constructor ()
      ensures Valid() && classMaps == map[]
    {
      classMaps := map[];
    }

    /** A copy of all registered class maps, each exactly once, in no particular order. */
    method GetRegisteredClassMaps() returns (r: seq<ClassMap<T>>)
      requires Valid()
      ensures |r| == |classMaps|
      ensures forall i :: 0 <= i < |r| ==> r[i].classType in classMaps && classMaps[r[i].classType] == r[i]
      ensures forall i, j :: 0 <= i < j < |r| ==> r[i].classType != r[j].classType
      ensures forall t :: t in classMaps ==> classMaps[t] in r
    {
      r := [];
      var remaining := classMaps.Keys;
      ghost var done: set<T> := {};
      while remaining != {}
        invariant remaining <= classMaps.Keys && done == classMaps.Keys - remaining
        invariant |r| == |done|
        invariant forall i :: 0 <= i < |r| ==> r[i].classType in done && classMaps[r[i].classType] == r[i]
        invariant forall i, j :: 0 <= i < j < |r| ==> r[i].classType != r[j].classType
        invariant forall t :: t in done ==> classMaps[t] in r
        decreases remaining
      {
        var t :| t in remaining;
        ghost var before := r;
        assert t !in done && |done + {t}| == |done| + 1;
        assert forall i :: 0 <= i < |before| ==> before[i].classType != t;
        r := r + [classMaps[t]];
        assert forall i :: 0 <= i < |before| ==> r[i] == before[i];
        assert forall u :: u in done ==> classMaps[u] in before;
        remaining := remaining - {t};
        done := done + {t};
      }
    }

    /** Whether `classType` has a registered class map; a null type throws. */
    method IsClassMapRegistered(classType: Option<T>) returns (r: Result<bool, Error>)
      ensures classType.None? ==> r == Failure(ArgumentNull("type"))
      ensures classType.Some? ==> r == Success(classType.value in classMaps)
    {
      if classType.None? {
        return Failure(ArgumentNull("type"));
      }
      r := Success(classType.value in classMaps);
    }

    /**
     * Looks up the class map of `classType`. `autoMapped` is the class map that
     * `Activator.CreateInstance` and `AutoMap` build for the type when it is not
     * registered as frozen; it is discarded when the type is already registered.
     */
    method LookupClassMap(classType: Option<T>, autoMapped: ClassMap<T>) returns (r: Result<ClassMap<T>, Error>)
      requires Valid()
      requires classType.Some? ==> autoMapped.classType == classType.value
      modifies this
      ensures Valid()
      ensures classType.None? ==> r == Failure(ArgumentNull("classType")) && classMaps == old(classMaps)
      ensures classType.Some? ==>
        var looked := LookedUp(old(classMaps), classType.value, autoMapped);
        r == Success(looked.classMap) && classMaps == looked.classMaps
    {
      if classType.None? {
        return Failure(ArgumentNull("classType"));
      }
      var t := classType.value;
      if t in classMaps && classMaps[t].frozen {
        return Success(classMaps[t]);
      }
      var newClassMap := autoMapped;
      var classMap: ClassMap<T>;
      if t in classMaps {
        classMap := classMaps[t];
      } else {
        var _ := RegisterClassMap(Some(newClassMap));
        classMap := newClassMap;
      }
      // freezing the registered object changes the registered entry
      classMap := Freeze(classMap);
      classMaps := classMaps[t := classMap];
      r := Success(classMap);
    }

    /** Registers `classMap` under its class type; a class map is never replaced. */
    method RegisterClassMap(classMap: Option<ClassMap<T>>) returns (r: Outcome<Error>)
      requires Valid()
      modifies this
      ensures Valid()
      ensures classMap.None? ==> r == Fail(ArgumentNull("classMap")) && classMaps == old(classMaps)
      ensures classMap.Some? ==> match Added(old(classMaps), classMap.value)
        case Success(m) => r == Pass && classMaps == m
        case Failure(e) => r == Fail(e) && classMaps == old(classMaps)
    {
      if classMap.None? {
        return Fail(ArgumentNull("classMap"));
      }
      var cm := classMap.value;
      if cm.classType in classMaps {
        return Fail(DuplicateKey);
      }
      classMaps := classMaps[cm.classType := cm];
      r := Pass;
    }

    /**
     * `RegisterClassMap<TClass>()` and `RegisterClassMap<TClass>(initializer)`: registers
     * `created`, the class map the constructor (and `AutoMap` or the initializer) built,
     * and returns it.
     */
    method RegisterNewClassMap(created: ClassMap<T>) returns (r: Result<ClassMap<T>, Error>)
      requires Valid()
      modifies this
      ensures Valid()
      ensures match Added(old(classMaps), created)
        case Success(m) => r == Success(created) && classMaps == m
        case Failure(e) => r == Failure(e) && classMaps == old(classMaps)
    {
      var outcome := RegisterClassMap(Some(created));
      if outcome.Fail? {
        return Failure(outcome.error);
      }
      r := Success(created);
    }

    /**
     * Registers the class map `classMapFactory` builds for `t` unless `t` is registered;
     * reports whether it registered. The factory is only called when `t` is absent.
     */
    method TryRegisterClassMap(t: T, classMapFactory: Option<() --> Option<ClassMap<T>>>)
      returns (r: Result<bool, Error>)
      requires Valid()
      requires classMapFactory.Some? && t !in classMaps ==>
        classMapFactory.value.requires() && OfTypeOrNull(classMapFactory.value(), t)
      modifies this
      ensures Valid()
      ensures classMapFactory.None? ==> r == Failure(ArgumentNull("classMapFactory")) && classMaps == old(classMaps)
      ensures classMapFactory.Some? ==>
        var tried := TryAdded(old(classMaps), t, classMapFactory.value);
        && (tried.Success? ==> r == Success(tried.value.0) && classMaps == tried.value.1)
        && (tried.Failure? ==> r == Failure(tried.error) && classMaps == old(classMaps))
    {
      if classMapFactory.None? {
        return Failure(ArgumentNull("classMapFactory"));
      }
      if t in classMaps {
        return Success(false);
      }
      var classMap := classMapFactory.value();
      var outcome := RegisterClassMap(classMap);
      if outcome.Fail? {
        return Failure(outcome.error);
      }
      r := Success(true);
    }

    /** `TryRegisterClassMap<TClass>()`: the factory auto-maps a new class map of `t`. */
    method TryRegisterAutoMappedClassMap(t: T, autoMapper: () --> ClassMap<T>) returns (r: bool)
      requires Valid()
      requires t !in classMaps ==> autoMapper.requires() && autoMapper().classType == t
      modifies this
      ensures Valid()
      ensures TryAdded(old(classMaps), t, NonNull(autoMapper)) == Success((r, classMaps))
    {
      var result := TryRegisterClassMap(t, Some(NonNull(autoMapper)));
      r := result.value;
    }

    /** `TryRegisterClassMap<TClass>(classMap)`: the factory returns the given class map. */
    method TryRegisterGivenClassMap(classMap: Option<ClassMap<T>>) returns (r: Result<bool, Error>)
      requires Valid()
      modifies this
      ensures Valid()
      ensures classMap.None? ==> r == Failure(ArgumentNull("classMap")) && classMaps == old(classMaps)
      ensures classMap.Some? ==>
        r.Success? && TryAdded(old(classMaps), classMap.value.classType, () => classMap) == Success((r.value, classMaps))
    {
      if classMap.None? {
        return Failure(ArgumentNull("classMap"));
      }
      r := TryRegisterClassMap(classMap.value.classType, Some(() => classMap));
    }

    /**
     * `TryRegisterClassMap<TClass>(classMapInitializer)`: `classMapInitializer` delivers
     * the class map that `new BsonClassMap<TClass>(classMapInitializer)` builds, and is
     * only called when `t` is not registered.
     */
    method TryRegisterInitializedClassMap(t: T, classMapInitializer: Option<() --> ClassMap<T>>)
      returns (r: Result<bool, Error>)
      requires Valid()
      requires classMapInitializer.Some? && t !in classMaps ==>
        classMapInitializer.value.requires() && classMapInitializer.value().classType == t
      modifies this
      ensures Valid()
      ensures classMapInitializer.None? ==>
        r == Failure(ArgumentNull("classMapInitializer")) && classMaps == old(classMaps)
      ensures classMapInitializer.Some? ==>
        r.Success? && TryAdded(old(classMaps), t, NonNull(classMapInitializer.value)) == Success((r.value, classMaps))
    {
      if classMapInitializer.None? {
        return Failure(ArgumentNull("classMapInitializer"));
      }
      r := TryRegisterClassMap(t, Some(NonNull(classMapInitializer.value)));
    }
  }

  /** A lookup right after a lookup changes nothing and returns the same class map, whatever is auto-mapped. */
  lemma LookupIsStable<T>(m: ClassMaps<T>, t: T, first: ClassMap<T>, second: ClassMap<T>)
    requires KeyedByType(m) && first.classType == t && second.classType == t
    ensures var once := LookedUp(m, t, first);
      LookedUp(once.classMaps, t, second) == once
  {
  }

  /** A lookup of a registered type returns that class map, frozen, and adds no entry. */
  lemma LookupOfRegistered<T>(m: ClassMaps<T>, t: T, autoMapped: ClassMap<T>)
    requires KeyedByType(m) && t in m && autoMapped.classType == t
    ensures LookedUp(m, t, autoMapped).classMap == Freeze(m[t])
    ensures LookedUp(m, t, autoMapped).classMaps == m[t := Freeze(m[t])]
    ensures m[t].frozen ==> LookedUp(m, t, autoMapped).classMaps == m
  {
  }

  /** Registering a class map and then looking up its type yields that class map, frozen. */
  lemma LookupReturnsRegistered<T>(m: ClassMaps<T>, cm: ClassMap<T>, autoMapped: ClassMap<T>)
    requires KeyedByType(m) && Added(m, cm).Success? && autoMapped.classType == cm.classType
    ensures KeyedByType(Added(m, cm).value)
    ensures LookedUp(Added(m, cm).value, cm.classType, autoMapped).classMap == Freeze(cm)
  {
  }

  /** A second registration of the same type fails and keeps the first class map. */
  lemma RegisterNeverReplaces<T>(m: ClassMaps<T>, first: ClassMap<T>, second: ClassMap<T>)
    requires Added(m, first).Success? && second.classType == first.classType
    ensures Added(Added(m, first).value, second) == Failure(DuplicateKey)
    ensures Added(m, first).value[first.classType] == first
  {
  }

  /** Insert-if-absent a second time reports false and changes nothing. */
  lemma TryRegisterTwice<T>(m: ClassMaps<T>, t: T, first: () --> Option<ClassMap<T>>, second: () --> Option<ClassMap<T>>)
    requires t !in m ==> first.requires() && OfTypeOrNull(first(), t)
    ensures var once := TryAdded(m, t, first);
      once.Success? ==> TryAdded(once.value.1, t, second) == Success((false, once.value.1))
  {
  }
}
