/** The CacheManager: a registry of named caches. Every cache in it was built
    by Create under the name it is registered with, from a configuration that
    passed validation. */
module Registry {
  import opened Errors
  import opened Configuration
  import CacheSpec
  import opened Caches

  /** The two type checks of Get: the registered key type must be the requested
      one, then the registered value type must be the requested one. */
  function TypeCheck(registeredKey: TypeTag, registeredValue: TypeTag, requestedKey: TypeTag, requestedValue: TypeTag)
    : (r: Option<Error>)
    ensures r == None <==> registeredKey == requestedKey && registeredValue == requestedValue
    ensures r == Some(InvalidOperation(KeyTypeMismatch)) <==> registeredKey != requestedKey
    ensures r == Some(InvalidOperation(ValueTypeMismatch))
        <==> registeredKey == requestedKey && registeredValue != requestedValue
  {
    if registeredKey != requestedKey then Some(InvalidOperation(KeyTypeMismatch))
    else if registeredValue != requestedValue then Some(InvalidOperation(ValueTypeMismatch))
    else None
  }

  /** The registry. Caches of every type sit in one dictionary in the source;
      here they share the Dafny types K and V and carry the C# types as tags. */
  class CacheManager<K(==), V> {
    var caches: map<string, Cache<K, V>>

    /** Each cache is registered under its own name and runs with an accepted configuration. */
    ghost predicate Valid()
      reads this
    {
      forall n :: n in caches ==> caches[n].name == n && caches[n].Configured()
    }

    /** The private constructor behind the singleton: no caches yet. */
    constructor ()
      ensures Valid() && caches == map[]
    {
      caches := map[];
    }

    /** Exits: a cache is registered under the name. */
    predicate Exits(name: string)
      reads this
    {
      name in caches
    }

    /** Exits holds exactly when some registered cache carries the name. */
    lemma ExitsIffNamedCache(name: string)
      requires Valid()
      ensures Exits(name) <==> exists c :: c in caches.Values && c.name == name
    {
      if Exits(name) {
        assert caches[name] in caches.Values;
      } else {
        forall c | c in caches.Values
          ensures c.name != name
        {
          var n :| n in caches && caches[n] == c;
          assert c.name == n;
        }
      }
    }

    /** Get: an empty name is an error; an unknown name gives no cache; a known
        one is returned only when both its key and its value type are the ones
        asked for. */
    function Get(name: string, keyType: TypeTag, valueType: TypeTag): (r: Result<Option<Cache<K, V>>>)
      reads this
      ensures r == Failure(ArgumentNull) <==> name == ""
      ensures r == Success(None) <==> name != "" && !Exits(name)
      ensures r.Success? && r.value.Some? <==>
                name != "" && Exits(name) && caches[name].keyType == keyType && caches[name].valueType == valueType
      ensures r.Success? && r.value.Some? ==> r.value.value == caches[name]
      ensures r == Failure(InvalidOperation(KeyTypeMismatch)) <==>
                name != "" && Exits(name) && caches[name].keyType != keyType
      ensures r == Failure(InvalidOperation(ValueTypeMismatch)) <==>
                name != "" && Exits(name) && caches[name].keyType == keyType && caches[name].valueType != valueType
    {
      if name == "" then Failure(ArgumentNull)
      else if !Exits(name) then Success(None)
      else
        var c := caches[name];
        match TypeCheck(c.keyType, c.valueType, keyType, valueType)
        case Some(e) => Failure(e)
        case None => Success(Some(c))
    }

    /** Create: the configuration is validated as the Cache constructor does,
        then the name must be free; the new, empty cache is registered and a
        Get with the same types returns it. On failure nothing changes. */
    method Create(name: string, configuration: Option<CacheConfiguration>, keyType: TypeTag, valueType: TypeTag)
      returns (r: Result<Cache<K, V>>)
      requires Valid()
      modifies this
      ensures Valid()
      ensures r.Failure? <==> ValidateConfiguration(name, configuration).Some? || name in old(caches)
      ensures ValidateConfiguration(name, configuration).Some? ==> r == Failure(ValidateConfiguration(name, configuration).value)
      ensures ValidateConfiguration(name, configuration).None? && name in old(caches) ==>
                r == Failure(InvalidOperation(NameTaken))
      ensures r.Failure? ==> caches == old(caches)
      ensures r.Success? ==> && fresh(r.value) && caches == old(caches)[name := r.value]
                             && r.value.Valid() && r.value.State() == CacheSpec.Initial()
                             && r.value.Settings() == configuration.value
                             && Get(name, keyType, valueType) == Success(Some(r.value))
    {
      var error := ValidateConfiguration(name, configuration);
      if error.Some? {
        return Failure(error.value);
      }
      if Exits(name) {
        return Failure(InvalidOperation(NameTaken));
      }
      var c := new Cache(name, configuration.value, keyType, valueType);
      caches := caches[name := c];
      return Success(c);
    }

    /** Remove: a registered cache is disposed and unregistered; an unknown
        name is ignored. Afterwards Get finds no cache under the name. */
    method Remove(name: string)
      requires Valid()
      modifies this, if name in caches then {caches[name]} else {}
      ensures Valid()
      ensures caches == old(caches) - {name}
      ensures name in old(caches) ==> Disposed(old(caches)[name])
      ensures name in old(caches) ==>
                old(caches)[name].State() == CacheSpec.Dispose(old(caches[name].State()))
      ensures name != "" ==> forall kt, vt :: Get(name, kt, vt) == Success(None)
    {
      if !Exits(name) {
        return;
      }
      caches[name].Dispose();
      caches := caches - {name};
    }

    /** RemoveAll: every registered cache is disposed and the registry ends empty. */
    method RemoveAll()
      requires Valid()
      modifies this, caches.Values
      ensures Valid() && caches == map[]
      ensures forall n :: n in old(caches) ==> Disposed(old(caches)[n])
    {
      ghost var registered := caches;
      var names := caches.Keys;
      while names != {}
        invariant Valid()
        invariant caches.Keys == names
        invariant forall n :: n in caches ==> n in registered && caches[n] == registered[n]
        invariant forall n :: n in registered && n !in names ==> Disposed(registered[n])
        decreases |names|
      {
        var n :| n in names;
        RemoveNext(n, names, registered);
        names := names - {n};
      }
    }

    /** One step of RemoveAll: the cache under `n` is disposed and unregistered;
        those disposed before stay disposed. */
    method RemoveNext(n: string, ghost names: set<string>, ghost registered: map<string, Cache<K, V>>)
      requires Valid() && n in names && caches.Keys == names
      requires forall m :: m in caches ==> m in registered && caches[m] == registered[m]
      requires forall m :: m in registered && m !in names ==> Disposed(registered[m])
      modifies this, caches[n]
      ensures Valid() && caches.Keys == names - {n}
      ensures forall m :: m in caches ==> m in registered && caches[m] == registered[m]
      ensures forall m :: m in registered && m !in names - {n} ==> Disposed(registered[m])
    {
      ghost var c := caches[n];
      Remove(n);
      forall m | m in registered && m !in names
        ensures Disposed(registered[m])
      {
        if registered[m] != c {
          assert unchanged(registered[m]);
        }
      }
    }
  }

  /** A cache after Dispose: cancelled, no items, CurrentSize back to zero. */
  ghost predicate Disposed<K, V>(c: Cache<K, V>)
    reads c
  {
    c.cancelled && c.Contents == [] && c.currentSize == 0
  }
}
