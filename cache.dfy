/** The Cache engine as the object it is in the source: a list of CacheItem
    objects updated in place, a running CurrentSize, a cancellation flag and a
    SizeLimitReached counter. Every public method is proved to take the state
    exactly where the matching CacheSpec transition takes it. */
module Caches {
  import opened Errors
  import opened Configuration
  import opened CacheItems
  import opened ItemLists
  import CacheSpec
  import CacheProperties

  /** A runtime type, named by its full name (a Type in the source). */
  datatype TypeTag = TypeTag(fullName: string)

  class Cache<K(==), V> {
    const name: string
    const sizeLimit: int
    const defaultItemExpiration: Ticks
    const defaultItemSize: int
    const oldestItemsRemovingPercentage: Percentage
    const pollingInterval: Ticks
    /** typeof(TKey) and typeof(KValue), as the KeyType and ValueType properties report them. */
    const keyType: TypeTag
    const valueType: TypeTag

    var items: seq<CacheItem<K, V>>
    var currentSize: int
    var cancelled: bool
    var notifications: nat
    /** The views of the items, in list order. */
    ghost var Contents: seq<ItemView<K, V>>

    /** The configuration the cache runs with. */
    function Settings(): CacheConfiguration {
      CacheConfiguration(sizeLimit, defaultItemExpiration, defaultItemSize, oldestItemsRemovingPercentage, pollingInterval)
    }

    /** The configuration was accepted when the cache was built. */
    predicate Configured() {
      ValidConfiguration(Settings())
    }

    ghost function State(): CacheSpec.CacheState<K, V>
      reads this
    {
      CacheSpec.CacheState(Contents, currentSize, cancelled, notifications)
    }

    /** Contents lists the views of the item objects, position by position. */
    ghost predicate Linked()
      reads this, items
    {
      ViewsOf(items) == Contents
    }

    ghost predicate Valid()
      reads this, items
    {
      && Linked()
      && CacheSpec.Inv(State(), Settings())
    }

    /** Items with different keys are different objects. */
    lemma ItemsDistinct()
      requires Valid()
      ensures forall i, j :: 0 <= i < j < |items| ==> items[i] != items[j]
    {
      forall i, j | 0 <= i < j < |items| ensures items[i] != items[j] {
        assert items[i].View().key == Contents[i].key;
        assert items[j].View().key == Contents[j].key;
      }
    }

    /** The Cache constructor, for a configuration it accepts: the settings are
        copied from the configuration and the cache starts empty. */
    constructor (name: string, configuration: CacheConfiguration, keyType: TypeTag, valueType: TypeTag)
      requires ValidateConfiguration(name, Some(configuration)) == None
      ensures Valid() && Configured()
      ensures State() == CacheSpec.Initial()
      ensures this.name == name && Settings() == configuration
      ensures this.keyType == keyType && this.valueType == valueType
      ensures items == []
    {
      this.name := name;
      this.sizeLimit := configuration.sizeLimit;
      this.defaultItemExpiration := configuration.defaultItemExpiration;
      this.defaultItemSize := configuration.defaultItemSize;
      this.oldestItemsRemovingPercentage := configuration.oldestItemsRemovingPercentage;
      this.pollingInterval := configuration.pollingInterval;
      this.keyType := keyType;
      this.valueType := valueType;
      items := [];
      currentSize := 0;
      cancelled := false;
      notifications := 0;
      Contents := [];
    }

    /** The lookup InternalCache.SingleOrDefault(it => it.Key.Equals(key)): the
        position of the item carrying the key, if any. */
    method Find(key: K) returns (r: Option<nat>)
      requires Valid()
      ensures r == IndexOf(KeysOf(Contents), key)
    {
      var i := 0;
      while i < |items|
        invariant 0 <= i <= |items|
        invariant forall j :: 0 <= j < i ==> KeysOf(Contents)[j] != key
      {
        if items[i].key == key {
          assert KeysOf(Contents)[i] == key;
          return Some(i);
        }
        assert KeysOf(Contents)[i] == Contents[i].key == items[i].key;
        i := i + 1;
      }
      return None;
    }

    /** InternalCache.Remove(item) and CurrentSize -= item.Size, for the item at position i. */
    method RemoveItemAt(i: nat)
      requires Valid() && i < |items|
      modifies this
      ensures Valid()
      ensures State() == CacheSpec.RemoveItem(old(State()), i)
      ensures items == RemoveAt(old(items), i)
    {
      CacheProperties.RemoveItemInv(State(), Settings(), i);
      ViewsOfRemoveAt(items, i);
      var item := items[i];
      items := RemoveAt(items, i);
      currentSize := currentSize - item.size;
      Contents := RemoveAt(Contents, i);
    }

    /** FlushOutdatedItems, as evidently intended: walks the list once and
        removes every item that is outdated at `now`. */
    method FlushOutdatedItems(now: Ticks)
      requires Valid()
      modifies this
      ensures Valid()
      ensures State() == CacheSpec.FlushOutdated(old(State()), now)
      ensures forall x :: x in items ==> x in old(items)
    {
      CacheProperties.FlushOutdatedInv(State(), Settings(), now);
      DropOutdated(now);
    }

    /** The loop of FlushOutdatedItems: every outdated item leaves the list, in
        one pass, and CurrentSize drops by their sizes. */
    method DropOutdated(now: Ticks)
      requires Linked()
      modifies this
      ensures Linked()
      ensures Contents == Live(old(Contents), now)
      ensures currentSize == old(currentSize) - OutdatedSize(old(Contents), now)
      ensures cancelled == old(cancelled) && notifications == old(notifications)
      ensures forall x :: x in items ==> x in old(items)
    {
      ghost var original, size0, cancelled0, notifications0 := Contents, currentSize, cancelled, notifications;
      ghost var items0 := items;
      ghost var m := 0;
      var i := 0;
      while i < |items|
        invariant 0 <= m <= |original| && 0 <= i <= |items|
        invariant Contents == Live(original[..m], now) + original[m..]
        invariant i == |Live(original[..m], now)|
        invariant Linked()
        invariant forall x :: x in items ==> x in items0
        invariant currentSize == size0 - OutdatedSize(original[..m], now)
        invariant cancelled == cancelled0 && notifications == notifications0
        decreases |items| - i
      {
        LiveStep(original, m, now, Contents, i);
        if items[i].IsOutdated(now) {
          RemoveLinkedAt(i);
        } else {
          i := i + 1;
        }
        m := m + 1;
      }
      assert |Contents| == |items| == i;
      assert m == |original|;
      assert original[..m] == original;
    }

    /** Drops the item at position i from the list and its size from CurrentSize. */
    method RemoveLinkedAt(i: nat)
      requires Linked() && i < |items|
      modifies this
      ensures Linked()
      ensures items == RemoveAt(old(items), i) && Contents == RemoveAt(old(Contents), i)
      ensures currentSize == old(currentSize) - old(Contents)[i].size
      ensures cancelled == old(cancelled) && notifications == old(notifications)
    {
      ViewsOfRemoveAt(items, i);
      var item := items[i];
      items := RemoveAt(items, i);
      currentSize := currentSize - item.size;
      Contents := RemoveAt(Contents, i);
    }

    /** The position of the item with the earliest timestamp (the first such). */
    method OldestPosition() returns (r: nat)
      requires Linked() && |items| > 0
      ensures r == OldestIndex(Contents)
    {
      r := 0;
      var k := 1;
      while k < |items|
        invariant 1 <= k <= |items|
        invariant r == OldestIndex(Contents[..k])
      {
        assert Contents[..k + 1][..k] == Contents[..k];
        if items[k].added < items[r].added {
          r := k;
        }
        k := k + 1;
      }
      assert Contents[..k] == Contents;
    }

    /** One step of FlushOldestItems: the item with the earliest timestamp leaves. */
    method RemoveOldest()
      requires Linked() && |items| > 0
      modifies this
      ensures Linked()
      ensures Contents == RemoveAt(old(Contents), OldestIndex(old(Contents)))
      ensures currentSize == old(currentSize) - old(Contents)[OldestIndex(old(Contents))].size
      ensures cancelled == old(cancelled) && notifications == old(notifications)
      ensures forall x :: x in items ==> x in old(items)
    {
      var i := OldestPosition();
      RemoveLinkedAt(i);
    }

    /** FlushOldestItems: removes trunc(Count * OldestItemsRemovingPercentage)
        items, each time the earliest one left, and lowers CurrentSize by their
        sizes. */
    method FlushOldestItems()
      requires Valid()
      modifies this
      ensures Valid()
      ensures State() == CacheSpec.FlushOldest(old(State()), oldestItemsRemovingPercentage)
      ensures forall x :: x in items ==> x in old(items)
    {
      CacheProperties.FlushOldestInv(State(), Settings());
      var count := RemovalCount(|items|, oldestItemsRemovingPercentage);
      DropOldest(count);
    }

    /** The loop of FlushOldestItems: `count` times, the earliest item left
        leaves the list and CurrentSize drops by its size. */
    method DropOldest(count: nat)
      requires Linked() && count <= |items|
      modifies this
      ensures Linked()
      ensures Contents == EvictOldest(old(Contents), count)
      ensures currentSize == old(currentSize) - TotalSize(Evicted(old(Contents), count))
      ensures cancelled == old(cancelled) && notifications == old(notifications)
      ensures forall x :: x in items ==> x in old(items)
    {
      ghost var original, size0, cancelled0, notifications0 := Contents, currentSize, cancelled, notifications;
      ghost var items0 := items;
      var removed := 0;
      while removed < count
        invariant removed <= count
        invariant Contents == EvictOldest(original, removed)
        invariant currentSize == size0 - TotalSize(Evicted(original, removed))
        invariant Linked()
        invariant forall x :: x in items ==> x in items0
        invariant cancelled == cancelled0 && notifications == notifications0
      {
        EvictNext(original, removed, size0);
        removed := removed + 1;
      }
    }

    /** One turn of DropOldest's loop: the list goes from `removed` evictions
        of `original` to one more, and CurrentSize follows. */
    method EvictNext(ghost original: seq<ItemView<K, V>>, ghost removed: nat, ghost size0: int)
      requires Linked() && removed < |original|
      requires Contents == EvictOldest(original, removed)
      requires currentSize == size0 - TotalSize(Evicted(original, removed))
      modifies this
      ensures Linked()
      ensures Contents == EvictOldest(original, removed + 1)
      ensures currentSize == size0 - TotalSize(Evicted(original, removed + 1))
      ensures cancelled == old(cancelled) && notifications == old(notifications)
      ensures forall x :: x in items ==> x in old(items)
    {
      EvictOneMore(original, removed);
      RemoveOldest();
    }

    /** The first guard of Add and Update. */
    method GuardOutdated(growth: int, now: Ticks)
      requires Valid()
      modifies this
      ensures Valid()
      ensures State() == CacheSpec.OutdatedGuard(old(State()), Settings(), growth, now)
      ensures forall x :: x in items ==> x in old(items)
    {
      if currentSize + growth >= sizeLimit {
        notifications := notifications + 1;
        FlushOutdatedItems(now);
      }
    }

    /** The second guard of Add and Update, and the tail of a sweep pass. */
    method GuardOldest(growth: int)
      requires Valid()
      modifies this
      ensures Valid()
      ensures State() == CacheSpec.OldestGuard(old(State()), Settings(), growth)
      ensures forall x :: x in items ==> x in old(items)
    {
      if currentSize + growth >= sizeLimit {
        notifications := notifications + 1;
        FlushOldestItems();
      }
    }

    /** The two guarded flushes at the head of Add and Update: each one raises
        SizeLimitReached and flushes when CurrentSize plus `growth` reaches the limit. */
    method MakeRoom(growth: int, now: Ticks)
      requires Valid()
      modifies this
      ensures Valid()
      ensures State() == CacheSpec.MakeRoom(old(State()), Settings(), growth, now)
      ensures forall x :: x in items ==> x in old(items)
    {
      GuardOutdated(growth, now);
      GuardOldest(growth);
    }

    /** Appends a new item stamped with `now` and adds its size to CurrentSize. */
    method AppendItem(key: K, value: V, expiration: Ticks, size: int, now: Ticks)
      requires Linked()
      modifies this
      ensures Linked()
      ensures State() == CacheSpec.Append(old(State()), key, value, expiration, size, now)
      ensures |items| == |old(items)| + 1 && items[..|old(items)|] == old(items)
    {
      var item := new CacheItem(key, value, expiration, size, now);
      items := items + [item];
      currentSize := currentSize + size;
      Contents := Contents + [item.View()];
      assert ViewsOf(items) == Contents by {
        assert forall j :: 0 <= j < |items| ==> ViewsOf(items)[j] == Contents[j];
      }
    }

    /** The private Add, for a key the cache does not hold: make room, then
        append a new item. */
    method Add(key: K, value: V, expiration: Ticks, size: int, now: Ticks)
      requires Valid() && 1 <= size <= sizeLimit && key !in KeysOf(Contents)
      modifies this
      ensures Valid()
      ensures State() == CacheSpec.Add(old(State()), Settings(), key, value, expiration, size, now)
    {
      CacheProperties.AddFresh(State(), Settings(), key, value, expiration, size, now);
      MakeRoom(size, now);
      AppendItem(key, value, expiration, size, now);
    }

    /** The Value, Expiration and Size setters run on the item at position j,
        with CurrentSize lowered by the old size and raised by the new one. */
    method Refresh(j: nat, value: V, expiration: Ticks, size: int, now: Ticks)
      requires Linked() && j < |items|
      requires forall a, b :: 0 <= a < b < |items| ==> items[a] != items[b]
      modifies this, items[j]
      ensures Linked() && items == old(items)
      ensures State() == CacheSpec.RefreshAt(old(State()), j, value, expiration, size, now)
    {
      var item := items[j];
      currentSize := currentSize - item.size;
      item.SetValue(value, now);
      item.SetExpiration(expiration);
      item.SetSize(size);
      currentSize := currentSize + item.size;
      Contents := Contents[j := item.View()];
      assert ViewsOf(items) == Contents by {
        forall a | 0 <= a < |items| ensures ViewsOf(items)[a] == Contents[a] {
          if a != j {
            assert items[a] != item;
          }
        }
      }
    }

    /** The last step of the private Update: refresh the item with the key in
        place, or, if the oldest-items flush took it, add it anew. The items it
        may write are among `held`. */
    method StoreItem(key: K, value: V, expiration: Ticks, size: int, now: Ticks, ghost held: seq<CacheItem<K, V>>)
      requires Valid() && 1 <= size <= sizeLimit
      requires forall x :: x in items ==> x in held
      modifies this, held
      ensures Valid()
      ensures State() == CacheSpec.Store(old(State()), key, value, expiration, size, now)
    {
      ghost var s := State();
      CacheProperties.StoreProps(s, Settings(), key, value, expiration, size, now);
      var j := Find(key);
      if j.Some? {
        ItemsDistinct();
        assert items[j.value] in held;
        Refresh(j.value, value, expiration, size, now);
      } else {
        AppendItem(key, value, expiration, size, now);
      }
    }

    /** The private Update, as evidently intended, for a key the cache holds:
        make room for the net growth, then refresh the item in place, or, if the
        oldest-items flush took it, add it anew. */
    method Update(key: K, value: V, expiration: Ticks, size: int, now: Ticks)
      requires Valid() && 1 <= size <= sizeLimit && IndexOf(KeysOf(Contents), key).Some?
      modifies this, items
      ensures Valid()
      ensures State() == CacheSpec.Update(old(State()), Settings(), key, value, expiration, size, now)
    {
      ghost var st0 := State();
      var i := Find(key);
      var growth := size - items[i.value].size;
      assert growth == size - st0.items[i.value].size;
      MakeRoom(growth, now);
      StoreItem(key, value, expiration, size, now, old(items));
    }

    /** AddOrUpdate with an explicit time to live: a cancelled cache ignores the
        call; a missing key or value, or a size outside [1, SizeLimit], is
        rejected; a live item is updated, an outdated one is replaced, a new key
        is added. */
    method AddOrUpdateFor(key: Option<K>, value: Option<V>, timeToExpiration: Ticks, size: int, now: Ticks)
      returns (r: Outcome)
      requires Valid()
      modifies this, items
      ensures Valid()
      ensures (State(), r) == CacheSpec.AddOrUpdate(old(State()), Settings(), key, value, timeToExpiration, size, now)
    {
      if cancelled {
        return Pass;
      }
      if key.None? || value.None? {
        return Fail(ArgumentNull);
      }
      if size < 1 || size > sizeLimit {
        return Fail(ArgumentOutOfRange);
      }
      Put(key.value, value.value, timeToExpiration, size, now);
      return Pass;
    }

    /** The part of AddOrUpdate under the write lock. */
    method Put(k: K, v: V, timeToExpiration: Ticks, size: int, now: Ticks)
      requires Valid() && 1 <= size <= sizeLimit
      modifies this, items
      ensures Valid()
      ensures State() == CacheSpec.Put(old(State()), Settings(), k, v, timeToExpiration, size, now)
    {
      var found := Find(k);
      match found {
        case None =>
          KeyInKeysOf(Contents, k);
          Add(k, v, timeToExpiration, size, now);
        case Some(i) =>
          if !items[i].IsOutdated(now) {
            Update(k, v, timeToExpiration, size, now);
          } else {
            assert Contents[i].key == k;
            RemoveItemAt(i);
            Add(k, v, timeToExpiration, size, now);
          }
      }
    }

    /** AddOrUpdate without a time to live: the configured DefaultItemExpiration is used. */
    method AddOrUpdate(key: Option<K>, value: Option<V>, size: int, now: Ticks) returns (r: Outcome)
      requires Valid()
      modifies this, items
      ensures Valid()
      ensures (State(), r) == CacheSpec.AddOrUpdate(old(State()), Settings(), key, value, defaultItemExpiration, size, now)
    {
      r := AddOrUpdateFor(key, value, defaultItemExpiration, size, now);
    }

    /** ContainsKey: true for a live item; an outdated match is removed. */
    method ContainsKey(key: Option<K>, now: Ticks) returns (r: Result<bool>)
      requires Valid()
      modifies this
      ensures Valid()
      ensures (State(), r) == CacheSpec.ContainsKey(old(State()), key, now)
    {
      if cancelled {
        return Success(false);
      }
      if key.None? {
        return Failure(ArgumentNull);
      }
      var found := Find(key.value);
      match found
      case None =>
        return Success(false);
      case Some(i) =>
        if !items[i].IsOutdated(now) {
          return Success(true);
        }
        RemoveItemAt(i);
        return Success(false);
    }

    /** Get: the value of a live item, otherwise the caller's default; an
        outdated match is removed. */
    method Get(key: Option<K>, defaultValue: Option<V>, now: Ticks) returns (r: Result<Option<V>>)
      requires Valid()
      modifies this
      ensures Valid()
      ensures (State(), r) == CacheSpec.Get(old(State()), key, defaultValue, now)
    {
      if cancelled {
        return Success(defaultValue);
      }
      if key.None? {
        return Failure(ArgumentNull);
      }
      var found := Find(key.value);
      match found
      case None =>
        return Success(defaultValue);
      case Some(i) =>
        if items[i].IsOutdated(now) {
          RemoveItemAt(i);
          return Success(defaultValue);
        }
        return Success(Some(items[i].value));
    }

    /** Remove: drops the item with the key, if any. */
    method Remove(key: Option<K>) returns (r: Outcome)
      requires Valid()
      modifies this
      ensures Valid()
      ensures (State(), r) == CacheSpec.Remove(old(State()), key)
    {
      if cancelled {
        return Pass;
      }
      if key.None? {
        return Fail(ArgumentNull);
      }
      var found := Find(key.value);
      match found
      case None =>
        return Pass;
      case Some(i) =>
        RemoveItemAt(i);
        return Pass;
    }

    /** The private RemoveAll, as evidently intended: empties the list and
        zeroes CurrentSize, unless cancelled and not told to ignore that. */
    method RemoveAll(ignoreCancellation: bool)
      modifies this
      ensures State() == CacheSpec.RemoveAll(old(State()), ignoreCancellation)
      ensures old(Valid()) ==> Valid()
      ensures Configured() && (!old(cancelled) || ignoreCancellation) ==> Valid()
    {
      if cancelled && !ignoreCancellation {
        return;
      }
      items := [];
      currentSize := 0;
      Contents := [];
    }

    /** Clear: RemoveAll without the override. */
    method Clear()
      requires Valid()
      modifies this
      ensures Valid()
      ensures State() == CacheSpec.Clear(old(State()))
    {
      RemoveAll(false);
    }

    /** Dispose: cancellation is requested, then the cache is emptied regardless. */
    method Dispose()
      modifies this
      ensures State() == CacheSpec.Dispose(old(State()))
      ensures Configured() ==> Valid()
    {
      cancelled := true;
      RemoveAll(true);
    }

    /** One pass of the background loop, under the lock: flush outdated items,
        then, at or above the limit, raise SizeLimitReached and flush the oldest. */
    method SweepStep(now: Ticks)
      requires Valid()
      modifies this
      ensures Valid()
      ensures State() == CacheSpec.SweepStep(old(State()), Settings(), now)
    {
      if cancelled {
        return;
      }
      FlushOutdatedItems(now);
      GuardOldest(0);
    }
  }

  /** The Cache constructor with its argument checks: an empty name or a
      missing configuration, a SizeLimit below 1, a DefaultItemSize above the
      limit or a percentage outside [0, 1] is rejected; otherwise a new, empty
      cache runs with the configuration. */
  method NewCache<K(==), V>(name: string, configuration: Option<CacheConfiguration>, keyType: TypeTag, valueType: TypeTag)
    returns (r: Result<Cache<K, V>>)
    ensures r.Failure? <==> ValidateConfiguration(name, configuration).Some?
    ensures r.Failure? ==> r.error == ValidateConfiguration(name, configuration).value
    ensures r.Success? ==> && fresh(r.value) && r.value.Valid() && r.value.State() == CacheSpec.Initial()
                           && r.value.name == name && r.value.Settings() == configuration.value
                           && r.value.keyType == keyType && r.value.valueType == valueType
  {
    var error := ValidateConfiguration(name, configuration);
    if error.Some? {
      return Failure(error.value);
    }
    var c := new Cache(name, configuration.value, keyType, valueType);
    return Success(c);
  }
}
