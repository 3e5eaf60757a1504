/** The source's behaviour where it departs from what it evidently intends.
    Each member here models one piece of code as it is written, next to a
    lemma that exhibits the departure on a concrete input or over all inputs;
    the rest of the model uses the corrected behaviour. */
module AsWritten {
  import opened Errors
  import opened Configuration
  import opened CacheItems
  import opened ItemLists
  import opened CacheSpec
  import CacheProperties
  import Registry
  import Caches

  const Minute: Ticks := 600_000_000

  // ---------------------------------------------------------------------------
  // The Cache constructor validates its configuration and copies none of it.

  /** The settings a cache built by the constructor runs with: SizeLimit,
      DefaultItemExpiration, DefaultItemSize, OldestItemsRemovingPercentage and
      PollingInterval are never assigned and keep their default values. */
  function SettingsAsWritten(configuration: CacheConfiguration): (r: CacheConfiguration)
    ensures r.sizeLimit == 0 && !ValidConfiguration(r)
  {
    CacheConfiguration(0, 0, 0, Percentage(0, 1), 0)
  }

  /** The argument checks at the head of AddOrUpdate, against the settings the
      cache runs with: `Pass` means the call goes on to the locked part. */
  function Admit<K, V>(cancelled: bool, key: Option<K>, value: Option<V>, size: int, sizeLimit: int): (r: Outcome)
    ensures r == Pass <==> cancelled || (key.Some? && value.Some? && 1 <= size <= sizeLimit)
    ensures r == Fail(ArgumentOutOfRange) <==> !cancelled && key.Some? && value.Some? && !(1 <= size <= sizeLimit)
  {
    if cancelled then Pass
    else if key.None? || value.None? then Fail(ArgumentNull)
    else if size < 1 || size > sizeLimit then Fail(ArgumentOutOfRange)
    else Pass
  }

  /** Whatever configuration a cache was created with, every AddOrUpdate with a
      key and a value throws ArgumentOutOfRangeException, since SizeLimit is 0. */
  lemma ConstructedCacheRejectsEveryAdd<K, V>(configuration: CacheConfiguration, k: K, v: V, size: int)
    ensures Admit(false, Some(k), Some(v), size, SettingsAsWritten(configuration).sizeLimit) == Fail(ArgumentOutOfRange)
  {}

  /** With the configuration copied, as the corrected constructor does, a size
      of one is always admitted. */
  lemma CopiedConfigurationAdmits<K, V>(configuration: CacheConfiguration, k: K, v: V)
    requires ValidConfiguration(configuration)
    ensures Admit(false, Some(k), Some(v), 1, configuration.sizeLimit) == Pass
  {}

  // ---------------------------------------------------------------------------
  // RemoveAll, behind Clear and Dispose, empties the list and keeps CurrentSize.

  /** RemoveAll as written: InternalCache.Clear() and nothing else. */
  function RemoveAllAsWritten<K, V>(st: CacheState<K, V>, ignoreCancellation: bool): (r: CacheState<K, V>)
    ensures r.currentSize == st.currentSize
    ensures st.cancelled && !ignoreCancellation ==> r == st
    ensures !st.cancelled || ignoreCancellation ==> r.items == []
  {
    if st.cancelled && !ignoreCancellation then st else st.(items := [])
  }

  lemma {:induction false} TotalSizeAtLeastCount<K, V>(s: seq<ItemView<K, V>>)
    requires forall i :: 0 <= i < |s| ==> s[i].size >= 1
    ensures TotalSize(s) >= |s|
  {
    if s != [] {
      var p := s[..|s| - 1];
      assert forall i :: 0 <= i < |p| ==> p[i] == s[i];
      TotalSizeAtLeastCount(p);
    }
  }

  /** Clearing a non-empty cache as written leaves CurrentSize where it was,
      above zero with no item left, so the invariant is broken; the corrected
      RemoveAll keeps it (CacheProperties.RemoveAllInv). */
  lemma ClearKeepsSize<K, V>(st: CacheState<K, V>, cfg: CacheConfiguration)
    requires Inv(st, cfg) && !st.cancelled && st.items != []
    ensures RemoveAllAsWritten(st, false).items == [] && RemoveAllAsWritten(st, false).currentSize == st.currentSize > 0
    ensures !Inv(RemoveAllAsWritten(st, false), cfg)
    ensures !Inv(RemoveAllAsWritten(st.(cancelled := true), true), cfg)
    ensures Inv(CacheSpec.Clear(st), cfg) && CacheSpec.Clear(st).currentSize == 0
  {
    TotalSizeAtLeastCount(st.items);
    CacheProperties.RemoveAllInv(st, cfg, false);
  }

  /** The stale CurrentSize is felt on the next add: after a cache of limit 10
      holding one item of size 5 is cleared, adding an item of size 6 to the
      empty cache raises SizeLimitReached twice; after the corrected Clear it
      raises nothing. */
  lemma ClearLeavesPhantomPressure(st: CacheState<int, int>, cfg: CacheConfiguration)
    requires cfg == CacheConfiguration(10, Minute, 1, Percentage(1, 2), Minute)
    requires st == CacheState([ItemView(1, 1, 5, 0, Minute)], 5, false, 0)
    ensures CacheSpec.AddOrUpdate(RemoveAllAsWritten(st, false), cfg, Some(2), Some(2), Minute, 6, 1).0.notifications == 2
    ensures CacheSpec.AddOrUpdate(CacheSpec.Clear(st), cfg, Some(2), Some(2), Minute, 6, 1).0.notifications == 0
  {
    var stale := RemoveAllAsWritten(st, false);
    assert stale == CacheState([], 5, false, 0);
    AddToEmpty(stale, cfg, 2, 2, Minute, 6, 1);
    AddToEmpty(CacheSpec.Clear(st), cfg, 2, 2, Minute, 6, 1);
  }

  /** Adding to a cache whose list is empty: both guards see only CurrentSize
      plus the size, and whatever they flush, there is nothing to remove. */
  lemma AddToEmpty<K, V>(st: CacheState<K, V>, cfg: CacheConfiguration, k: K, v: V, expiration: Ticks,
                             size: int, now: Ticks)
    requires ValidConfiguration(cfg) && st.items == [] && !st.cancelled && 1 <= size <= cfg.sizeLimit
    ensures CacheSpec.AddOrUpdate(st, cfg, Some(k), Some(v), expiration, size, now).0.notifications
         == st.notifications + (if st.currentSize + size >= cfg.sizeLimit then 2 else 0)
  {
    assert KeysOf(st.items) == [];
    assert Put(st, cfg, k, v, expiration, size, now) == Add(st, cfg, k, v, expiration, size, now);
    var s1 := OutdatedGuard(st, cfg, size, now);
    assert Live(st.items, now) == [] && OutdatedSize(st.items, now) == 0;
    assert s1.items == [] && s1.currentSize == st.currentSize;
    assert RemovalCount(0, cfg.oldestItemsRemovingPercentage) == 0;
    assert EvictOldest(s1.items, 0) == [] && Evicted(s1.items, 0) == [];
    assert OldestGuard(s1, cfg, size).notifications
        == st.notifications + (if st.currentSize + size >= cfg.sizeLimit then 2 else 0);
  }

  // ---------------------------------------------------------------------------
  // Update: the second guard tests CurrentSize + size, and the oldest-items
  // flush may evict the very item being updated, which is then updated detached
  // from the list while CurrentSize still counts its new size.

  /** The private Update as written. The item stays referenced across the
      flushes: if it is still listed it is refreshed in place, otherwise its
      setters run on the detached object and only CurrentSize moves. */
  function UpdateAsWritten<K(==), V>(st: CacheState<K, V>, cfg: CacheConfiguration, key: K, value: V,
                                     expiration: Ticks, size: int, now: Ticks): (r: CacheState<K, V>)
    requires ValidConfiguration(cfg)
    requires IndexOf(KeysOf(st.items), key).Some?
    ensures r.cancelled == st.cancelled
    ensures st.notifications <= r.notifications <= st.notifications + 2
  {
    var target := st.items[IndexOf(KeysOf(st.items), key).value];
    var s1 := OutdatedGuard(st, cfg, size - target.size, now);
    var s2 := OldestGuard(s1, cfg, size);
    match IndexOf(KeysOf(s2.items), key)
    case Some(j) => RefreshAt(s2, j, value, expiration, size, now)
    case None => s2.(currentSize := s2.currentSize - target.size + size)
  }

  /** UpdateAsWritten once the flushes have evicted the target. */
  lemma UpdateAsWrittenDetached<K, V>(st: CacheState<K, V>, cfg: CacheConfiguration, k: K, v: V, expiration: Ticks,
                                          size: int, now: Ticks, i: nat, flushed: CacheState<K, V>)
    requires ValidConfiguration(cfg) && IndexOf(KeysOf(st.items), k) == Some(i)
    requires flushed == OldestGuard(OutdatedGuard(st, cfg, size - st.items[i].size, now), cfg, size)
    requires IndexOf(KeysOf(flushed.items), k) == None
    ensures UpdateAsWritten(st, cfg, k, v, expiration, size, now)
         == flushed.(currentSize := flushed.currentSize - st.items[i].size + size)
  {}

  /** The corrected Update once the flushes have evicted the target. */
  lemma UpdateReadds<K, V>(st: CacheState<K, V>, cfg: CacheConfiguration, k: K, v: V, expiration: Ticks,
                               size: int, now: Ticks, i: nat, flushed: CacheState<K, V>)
    requires ValidConfiguration(cfg) && IndexOf(KeysOf(st.items), k) == Some(i)
    requires flushed == MakeRoom(st, cfg, size - st.items[i].size, now)
    requires IndexOf(KeysOf(flushed.items), k) == None
    ensures CacheSpec.Update(st, cfg, k, v, expiration, size, now) == Append(flushed, k, v, expiration, size, now)
  {}

  /** Rewriting an item with its own size does not grow the cache, yet the
      second guard sees 6 + 6 >= 10 and a full flush evicts the item: the list
      ends empty and the new value is lost, although the call succeeds. */
  lemma UpdateSecondGuardEvicts(st: CacheState<int, int>, cfg: CacheConfiguration)
    requires cfg == CacheConfiguration(10, Minute, 1, Percentage(1, 1), Minute)
    requires st == CacheState([ItemView(1, 1, 6, 0, Minute)], 6, false, 0)
    ensures UpdateAsWritten(st, cfg, 1, 2, Minute, 6, 1) == CacheState([], 0, false, 1)
  {
    assert KeysOf(st.items) == [1];
    assert IndexOf(KeysOf(st.items), 1) == Some(0);
    assert OutdatedGuard(st, cfg, 0, 1) == st;
    assert RemovalCount(1, cfg.oldestItemsRemovingPercentage) == 1;
    FlushOldestFirst(Notify(st), cfg.oldestItemsRemovingPercentage);
    var flushed := OldestGuard(OutdatedGuard(st, cfg, 0, 1), cfg, 6);
    assert flushed == CacheState([], 0, false, 1);
    assert KeysOf(flushed.items) == [];
    UpdateAsWrittenDetached(st, cfg, 1, 2, Minute, 6, 1, 0, flushed);
  }

  /** The corrected Update on the same input tests the growth of 0, flushes
      nothing and refreshes the item in place. */
  lemma UpdateSameSizeRefreshes(st: CacheState<int, int>, cfg: CacheConfiguration)
    requires cfg == CacheConfiguration(10, Minute, 1, Percentage(1, 1), Minute)
    requires st == CacheState([ItemView(1, 1, 6, 0, Minute)], 6, false, 0)
    ensures CacheSpec.Update(st, cfg, 1, 2, Minute, 6, 1) == CacheState([ItemView(1, 2, 6, 1, Minute)], 6, false, 0)
  {
    assert KeysOf(st.items) == [1];
    assert IndexOf(KeysOf(st.items), 1) == Some(0);
    assert MakeRoom(st, cfg, 0, 1) == st;
  }

  /** A flush that removes one item, when the first item is strictly the
      oldest, removes exactly that one. */
  lemma FlushOldestFirst<K, V>(st: CacheState<K, V>, p: Percentage)
    requires p.InUnitRange() && |st.items| >= 1 && RemovalCount(|st.items|, p) == 1
    requires forall j :: 0 < j < |st.items| ==> st.items[0].added < st.items[j].added
    ensures FlushOldest(st, p) == st.(items := st.items[1..], currentSize := st.currentSize - st.items[0].size)
  {
    var s := st.items;
    assert EvictOldest(s, 1) == s[1..] by {
      assert OldestIndex(s) == 0;
      assert RemoveAt(s, 0) == s[1..];
    }
    assert TotalSize(Evicted(s, 1)) == s[0].size by {
      assert OldestIndex(s) == 0;
      assert Evicted(s, 1) == [s[0]];
      assert [s[0]][..0] == [];
    }
  }

  /** With nothing outdated, the first guard only raises SizeLimitReached, if it fires. */
  lemma OutdatedGuardNothingOutdated<K, V>(st: CacheState<K, V>, cfg: CacheConfiguration, growth: int, now: Ticks)
    requires forall i :: 0 <= i < |st.items| ==> !st.items[i].IsOutdated(now)
    ensures OutdatedGuard(st, cfg, growth, now) == if st.currentSize + growth >= cfg.sizeLimit then Notify(st) else st
  {
    LiveWhenNoneOutdated(st.items, now);
    OutdatedSizeWhenNoneOutdated(st.items, now);
  }

  /** Growing A from 5 to 6 next to B (4) at limit 10 with half the items
      flushed: the flush evicts A, the oldest, and the update lands on the
      detached A. As written the list is [B] while CurrentSize is 5, so the
      invariant breaks and the new value is lost. */
  lemma UpdateOfEvictedItemIsLost(st: CacheState<int, int>, cfg: CacheConfiguration)
    requires cfg == CacheConfiguration(10, Minute, 1, Percentage(1, 2), Minute)
    requires st == CacheState([ItemView(1, 1, 5, 0, Minute), ItemView(2, 2, 4, 1, Minute)], 9, false, 0)
    ensures UpdateAsWritten(st, cfg, 1, 3, Minute, 6, 2) == CacheState([ItemView(2, 2, 4, 1, Minute)], 5, false, 2)
    ensures !Inv(UpdateAsWritten(st, cfg, 1, 3, Minute, 6, 2), cfg)
  {
    var flushed := CacheState([st.items[1]], 4, false, 2);
    EvictsFirstOfTwo(st, cfg);
    KeysOfPair(st);
    UpdateAsWrittenDetached(st, cfg, 1, 3, Minute, 6, 2, 0, flushed);
    var lost := UpdateAsWritten(st, cfg, 1, 3, Minute, 6, 2);
    assert lost == flushed.(currentSize := 5);
    assert TotalSize(lost.items) == 4 by {
      assert lost.items[..0] == [];
    }
  }

  /** The corrected Update on the same input adds A again at the end, with
      CurrentSize 10 matching the list. */
  lemma UpdateOfEvictedItemIsReadded(st: CacheState<int, int>, cfg: CacheConfiguration)
    requires cfg == CacheConfiguration(10, Minute, 1, Percentage(1, 2), Minute)
    requires st == CacheState([ItemView(1, 1, 5, 0, Minute), ItemView(2, 2, 4, 1, Minute)], 9, false, 0)
    ensures CacheSpec.Update(st, cfg, 1, 3, Minute, 6, 2)
         == CacheState([ItemView(2, 2, 4, 1, Minute), ItemView(1, 3, 6, 2, Minute)], 10, false, 2)
    ensures Inv(CacheSpec.Update(st, cfg, 1, 3, Minute, 6, 2), cfg)
  {
    var b, a := st.items[1], ItemView(1, 3, 6, 2, Minute);
    ReaddStep(st, cfg);
    PairAppend(b, a);
    assert Append(CacheState([b], 4, false, 2), 1, 3, Minute, 6, 2) == CacheState([b, a], 10, false, 2);
    TwoItemsInv(CacheState([b, a], 10, false, 2), cfg);
  }

  lemma PairAppend<T>(x: T, y: T)
    ensures [x] + [y] == [x, y]
  {}

  /** The corrected Update on [A, B]: the flushes leave [B], and the key is added again. */
  lemma ReaddStep(st: CacheState<int, int>, cfg: CacheConfiguration)
    requires cfg == CacheConfiguration(10, Minute, 1, Percentage(1, 2), Minute)
    requires st == CacheState([ItemView(1, 1, 5, 0, Minute), ItemView(2, 2, 4, 1, Minute)], 9, false, 0)
    ensures CacheSpec.Update(st, cfg, 1, 3, Minute, 6, 2) == Append(CacheState([st.items[1]], 4, false, 2), 1, 3, Minute, 6, 2)
  {
    var flushed := CacheState([st.items[1]], 4, false, 2);
    EvictsFirstOfTwo(st, cfg);
    KeysOfPair(st);
    assert MakeRoom(st, cfg, 1, 2) == flushed;
    UpdateReadds(st, cfg, 1, 3, Minute, 6, 2, 0, flushed);
  }

  /** Key 1 sits first in [A, B] and is absent from [B]. */
  lemma KeysOfPair(st: CacheState<int, int>)
    requires st == CacheState([ItemView(1, 1, 5, 0, Minute), ItemView(2, 2, 4, 1, Minute)], 9, false, 0)
    ensures IndexOf(KeysOf(st.items), 1) == Some(0)
    ensures IndexOf(KeysOf([st.items[1]]), 1) == None
  {
    assert KeysOf(st.items) == [1, 2];
    assert KeysOf([st.items[1]]) == [2];
  }

  lemma TwoItemsInv(st: CacheState<int, int>, cfg: CacheConfiguration)
    requires cfg == CacheConfiguration(10, Minute, 1, Percentage(1, 2), Minute)
    requires st == CacheState([ItemView(2, 2, 4, 1, Minute), ItemView(1, 3, 6, 2, Minute)], 10, false, 2)
    ensures Inv(st, cfg)
  {
    var s := st.items;
    assert TotalSize(s) == 10 by {
      assert s[..1] == [s[0]] && s[..1][..0] == [];
      assert TotalSize(s[..1]) == 4;
    }
  }

  /** Both guards fire on [A, B] at limit 10 with growth 1, and the flush at
      one half evicts A, the older item. */
  lemma EvictsFirstOfTwo(st: CacheState<int, int>, cfg: CacheConfiguration)
    requires cfg == CacheConfiguration(10, Minute, 1, Percentage(1, 2), Minute)
    requires st == CacheState([ItemView(1, 1, 5, 0, Minute), ItemView(2, 2, 4, 1, Minute)], 9, false, 0)
    ensures OldestGuard(OutdatedGuard(st, cfg, 1, 2), cfg, 6) == CacheState([st.items[1]], 4, false, 2)
    ensures OldestGuard(OutdatedGuard(st, cfg, 1, 2), cfg, 1) == CacheState([st.items[1]], 4, false, 2)
  {
    assert OutdatedGuard(st, cfg, 1, 2) == Notify(st) by {
      assert forall i :: 0 <= i < |st.items| ==> !st.items[i].IsOutdated(2);
      OutdatedGuardNothingOutdated(st, cfg, 1, 2);
    }
    assert FlushOldest(Notify(Notify(st)), cfg.oldestItemsRemovingPercentage) == CacheState([st.items[1]], 4, false, 2) by {
      assert RemovalCount(2, cfg.oldestItemsRemovingPercentage) == 1;
      FlushOldestFirst(Notify(Notify(st)), cfg.oldestItemsRemovingPercentage);
      assert st.items[1..] == [st.items[1]];
    }
  }

  // ---------------------------------------------------------------------------
  // FlushOutdatedItems removes from the List it is enumerating.

  /** The position of the first outdated item, if any. */
  function FirstOutdated<K, V>(s: seq<ItemView<K, V>>, now: Ticks): (r: Option<nat>)
    ensures r.None? <==> forall i :: 0 <= i < |s| ==> !s[i].IsOutdated(now)
    ensures r.Some? ==> r.value < |s| && s[r.value].IsOutdated(now)
    ensures r.Some? ==> forall i :: 0 <= i < r.value ==> !s[i].IsOutdated(now)
  {
    if s == [] then None
    else if s[0].IsOutdated(now) then Some(0)
    else
      match FirstOutdated(s[1..], now)
      case None => None
      case Some(j) => Some(j + 1)
  }

  /** FlushOutdatedItems as written: it enumerates InternalCache.Where(IsOutdated)
      and removes each hit from InternalCache. The first removal changes the
      list's version, so the enumerator's next step throws
      InvalidOperationException: exactly one outdated item goes, and the error
      escapes to the caller. */
  function FlushOutdatedAsWritten<K, V>(st: CacheState<K, V>, now: Ticks): (r: (CacheState<K, V>, Option<Error>))
    ensures r.1.None? ==> r.0 == st
    ensures r.1.Some? ==> r.1 == Some(InvalidOperation(CollectionModified)) && |r.0.items| == |st.items| - 1
  {
    match FirstOutdated(st.items, now)
    case None => (st, None)
    case Some(i) => (RemoveItem(st, i), Some(InvalidOperation(CollectionModified)))
  }

  /** Whenever anything is outdated the flush throws, and the flushes run at
      the first guard of Add and Update and on every background pass, so
      AddOrUpdate fails and the background task stops; with nothing outdated
      it changes nothing, as the corrected flush does. */
  lemma FlushOutdatedThrows<K, V>(st: CacheState<K, V>, now: Ticks)
    ensures FlushOutdatedAsWritten(st, now).1.Some?
        <==> exists i :: 0 <= i < |st.items| && st.items[i].IsOutdated(now)
    ensures FlushOutdatedAsWritten(st, now).1.None? ==>
              FlushOutdatedAsWritten(st, now).0 == st == FlushOutdated(st, now)
  {
    if FirstOutdated(st.items, now).None? {
      LiveWhenNoneOutdated(st.items, now);
      CacheProperties.FlushOutdatedMembers(st, now);
      OutdatedSizeWhenNoneOutdated(st.items, now);
    }
  }

  lemma {:induction false} OutdatedSizeWhenNoneOutdated<K, V>(s: seq<ItemView<K, V>>, now: Ticks)
    requires forall i :: 0 <= i < |s| ==> !s[i].IsOutdated(now)
    ensures OutdatedSize(s, now) == 0
  {
    if s != [] {
      var p := s[..|s| - 1];
      assert forall i :: 0 <= i < |p| ==> p[i] == s[i];
      OutdatedSizeWhenNoneOutdated(p, now);
    }
  }

  /** Two outdated items: as written one is removed and the call throws, the
      other stays; the corrected flush removes both. */
  lemma FlushOutdatedLeavesOne(st: CacheState<int, int>)
    requires st == CacheState([ItemView(1, 1, 2, 0, Minute), ItemView(2, 2, 3, 0, Minute)], 5, false, 0)
    ensures FlushOutdatedAsWritten(st, 2 * Minute)
         == (CacheState([ItemView(2, 2, 3, 0, Minute)], 3, false, 0), Some(InvalidOperation(CollectionModified)))
    ensures FlushOutdated(st, 2 * Minute) == CacheState([], 0, false, 0)
  {
    var s := st.items;
    assert FirstOutdated(s, 2 * Minute) == Some(0);
    assert RemoveAt(s, 0) == [s[1]];
    AllOutdated(s, 2 * Minute);
    assert TotalSize(s) == 5 by {
      assert s[..1] == [s[0]] && s[..1][..0] == [];
      assert TotalSize(s[..1]) == 2;
    }
  }

  lemma {:induction false} AllOutdated<K, V>(s: seq<ItemView<K, V>>, now: Ticks)
    requires forall i :: 0 <= i < |s| ==> s[i].IsOutdated(now)
    ensures Live(s, now) == [] && OutdatedSize(s, now) == TotalSize(s)
  {
    if s != [] {
      var p := s[..|s| - 1];
      assert forall i :: 0 <= i < |p| ==> p[i] == s[i];
      AllOutdated(p, now);
    }
  }

  // ---------------------------------------------------------------------------
  // CacheManager.Get compares the registered value type with typeof(ValueType).

  /** typeof(ValueType), the type Get's second check compares against. */
  const ValueTypeTag := Caches.TypeTag("System.ValueType")

  /** The type checks of Get as written. */
  function TypeCheckAsWritten(registeredKey: Caches.TypeTag, registeredValue: Caches.TypeTag,
                              requestedKey: Caches.TypeTag, requestedValue: Caches.TypeTag): (r: Option<Error>)
    ensures r == None <==> registeredKey == requestedKey && registeredValue == ValueTypeTag
    ensures r == Some(InvalidOperation(ValueTypeMismatch)) <==>
              registeredKey == requestedKey && registeredValue != ValueTypeTag
  {
    if registeredKey != requestedKey then Some(InvalidOperation(KeyTypeMismatch))
    else if registeredValue != ValueTypeTag then Some(InvalidOperation(ValueTypeMismatch))
    else None
  }

  /** Asking for a cache with exactly the types it was created with fails as
      written unless its value type is System.ValueType itself; the corrected
      check accepts it. */
  lemma GetRejectsMatchingTypes(keyType: Caches.TypeTag, valueType: Caches.TypeTag)
    requires valueType != ValueTypeTag
    ensures TypeCheckAsWritten(keyType, valueType, keyType, valueType) == Some(InvalidOperation(ValueTypeMismatch))
    ensures Registry.TypeCheck(keyType, valueType, keyType, valueType) == None
  {}

  /** And the as-written check ignores the value type asked for. */
  lemma GetIgnoresRequestedValueType(keyType: Caches.TypeTag, valueType: Caches.TypeTag, other: Caches.TypeTag)
    requires other != valueType
    ensures TypeCheckAsWritten(keyType, valueType, keyType, other) == TypeCheckAsWritten(keyType, valueType, keyType, valueType)
    ensures Registry.TypeCheck(keyType, valueType, keyType, other) == Some(InvalidOperation(ValueTypeMismatch))
  {}
}
