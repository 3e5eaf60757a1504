/** What the Cache transitions promise: every operation keeps the invariant,
    AddOrUpdate stores what it was given and only ever removes other items,
    reads evict outdated items, and the flushes remove what they claim to. */
module CacheProperties {
  import opened Errors
  import opened Configuration
  import opened CacheItems
  import opened ItemLists
  import opened CacheSpec

  /** Items drawn from a list whose sizes are within bounds have sizes within bounds. */
  lemma SizesWithin<K, V>(r: seq<ItemView<K, V>>, s: seq<ItemView<K, V>>, limit: int)
    requires forall x :: x in r ==> x in s
    requires forall i :: 0 <= i < |s| ==> 1 <= s[i].size <= limit
    ensures forall i :: 0 <= i < |r| ==> 1 <= r[i].size <= limit
  {
    forall i | 0 <= i < |r| ensures 1 <= r[i].size <= limit {
      var x := r[i];
      assert x in r;
      assert x in s;
      var m :| 0 <= m < |s| && s[m] == x;
    }
  }

  /** Flushing outdated items keeps exactly the live ones. */
  lemma FlushOutdatedMembers<K, V>(st: CacheState<K, V>, now: Ticks)
    ensures var r := FlushOutdated(st, now);
            && (forall x :: x in r.items ==> x in st.items && !x.IsOutdated(now))
            && (forall x :: x in st.items && !x.IsOutdated(now) ==> x in r.items)
  {
    LiveMembers(st.items, now);
  }

  /** Flushing the oldest items only removes items. */
  lemma FlushOldestMembers<K, V>(st: CacheState<K, V>, p: Percentage)
    requires p.InUnitRange()
    ensures forall y :: y in FlushOldest(st, p).items ==> y in st.items
  {
    EvictOldestSubset(st.items, RemovalCount(|st.items|, p));
  }

  lemma InitialInv<K, V>(cfg: CacheConfiguration)
    requires ValidConfiguration(cfg)
    ensures Inv(Initial<K, V>(), cfg)
  {}

  /** Removing one item keeps the invariant, and its key is gone afterwards. */
  lemma RemoveItemInv<K, V>(st: CacheState<K, V>, cfg: CacheConfiguration, i: nat)
    requires Inv(st, cfg) && i < |st.items|
    ensures Inv(RemoveItem(st, i), cfg)
    ensures st.items[i].key !in KeysOf(RemoveItem(st, i).items)
  {
    KeysUniqueRemoveAt(st.items, i);
    TotalSizeRemoveAt(st.items, i);
    SizesWithin(RemoveItem(st, i).items, st.items, cfg.sizeLimit);
  }

  /** Flushing outdated items keeps the invariant and lowers CurrentSize by
      exactly the sizes of the items it removed. */
  lemma FlushOutdatedInv<K, V>(st: CacheState<K, V>, cfg: CacheConfiguration, now: Ticks)
    requires Inv(st, cfg)
    ensures Inv(FlushOutdated(st, now), cfg)
  {
    var r := FlushOutdated(st, now);
    FlushOutdatedMembers(st, now);
    LiveSize(st.items, now);
    LiveKeysUnique(st.items, now);
    SizesWithin(r.items, st.items, cfg.sizeLimit);
  }

  /** Flushing the oldest items keeps the invariant; the items removed are, in
      removal order, the ones with the earliest timestamps, no later than any
      item kept; together with the kept ones they are exactly the old items. */
  lemma FlushOldestInv<K, V>(st: CacheState<K, V>, cfg: CacheConfiguration)
    requires Inv(st, cfg)
    ensures Inv(FlushOldest(st, cfg.oldestItemsRemovingPercentage), cfg)
    ensures var n := RemovalCount(|st.items|, cfg.oldestItemsRemovingPercentage);
            var r := FlushOldest(st, cfg.oldestItemsRemovingPercentage);
            && multiset(r.items) + multiset(Evicted(st.items, n)) == multiset(st.items)
            && (forall a, b :: 0 <= a < n && 0 <= b < |r.items| ==> Evicted(st.items, n)[a].added <= r.items[b].added)
            && (forall a, b :: 0 <= a < b < n ==> Evicted(st.items, n)[a].added <= Evicted(st.items, n)[b].added)
  {
    var p := cfg.oldestItemsRemovingPercentage;
    var n := RemovalCount(|st.items|, p);
    var r := FlushOldest(st, p);
    FlushOldestMembers(st, p);
    EvictOldestProperties(st.items, n);
    SizesWithin(r.items, st.items, cfg.sizeLimit);
  }

  /** On a list in insertion order, flushing the oldest items drops its first
      trunc(count * percentage) items. */
  lemma FlushOldestAscending<K, V>(st: CacheState<K, V>, p: Percentage)
    requires p.InUnitRange() && Ascending(st.items)
    ensures var n := RemovalCount(|st.items|, p);
            FlushOldest(st, p) == st.(items := st.items[n..], currentSize := st.currentSize - TotalSize(st.items[..n]))
  {
    var n := RemovalCount(|st.items|, p);
    EvictOldestAscending(st.items, n);
    EvictedAscendingPrefix(st.items, n);
  }

  /** The first guard keeps the invariant, only removes items, and raises
      SizeLimitReached exactly when it fires. */
  lemma OutdatedGuardProps<K, V>(st: CacheState<K, V>, cfg: CacheConfiguration, growth: int, now: Ticks)
    requires Inv(st, cfg)
    ensures var r := OutdatedGuard(st, cfg, growth, now);
            && Inv(r, cfg)
            && (forall x :: x in r.items ==> x in st.items)
            && r.cancelled == st.cancelled
            && r.notifications == st.notifications + (if st.currentSize + growth >= cfg.sizeLimit then 1 else 0)
            && (st.currentSize + growth < cfg.sizeLimit ==> r == st)
  {
    if st.currentSize + growth >= cfg.sizeLimit {
      FlushOutdatedInv(Notify(st), cfg, now);
      FlushOutdatedMembers(Notify(st), now);
    }
  }

  /** The second guard keeps the invariant, only removes items, and raises
      SizeLimitReached exactly when it fires. */
  lemma OldestGuardProps<K, V>(st: CacheState<K, V>, cfg: CacheConfiguration, growth: int)
    requires Inv(st, cfg)
    ensures var r := OldestGuard(st, cfg, growth);
            && Inv(r, cfg)
            && (forall x :: x in r.items ==> x in st.items)
            && r.cancelled == st.cancelled
            && r.notifications == st.notifications + (if st.currentSize + growth >= cfg.sizeLimit then 1 else 0)
            && (st.currentSize + growth < cfg.sizeLimit ==> r == st)
  {
    if st.currentSize + growth >= cfg.sizeLimit {
      FlushOldestInv(Notify(st), cfg);
      FlushOldestMembers(Notify(st), cfg.oldestItemsRemovingPercentage);
    }
  }

  /** The guarded flushes keep the invariant, only remove items, raise
      SizeLimitReached at most twice, and do nothing when the growth fits. */
  lemma MakeRoomProps<K, V>(st: CacheState<K, V>, cfg: CacheConfiguration, growth: int, now: Ticks)
    requires Inv(st, cfg)
    ensures var r := MakeRoom(st, cfg, growth, now);
            && Inv(r, cfg)
            && (forall x :: x in r.items ==> x in st.items)
            && r.cancelled == st.cancelled
            && st.notifications <= r.notifications <= st.notifications + 2
            && (st.currentSize + growth < cfg.sizeLimit ==> r == st)
            && (st.currentSize + growth >= cfg.sizeLimit ==> r.notifications > st.notifications)
  {
    OutdatedGuardProps(st, cfg, growth, now);
    OldestGuardProps(OutdatedGuard(st, cfg, growth, now), cfg, growth);
  }

  /** Add with room to spare only appends. */
  lemma AddWithoutPressure<K, V>(st: CacheState<K, V>, cfg: CacheConfiguration, k: K, v: V, expiration: Ticks,
                                 size: int, now: Ticks)
    requires Inv(st, cfg) && st.currentSize + size < cfg.sizeLimit
    ensures Add(st, cfg, k, v, expiration, size, now) == Append(st, k, v, expiration, size, now)
  {
    MakeRoomProps(st, cfg, size, now);
  }

  lemma AppendProps<K, V>(st: CacheState<K, V>, cfg: CacheConfiguration, k: K, v: V, expiration: Ticks,
                          size: int, now: Ticks)
    requires Inv(st, cfg) && 1 <= size <= cfg.sizeLimit && k !in KeysOf(st.items)
    ensures var r := Append(st, k, v, expiration, size, now);
            && Inv(r, cfg)
            && IndexOf(KeysOf(r.items), k) == Some(|st.items|)
            && r.items[|st.items|] == ItemView(k, v, size, now, expiration)
  {
    var x := ItemView(k, v, size, now, expiration);
    var t := st.items + [x];
    assert Append(st, k, v, expiration, size, now) == st.(items := t, currentSize := st.currentSize + size);
    AppendFreshKey(st.items, x);
    TotalSizeAppend(st.items, x);
    forall i | 0 <= i < |t| ensures 1 <= t[i].size <= cfg.sizeLimit {
      if i < |st.items| {
        assert t[i] == st.items[i];
      }
    }
  }

  lemma RefreshProps<K, V>(s: CacheState<K, V>, cfg: CacheConfiguration, j: nat, v: V, expiration: Ticks,
                           size: int, now: Ticks)
    requires Inv(s, cfg) && 1 <= size <= cfg.sizeLimit && j < |s.items|
    ensures var r := RefreshAt(s, j, v, expiration, size, now);
            && Inv(r, cfg)
            && IndexOf(KeysOf(r.items), s.items[j].key) == Some(j)
            && (forall y :: y in r.items && y.key != s.items[j].key ==> y in s.items)
  {
    var x := Refreshed(s.items[j], v, expiration, size, now);
    var t := s.items[j := x];
    ReplaceSameKey(s.items, j, x);
    TotalSizeReplace(s.items, j, x);
    forall y | y in t && y.key != s.items[j].key ensures y in s.items {
      var m :| 0 <= m < |t| && t[m] == y;
      assert s.items[m] == y;
    }
  }

  /** Adding under a key that is absent: afterwards exactly one item carries the
      key, with the given value, size, expiration and timestamp. */
  lemma AddFresh<K, V>(st: CacheState<K, V>, cfg: CacheConfiguration, k: K, v: V, expiration: Ticks,
                       size: int, now: Ticks)
    requires Inv(st, cfg) && 1 <= size <= cfg.sizeLimit && k !in KeysOf(st.items)
    ensures var r := Add(st, cfg, k, v, expiration, size, now);
            && Inv(r, cfg)
            && IndexOf(KeysOf(r.items), k).Some?
            && r.items[IndexOf(KeysOf(r.items), k).value] == ItemView(k, v, size, now, expiration)
            && (forall x :: x in r.items && x.key != k ==> x in st.items)
            && r.cancelled == st.cancelled
            && st.notifications <= r.notifications <= st.notifications + 2
  {
    var s := MakeRoom(st, cfg, size, now);
    MakeRoomProps(st, cfg, size, now);
    if k in KeysOf(s.items) {
      KeysOfSubset(s.items, st.items, k);
    }
    AppendProps(s, cfg, k, v, expiration, size, now);
  }

  /** Storing under a key: afterwards exactly one item carries the key, with
      the new value, size, expiration and a fresh timestamp. */
  lemma StoreProps<K, V>(s: CacheState<K, V>, cfg: CacheConfiguration, k: K, v: V, expiration: Ticks,
                         size: int, now: Ticks)
    requires Inv(s, cfg) && 1 <= size <= cfg.sizeLimit
    ensures var r := Store(s, k, v, expiration, size, now);
            && Inv(r, cfg)
            && IndexOf(KeysOf(r.items), k).Some?
            && r.items[IndexOf(KeysOf(r.items), k).value] == ItemView(k, v, size, now, expiration)
            && (forall x :: x in r.items && x.key != k ==> x in s.items)
            && r.cancelled == s.cancelled && r.notifications == s.notifications
  {
    match IndexOf(KeysOf(s.items), k)
    case Some(j) =>
      assert KeysOf(s.items)[j] == s.items[j].key;
      RefreshProps(s, cfg, j, v, expiration, size, now);
    case None =>
      AppendProps(s, cfg, k, v, expiration, size, now);
  }

  /** Updating a present key: afterwards exactly one item carries the key, with
      the new value, size, expiration and a fresh timestamp. */
  lemma UpdateProps<K, V>(st: CacheState<K, V>, cfg: CacheConfiguration, k: K, v: V, expiration: Ticks,
                          size: int, now: Ticks)
    requires Inv(st, cfg) && 1 <= size <= cfg.sizeLimit && IndexOf(KeysOf(st.items), k).Some?
    ensures var r := Update(st, cfg, k, v, expiration, size, now);
            && Inv(r, cfg)
            && IndexOf(KeysOf(r.items), k).Some?
            && r.items[IndexOf(KeysOf(r.items), k).value] == ItemView(k, v, size, now, expiration)
            && (forall x :: x in r.items && x.key != k ==> x in st.items)
            && r.cancelled == st.cancelled
            && st.notifications <= r.notifications <= st.notifications + 2
  {
    var i := IndexOf(KeysOf(st.items), k).value;
    var s := MakeRoom(st, cfg, size - st.items[i].size, now);
    MakeRoomProps(st, cfg, size - st.items[i].size, now);
    StoreProps(s, cfg, k, v, expiration, size, now);
  }

  /** AddOrUpdate with a key, a value and an accepted size stores exactly one
      item for the key, holding what was given and stamped with `now`; every
      other item afterwards was already there (the flushes only remove), and
      SizeLimitReached is raised at most twice. */
  lemma AddOrUpdateStores<K, V>(st: CacheState<K, V>, cfg: CacheConfiguration, k: K, v: V, expiration: Ticks,
                                size: int, now: Ticks)
    requires Inv(st, cfg) && !st.cancelled && 1 <= size <= cfg.sizeLimit
    ensures var r := CacheSpec.AddOrUpdate(st, cfg, Some(k), Some(v), expiration, size, now);
            && r.1 == Pass
            && Inv(r.0, cfg)
            && IndexOf(KeysOf(r.0.items), k).Some?
            && r.0.items[IndexOf(KeysOf(r.0.items), k).value] == ItemView(k, v, size, now, expiration)
            && (forall x :: x in r.0.items && x.key != k ==> x in st.items)
            && !r.0.cancelled
            && st.notifications <= r.0.notifications <= st.notifications + 2
  {
    match IndexOf(KeysOf(st.items), k)
    case None =>
      AddFresh(st, cfg, k, v, expiration, size, now);
    case Some(i) =>
      if !st.items[i].IsOutdated(now) {
        UpdateProps(st, cfg, k, v, expiration, size, now);
      } else {
        var s := RemoveItem(st, i);
        assert KeysOf(st.items)[i] == st.items[i].key;
        RemoveItemInv(st, cfg, i);
        RemoveAtMembers(st.items, i);
        AddFresh(s, cfg, k, v, expiration, size, now);
      }
  }

  /** Every AddOrUpdate call keeps the invariant, whatever its arguments. */
  lemma AddOrUpdatePreservesInv<K, V>(st: CacheState<K, V>, cfg: CacheConfiguration, key: Option<K>,
                                      value: Option<V>, expiration: Ticks, size: int, now: Ticks)
    requires Inv(st, cfg)
    ensures Inv(CacheSpec.AddOrUpdate(st, cfg, key, value, expiration, size, now).0, cfg)
  {
    if !st.cancelled && key.Some? && value.Some? && 1 <= size <= cfg.sizeLimit {
      AddOrUpdateStores(st, cfg, key.value, value.value, expiration, size, now);
    }
  }

  /** Reading back what AddOrUpdate stored, at the same instant, yields the
      value, provided the time to live is not negative. */
  lemma GetAfterAddOrUpdate<K, V>(st: CacheState<K, V>, cfg: CacheConfiguration, k: K, v: V, expiration: Ticks,
                                  size: int, now: Ticks, defaultValue: Option<V>)
    requires Inv(st, cfg) && !st.cancelled && 1 <= size <= cfg.sizeLimit && expiration >= 0
    ensures var s := CacheSpec.AddOrUpdate(st, cfg, Some(k), Some(v), expiration, size, now).0;
            CacheSpec.Get(s, Some(k), defaultValue, now) == (s, Success(Some(v)))
  {
    AddOrUpdateStores(st, cfg, k, v, expiration, size, now);
  }

  /** A live item updated without pressure on the limit is refreshed in place:
      same position, CurrentSize changes by new size minus old size, no other
      item moves and SizeLimitReached is not raised. */
  lemma AddOrUpdateRefreshesInPlace<K, V>(st: CacheState<K, V>, cfg: CacheConfiguration, i: nat, v: V,
                                          expiration: Ticks, size: int, now: Ticks)
    requires Inv(st, cfg) && !st.cancelled && 1 <= size <= cfg.sizeLimit
    requires i < |st.items| && !st.items[i].IsOutdated(now)
    requires st.currentSize - st.items[i].size + size < cfg.sizeLimit
    ensures var k := st.items[i].key;
            CacheSpec.AddOrUpdate(st, cfg, Some(k), Some(v), expiration, size, now)
            == (st.(items := st.items[i := ItemView(k, v, size, now, expiration)],
                    currentSize := st.currentSize - st.items[i].size + size), Pass)
  {
    IndexOfUnique(st.items, i);
    MakeRoomProps(st, cfg, size - st.items[i].size, now);
  }

  /** An outdated item is replaced without pressure on the limit: it is removed
      first, and a fresh item for the key goes to the end of the list. */
  lemma AddOrUpdateReplacesOutdated<K, V>(st: CacheState<K, V>, cfg: CacheConfiguration, i: nat, v: V,
                                          expiration: Ticks, size: int, now: Ticks)
    requires Inv(st, cfg) && !st.cancelled && 1 <= size <= cfg.sizeLimit
    requires i < |st.items| && st.items[i].IsOutdated(now)
    requires st.currentSize - st.items[i].size + size < cfg.sizeLimit
    ensures var k := st.items[i].key;
            CacheSpec.AddOrUpdate(st, cfg, Some(k), Some(v), expiration, size, now)
            == (st.(items := RemoveAt(st.items, i) + [ItemView(k, v, size, now, expiration)],
                    currentSize := st.currentSize - st.items[i].size + size), Pass)
  {
    var k := st.items[i].key;
    var s := RemoveItem(st, i);
    IndexOfUnique(st.items, i);
    assert Put(st, cfg, k, v, expiration, size, now) == Add(s, cfg, k, v, expiration, size, now);
    RemoveItemInv(st, cfg, i);
    AddWithoutPressure(s, cfg, k, v, expiration, size, now);
  }

  /** A key that is absent is added at the end of the list; without pressure on
      the limit nothing else changes and CurrentSize grows by the size. */
  lemma AddOrUpdateAppendsAbsent<K, V>(st: CacheState<K, V>, cfg: CacheConfiguration, k: K, v: V,
                                       expiration: Ticks, size: int, now: Ticks)
    requires Inv(st, cfg) && !st.cancelled && 1 <= size <= cfg.sizeLimit
    requires forall i :: 0 <= i < |st.items| ==> st.items[i].key != k
    requires st.currentSize + size < cfg.sizeLimit
    ensures CacheSpec.AddOrUpdate(st, cfg, Some(k), Some(v), expiration, size, now)
            == (st.(items := st.items + [ItemView(k, v, size, now, expiration)],
                    currentSize := st.currentSize + size), Pass)
  {
    KeyInKeysOf(st.items, k);
    MakeRoomProps(st, cfg, size, now);
  }

  /** Adding an absent key when CurrentSize plus the size reaches the limit
      raises SizeLimitReached at least once before the item goes in. */
  lemma AddOrUpdateUnderPressureNotifies<K, V>(st: CacheState<K, V>, cfg: CacheConfiguration, k: K, v: V,
                                               expiration: Ticks, size: int, now: Ticks)
    requires Inv(st, cfg) && !st.cancelled && 1 <= size <= cfg.sizeLimit
    requires forall i :: 0 <= i < |st.items| ==> st.items[i].key != k
    requires st.currentSize + size >= cfg.sizeLimit
    ensures CacheSpec.AddOrUpdate(st, cfg, Some(k), Some(v), expiration, size, now).0.notifications > st.notifications
  {
    KeyInKeysOf(st.items, k);
    MakeRoomProps(st, cfg, size, now);
  }

  /** Get returns the value of a live item and changes nothing; it removes an
      outdated item and returns the default; for an absent key it returns the
      default and changes nothing. The invariant holds afterwards. */
  lemma GetSpec<K, V>(st: CacheState<K, V>, cfg: CacheConfiguration, k: K, defaultValue: Option<V>, now: Ticks)
    requires Inv(st, cfg) && !st.cancelled
    ensures var r := CacheSpec.Get(st, Some(k), defaultValue, now);
            && Inv(r.0, cfg)
            && (forall i :: 0 <= i < |st.items| && st.items[i].key == k && !st.items[i].IsOutdated(now) ==>
                  r == (st, Success(Some(st.items[i].value))))
            && (forall i :: 0 <= i < |st.items| && st.items[i].key == k && st.items[i].IsOutdated(now) ==>
                  r == (RemoveItem(st, i), Success(defaultValue)))
            && ((forall i :: 0 <= i < |st.items| ==> st.items[i].key != k) ==> r == (st, Success(defaultValue)))
  {
    KeyInKeysOf(st.items, k);
    match IndexOf(KeysOf(st.items), k)
    case None =>
    case Some(j) =>
      assert KeysOf(st.items)[j] == st.items[j].key;
      RemoveItemInv(st, cfg, j);
      forall i | 0 <= i < |st.items| && st.items[i].key == k ensures i == j {
        IndexOfUnique(st.items, i);
      }
  }

  /** ContainsKey answers whether a live item carries the key; an outdated match
      is removed, and otherwise nothing changes. The invariant holds afterwards. */
  lemma ContainsKeySpec<K, V>(st: CacheState<K, V>, cfg: CacheConfiguration, k: K, now: Ticks)
    requires Inv(st, cfg) && !st.cancelled
    ensures var r := CacheSpec.ContainsKey(st, Some(k), now);
            && Inv(r.0, cfg)
            && r.1 == Success(exists i :: 0 <= i < |st.items| && st.items[i].key == k && !st.items[i].IsOutdated(now))
            && (forall i :: 0 <= i < |st.items| && st.items[i].key == k && st.items[i].IsOutdated(now) ==>
                  r.0 == RemoveItem(st, i))
            && ((forall i :: 0 <= i < |st.items| && st.items[i].key == k ==> !st.items[i].IsOutdated(now)) ==>
                  r.0 == st)
  {
    KeyInKeysOf(st.items, k);
    match IndexOf(KeysOf(st.items), k)
    case None =>
    case Some(j) =>
      assert KeysOf(st.items)[j] == st.items[j].key;
      RemoveItemInv(st, cfg, j);
      forall i | 0 <= i < |st.items| && st.items[i].key == k ensures i == j {
        IndexOfUnique(st.items, i);
      }
  }

  /** Remove drops exactly the item carrying the key, lowering CurrentSize by
      its size, and leaves every other item where it was; with no such item it
      changes nothing. Afterwards no item carries the key. */
  lemma RemoveSpec<K, V>(st: CacheState<K, V>, cfg: CacheConfiguration, k: K)
    requires Inv(st, cfg) && !st.cancelled
    ensures var r := CacheSpec.Remove(st, Some(k));
            && r.1 == Pass
            && Inv(r.0, cfg)
            && (forall i :: 0 <= i < |st.items| && st.items[i].key == k ==> r.0 == RemoveItem(st, i))
            && ((forall i :: 0 <= i < |st.items| ==> st.items[i].key != k) ==> r.0 == st)
            && (forall i :: 0 <= i < |r.0.items| ==> r.0.items[i].key != k)
  {
    KeyInKeysOf(st.items, k);
    var r := CacheSpec.Remove(st, Some(k));
    match IndexOf(KeysOf(st.items), k)
    case None =>
    case Some(j) =>
      assert KeysOf(st.items)[j] == st.items[j].key;
      RemoveItemInv(st, cfg, j);
      forall i | 0 <= i < |st.items| && st.items[i].key == k ensures i == j {
        IndexOfUnique(st.items, i);
      }
    KeyInKeysOf(r.0.items, k);
  }

  /** Clear and Dispose keep the invariant: the list is empty and so is CurrentSize. */
  lemma RemoveAllInv<K, V>(st: CacheState<K, V>, cfg: CacheConfiguration, ignoreCancellation: bool)
    requires Inv(st, cfg)
    ensures Inv(CacheSpec.RemoveAll(st, ignoreCancellation), cfg)
    ensures Inv(Dispose(st), cfg)
  {}

  /** One sweep pass keeps the invariant and leaves no outdated item; when the
      live items still reach the limit it also evicts the oldest fraction of them. */
  lemma SweepStepSpec<K, V>(st: CacheState<K, V>, cfg: CacheConfiguration, now: Ticks)
    requires Inv(st, cfg) && !st.cancelled
    ensures var r := SweepStep(st, cfg, now);
            var live := FlushOutdated(st, now);
            && Inv(r, cfg)
            && (forall x :: x in r.items ==> x in st.items && !x.IsOutdated(now))
            && (live.currentSize < cfg.sizeLimit ==> r == live)
            && (live.currentSize >= cfg.sizeLimit ==>
                  && |r.items| == |live.items| - RemovalCount(|live.items|, cfg.oldestItemsRemovingPercentage)
                  && r.notifications == st.notifications + 1)
  {
    var live := FlushOutdated(st, now);
    FlushOutdatedInv(st, cfg, now);
    FlushOutdatedMembers(st, now);
    OldestGuardProps(live, cfg, 0);
    if live.currentSize >= cfg.sizeLimit {
      FlushOldestInv(Notify(live), cfg);
    }
  }
}
