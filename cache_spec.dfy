/** The Cache engine as a state machine over values: one pure transition per
    operation, taken atomically at one instant `now`. The Cache class proves
    each of its methods against the matching transition here, and the lemmas
    below state what the transitions promise. */
module CacheSpec {
  import opened Errors
  import opened Configuration
  import opened CacheItems
  import opened ItemLists

  /** The observable state of a Cache: its items in list order, the running
      CurrentSize, whether cancellation was requested, and how many times
      SizeLimitReached was raised. */
  datatype CacheState<K, V> = CacheState(
    items: seq<ItemView<K, V>>,
    currentSize: int,
    cancelled: bool,
    notifications: nat)

  /** The state a freshly constructed cache starts in. */
  function Initial<K, V>(): CacheState<K, V> {
    CacheState([], 0, false, 0)
  }

  /** What every operation keeps: an accepted configuration, at most one item per
      key, every size within [1, SizeLimit], and CurrentSize equal to the sum of
      the sizes of the items actually held. */
  ghost predicate Inv<K, V>(st: CacheState<K, V>, cfg: CacheConfiguration) {
    && ValidConfiguration(cfg)
    && KeysUnique(st.items)
    && (forall i :: 0 <= i < |st.items| ==> 1 <= st.items[i].size <= cfg.sizeLimit)
    && st.currentSize == TotalSize(st.items)
  }

  /** Raising SizeLimitReached. */
  function Notify<K, V>(st: CacheState<K, V>): CacheState<K, V> {
    st.(notifications := st.notifications + 1)
  }

  /** InternalCache.Remove(item) followed by CurrentSize -= item.Size. */
  function RemoveItem<K, V>(st: CacheState<K, V>, i: nat): (r: CacheState<K, V>)
    requires i < |st.items|
    ensures |r.items| == |st.items| - 1
    ensures forall j :: 0 <= j < i ==> r.items[j] == st.items[j]
    ensures forall j :: i <= j < |r.items| ==> r.items[j] == st.items[j + 1]
    ensures r.currentSize == st.currentSize - st.items[i].size
    ensures r.cancelled == st.cancelled && r.notifications == st.notifications
  {
    st.(items := RemoveAt(st.items, i), currentSize := st.currentSize - st.items[i].size)
  }

  /** FlushOutdatedItems, as evidently intended: every outdated item goes, every
      live one stays, in order. */
  function FlushOutdated<K, V>(st: CacheState<K, V>, now: Ticks): (r: CacheState<K, V>)
    ensures r.cancelled == st.cancelled && r.notifications == st.notifications
  {
    st.(items := Live(st.items, now), currentSize := st.currentSize - OutdatedSize(st.items, now))
  }

  /** FlushOldestItems: trunc(Count * percentage) items leave, earliest
      timestamp first, and CurrentSize drops by their sizes. */
  function FlushOldest<K, V>(st: CacheState<K, V>, p: Percentage): (r: CacheState<K, V>)
    requires p.InUnitRange()
    ensures |r.items| == |st.items| - RemovalCount(|st.items|, p)
    ensures r.cancelled == st.cancelled && r.notifications == st.notifications
  {
    var n := RemovalCount(|st.items|, p);
    st.(items := EvictOldest(st.items, n), currentSize := st.currentSize - TotalSize(Evicted(st.items, n)))
  }

  /** The first guard of Add and Update: when CurrentSize plus the growth is at
      or above the limit, raise SizeLimitReached and flush outdated items. */
  function OutdatedGuard<K, V>(st: CacheState<K, V>, cfg: CacheConfiguration, growth: int, now: Ticks): (r: CacheState<K, V>)
    ensures r.cancelled == st.cancelled
    ensures r.notifications == st.notifications + (if st.currentSize + growth >= cfg.sizeLimit then 1 else 0)
    ensures st.currentSize + growth < cfg.sizeLimit ==> r == st
  {
    if st.currentSize + growth >= cfg.sizeLimit then FlushOutdated(Notify(st), now) else st
  }

  /** The second guard of Add and Update, and the tail of a sweep pass (with no
      growth): when CurrentSize plus the growth is at or above the limit, raise
      SizeLimitReached and flush the oldest items. */
  function OldestGuard<K, V>(st: CacheState<K, V>, cfg: CacheConfiguration, growth: int): (r: CacheState<K, V>)
    requires ValidConfiguration(cfg)
    ensures r.cancelled == st.cancelled
    ensures r.notifications == st.notifications + (if st.currentSize + growth >= cfg.sizeLimit then 1 else 0)
    ensures st.currentSize + growth < cfg.sizeLimit ==> r == st
  {
    if st.currentSize + growth >= cfg.sizeLimit then FlushOldest(Notify(st), cfg.oldestItemsRemovingPercentage) else st
  }

  /** The two guarded flushes that Add and Update run before the cache grows by `growth`. */
  function MakeRoom<K, V>(st: CacheState<K, V>, cfg: CacheConfiguration, growth: int, now: Ticks): (r: CacheState<K, V>)
    requires ValidConfiguration(cfg)
    ensures r.cancelled == st.cancelled
    ensures st.notifications <= r.notifications <= st.notifications + 2
    ensures st.currentSize + growth < cfg.sizeLimit ==> r == st
  {
    OldestGuard(OutdatedGuard(st, cfg, growth, now), cfg, growth)
  }

  /** InternalCache.Add of a new item stamped with `now`, then CurrentSize += size. */
  function Append<K, V>(st: CacheState<K, V>, key: K, value: V, expiration: Ticks, size: int, now: Ticks): (r: CacheState<K, V>)
    ensures r.cancelled == st.cancelled && r.notifications == st.notifications
  {
    st.(items := st.items + [ItemView(key, value, size, now, expiration)], currentSize := st.currentSize + size)
  }

  /** The private Add: make room for `size`, then append. */
  function Add<K, V>(st: CacheState<K, V>, cfg: CacheConfiguration, key: K, value: V, expiration: Ticks,
                     size: int, now: Ticks): (r: CacheState<K, V>)
    requires ValidConfiguration(cfg)
    ensures r.cancelled == st.cancelled
    ensures st.notifications <= r.notifications <= st.notifications + 2
  {
    Append(MakeRoom(st, cfg, size, now), key, value, expiration, size, now)
  }

  /** The private Update, as evidently intended: both guards test the net growth
      (new size minus old size); the item is then refreshed in place, or, when
      the oldest-items flush evicted it, added anew. */
  function Update<K(==), V>(st: CacheState<K, V>, cfg: CacheConfiguration, key: K, value: V, expiration: Ticks,
                            size: int, now: Ticks): (r: CacheState<K, V>)
    requires ValidConfiguration(cfg)
    requires IndexOf(KeysOf(st.items), key).Some?
    ensures r.cancelled == st.cancelled
    ensures st.notifications <= r.notifications <= st.notifications + 2
  {
    var i := IndexOf(KeysOf(st.items), key).value;
    Store(MakeRoom(st, cfg, size - st.items[i].size, now), key, value, expiration, size, now)
  }

  /** The Value, Expiration and Size setters on the item at position j, with
      CurrentSize lowered by the old size and raised by the new one. */
  function RefreshAt<K, V>(s: CacheState<K, V>, j: nat, value: V, expiration: Ticks, size: int, now: Ticks)
    : (r: CacheState<K, V>)
    requires j < |s.items|
    ensures |r.items| == |s.items|
    ensures r.items[j] == ItemView(s.items[j].key, value, size, now, expiration)
    ensures r.cancelled == s.cancelled && r.notifications == s.notifications
  {
    s.(items := s.items[j := Refreshed(s.items[j], value, expiration, size, now)],
       currentSize := s.currentSize - s.items[j].size + size)
  }

  /** The last step of Update: refresh the item carrying the key in place
      (Value, Expiration, Size, with CurrentSize adjusted by the difference),
      or append a new one if there is none. */
  function Store<K(==), V>(s: CacheState<K, V>, key: K, value: V, expiration: Ticks, size: int, now: Ticks)
    : (r: CacheState<K, V>)
    ensures key in KeysOf(s.items) ==> |r.items| == |s.items|
    ensures key !in KeysOf(s.items) ==> |r.items| == |s.items| + 1
    ensures r.cancelled == s.cancelled && r.notifications == s.notifications
  {
    match IndexOf(KeysOf(s.items), key)
    case Some(j) => RefreshAt(s, j, value, expiration, size, now)
    case None => Append(s, key, value, expiration, size, now)
  }

  /** AddOrUpdate (both overloads; the one without a time to live passes the
      configured DefaultItemExpiration). A cancelled cache ignores the call; a
      missing key or value, or a size outside [1, SizeLimit], is rejected before
      anything changes. */
  function AddOrUpdate<K(==), V>(st: CacheState<K, V>, cfg: CacheConfiguration, key: Option<K>, value: Option<V>,
                                 expiration: Ticks, size: int, now: Ticks): (r: (CacheState<K, V>, Outcome))
    requires ValidConfiguration(cfg)
    ensures r.1.Fail? <==> !st.cancelled && (key.None? || value.None? || size < 1 || size > cfg.sizeLimit)
    ensures r.1.Fail? ==> r.0 == st
    ensures r.1 == Fail(ArgumentNull) <==> !st.cancelled && (key.None? || value.None?)
    ensures r.1 == Fail(ArgumentOutOfRange) <==>
              !st.cancelled && key.Some? && value.Some? && !(1 <= size <= cfg.sizeLimit)
    ensures st.cancelled ==> r == (st, Pass)
  {
    if st.cancelled then (st, Pass)
    else if key.None? || value.None? then (st, Fail(ArgumentNull))
    else if size < 1 || size > cfg.sizeLimit then (st, Fail(ArgumentOutOfRange))
    else (Put(st, cfg, key.value, value.value, expiration, size, now), Pass)
  }

  /** The part of AddOrUpdate under the write lock: a new key is added, a live
      item is updated, an outdated one is removed and the key added anew. */
  function Put<K(==), V>(st: CacheState<K, V>, cfg: CacheConfiguration, k: K, v: V, expiration: Ticks, size: int,
                         now: Ticks): (r: CacheState<K, V>)
    requires ValidConfiguration(cfg)
    ensures r.cancelled == st.cancelled
    ensures st.notifications <= r.notifications <= st.notifications + 2
  {
    match IndexOf(KeysOf(st.items), k)
    case None => Add(st, cfg, k, v, expiration, size, now)
    case Some(i) =>
      if !st.items[i].IsOutdated(now) then Update(st, cfg, k, v, expiration, size, now)
      else Add(RemoveItem(st, i), cfg, k, v, expiration, size, now)
  }

  /** ContainsKey: true for a live item; an outdated match is removed on the way. */
  function ContainsKey<K(==), V>(st: CacheState<K, V>, key: Option<K>, now: Ticks): (r: (CacheState<K, V>, Result<bool>))
    ensures r.1.Failure? <==> !st.cancelled && key.None?
    ensures r.1.Failure? ==> r.1.error == ArgumentNull && r.0 == st
    ensures st.cancelled ==> r == (st, Success(false))
  {
    if st.cancelled then (st, Success(false))
    else if key.None? then (st, Failure(ArgumentNull))
    else
      match IndexOf(KeysOf(st.items), key.value)
      case None => (st, Success(false))
      case Some(i) =>
        if !st.items[i].IsOutdated(now) then (st, Success(true))
        else (RemoveItem(st, i), Success(false))
  }

  /** Get: the stored value of a live item, otherwise the caller's default; an
      outdated match is removed on the way. */
  function Get<K(==), V>(st: CacheState<K, V>, key: Option<K>, defaultValue: Option<V>, now: Ticks)
    : (r: (CacheState<K, V>, Result<Option<V>>))
    ensures r.1.Failure? <==> !st.cancelled && key.None?
    ensures r.1.Failure? ==> r.1.error == ArgumentNull && r.0 == st
    ensures st.cancelled ==> r == (st, Success(defaultValue))
  {
    if st.cancelled then (st, Success(defaultValue))
    else if key.None? then (st, Failure(ArgumentNull))
    else
      match IndexOf(KeysOf(st.items), key.value)
      case None => (st, Success(defaultValue))
      case Some(i) =>
        if st.items[i].IsOutdated(now) then (RemoveItem(st, i), Success(defaultValue))
        else (st, Success(Some(st.items[i].value)))
  }

  /** Remove: drops the item with the key, if there is one. */
  function Remove<K(==), V>(st: CacheState<K, V>, key: Option<K>): (r: (CacheState<K, V>, Outcome))
    ensures r.1.Fail? <==> !st.cancelled && key.None?
    ensures r.1.Fail? ==> r.1.error == ArgumentNull && r.0 == st
    ensures st.cancelled ==> r == (st, Pass)
  {
    if st.cancelled then (st, Pass)
    else if key.None? then (st, Fail(ArgumentNull))
    else
      match IndexOf(KeysOf(st.items), key.value)
      case None => (st, Pass)
      case Some(i) => (RemoveItem(st, i), Pass)
  }

  /** The private RemoveAll, as evidently intended: the list is emptied and
      CurrentSize goes back to zero, unless the cache is cancelled and the
      caller does not override that. */
  function RemoveAll<K, V>(st: CacheState<K, V>, ignoreCancellation: bool): (r: CacheState<K, V>)
    ensures st.cancelled && !ignoreCancellation ==> r == st
    ensures !st.cancelled || ignoreCancellation ==> r.items == [] && r.currentSize == 0
    ensures r.cancelled == st.cancelled && r.notifications == st.notifications
  {
    if st.cancelled && !ignoreCancellation then st
    else st.(items := [], currentSize := 0)
  }

  /** Clear is RemoveAll without the override. */
  function Clear<K, V>(st: CacheState<K, V>): (r: CacheState<K, V>)
    ensures st.cancelled ==> r == st
    ensures !st.cancelled ==> r.items == [] && r.currentSize == 0 && r.notifications == st.notifications
  {
    RemoveAll(st, false)
  }

  /** Dispose: request cancellation, then empty the cache regardless of it. */
  function Dispose<K, V>(st: CacheState<K, V>): (r: CacheState<K, V>)
    ensures r.cancelled && r.items == [] && r.currentSize == 0
    ensures r.notifications == st.notifications
  {
    RemoveAll(st.(cancelled := true), true)
  }

  /** One pass of the background sweep: flush outdated items, then, if the cache
      is still at or above its limit, raise SizeLimitReached and flush the oldest
      items. Once cancelled, a pass changes nothing. */
  function SweepStep<K, V>(st: CacheState<K, V>, cfg: CacheConfiguration, now: Ticks): (r: CacheState<K, V>)
    requires ValidConfiguration(cfg)
    ensures st.cancelled ==> r == st
  {
    if st.cancelled then st
    else OldestGuard(FlushOutdated(st, now), cfg, 0)
  }
}
